/** The seeding script: the ten categories it creates, the map from category name to id it
    builds from the created records, and the keyword rule that gives each sample product its
    categories, with one arbitrary category for a product that matches no keyword. */
module Seeder {
  import opened Text
  import opened ProductModel

  /** The names of the seeded categories, in the order they are created. */
  const CategoryNames: seq<string> := [
    "Electronics", "Clothing", "Books", "Home & Kitchen", "Toys & Games",
    "Sports", "Beauty & Health", "Automotive", "Office Supplies", "Food & Beverages"]

  /** A keyword rule: the category it assigns, and the words whose presence in a product
      name assigns it. The match is case-sensitive. */
  datatype Rule = Rule(category: string, keywords: seq<string>)

  /** The script's ten rules, one `if` block each, in the order the blocks are written. */
  const Rules: seq<Rule> := [
    Rule("Electronics", ["iPhone", "Galaxy", "PlayStation", "Laptop", "Watch", "Nintendo", "Keyboard", "Scanner"]),
    Rule("Clothing", ["Nike", "Jeans", "T-Shirt", "Jacket", "Blazer"]),
    Rule("Books", ["Harry Potter", "Mockingbird", "Alchemist", "Habits", "1984", "Notebook"]),
    Rule("Home & Kitchen", ["Kitchen", "Air Fryer", "Vacuum", "Dutch Oven", "Coffee Machine"]),
    Rule("Toys & Games", ["LEGO", "Nintendo", "Monopoly", "Barbie", "Hot Wheels"]),
    Rule("Sports", ["Nike", "Basketball", "Yoga", "Fitbit", "Camping", "Golf"]),
    Rule("Beauty & Health", ["Dyson Air", "SK-II", "Toothbrush", "Massage", "Bathroom Scale"]),
    Rule("Automotive", ["Car", "OBD2", "Seat", "Jump Starter", "Wax"]),
    Rule("Office Supplies", ["Keyboard", "Desk", "Notebook", "Scanner", "Chair"]),
    Rule("Food & Beverages", ["Coffee", "Chocolate", "Tea", "Olive Oil", "Vinegar"])]

  /** The rules name the seeded categories, in the order they are created. */
  lemma RulesFollowCategories()
    ensures |Rules| == |CategoryNames|
    ensures forall k :: 0 <= k < |Rules| ==> Rules[k].category == CategoryNames[k]
  {
  }

  /** A sample product of the script, before it is given categories. */
  datatype Sample = Sample(name: string, description: string, quantity: int)

  /** A sample product with its categories, as handed to `insertMany`. */
  datatype Seeded = Seeded(name: string, description: string, quantity: int, categories: seq<Id>)

  // ----- The category map -----

  /** `categoryMap` after `created.forEach(cat => categoryMap[cat.name] = cat._id)`: a later
      category overwrites an earlier one of the same name. */
  function CategoryMapOf(created: seq<Category>): (m: map<string, Id>)
    ensures m.Keys == set i | 0 <= i < |created| :: created[i].name
  {
    if created == [] then map[]
    else
      var last := created[|created| - 1];
      var m0 := CategoryMapOf(created[..|created| - 1]);
      assert forall i :: 0 <= i < |created| - 1 ==> created[..|created| - 1][i] == created[i];
      m0[last.name := last.id]
  }

  /** The `forEach` loop that fills `categoryMap`. */
  method BuildCategoryMap(created: seq<Category>) returns (categoryMap: map<string, Id>)
    ensures categoryMap == CategoryMapOf(created)
  {
    categoryMap := map[];
    for i := 0 to |created|
      invariant categoryMap == CategoryMapOf(created[..i])
    {
      assert created[..i + 1][..i] == created[..i];
      categoryMap := categoryMap[created[i].name := created[i].id];
    }
    assert created[..|created|] == created;
  }

  /** A category whose name no later category repeats is mapped to its own id. */
  lemma {:induction false} MapsToLastId(created: seq<Category>, i: nat)
    requires i < |created|
    requires forall j :: i < j < |created| ==> created[j].name != created[i].name
    ensures CategoryMapOf(created)[created[i].name] == created[i].id
    decreases |created|
  {
    var init := created[..|created| - 1];
    if i < |created| - 1 {
      MapsToLastId(init, i);
      assert init[i] == created[i];
    }
  }

  /** With names all different, every created category is mapped to its own id. */
  lemma DistinctNamesMapped(created: seq<Category>)
    requires forall i, j :: 0 <= i < j < |created| ==> created[i].name != created[j].name
    ensures forall i :: 0 <= i < |created| ==> CategoryMapOf(created)[created[i].name] == created[i].id
  {
    forall i | 0 <= i < |created|
      ensures CategoryMapOf(created)[created[i].name] == created[i].id
    {
      MapsToLastId(created, i);
    }
  }

  // ----- Assigning categories -----

  /** One `if` condition: the name contains one of the rule's keywords. */
  predicate MatchesRule(name: string, rule: Rule) {
    exists j :: 0 <= j < |rule.keywords| && Contains(name, rule.keywords[j])
  }

  /** The positions, among the first `n` rules, of those the name matches, in increasing
      order. */
  function MatchedUpTo(name: string, rules: seq<Rule>, n: nat): (r: seq<nat>)
    requires n <= |rules|
    ensures forall i :: 0 <= i < |r| ==> r[i] < n
    ensures forall i, j :: 0 <= i < j < |r| ==> r[i] < r[j]
  {
    if n == 0 then []
    else MatchedUpTo(name, rules, n - 1) + (if MatchesRule(name, rules[n - 1]) then [n - 1] else [])
  }

  /** A position below `n` is listed exactly when the name matches its rule. */
  lemma {:induction false} MatchedUpToIff(name: string, rules: seq<Rule>, n: nat)
    requires n <= |rules|
    ensures forall k :: 0 <= k < n ==> (k in MatchedUpTo(name, rules, n) <==> MatchesRule(name, rules[k]))
  {
    if n > 0 {
      MatchedUpToIff(name, rules, n - 1);
    }
  }

  /** The positions of every rule the name matches. */
  function Matched(name: string, rules: seq<Rule>): seq<nat> {
    MatchedUpTo(name, rules, |rules|)
  }

  /** Whether the category map has an entry for the category of every rule. */
  predicate CoversRules(categoryMap: map<string, Id>, rules: seq<Rule>) {
    forall k :: 0 <= k < |rules| ==> rules[k].category in categoryMap
  }

  /** When the created categories carry `names` in order and the rules name the same
      categories, the map has the category of every rule and every one of the names. */
  lemma MapCoversNames(created: seq<Category>, names: seq<string>, rules: seq<Rule>)
    requires |created| == |names| && |rules| == |names|
    requires forall i :: 0 <= i < |created| ==> created[i].name == names[i]
    requires forall k :: 0 <= k < |rules| ==> rules[k].category == names[k]
    ensures CoversRules(CategoryMapOf(created), rules)
    ensures forall f :: f in names ==> f in CategoryMapOf(created)
  {
    NamesMapped(created);
  }

  /** Every created name is a key of the map. */
  lemma NamesMapped(created: seq<Category>)
    ensures forall k :: 0 <= k < |created| ==> created[k].name in CategoryMapOf(created)
  {
  }

  /** The seeder's own map: the created categories carry the ten seeded names in order, so
      the map has the category of every rule and every name a fallback is drawn from. */
  lemma SeedMapCovers(created: seq<Category>)
    requires |created| == |CategoryNames|
    requires forall i :: 0 <= i < |created| ==> created[i].name == CategoryNames[i]
    ensures CoversRules(CategoryMapOf(created), Rules)
    ensures forall f :: f in CategoryNames ==> f in CategoryMapOf(created)
  {
    RulesFollowCategories();
    MapCoversNames(created, CategoryNames, Rules);
  }

  /** `categoryMap[category]` for the rules at the positions `ks`. */
  function IdsAt(ks: seq<nat>, rules: seq<Rule>, categoryMap: map<string, Id>): (r: seq<Id>)
    requires CoversRules(categoryMap, rules)
    requires forall i :: 0 <= i < |ks| ==> ks[i] < |rules|
    ensures |r| == |ks|
    ensures forall i :: 0 <= i < |ks| ==> r[i] == categoryMap[rules[ks[i]].category]
  {
    if ks == [] then [] else IdsAt(ks[..|ks| - 1], rules, categoryMap) + [categoryMap[rules[ks[|ks| - 1]].category]]
  }

  lemma IdsAtSnoc(ks: seq<nat>, k: nat, rules: seq<Rule>, categoryMap: map<string, Id>)
    requires CoversRules(categoryMap, rules)
    requires k < |rules| && forall i :: 0 <= i < |ks| ==> ks[i] < |rules|
    ensures IdsAt(ks + [k], rules, categoryMap) == IdsAt(ks, rules, categoryMap) + [categoryMap[rules[k].category]]
  {
    assert (ks + [k])[..|ks|] == ks;
  }

  /** The categories a product named `name` receives: those of the matched rules, or when
      none matches, the single category named `fallback` (the script's random one). */
  function Assigned(name: string, rules: seq<Rule>, categoryMap: map<string, Id>, fallback: string): seq<Id>
    requires CoversRules(categoryMap, rules) && fallback in categoryMap
  {
    var matched := Matched(name, rules);
    if matched == [] then [categoryMap[fallback]] else IdsAt(matched, rules, categoryMap)
  }

  /** The `if` blocks of the `products.map` callback, one per rule in order, each pushing
      its category's id when the name matches. */
  method PushMatched(name: string, rules: seq<Rule>, categoryMap: map<string, Id>) returns (ids: seq<Id>)
    requires CoversRules(categoryMap, rules)
    ensures ids == IdsAt(Matched(name, rules), rules, categoryMap)
  {
    ids := [];
    for k := 0 to |rules|
      invariant ids == IdsAt(MatchedUpTo(name, rules, k), rules, categoryMap)
    {
      if MatchesRule(name, rules[k]) {
        assert MatchedUpTo(name, rules, k + 1) == MatchedUpTo(name, rules, k) + [k];
        IdsAtSnoc(MatchedUpTo(name, rules, k), k, rules, categoryMap);
        ids := ids + [categoryMap[rules[k].category]];
      } else {
        assert MatchedUpTo(name, rules, k + 1) == MatchedUpTo(name, rules, k);
      }
    }
  }

  /** The whole callback: the rule blocks, then the fallback push when nothing matched.
      `fallback` is the name of `categories[Math.floor(Math.random() * 10)]`. */
  method AssignCategories(name: string, rules: seq<Rule>, categoryMap: map<string, Id>, fallback: string)
    returns (ids: seq<Id>)
    requires CoversRules(categoryMap, rules) && fallback in categoryMap
    ensures ids == Assigned(name, rules, categoryMap, fallback)
  {
    ids := PushMatched(name, rules, categoryMap);
    if |ids| == 0 {
      ids := ids + [categoryMap[fallback]];
    }
  }

  /** Every product receives at least one category; with no rule matched it receives
      exactly the fallback one. */
  lemma NeverEmpty(name: string, rules: seq<Rule>, categoryMap: map<string, Id>, fallback: string)
    requires CoversRules(categoryMap, rules) && fallback in categoryMap
    ensures |Assigned(name, rules, categoryMap, fallback)| >= 1
    ensures Matched(name, rules) == [] ==> Assigned(name, rules, categoryMap, fallback) == [categoryMap[fallback]]
  {
  }

  /** When some rule matches, the product receives, in rule order and each rule once, the
      categories of the rules its name matches, and no others. */
  lemma AssignedByKeywords(name: string, rules: seq<Rule>, categoryMap: map<string, Id>, fallback: string)
    requires CoversRules(categoryMap, rules) && fallback in categoryMap
    requires Matched(name, rules) != []
    ensures var ks := Matched(name, rules);
      && Assigned(name, rules, categoryMap, fallback) == IdsAt(ks, rules, categoryMap)
      && (forall i, j :: 0 <= i < j < |ks| ==> ks[i] < ks[j])
      && (forall k :: 0 <= k < |rules| ==> (k in ks <==> MatchesRule(name, rules[k])))
  {
    MatchedUpToIff(name, rules, |rules|);
  }

  // ----- Examples -----

  /** A name contains the word it starts with. */
  lemma StartsWithWord(name: string, word: string)
    requires |word| <= |name| && name[..|word|] == word
    ensures Contains(name, word)
  {
    assert OccursAt(name, word, 0);
  }

  /** "Nike Air Max" gets both Clothing and Sports. */
  lemma NikeAirMax()
    ensures 1 in Matched("Nike Air Max", Rules) && 5 in Matched("Nike Air Max", Rules)
    ensures Rules[1].category == "Clothing" && Rules[5].category == "Sports"
  {
    StartsWithWord("Nike Air Max", "Nike");
    MatchedUpToIff("Nike Air Max", Rules, |Rules|);
    assert Rules[1].keywords[0] == "Nike" && Rules[5].keywords[0] == "Nike";
    assert MatchesRule("Nike Air Max", Rules[1]);
    assert MatchesRule("Nike Air Max", Rules[5]);
  }

  /** "Nintendo Switch" gets both Electronics and Toys & Games. */
  lemma NintendoSwitch()
    ensures 0 in Matched("Nintendo Switch", Rules) && 4 in Matched("Nintendo Switch", Rules)
    ensures Rules[0].category == "Electronics" && Rules[4].category == "Toys & Games"
  {
    StartsWithWord("Nintendo Switch", "Nintendo");
    MatchedUpToIff("Nintendo Switch", Rules, |Rules|);
    assert Rules[0].keywords[5] == "Nintendo" && Rules[4].keywords[1] == "Nintendo";
  }

  // ----- The seeded products -----

  /** `products.map(product => ({ ...product, categories: assignedCategories }))`, with
      `fallbacks[i]` the category drawn at random for the `i`-th product. */
  function WithCategories(products: seq<Sample>, rules: seq<Rule>, categoryMap: map<string, Id>,
                          fallbacks: seq<string>): (r: seq<Seeded>)
    requires CoversRules(categoryMap, rules)
    requires |fallbacks| == |products| && forall i :: 0 <= i < |fallbacks| ==> fallbacks[i] in categoryMap
    ensures |r| == |products|
    ensures forall i :: 0 <= i < |r| ==>
      && r[i].name == products[i].name
      && r[i].description == products[i].description
      && r[i].quantity == products[i].quantity
      && r[i].categories == Assigned(products[i].name, rules, categoryMap, fallbacks[i])
  {
    seq(|products|, i requires 0 <= i < |products| =>
      Seeded(products[i].name, products[i].description, products[i].quantity,
             Assigned(products[i].name, rules, categoryMap, fallbacks[i])))
  }

  /** When the map comes from the created categories, every id given to a product is the id
      of a created category, so it refers to an existing category. */
  lemma SeededIdsExist(created: seq<Category>, products: seq<Sample>, rules: seq<Rule>, fallbacks: seq<string>)
    requires CoversRules(CategoryMapOf(created), rules)
    requires |fallbacks| == |products| && forall i :: 0 <= i < |fallbacks| ==> fallbacks[i] in CategoryMapOf(created)
    ensures var r := WithCategories(products, rules, CategoryMapOf(created), fallbacks);
      forall i, id :: 0 <= i < |r| && id in r[i].categories ==>
        exists c :: 0 <= c < |created| && created[c].id == id
  {
    var r := WithCategories(products, rules, CategoryMapOf(created), fallbacks);
    forall i, id | 0 <= i < |r| && id in r[i].categories
      ensures exists c :: 0 <= c < |created| && created[c].id == id
    {
      AssignedIdsExist(created, products[i].name, rules, fallbacks[i]);
    }
  }

  /** The ids assigned to one product are ids of created categories. */
  lemma {:induction false} AssignedIdsExist(created: seq<Category>, name: string, rules: seq<Rule>, fallback: string)
    requires CoversRules(CategoryMapOf(created), rules) && fallback in CategoryMapOf(created)
    ensures forall id :: id in Assigned(name, rules, CategoryMapOf(created), fallback) ==>
      exists c :: 0 <= c < |created| && created[c].id == id
  {
    var m := CategoryMapOf(created);
    var ids := Assigned(name, rules, m, fallback);
    var matched := Matched(name, rules);
    if matched == [] {
      MappedIdExists(created, fallback);
    } else {
      forall p | 0 <= p < |ids|
        ensures exists c :: 0 <= c < |created| && created[c].id == ids[p]
      {
        MappedIdExists(created, rules[matched[p]].category);
      }
    }
  }

  /** Every value of the map is the id of a category with that name. */
  lemma {:induction false} MappedIdExists(created: seq<Category>, name: string)
    requires name in CategoryMapOf(created)
    ensures exists c :: 0 <= c < |created| && created[c].name == name && created[c].id == CategoryMapOf(created)[name]
    decreases |created|
  {
    var init := created[..|created| - 1];
    var last := created[|created| - 1];
    if name != last.name {
      MappedIdExists(init, name);
      var c :| 0 <= c < |init| && init[c].name == name && init[c].id == CategoryMapOf(init)[name];
      assert created[c] == init[c];
    }
  }
}
