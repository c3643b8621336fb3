/** The Product and Category records and the Product schema's own rules: `name` and
    `description` required and trimmed, `quantity` a number defaulting to 0 with no lower
    bound, `categories` a list of Category references of any length, and timestamps set
    when the record is created. */
module ProductModel {
  import opened Text

  /** An ObjectId, in its string form. */
  type Id = string

  datatype Category = Category(id: Id, name: string)

  datatype Product = Product(
    id: Id,
    name: string,
    description: string,
    quantity: int,
    categories: seq<Id>,
    createdAt: int,
    updatedAt: int)

  /** `quantity` as the schema receives it: absent, a value that casts to a number,
      or one that does not (a non-numeric string, or null, which `required` refuses). */
  datatype QuantityValue = Undefined | Castable(n: int) | Uncastable

  /** What the schema guarantees of every stored product. No operation updates a product,
      so its two timestamps stay equal. */
  predicate WellFormed(p: Product) {
    && p.name != [] && Trimmed(p.name)
    && p.description != [] && Trimmed(p.description)
    && p.updatedAt == p.createdAt
  }

  /** The document the schema builds from the fields handed to `Product.create`, or `None`
      when validation fails: the strings are trimmed first, so a blank name or description
      fails `required`; an absent quantity takes the default 0. */
  function Cast(id: Id, name: string, description: string, quantity: QuantityValue,
                categories: seq<Id>, now: int): (r: Option<Product>)
    ensures r.Some? <==> Trim(name) != [] && Trim(description) != [] && !quantity.Uncastable?
    ensures r.Some? ==> WellFormed(r.value)
    ensures r.Some? ==> && r.value.id == id
                        && r.value.name == Trim(name)
                        && r.value.description == Trim(description)
                        && r.value.quantity == (if quantity.Castable? then quantity.n else 0)
                        && r.value.categories == categories
                        && r.value.createdAt == now
  {
    TrimIsTrimmed(name);
    TrimIsTrimmed(description);
    var n := Trim(name);
    var d := Trim(description);
    if n == [] || d == [] || quantity.Uncastable? then None
    else Some(Product(id, n, d, if quantity.Castable? then quantity.n else 0, categories, now, now))
  }

  /** The schema puts no lower bound on `quantity` and no minimum on `categories`. */
  lemma NoQuantityBound(id: Id, now: int)
    ensures Cast(id, "Widget", "A widget", Castable(-5), [], now).Some?
  {
  }

  /** The first category whose id is `id`, as `findById` returns it. */
  function FindCategory(known: seq<Category>, id: Id): (r: Option<Category>)
    ensures r.Some? <==> exists k :: 0 <= k < |known| && known[k].id == id
    ensures r.Some? ==> r.value.id == id && r.value in known
  {
    if known == [] then None
    else if known[0].id == id then Some(known[0])
    else FindCategory(known[1..], id)
  }

  /** `populate('categories', 'name')`: each reference replaced by its category, in order;
      references that resolve to nothing are dropped. */
  function Populate(ids: seq<Id>, known: seq<Category>): (r: seq<Category>)
    ensures |r| <= |ids|
    ensures forall k :: 0 <= k < |r| ==> r[k] in known
    ensures (forall k :: 0 <= k < |ids| ==> FindCategory(known, ids[k]).Some?) ==>
              |r| == |ids| && forall k :: 0 <= k < |ids| ==> r[k].id == ids[k]
  {
    if ids == [] then []
    else
      var rest := Populate(ids[1..], known);
      match FindCategory(known, ids[0])
      case Some(c) => [c] + rest
      case None => rest
  }
}
