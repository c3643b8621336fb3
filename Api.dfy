/** The client's `getProducts` request: the URL it builds from the page, the limit, the search
    text and the selected categories, and what the server's query-string parser reads back
    from that URL. */
module Api {
  import opened Text
  import opened Uri
  import Listing
  import Pagination

  /** An option of the category selector: what it shows and the category id it stands for. */
  datatype SelectOption = SelectOption(display: string, value: string)

  /** `options.map(c => c.value)`. */
  function Values(options: seq<SelectOption>): (r: seq<string>)
    ensures |r| == |options|
    ensures forall i :: 0 <= i < |r| ==> r[i] == options[i].value
  {
    if options == [] then [] else [options[0].value] + Values(options[1..])
  }

  /** A `key=value` pair of a query string, with the value as it stands. */
  datatype Param = Param(key: string, value: string)

  const DefaultPage := 1
  const DefaultLimit := 10

  /** The parameters of the request, in the order they are written: page and limit always,
      the encoded search text when there is one, the comma-joined category ids when any are
      selected. */
  function Params(page: int, limit: int, search: string, categories: seq<SelectOption>): seq<Param> {
    [Param("page", IntToString(page)), Param("limit", IntToString(limit))]
    + (if search != "" then [Param("search", EncodeURIComponent(search))] else [])
    + (if |categories| > 0 then [Param("categories", Join(Values(categories), ','))] else [])
  }

  function Field(p: Param): string {
    p.key + "=" + p.value
  }

  function Fields(ps: seq<Param>): (r: seq<string>)
    ensures |r| == |ps|
    ensures forall i :: 0 <= i < |r| ==> r[i] == Field(ps[i])
  {
    if ps == [] then [] else [Field(ps[0])] + Fields(ps[1..])
  }

  /** The request URL: the path, `?`, and the parameters joined by `&`. */
  function Url(page: int, limit: int, search: string, categories: seq<SelectOption>): string {
    "/products?" + Join(Fields(Params(page, limit, search, categories)), '&')
  }

  function ValueOr(x: Option<int>, fallback: int): int {
    if x.Some? then x.value else fallback
  }

  /** `getProducts(page = 1, limit = 10, search = '', categories = [])`, up to the request it
      sends: the URL grows by `+=` as each optional parameter is added. */
  method ProductsUrl(page: Option<int>, limit: Option<int>, search: string, categories: seq<SelectOption>)
    returns (url: string)
    ensures url == Url(ValueOr(page, DefaultPage), ValueOr(limit, DefaultLimit), search, categories)
  {
    var p := if page.Some? then page.value else DefaultPage;
    var l := if limit.Some? then limit.value else DefaultLimit;
    url := "/products?page=" + IntToString(p) + "&limit=" + IntToString(l);
    ghost var base := [Param("page", IntToString(p)), Param("limit", IntToString(l))];
    ghost var searchPart: seq<Param> := [];
    ghost var categoriesPart: seq<Param> := [];
    UrlStart(IntToString(p), IntToString(l));
    if search != "" {
      var encoded := EncodeURIComponent(search);
      searchPart := [Param("search", encoded)];
      SearchPiece();
      Appended(url, base, "search", encoded);
      url := url + "&search=" + encoded;
    } else {
      assert base + searchPart == base;
    }
    assert url == "/products?" + Join(Fields(base + searchPart), '&');
    if |categories| > 0 {
      var categoryIds := Join(Values(categories), ',');
      categoriesPart := [Param("categories", categoryIds)];
      CategoriesPiece();
      Appended(url, base + searchPart, "categories", categoryIds);
      url := url + "&categories=" + categoryIds;
    } else {
      assert base + searchPart + categoriesPart == base + searchPart;
    }
    assert url == "/products?" + Join(Fields(base + searchPart + categoriesPart), '&');
    assert Params(p, l, search, categories) == base + searchPart + categoriesPart;
  }

  /** `url += `&key=value`` on a URL that holds `ps` gives the URL that holds one more. */
  lemma Appended(url: string, ps: seq<Param>, key: string, value: string)
    requires |ps| >= 1 && url == "/products?" + Join(Fields(ps), '&')
    ensures url + ("&" + key + "=") + value == "/products?" + Join(Fields(ps + [Param(key, value)]), '&')
  {
    UrlGrows(ps, key, value);
  }

  lemma SearchPiece()
    ensures "&search=" == "&" + "search" + "="
  {
  }

  lemma CategoriesPiece()
    ensures "&categories=" == "&" + "categories" + "="
  {
  }

  lemma FieldsSnoc(ps: seq<Param>, p: Param)
    ensures Fields(ps + [p]) == Fields(ps) + [Field(p)]
  {
  }

  lemma Regroup(pre: string, j: string, key: string, value: string)
    ensures pre + j + ("&" + key + "=") + value == pre + (j + ['&'] + (key + "=" + value))
  {
  }

  /** The first two parameters, written as the template literal writes them. */
  lemma UrlStart(page: string, limit: string)
    ensures "/products?page=" + page + "&limit=" + limit
         == "/products?" + Join(Fields([Param("page", page), Param("limit", limit)]), '&')
  {
    FieldsSnoc([Param("page", page)], Param("limit", limit));
    assert [Param("page", page)] + [Param("limit", limit)] == [Param("page", page), Param("limit", limit)];
    JoinSnoc(Fields([Param("page", page)]), Field(Param("limit", limit)), '&');
  }

  /** `url += `&key=value`` adds one parameter to the joined list. */
  lemma UrlGrows(ps: seq<Param>, key: string, value: string)
    requires |ps| >= 1
    ensures "/products?" + Join(Fields(ps), '&') + ("&" + key + "=") + value
         == "/products?" + Join(Fields(ps + [Param(key, value)]), '&')
  {
    FieldsSnoc(ps, Param(key, value));
    JoinSnoc(Fields(ps), Field(Param(key, value)), '&');
    Regroup("/products?", Join(Fields(ps), '&'), key, value);
  }

  /** Appending one more part to a non-empty join adds the separator and the part. */
  lemma {:induction false} JoinSnoc(xs: seq<string>, x: string, sep: char)
    requires |xs| >= 1
    ensures Join(xs + [x], sep) == Join(xs, sep) + [sep] + x
  {
    if |xs| == 1 {
      assert (xs + [x])[1..] == [x];
    } else {
      JoinSnoc(xs[1..], x, sep);
      assert (xs + [x])[1..] == xs[1..] + [x];
    }
  }

  // ----- What the server reads back -----

  /** The query part of a request URL: everything after the first `?`. */
  function QueryOf(url: string): string {
    Join(Split(url, '?')[1..], '?')
  }

  /** `]=` starts at position `i` of `s`. */
  predicate BracketEqualsAt(s: string, i: int) {
    0 <= i && i + 1 < |s| && s[i] == ']' && s[i + 1] == '='
  }

  /** The position of the first `]=` in `s`, if there is one. */
  function FirstBracketEquals(s: string): (r: Option<nat>)
    ensures r.Some? ==> BracketEqualsAt(s, r.value) && forall i :: 0 <= i < r.value ==> !BracketEqualsAt(s, i)
    ensures r.None? ==> forall i :: 0 <= i < |s| ==> !BracketEqualsAt(s, i)
  {
    if |s| < 2 then None
    else if s[0] == ']' && s[1] == '=' then Some(0)
    else
      match FirstBracketEquals(s[1..])
      case None =>
        assert forall i :: 1 <= i < |s| ==> (BracketEqualsAt(s, i) <==> BracketEqualsAt(s[1..], i - 1));
        None
      case Some(j) =>
        assert forall i :: 1 <= i < |s| ==> (BracketEqualsAt(s, i) <==> BracketEqualsAt(s[1..], i - 1));
        Some(j + 1)
  }

  /** One `key=value` field as the query-string parser reads it. A field with a `]=` is split
      at the `=` of its first `]=`; any other field at its first `=` (a field without one has
      the empty value). Each side is then decoded. */
  function ParseField(field: string): Param {
    match FirstBracketEquals(field)
    case Some(b) => Param(QueryDecode(field[..b + 1]), QueryDecode(field[b + 2..]))
    case None =>
      var parts := Split(field, '=');
      Param(QueryDecode(parts[0]), QueryDecode(Join(parts[1..], '=')))
  }

  /** The query string split on `&` into fields, in order. */
  function ParseQuery(query: string): (r: seq<Param>)
    ensures |r| == |Split(query, '&')|
    ensures forall i :: 0 <= i < |r| ==> r[i] == ParseField(Split(query, '&')[i])
  {
    var fields := Split(query, '&');
    seq(|fields|, i requires 0 <= i < |fields| => ParseField(fields[i]))
  }

  /** The value of the first parameter named `key`. */
  function Lookup(ps: seq<Param>, key: string): (r: Option<string>)
    ensures r.None? <==> forall i :: 0 <= i < |ps| ==> ps[i].key != key
  {
    if ps == [] then None
    else if ps[0].key == key then Some(ps[0].value)
    else Lookup(ps[1..], key)
  }

  /** The parsed parameters as the listing handler receives them in `req.query`. */
  function ToListQuery(ps: seq<Param>): Listing.ListQuery {
    Listing.ListQuery(
      Lookup(ps, "page"),
      Lookup(ps, "limit"),
      Lookup(ps, "search"),
      match Lookup(ps, "categories")
      case None => Listing.Absent
      case Some(v) => Listing.One(v))
  }

  /** A category id that travels in the URL unchanged: not empty, without the characters
      the query string gives a meaning to (`&`, `,`, `%`, `+`), without `]`, since a `]=`
      would end the key there, and without `#`, which would start the URL's fragment and cut
      the query short. */
  predicate PlainId(id: string) {
    id != [] && '&' !in id && ',' !in id && '%' !in id && '+' !in id && ']' !in id && '#' !in id
  }

  /** The parameters as the server decodes them: the search text and the ids as given. */
  function Decoded(page: int, limit: int, search: string, categories: seq<SelectOption>): seq<Param> {
    [Param("page", IntToString(page)), Param("limit", IntToString(limit))]
    + (if search != "" then [Param("search", search)] else [])
    + (if |categories| > 0 then [Param("categories", Join(Values(categories), ','))] else [])
  }

  // ----- Properties of the request -----

  /** A character that none of the parts has, other than the separator, is not in their join. */
  lemma {:induction false} JoinAvoids(xs: seq<string>, sep: char, c: char)
    requires c != sep
    requires forall k :: 0 <= k < |xs| ==> c !in xs[k]
    ensures c !in Join(xs, sep)
  {
    if |xs| > 1 {
      JoinAvoids(xs[1..], sep, c);
    }
  }

  /** A key the query string carries unchanged: no `&`, `=`, `%`, `+` or `]`. */
  predicate PlainKey(key: string) {
    '&' !in key && '=' !in key && '%' !in key && '+' !in key && ']' !in key
  }

  lemma KeysArePlain()
    ensures PlainKey("page") && PlainKey("limit") && PlainKey("search") && PlainKey("categories")
  {
  }

  /** A parameter `p` whose field reaches the server as `d`: the key is plain and the same,
      the value has no `&` or `]` and decodes to `d`'s value. */
  predicate Travels(p: Param, d: Param) {
    && PlainKey(p.key) && p.key == d.key
    && '&' !in p.value && ']' !in p.value
    && QueryDecode(p.value) == d.value
  }

  lemma ParseFieldOf(p: Param, d: Param)
    requires Travels(p, d)
    ensures '&' !in Field(p)
    ensures ParseField(Field(p)) == d
  {
    assert Field(p) == p.key + ['='] + p.value;
    assert ']' !in Field(p);
    SplitAtFirstSep(p.key, p.value, '=');
    assert Split(Field(p), '=')[1..] == Split(p.value, '=');
    JoinSplit(p.value, '=');
    PlainDecodes(p.key);
  }

  /** A `]=` inside a value ends the key there: `key=a]=b` is read as a parameter named
      `key=a]` with the value `b`. */
  lemma BracketEqualsEndsKey(key: string, a: string, b: string)
    requires ']' !in key && ']' !in a
    ensures ParseField(key + "=" + a + "]=" + b) == Param(QueryDecode(key + "=" + a + "]"), QueryDecode(b))
  {
    var f := key + "=" + a + "]=" + b;
    var n := |key| + 1 + |a|;
    assert f[..n] == key + "=" + a;
    assert f[..n + 1] == key + "=" + a + "]";
    assert f[n + 2..] == b;
    assert BracketEqualsAt(f, n);
    assert forall i :: 0 <= i < n ==> f[i] == f[..n][i];
  }

  /** So a category filter whose value holds a `]=` (`categories=a]=b`) does not reach the
      listing handler: it reads no `categories` parameter and lists every product. */
  lemma BracketEqualsDropsFilter(a: string, b: string)
    requires ']' !in a && '&' !in a && '%' !in a && '+' !in a && '&' !in b
    ensures ToListQuery(ParseQuery("categories=" + a + "]=" + b)).categories == Listing.Absent
  {
    var f := "categories=" + a + "]=" + b;
    assert f == "categories" + "=" + a + "]=" + b;
    BracketEqualsEndsKey("categories", a, b);
    assert '&' !in f;
    SplitWithoutSep(f, '&');
    var key := "categories" + "=" + a + "]";
    PlainDecodes(key);
    assert |key| > |"categories"|;
    assert ParseQuery(f) == [ParseField(f)];
  }

  /** Fields that each travel are read back as the decoded parameters, in order. */
  lemma ParseJoinedFields(ps: seq<Param>, ds: seq<Param>)
    requires |ps| >= 1 && |ps| == |ds|
    requires forall i :: 0 <= i < |ps| ==> Travels(ps[i], ds[i])
    ensures ParseQuery(Join(Fields(ps), '&')) == ds
  {
    forall i | 0 <= i < |ps|
      ensures '&' !in Fields(ps)[i] && ParseField(Fields(ps)[i]) == ds[i]
    {
      ParseFieldOf(ps[i], ds[i]);
    }
    SplitJoin(Fields(ps), '&');
  }

  lemma QueryOfUrl(q: string)
    ensures QueryOf("/products?" + q) == q
  {
    assert "/products?" + q == "/products" + ['?'] + q;
    SplitAtFirstSep("/products", q, '?');
    assert Split("/products?" + q, '?')[1..] == Split(q, '?');
    JoinSplit(q, '?');
  }

  lemma NumberTravels(key: string, n: int)
    requires PlainKey(key)
    ensures Travels(Param(key, IntToString(n)), Param(key, IntToString(n)))
  {
    var v := IntToString(n);
    assert forall c :: c in v ==> IsDigit(c) || c == '-';
    PlainDecodes(v);
  }

  lemma SearchTravels(search: string)
    ensures Travels(Param("search", EncodeURIComponent(search)), Param("search", search))
  {
    EncodedCharacters(search);
    QueryDecodeEncode(search);
    KeysArePlain();
  }

  lemma IdsTravel(categories: seq<SelectOption>)
    requires forall i :: 0 <= i < |categories| ==> PlainId(categories[i].value)
    ensures Travels(Param("categories", Join(Values(categories), ',')), Param("categories", Join(Values(categories), ',')))
  {
    var ids := Values(categories);
    JoinAvoids(ids, ',', '&');
    JoinAvoids(ids, ',', '%');
    JoinAvoids(ids, ',', '+');
    JoinAvoids(ids, ',', ']');
    PlainDecodes(Join(ids, ','));
    KeysArePlain();
  }

  /** The server's query-string parser reads back from the URL exactly the parameters the
      client put in, in order, with the search text decoded to what the user typed. */
  lemma ServerReadsParams(page: int, limit: int, search: string, categories: seq<SelectOption>)
    requires forall i :: 0 <= i < |categories| ==> PlainId(categories[i].value)
    ensures ParseQuery(QueryOf(Url(page, limit, search, categories))) == Decoded(page, limit, search, categories)
  {
    var ps := Params(page, limit, search, categories);
    var ds := Decoded(page, limit, search, categories);
    QueryOfUrl(Join(Fields(ps), '&'));
    KeysArePlain();
    NumberTravels("page", page);
    NumberTravels("limit", limit);
    if search != "" {
      SearchTravels(search);
    }
    if |categories| > 0 {
      IdsTravel(categories);
    }
    ParseJoinedFields(ps, ds);
  }

  /** The ids joined with `,` are split back into the same ids by the listing handler; with
      no category selected the parameter is absent and there is no filter. */
  lemma ServerRecoversIds(categories: seq<SelectOption>)
    requires forall i :: 0 <= i < |categories| ==> PlainId(categories[i].value)
    ensures Listing.FilterIds(if |categories| == 0 then Listing.Absent else Listing.One(Join(Values(categories), ',')))
         == (if |categories| == 0 then None else Some(Values(categories)))
  {
    var ids := Values(categories);
    if |ids| > 0 {
      SplitJoin(ids, ',');
      assert |ids| == 1 ==> Join(ids, ',') == ids[0];
    }
  }

  // ----- What the listing handler reads -----

  lemma KeysDistinct()
    ensures "page" != "limit" && "page" != "search" && "page" != "categories"
    ensures "limit" != "search" && "limit" != "categories" && "search" != "categories"
  {
    assert |"page"| == 4 && |"limit"| == 5 && |"search"| == 6 && |"categories"| == 10;
  }

  /** Looking past a first parameter with another name. */
  lemma LookupSkip(p: Param, ps: seq<Param>, key: string)
    ensures Lookup([p] + ps, key) == if p.key == key then Some(p.value) else Lookup(ps, key)
  {
    assert ([p] + ps)[1..] == ps;
  }

  /** The optional parameters behind page and limit. */
  function Optional(search: string, categories: seq<SelectOption>): seq<Param> {
    (if search != "" then [Param("search", search)] else [])
    + (if |categories| > 0 then [Param("categories", Join(Values(categories), ','))] else [])
  }

  lemma DecodedShape(page: int, limit: int, search: string, categories: seq<SelectOption>)
    ensures Decoded(page, limit, search, categories)
         == [Param("page", IntToString(page))] + ([Param("limit", IntToString(limit))] + Optional(search, categories))
  {
  }

  /** Page and limit are found under their own names. */
  lemma LookupPageLimit(page: int, limit: int, search: string, categories: seq<SelectOption>)
    ensures Lookup(Decoded(page, limit, search, categories), "page") == Some(IntToString(page))
    ensures Lookup(Decoded(page, limit, search, categories), "limit") == Some(IntToString(limit))
  {
    KeysDistinct();
    DecodedShape(page, limit, search, categories);
    var rest := [Param("limit", IntToString(limit))] + Optional(search, categories);
    LookupSkip(Param("page", IntToString(page)), rest, "page");
    LookupSkip(Param("page", IntToString(page)), rest, "limit");
    LookupSkip(Param("limit", IntToString(limit)), Optional(search, categories), "limit");
  }

  /** The search text is found exactly when there is one. */
  lemma LookupSearch(page: int, limit: int, search: string, categories: seq<SelectOption>)
    ensures Lookup(Decoded(page, limit, search, categories), "search") == (if search == "" then None else Some(search))
  {
    KeysDistinct();
    DecodedShape(page, limit, search, categories);
    var opt := Optional(search, categories);
    LookupSkip(Param("page", IntToString(page)), [Param("limit", IntToString(limit))] + opt, "search");
    LookupSkip(Param("limit", IntToString(limit)), opt, "search");
    var c: seq<Param> := if |categories| > 0 then [Param("categories", Join(Values(categories), ','))] else [];
    if search != "" {
      assert opt == [Param("search", search)] + c;
      LookupSkip(Param("search", search), c, "search");
    } else {
      assert opt == c;
      if |categories| > 0 {
        LookupSkip(Param("categories", Join(Values(categories), ',')), [], "search");
      }
    }
  }

  /** The joined ids are found exactly when some category is selected. */
  lemma LookupCategories(page: int, limit: int, search: string, categories: seq<SelectOption>)
    ensures Lookup(Decoded(page, limit, search, categories), "categories")
         == (if |categories| == 0 then None else Some(Join(Values(categories), ',')))
  {
    KeysDistinct();
    DecodedShape(page, limit, search, categories);
    var opt := Optional(search, categories);
    LookupSkip(Param("page", IntToString(page)), [Param("limit", IntToString(limit))] + opt, "categories");
    LookupSkip(Param("limit", IntToString(limit)), opt, "categories");
    var c: seq<Param> := if |categories| > 0 then [Param("categories", Join(Values(categories), ','))] else [];
    if search != "" {
      assert opt == [Param("search", search)] + c;
      LookupSkip(Param("search", search), c, "categories");
    } else {
      assert opt == c;
    }
    if |categories| > 0 {
      LookupSkip(Param("categories", Join(Values(categories), ',')), [], "categories");
    }
  }

  /** The page and the limit the listing handler works with are those the client asked for;
      a 0 falls back to the server's default, since `parseInt` gives a falsy 0. */
  lemma HandlerPageLimit(page: int, limit: int, search: string, categories: seq<SelectOption>)
    ensures var q := ToListQuery(Decoded(page, limit, search, categories));
      && Listing.NumberOr(q.page, Listing.DefaultPage) == (if page != 0 then page else Listing.DefaultPage)
      && Listing.NumberOr(q.limit, Listing.DefaultLimit) == (if limit != 0 then limit else Listing.DefaultLimit)
  {
    LookupPageLimit(page, limit, search, categories);
    ParseIntToString(page);
    ParseIntToString(limit);
  }

  /** The listing handler searches for the text the user typed, and only when there is one. */
  lemma HandlerSearch(page: int, limit: int, search: string, categories: seq<SelectOption>)
    ensures Listing.SearchTerm(ToListQuery(Decoded(page, limit, search, categories)).search)
         == (if search == "" then None else Some(search))
  {
    LookupSearch(page, limit, search, categories);
  }

  /** The listing handler receives the categories parameter as one string of joined ids,
      and none when no category is selected; `ServerRecoversIds` splits it back. */
  lemma HandlerCategories(page: int, limit: int, search: string, categories: seq<SelectOption>)
    ensures ToListQuery(Decoded(page, limit, search, categories)).categories
         == (if |categories| == 0 then Listing.Absent else Listing.One(Join(Values(categories), ',')))
  {
    LookupCategories(page, limit, search, categories);
  }
}
