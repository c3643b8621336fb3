/** The listing handler `getProducts`: `page` and `limit` read from the query string with
    their fallbacks, the optional name search and category filter, newest-first order,
    the skip/limit window and the pagination figures of the response. */
module Listing {
  import opened Text
  import opened ProductModel
  import opened Sorting

  const DefaultPage := 1
  const DefaultLimit := 10

  /** `req.query.categories`: absent, one string (split on commas by the handler), or a
      repeated parameter, which arrives as an array and is used as it is. */
  datatype CategoriesParam = Absent | One(value: string) | Many(values: seq<string>)

  /** The query string of `GET /products`; `None` is an absent parameter. */
  datatype ListQuery = ListQuery(
    page: Option<string>,
    limit: Option<string>,
    search: Option<string>,
    categories: CategoriesParam)

  /** A listed product with its category references replaced by the categories. */
  datatype ListedProduct = ListedProduct(product: Product, categories: seq<Category>)

  /** The 200 body, or a 500 raised by the query: an id in the category filter that does not
      cast to an ObjectId, or a negative skip. */
  datatype ListResponse =
    | Listed(count: int, totalPages: int, currentPage: int, totalProducts: int, data: seq<ListedProduct>)
    | ServerError

  /** `parseInt(raw, 10) || fallback`: an absent parameter or one that parses to `NaN` or
      to 0 takes the fallback. */
  function NumberOr(raw: Option<string>, fallback: int): (n: int)
    requires fallback != 0
    ensures n != 0
    ensures n == fallback || (raw.Some? && ParseInt(raw.value) == Some(n))
    ensures raw.Some? && ParseInt(raw.value).Some? && ParseInt(raw.value).value != 0 ==>
              n == ParseInt(raw.value).value
  {
    if raw.None? then fallback
    else match ParseInt(raw.value)
      case None => fallback
      case Some(v) => if v == 0 then fallback else v
  }

  /** A number written in decimal is read back as itself, so a page or limit other than 0
      survives the trip through the query string. */
  lemma NumberOrOfString(n: int, fallback: int)
    requires fallback != 0 && n != 0
    ensures NumberOr(Some(IntToString(n)), fallback) == n
  {
    ParseIntToString(n);
  }

  function Abs(n: int): nat {
    if n < 0 then -n else n
  }

  function Min(a: int, b: int): int {
    if a <= b then a else b
  }

  /** `Math.ceil(n / d)` for a count `n` and a non-zero divisor. */
  function CeilDiv(n: nat, d: int): (r: int)
    requires d != 0
    ensures d > 0 ==> (r - 1) * d < n <= r * d
    ensures d < 0 ==> r * d <= n < (r - 1) * d
  {
    if d > 0 then
      CeilDivBounds(n, d);
      (n + d - 1) / d
    else
      FloorDivBounds(n, -d);
      -(n / -d)
  }

  lemma CeilDivBounds(n: nat, d: int)
    requires d > 0
    ensures ((n + d - 1) / d - 1) * d < n <= (n + d - 1) / d * d
  {
    var q := (n + d - 1) / d;
    var m := (n + d - 1) % d;
    assert q * d + m == n + d - 1;
    assert (q - 1) * d == q * d - d;
  }

  lemma FloorDivBounds(n: nat, d: int)
    requires d > 0
    ensures (n / d) * d <= n < (n / d + 1) * d
  {
    var q := n / d;
    var m := n % d;
    assert q * d + m == n;
    assert (q + 1) * d == q * d + d;
  }

  /** For a positive limit the page count is 0 exactly when nothing matches. */
  lemma CeilDivZero(n: nat, d: int)
    requires d > 0
    ensures CeilDiv(n, d) == 0 <==> n == 0
  {
  }

  /** For a negative limit fewer matches than its size still give 0 pages:
      `Math.ceil(3 / -5)` is `-0`. */
  lemma NegativeLimitZeroPages()
    ensures CeilDiv(3, -5) == 0
  {
  }

  /** The search term, when `req.query.search` is truthy (present and not empty). */
  function SearchTerm(search: Option<string>): (r: Option<string>)
    ensures r.Some? <==> search.Some? && search.value != []
    ensures r.Some? ==> r == search
  {
    if search.Some? && search.value != [] then search else None
  }

  /** The ids of the category filter, when `req.query.categories` is truthy: one string is
      split on commas; an array, even an empty one, is used as it is. */
  function FilterIds(categories: CategoriesParam): (r: Option<seq<string>>)
    ensures r.None? <==> categories.Absent? || categories == One([])
    ensures categories.One? && r.Some? ==> |r.value| >= 1 && Join(r.value, ',') == categories.value
    ensures categories.Many? ==> r == Some(categories.values)
  {
    match categories
    case Absent => None
    case One(value) =>
      if value == [] then None
      else
        JoinSplit(value, ',');
        Some(Split(value, ','))
    case Many(values) => Some(values)
  }

  /** The query document's two conditions: the name matches the search case-insensitively,
      and some category of the product is one of the filter ids (`$in`). */
  predicate Matches(p: Product, search: Option<string>, ids: Option<seq<string>>) {
    && (search.Some? ==> ContainsIgnoreCase(p.name, search.value))
    && (ids.Some? ==> exists k :: 0 <= k < |ids.value| && ids.value[k] in p.categories)
  }

  /** The products the query selects, in store order. */
  function Filter(products: seq<Product>, search: Option<string>, ids: Option<seq<string>>): (r: seq<Product>)
    ensures |r| <= |products|
    ensures forall i :: 0 <= i < |r| ==> Matches(r[i], search, ids)
    ensures forall p :: p in r <==> p in products && Matches(p, search, ids)
    ensures multiset(r) <= multiset(products)
  {
    if products == [] then []
    else
      var rest := Filter(products[1..], search, ids);
      assert products == [products[0]] + products[1..];
      if Matches(products[0], search, ids) then [products[0]] + rest else rest
  }

  /** `sort({ createdAt: -1 })`: newer products first. */
  predicate NewestFirst(a: Product, b: Product) {
    a.createdAt >= b.createdAt
  }

  lemma NewestFirstIsTotalPreorder()
    ensures TotalPreorder(NewestFirst)
  {
  }

  /** `skip(skip).limit(take)` on an ordered result. */
  function Window<T>(s: seq<T>, skip: nat, take: nat): (r: seq<T>)
    ensures |r| == if skip >= |s| then 0 else Min(take, |s| - skip)
    ensures forall i :: 0 <= i < |r| ==> r[i] == s[skip + i]
  {
    if skip >= |s| then [] else s[skip..Min(skip + take, |s|)]
  }

  /** `populate('categories', 'name')` over the listed products. */
  function PopulateAll(products: seq<Product>, known: seq<Category>): (r: seq<ListedProduct>)
    ensures |r| == |products|
    ensures forall i :: 0 <= i < |r| ==>
              r[i].product == products[i] && r[i].categories == Populate(products[i].categories, known)
  {
    if products == [] then []
    else [ListedProduct(products[0], Populate(products[0].categories, known))] + PopulateAll(products[1..], known)
  }

  function Products(listed: seq<ListedProduct>): seq<Product> {
    seq(|listed|, i requires 0 <= i < |listed| => listed[i].product)
  }

  /** Some filter id fails to cast to an ObjectId, which aborts the query. */
  predicate BadFilterId(ids: Option<seq<string>>, isValidId: string -> bool) {
    ids.Some? && exists k :: 0 <= k < |ids.value| && !isValidId(ids.value[k])
  }

  /** The matching products, newest first. */
  function Ordered(products: seq<Product>, search: Option<string>, ids: Option<seq<string>>): seq<Product> {
    Sort(Filter(products, search, ids), NewestFirst)
  }

  /** `getProducts` over the stored `products` and `known` categories. */
  function List(products: seq<Product>, known: seq<Category>, isValidId: string -> bool, q: ListQuery): (r: ListResponse)
    ensures r.Listed? ==> 0 <= r.count == |r.data| <= r.totalProducts <= |products|
  {
    var page := NumberOr(q.page, DefaultPage);
    var limit := NumberOr(q.limit, DefaultLimit);
    var skip := (page - 1) * limit;
    var search := SearchTerm(q.search);
    var ids := FilterIds(q.categories);
    if BadFilterId(ids, isValidId) || skip < 0 then ServerError
    else
      var total := |Filter(products, search, ids)|;
      var data := Window(Ordered(products, search, ids), skip, Abs(limit));
      Listed(|data|, CeilDiv(total, limit), page, total, PopulateAll(data, known))
  }

  // ----- Properties of the listing handler -----

  /** When the query fails, and what a successful response reports: `count` is the length
      of `data` and at most the limit, `totalProducts` counts every match, `currentPage`
      echoes the page, `totalPages` is the ceiling of total over limit and is 0 exactly
      when nothing matches. */
  lemma ListFigures(products: seq<Product>, known: seq<Category>, isValidId: string -> bool, q: ListQuery)
    ensures var page := NumberOr(q.page, DefaultPage);
      var limit := NumberOr(q.limit, DefaultLimit);
      var search := SearchTerm(q.search);
      var ids := FilterIds(q.categories);
      var r := List(products, known, isValidId, q);
      && (r.ServerError? <==> BadFilterId(ids, isValidId) || (page - 1) * limit < 0)
      && (r.Listed? ==>
            && r.count == |r.data| <= Abs(limit)
            && r.totalProducts == |Filter(products, search, ids)|
            && r.currentPage == page
            && r.totalPages == CeilDiv(r.totalProducts, limit)
            && (limit > 0 ==> (r.totalPages == 0 <==> r.totalProducts == 0)))
  {
    var limit := NumberOr(q.limit, DefaultLimit);
    if limit > 0 {
      CeilDivZero(|Filter(products, SearchTerm(q.search), FilterIds(q.categories))|, limit);
    }
  }

  /** A window of a sorted sequence is sorted. */
  lemma WindowSorted<T>(s: seq<T>, skip: nat, take: nat, le: (T, T) -> bool)
    requires SortedBy(s, le)
    ensures SortedBy(Window(s, skip, take), le)
  {
    var w := Window(s, skip, take);
    forall i, j | 0 <= i < j < |w|
      ensures le(w[i], w[j])
    {
      assert w[i] == s[skip + i] && w[j] == s[skip + j];
    }
  }

  /** The listed products are the window of the matches, newest first, that the page and
      limit select; each of them matches the query and is a stored product. */
  lemma ListData(products: seq<Product>, known: seq<Category>, isValidId: string -> bool, q: ListQuery)
    requires List(products, known, isValidId, q).Listed?
    ensures var page := NumberOr(q.page, DefaultPage);
      var limit := NumberOr(q.limit, DefaultLimit);
      var search := SearchTerm(q.search);
      var ids := FilterIds(q.categories);
      var data := Products(List(products, known, isValidId, q).data);
      && data == Window(Ordered(products, search, ids), (page - 1) * limit, Abs(limit))
      && SortedBy(data, NewestFirst)
      && (forall i :: 0 <= i < |data| ==> data[i] in products && Matches(data[i], search, ids))
  {
    var page := NumberOr(q.page, DefaultPage);
    var limit := NumberOr(q.limit, DefaultLimit);
    var search := SearchTerm(q.search);
    var ids := FilterIds(q.categories);
    ListedWindow(products, known, isValidId, q);
    var skip: nat := (page - 1) * limit;
    var sorted := Ordered(products, search, ids);
    NewestFirstIsTotalPreorder();
    SortSorted(Filter(products, search, ids), NewestFirst);
    WindowSorted(sorted, skip, Abs(limit), NewestFirst);
    WindowMembers(products, search, ids, skip, Abs(limit));
  }

  /** The products of a successful listing are the requested window of the ordered matches. */
  lemma ListedWindow(products: seq<Product>, known: seq<Category>, isValidId: string -> bool, q: ListQuery)
    requires List(products, known, isValidId, q).Listed?
    ensures (NumberOr(q.page, DefaultPage) - 1) * NumberOr(q.limit, DefaultLimit) >= 0
    ensures Products(List(products, known, isValidId, q).data)
         == Window(Ordered(products, SearchTerm(q.search), FilterIds(q.categories)),
                   (NumberOr(q.page, DefaultPage) - 1) * NumberOr(q.limit, DefaultLimit),
                   Abs(NumberOr(q.limit, DefaultLimit)))
  {
  }

  /** Every product of a window of the ordered matches is a stored product that matches. */
  lemma WindowMembers(products: seq<Product>, search: Option<string>, ids: Option<seq<string>>, skip: nat, take: nat)
    ensures var w := Window(Ordered(products, search, ids), skip, take);
      forall i :: 0 <= i < |w| ==> w[i] in products && Matches(w[i], search, ids)
  {
    var matches := Filter(products, search, ids);
    var sorted := Ordered(products, search, ids);
    var w := Window(sorted, skip, take);
    forall i | 0 <= i < |w|
      ensures w[i] in products && Matches(w[i], search, ids)
    {
      assert w[i] == sorted[skip + i];
      assert w[i] in multiset(sorted);
      assert w[i] in matches;
    }
  }

  lemma MulMonotonic(a: int, b: int, c: nat)
    requires a >= b
    ensures a * c >= b * c
  {
    var k := a - b;
    assert a * c == b * c + k * c;
  }

  /** The first item of a page past the last one lies past the last match. */
  lemma SkipPastLast(page: int, limit: int, total: nat)
    requires limit > 0 && page > CeilDiv(total, limit)
    ensures (page - 1) * limit >= total
  {
    var pages := CeilDiv(total, limit);
    MulMonotonic(page - 1, pages, limit);
  }

  /** A page past the last one is empty. */
  lemma PagePastLastIsEmpty(products: seq<Product>, known: seq<Category>, isValidId: string -> bool, q: ListQuery)
    requires List(products, known, isValidId, q).Listed?
    requires NumberOr(q.limit, DefaultLimit) > 0
    requires List(products, known, isValidId, q).currentPage > List(products, known, isValidId, q).totalPages
    ensures List(products, known, isValidId, q).data == []
  {
    var page := NumberOr(q.page, DefaultPage);
    var limit := NumberOr(q.limit, DefaultLimit);
    var search := SearchTerm(q.search);
    var ids := FilterIds(q.categories);
    var total := |Filter(products, search, ids)|;
    ListFigures(products, known, isValidId, q);
    SkipPastLast(page, limit, total);
    assert |Ordered(products, search, ids)| == total;
    assert Window(Ordered(products, search, ids), (page - 1) * limit, Abs(limit)) == [];
  }

  /** Pages 1 to `count` of `s`, `size` items each, one after another. */
  function Pages<T>(s: seq<T>, size: nat, count: nat): seq<T> {
    if count == 0 then [] else Pages(s, size, count - 1) + Window(s, (count - 1) * size, size)
  }

  /** The first `count` pages are the first `count * size` items. */
  lemma {:induction false} PagesArePrefix<T>(s: seq<T>, size: nat, count: nat)
    ensures Pages(s, size, count) == s[..Min(count * size, |s|)]
  {
    if count > 0 {
      PagesArePrefix(s, size, count - 1);
      var k := (count - 1) * size;
      NextPageStart(size, count, k);
      WindowJoins(s, k, size);
    }
  }

  /** Page `count` starts where the first `count - 1` pages end. */
  lemma NextPageStart(size: nat, count: nat, k: nat)
    requires count > 0 && k == (count - 1) * size
    ensures count * size == k + size
  {
  }

  /** The items before `skip` followed by the window at `skip` are the items before
      `skip + take`. */
  lemma WindowJoins<T>(s: seq<T>, skip: nat, take: nat)
    ensures s[..Min(skip, |s|)] + Window(s, skip, take) == s[..Min(skip + take, |s|)]
  {
    if skip < |s| {
      assert s[..Min(skip + take, |s|)] == s[..skip] + s[skip..Min(skip + take, |s|)];
    }
  }

  /** With a positive limit, pages 1 to `totalPages` hold every match exactly once, in
      order: paging through the listing misses nothing and repeats nothing. */
  lemma PagesCoverMatches<T>(s: seq<T>, limit: int)
    requires limit > 0
    ensures Pages(s, limit, CeilDiv(|s|, limit)) == s
  {
    var pages := CeilDiv(|s|, limit);
    CeilDivZero(|s|, limit);
    PagesArePrefix(s, limit, pages);
  }

  /** The category filter is a union: a list of ids selects what either half selects. */
  lemma CategoryFilterIsUnion(p: Product, search: Option<string>, a: seq<string>, b: seq<string>)
    ensures Matches(p, search, Some(a + b)) <==> Matches(p, search, Some(a)) || Matches(p, search, Some(b))
  {
    var ab := a + b;
    if exists k :: 0 <= k < |ab| && ab[k] in p.categories {
      var k :| 0 <= k < |ab| && ab[k] in p.categories;
      if k < |a| {
        assert a[k] == ab[k];
      } else {
        assert b[k - |a|] == ab[k];
      }
    }
    if exists k :: 0 <= k < |a| && a[k] in p.categories {
      var k :| 0 <= k < |a| && a[k] in p.categories;
      assert ab[k] == a[k];
    }
    if exists k :: 0 <= k < |b| && b[k] in p.categories {
      var k :| 0 <= k < |b| && b[k] in p.categories;
      assert ab[|a| + k] == b[k];
    }
  }
}
