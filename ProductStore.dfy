/** The server's product handlers over an in-memory model of its two collections:
    `createProduct` (a validation gate, then the insert), `deleteProduct`, and
    `getCategories`. The listing handler `getProducts` is in module Listing.
    `mongoose.Types.ObjectId.isValid` is the store's uninterpreted `isValidId`. */
module ProductStore {
  import opened Text
  import opened ProductModel
  import opened Sorting

  const MissingFieldsMessage := "Please provide all required fields"
  const DuplicateNameMessage := "Product with this name already exists"
  const InvalidProductIdMessage := "Invalid product ID"
  const ProductNotFoundMessage := "Product not found"
  const DeletedMessage := "Product deleted successfully"

  function InvalidCategoryMessage(id: string): string {
    "Invalid category ID: " + id
  }

  function CategoryNotFoundMessage(id: string): string {
    "Category with ID " + id + " not found"
  }

  /** The body of `POST /products`. `None` is an absent (or null) field. */
  datatype CreateRequest = CreateRequest(
    name: Option<string>,
    description: Option<string>,
    quantity: QuantityValue,
    categories: Option<seq<string>>)

  /** The outcome of `createProduct`: 201 with the new product and its populated
      categories, a client error with its status and message, or a 500 raised by the
      insert itself (schema validation or a unique-index clash). */
  datatype CreateResponse =
    | Created(product: Product, populated: seq<Category>)
    | Rejected(status: int, message: string)
    | ServerError

  function CreateStatus(r: CreateResponse): int {
    match r
    case Created(_, _) => 201
    case Rejected(status, _) => status
    case ServerError => 500
  }

  /** What the store keeps true: every product satisfies the schema, and the unique
      indexes on `_id` and on `name` (exact value) hold. */
  ghost predicate StoreValid(products: seq<Product>) {
    && (forall i :: 0 <= i < |products| ==> WellFormed(products[i]))
    && (forall i, j :: 0 <= i < j < |products| ==>
          products[i].id != products[j].id && products[i].name != products[j].name)
  }

  /** The first check of `createProduct`: a falsy name or description, an undefined
      quantity, or a missing or empty category list. A quantity of 0 is not missing. */
  predicate MissingField(req: CreateRequest) {
    || req.name.None? || req.name.value == []
    || req.description.None? || req.description.value == []
    || req.quantity.Undefined?
    || req.categories.None? || req.categories.value == []
  }

  /** The duplicate check: some stored name equals the normalised candidate ignoring case.
      The stored names themselves are not normalised. */
  predicate NameTaken(products: seq<Product>, normalized: string) {
    exists i :: 0 <= i < |products| && EqualsIgnoreCase(products[i].name, normalized)
  }

  /** Whether a category id passes both checks of the creation gate. */
  predicate CategoryOk(known: seq<Category>, isValidId: string -> bool, id: string) {
    isValidId(id) && FindCategory(known, id).Some?
  }

  /** The position of the first id that fails a check, or `|ids|` when none does. */
  function FirstFailure(ids: seq<string>, known: seq<Category>, isValidId: string -> bool): (k: nat)
    ensures k <= |ids|
    ensures forall j :: 0 <= j < k ==> CategoryOk(known, isValidId, ids[j])
    ensures k < |ids| ==> !CategoryOk(known, isValidId, ids[k])
  {
    if ids == [] then 0
    else if !CategoryOk(known, isValidId, ids[0]) then 0
    else 1 + FirstFailure(ids[1..], known, isValidId)
  }

  datatype CategoryCheck = AllExist | Malformed(id: string) | Unknown(id: string)

  /** The category checks, one id at a time in submission order, stopping at the first
      malformed id or the first id with no category; later ids are not looked at. */
  function CheckCategories(ids: seq<string>, known: seq<Category>, isValidId: string -> bool): (c: CategoryCheck)
    ensures c.Malformed? ==> c.id in ids && !isValidId(c.id)
    ensures c.Unknown? ==> c.id in ids && isValidId(c.id) && FindCategory(known, c.id).None?
  {
    var k := FirstFailure(ids, known, isValidId);
    if k == |ids| then AllExist
    else if !isValidId(ids[k]) then Malformed(ids[k])
    else Unknown(ids[k])
  }

  /** Any prefix of ok ids followed by a failing one fixes the first failure. */
  lemma FirstFailureAt(ids: seq<string>, known: seq<Category>, isValidId: string -> bool, i: nat)
    requires i < |ids|
    requires forall j :: 0 <= j < i ==> CategoryOk(known, isValidId, ids[j])
    requires !CategoryOk(known, isValidId, ids[i])
    ensures FirstFailure(ids, known, isValidId) == i
  {
  }

  /** The insert would break a unique index: the `_id` or the exact name is in use. */
  predicate IndexClash(products: seq<Product>, p: Product) {
    exists i :: 0 <= i < |products| && (products[i].id == p.id || products[i].name == p.name)
  }

  /** The gate of `createProduct`, in its fixed order; `None` when every check passes. */
  function Gate(products: seq<Product>, known: seq<Category>, isValidId: string -> bool,
                req: CreateRequest): (r: Option<CreateResponse>)
    ensures r.Some? ==> r.value.Rejected? && (r.value.status == 400 || r.value.status == 404)
  {
    if MissingField(req) then Some(Rejected(400, MissingFieldsMessage))
    else if NameTaken(products, Normalize(req.name.value)) then Some(Rejected(400, DuplicateNameMessage))
    else
      match CheckCategories(req.categories.value, known, isValidId)
      case Malformed(id) => Some(Rejected(400, InvalidCategoryMessage(id)))
      case Unknown(id) => Some(Rejected(404, CategoryNotFoundMessage(id)))
      case AllExist => None
  }

  /** `Product.create` of the submitted fields, then the populated response: a document the
      schema refuses, or one that clashes with a unique index, ends in a 500. */
  function Insert(products: seq<Product>, known: seq<Category>, req: CreateRequest,
                  newId: Id, now: int): (r: CreateResponse)
    requires !MissingField(req)
    ensures !r.Rejected?
    ensures r.Created? ==> WellFormed(r.product) && !IndexClash(products, r.product)
  {
    match Cast(newId, req.name.value, req.description.value, req.quantity, req.categories.value, now)
    case None => ServerError
    case Some(p) => if IndexClash(products, p) then ServerError else Created(p, Populate(p.categories, known))
  }

  /** `createProduct` over the stored `products` and `known` categories; `newId` and `now`
      are the id and the time the store assigns to a new document. */
  function Create(products: seq<Product>, known: seq<Category>, isValidId: string -> bool,
                  req: CreateRequest, newId: Id, now: int): (r: CreateResponse)
    ensures r.Rejected? ==> r.status == 400 || r.status == 404
    ensures r.Created? ==> WellFormed(r.product) && !IndexClash(products, r.product)
  {
    match Gate(products, known, isValidId, req)
    case Some(r) => r
    case None => Insert(products, known, req, newId, now)
  }

  /** The products left once the one with `id` is removed; the others keep their order. */
  function RemoveById(products: seq<Product>, id: Id): (r: seq<Product>)
    ensures forall p :: p in r <==> p in products && p.id != id
    ensures |r| <= |products|
  {
    if products == [] then []
    else if products[0].id == id then RemoveById(products[1..], id)
    else [products[0]] + RemoveById(products[1..], id)
  }

  predicate HasId(products: seq<Product>, id: Id) {
    exists i :: 0 <= i < |products| && products[i].id == id
  }

  /** The status `deleteProduct` answers with. */
  function DeleteStatus(products: seq<Product>, isValidId: string -> bool, id: Id): (status: int)
    ensures status == 200 || status == 400 || status == 404
  {
    if !isValidId(id) then 400 else if !HasId(products, id) then 404 else 200
  }

  function DeleteMessage(status: int): string {
    if status == 400 then InvalidProductIdMessage
    else if status == 404 then ProductNotFoundMessage
    else DeletedMessage
  }

  /** Removing the one product whose id is unique is cutting it out of the sequence. */
  lemma {:induction false} RemoveUniqueAt(products: seq<Product>, k: nat)
    requires k < |products|
    requires forall j :: 0 <= j < |products| && j != k ==> products[j].id != products[k].id
    ensures RemoveById(products, products[k].id) == products[..k] + products[k + 1..]
  {
    var id := products[k].id;
    if k == 0 {
      RemoveAbsent(products[1..], id);
    } else {
      UniqueInTail(products, k);
      RemoveUniqueAt(products[1..], k - 1);
      SpliceCons(products, k);
    }
  }

  /** The product at `k > 0` is still the only one with its id once the first is dropped. */
  lemma UniqueInTail(products: seq<Product>, k: nat)
    requires 0 < k < |products|
    requires forall j :: 0 <= j < |products| && j != k ==> products[j].id != products[k].id
    ensures products[1..][k - 1] == products[k]
    ensures forall j :: 0 <= j < |products| - 1 && j != k - 1 ==> products[1..][j].id != products[k].id
  {
    assert forall j :: 0 <= j < |products| - 1 ==> products[1..][j] == products[j + 1];
  }

  /** Cutting out position `k - 1` of the tail, then putting the head back, cuts out `k`. */
  lemma SpliceCons(products: seq<Product>, k: nat)
    requires 0 < k < |products|
    ensures [products[0]] + (products[1..][..k - 1] + products[1..][k..]) == products[..k] + products[k + 1..]
  {
    assert products[1..][..k - 1] == products[1..k];
    assert products[1..][k..] == products[k + 1..];
    assert [products[0]] + products[1..k] == products[..k];
  }

  lemma {:induction false} RemoveAbsent(products: seq<Product>, id: Id)
    requires forall j :: 0 <= j < |products| ==> products[j].id != id
    ensures RemoveById(products, id) == products
  {
    if products != [] {
      RemoveAbsent(products[1..], id);
      assert [products[0]] + products[1..] == products;
    }
  }

  /** The product collection and the category collection. */
  class ProductStore {
    var products: seq<Product>
    var categories: seq<Category>
    const isValidId: string -> bool

    ghost predicate Valid()
      reads this
    {
      StoreValid(products)
    }

    constructor (isValidId: string -> bool, categories: seq<Category>)
      ensures Valid()
      ensures products == [] && this.categories == categories && this.isValidId == isValidId
    {
      this.isValidId := isValidId;
      this.categories := categories;
      products := [];
    }

    /** `Product.findOne({ name: /^normalized$/i })`: the first product whose name equals
        `normalized` ignoring case. */
    method FindOneByName(normalized: string) returns (found: Option<Product>)
      ensures found.Some? <==> NameTaken(products, normalized)
      ensures found.Some? ==> found.value in products && EqualsIgnoreCase(found.value.name, normalized)
    {
      var i := 0;
      while i < |products|
        invariant 0 <= i <= |products|
        invariant forall j :: 0 <= j < i ==> !EqualsIgnoreCase(products[j].name, normalized)
      {
        if EqualsIgnoreCase(products[i].name, normalized) {
          return Some(products[i]);
        }
        i := i + 1;
      }
      return None;
    }

    /** `Product.findById(id)`: the position of the product with that id, if any. */
    method FindIndexById(id: Id) returns (index: Option<nat>)
      ensures index.Some? <==> HasId(products, id)
      ensures index.Some? ==> index.value < |products| && products[index.value].id == id
    {
      var i := 0;
      while i < |products|
        invariant 0 <= i <= |products|
        invariant forall j :: 0 <= j < i ==> products[j].id != id
      {
        if products[i].id == id {
          return Some(i);
        }
        i := i + 1;
      }
      return None;
    }

    /** The category loop of `createProduct`: each id in turn must be well formed and name
        a stored category; the first that is not ends the loop. */
    method CheckCategoryIds(ids: seq<string>) returns (c: CategoryCheck)
      ensures c == CheckCategories(ids, categories, isValidId)
    {
      for i := 0 to |ids|
        invariant forall j :: 0 <= j < i ==> CategoryOk(categories, isValidId, ids[j])
      {
        var categoryId := ids[i];
        if !isValidId(categoryId) {
          FirstFailureAt(ids, categories, isValidId, i);
          return Malformed(categoryId);
        }
        var category := FindCategory(categories, categoryId);
        if category.None? {
          FirstFailureAt(ids, categories, isValidId, i);
          return Unknown(categoryId);
        }
      }
      return AllExist;
    }

    /** The checks `createProduct` makes before it inserts anything, in their order. */
    method Validate(req: CreateRequest) returns (rejection: Option<CreateResponse>)
      ensures rejection == Gate(products, categories, isValidId, req)
    {
      if MissingField(req) {
        return Some(Rejected(400, MissingFieldsMessage));
      }
      var normalized := Normalize(req.name.value);
      var existing := FindOneByName(normalized);
      if existing.Some? {
        return Some(Rejected(400, DuplicateNameMessage));
      }
      var check := CheckCategoryIds(req.categories.value);
      match check
      case Malformed(id) => return Some(Rejected(400, InvalidCategoryMessage(id)));
      case Unknown(id) => return Some(Rejected(404, CategoryNotFoundMessage(id)));
      case AllExist => return None;
    }

    /** `createProduct`: the gate in its fixed order, then the insert. */
    method CreateProduct(req: CreateRequest, newId: Id, now: int) returns (r: CreateResponse)
      requires Valid()
      modifies this`products
      ensures Valid()
      ensures r == Create(old(products), categories, isValidId, req, newId, now)
      ensures products == if r.Created? then old(products) + [r.product] else old(products)
    {
      var rejection := Validate(req);
      if rejection.Some? {
        return rejection.value;
      }
      var doc := Cast(newId, req.name.value, req.description.value, req.quantity, req.categories.value, now);
      if doc.None? || IndexClash(products, doc.value) {
        return ServerError;
      }
      var product := doc.value;
      InsertPreservesStore(products, categories, req, newId, now);
      products := products + [product];
      r := Created(product, Populate(product.categories, categories));
    }

    /** `deleteProduct`: 400 for a malformed id, 404 for an absent one, otherwise the
        product is removed and 200 returned. */
    method DeleteProduct(id: Id) returns (status: int, message: string)
      requires Valid()
      modifies this`products
      ensures Valid()
      ensures status == DeleteStatus(old(products), isValidId, id)
      ensures message == DeleteMessage(status)
      ensures products == if status == 200 then RemoveById(old(products), id) else old(products)
    {
      if !isValidId(id) {
        return 400, InvalidProductIdMessage;
      }
      var index := FindIndexById(id);
      if index.None? {
        return 404, ProductNotFoundMessage;
      }
      var k := index.value;
      RemoveUniqueAt(products, k);
      RemovePreservesStore(products, id);
      products := products[..k] + products[k + 1..];
      return 200, DeletedMessage;
    }
  }

  // ----- Properties of the creation handler -----

  /** The gate runs in a fixed order, and nothing is inserted unless every check passes:
      the response is `Created` exactly when all of them do. */
  lemma CreateGateOrder(products: seq<Product>, known: seq<Category>, isValidId: string -> bool,
                        req: CreateRequest, newId: Id, now: int)
    ensures var r := Create(products, known, isValidId, req, newId, now);
      && (MissingField(req) ==> r == Rejected(400, MissingFieldsMessage))
      && (!MissingField(req) && NameTaken(products, Normalize(req.name.value)) ==>
            r == Rejected(400, DuplicateNameMessage))
      && (!MissingField(req) && !NameTaken(products, Normalize(req.name.value)) ==>
            match CheckCategories(req.categories.value, known, isValidId)
            case Malformed(id) => r == Rejected(400, InvalidCategoryMessage(id))
            case Unknown(id) => r == Rejected(404, CategoryNotFoundMessage(id))
            case AllExist => r.Created? || r.ServerError?)
  {
    if !MissingField(req) && !NameTaken(products, Normalize(req.name.value)) {
      assert Create(products, known, isValidId, req, newId, now) ==
        match Gate(products, known, isValidId, req)
        case Some(g) => g
        case None => Insert(products, known, req, newId, now);
    }
  }

  /** The response is `Created` exactly when every check passes, the schema accepts the
      document and no unique index is broken. */
  lemma CreatedIffAllPass(products: seq<Product>, known: seq<Category>, isValidId: string -> bool,
                          req: CreateRequest, newId: Id, now: int)
    ensures Create(products, known, isValidId, req, newId, now).Created? <==>
            && !MissingField(req)
            && !NameTaken(products, Normalize(req.name.value))
            && (forall k :: 0 <= k < |req.categories.value| ==> CategoryOk(known, isValidId, req.categories.value[k]))
            && Cast(newId, req.name.value, req.description.value, req.quantity, req.categories.value, now).Some?
            && !IndexClash(products, Cast(newId, req.name.value, req.description.value, req.quantity, req.categories.value, now).value)
  {
    if !MissingField(req) {
      AllExistIff(req.categories.value, known, isValidId);
      GateOpensIff(products, known, isValidId, req);
    }
  }

  /** The category checks pass exactly when every id is well formed and names a category. */
  lemma AllExistIff(ids: seq<string>, known: seq<Category>, isValidId: string -> bool)
    ensures CheckCategories(ids, known, isValidId) == AllExist <==>
            forall k :: 0 <= k < |ids| ==> CategoryOk(known, isValidId, ids[k])
  {
    var k := FirstFailure(ids, known, isValidId);
    assert k < |ids| ==> !CategoryOk(known, isValidId, ids[k]);
  }

  /** Past the field check, the gate opens exactly when the name is free and the category
      checks pass. */
  lemma GateOpensIff(products: seq<Product>, known: seq<Category>, isValidId: string -> bool, req: CreateRequest)
    requires !MissingField(req)
    ensures Gate(products, known, isValidId, req) == None <==>
            !NameTaken(products, Normalize(req.name.value))
            && CheckCategories(req.categories.value, known, isValidId) == AllExist
  {
  }

  /** Once the gate lets a request through, the response is the insert's. */
  lemma CreateInserts(products: seq<Product>, known: seq<Category>, isValidId: string -> bool,
                      req: CreateRequest, newId: Id, now: int, p: Product)
    requires Gate(products, known, isValidId, req) == None
    requires Cast(newId, req.name.value, req.description.value, req.quantity, req.categories.value, now) == Some(p)
    ensures Create(products, known, isValidId, req, newId, now) ==
            if IndexClash(products, p) then ServerError else Created(p, Populate(p.categories, known))
  {
  }

  /** A created product went through the whole gate and then the insert. */
  lemma CreateAccepted(products: seq<Product>, known: seq<Category>, isValidId: string -> bool,
                       req: CreateRequest, newId: Id, now: int)
    requires Create(products, known, isValidId, req, newId, now).Created?
    ensures !MissingField(req) && Gate(products, known, isValidId, req).None?
    ensures Create(products, known, isValidId, req, newId, now) == Insert(products, known, req, newId, now)
  {
  }

  lemma InsertedProduct(products: seq<Product>, known: seq<Category>, req: CreateRequest, newId: Id, now: int)
    requires !MissingField(req)
    requires Insert(products, known, req, newId, now).Created?
    ensures var r := Insert(products, known, req, newId, now);
      && r.product.id == newId && r.product.createdAt == now
      && r.product.name == Trim(req.name.value)
      && r.product.description == Trim(req.description.value)
      && req.quantity.Castable? && r.product.quantity == req.quantity.n
      && r.product.categories == req.categories.value
      && r.populated == Populate(req.categories.value, known)
  {
  }

  /** The gate lets a request through only when every category id names a stored category. */
  lemma GateFindsCategories(products: seq<Product>, known: seq<Category>, isValidId: string -> bool,
                            req: CreateRequest)
    requires !MissingField(req) && Gate(products, known, isValidId, req) == None
    ensures forall k :: 0 <= k < |req.categories.value| ==> FindCategory(known, req.categories.value[k]).Some?
  {
    assert CheckCategories(req.categories.value, known, isValidId) == AllExist;
  }

  /** A created product carries the submitted fields (name and description trimmed, the
      quantity as cast) and the id and time the store assigns. */
  lemma CreatedProduct(products: seq<Product>, known: seq<Category>, isValidId: string -> bool,
                       req: CreateRequest, newId: Id, now: int)
    requires Create(products, known, isValidId, req, newId, now).Created?
    ensures var r := Create(products, known, isValidId, req, newId, now);
      && !MissingField(req) && req.quantity.Castable?
      && r.product.id == newId && r.product.createdAt == now
      && r.product.name == Trim(req.name.value)
      && r.product.description == Trim(req.description.value)
      && r.product.quantity == req.quantity.n
      && r.product.categories == req.categories.value
  {
    CreateAccepted(products, known, isValidId, req, newId, now);
    InsertedProduct(products, known, req, newId, now);
  }

  /** The response to a creation lists every category of the new product, in order. */
  lemma CreatedPopulated(products: seq<Product>, known: seq<Category>, isValidId: string -> bool,
                         req: CreateRequest, newId: Id, now: int)
    requires Create(products, known, isValidId, req, newId, now).Created?
    ensures var r := Create(products, known, isValidId, req, newId, now);
      && !MissingField(req)
      && |r.populated| == |req.categories.value|
      && forall k :: 0 <= k < |r.populated| ==> r.populated[k].id == req.categories.value[k] && r.populated[k] in known
  {
    CreateAccepted(products, known, isValidId, req, newId, now);
    InsertedProduct(products, known, req, newId, now);
    GateFindsCategories(products, known, isValidId, req);
  }

  /** An insert that succeeds keeps the store's invariant. */
  lemma InsertPreservesStore(products: seq<Product>, known: seq<Category>, req: CreateRequest, newId: Id, now: int)
    requires StoreValid(products)
    requires !MissingField(req)
    requires Insert(products, known, req, newId, now).Created?
    ensures StoreValid(products + [Insert(products, known, req, newId, now).product])
  {
    var p := Insert(products, known, req, newId, now).product;
    var ps := products + [p];
    forall i, j | 0 <= i < j < |ps|
      ensures ps[i].id != ps[j].id && ps[i].name != ps[j].name
    {
      if j == |products| {
        assert !(products[i].id == p.id || products[i].name == p.name);
      }
    }
  }

  /** A successful creation keeps the store's invariant. */
  lemma CreatePreservesStore(products: seq<Product>, known: seq<Category>, isValidId: string -> bool,
                             req: CreateRequest, newId: Id, now: int)
    requires StoreValid(products)
    requires Create(products, known, isValidId, req, newId, now).Created?
    ensures StoreValid(products + [Create(products, known, isValidId, req, newId, now).product])
  {
    CreateAccepted(products, known, isValidId, req, newId, now);
    InsertPreservesStore(products, known, req, newId, now);
  }

  /** The duplicate check never rejects a name the intended rule (equal after normalising
      both names) would accept: a stored name that matches the normalised candidate ignoring
      case normalises to the same string as the candidate. */
  lemma DuplicateCheckSound(products: seq<Product>, candidate: string)
    requires StoreValid(products)
    requires NameTaken(products, Normalize(candidate))
    ensures exists i :: 0 <= i < |products| && Normalize(products[i].name) == Normalize(candidate)
  {
    var n := Normalize(candidate);
    var i :| 0 <= i < |products| && EqualsIgnoreCase(products[i].name, n);
    var stored := products[i].name;
    NormalizeIsNormal(candidate);
    assert ToLower(n) == n;
    TrimOfTrimmed(stored);
    assert ToLower(stored) == n;
    CollapseOfCollapsed(n);
  }

  /** A candidate that matches a stored name up to case is refused with 400, whatever
      else the request holds. */
  lemma DuplicateRejected(products: seq<Product>, known: seq<Category>, isValidId: string -> bool,
                          req: CreateRequest, newId: Id, now: int, k: nat)
    requires !MissingField(req)
    requires k < |products| && ToLower(products[k].name) == Normalize(req.name.value)
    ensures Create(products, known, isValidId, req, newId, now) == Rejected(400, DuplicateNameMessage)
  {
    NormalizeIsNormal(req.name.value);
    assert ToLower(Normalize(req.name.value)) == Normalize(req.name.value);
    assert EqualsIgnoreCase(products[k].name, Normalize(req.name.value));
  }

  /** A stored one-character name blocks that character in either case padded with
      spaces: with "A" stored, " a " is refused as a duplicate. */
  lemma DuplicateUpToCaseAndSpaces(products: seq<Product>, known: seq<Category>, isValidId: string -> bool,
                                   req: CreateRequest, newId: Id, now: int, c: char)
    requires !IsSpace(c)
    requires |products| >= 1 && |products[0].name| == 1 && LowerChar(products[0].name[0]) == LowerChar(c)
    requires !MissingField(req) && Padded(req.name.value, c)
    ensures Create(products, known, isValidId, req, newId, now) == Rejected(400, DuplicateNameMessage)
  {
    NormalizePadded(req.name.value, c);
    assert ToLower(products[0].name) == ToLower(req.name.value[1..2]);
    DuplicateRejected(products, known, isValidId, req, newId, now, 0);
  }

  /** A stored name with a doubled space is taken for neither spelling: it is compared as
      stored, one character longer than either normal form. */
  lemma DoubledNotTaken(products: seq<Product>, a: string)
    requires |products| == 1 && SpacedTwin(a, products[0].name)
    ensures !NameTaken(products, Normalize(a))
    ensures !NameTaken(products, Normalize(products[0].name))
  {
    NormalizeSpacedTwin(a, products[0].name);
    assert |ToLower(products[0].name)| == 4;
  }

  /** Trimmed, non-empty name and description with a numeric quantity cast unchanged. */
  lemma TrimmedFieldsCast(name: string, description: string, n: int, ids: seq<Id>, newId: Id, now: int)
    requires name != [] && Trimmed(name)
    requires description != [] && Trimmed(description)
    ensures Cast(newId, name, description, Castable(n), ids, now)
            == Some(Product(newId, name, description, n, ids, now, now))
  {
    TrimOfTrimmed(name);
    TrimOfTrimmed(description);
  }

  /** With every category id good, a request whose name is not taken passes the gate. */
  lemma GateOpens(products: seq<Product>, known: seq<Category>, isValidId: string -> bool, req: CreateRequest)
    requires !MissingField(req) && !NameTaken(products, Normalize(req.name.value))
    requires forall k :: 0 <= k < |req.categories.value| ==> CategoryOk(known, isValidId, req.categories.value[k])
    ensures Gate(products, known, isValidId, req) == None
  {
    var k := FirstFailure(req.categories.value, known, isValidId);
    assert k == |req.categories.value|;
  }

  /** The stored name is compared as stored: a name kept with a doubled space does not
      block its single-spaced twin, so two products whose names normalise equal (see
      `NormalizeSpacedTwin`) can both be created. */
  lemma NormalizedTwinsAdmitted(products: seq<Product>, known: seq<Category>, isValidId: string -> bool,
                                req: CreateRequest, newId: Id, now: int)
    requires |products| == 1 && products[0].id != newId
    requires !MissingField(req) && SpacedTwin(req.name.value, products[0].name)
    requires Trimmed(req.description.value) && req.quantity.Castable?
    requires forall k :: 0 <= k < |req.categories.value| ==> CategoryOk(known, isValidId, req.categories.value[k])
    ensures var r := Create(products, known, isValidId, req, newId, now);
      r.Created? && r.product.name == req.name.value
  {
    var name := req.name.value;
    DoubledNotTaken(products, name);
    GateOpens(products, known, isValidId, req);
    var p := Product(newId, name, req.description.value, req.quantity.n, req.categories.value, now, now);
    TrimmedFieldsCast(name, req.description.value, req.quantity.n, req.categories.value, newId, now);
    CreateInserts(products, known, isValidId, req, newId, now, p);
    NoClashWithOther(products, p);
  }

  /** Resubmitting such a stored name exactly passes the duplicate check and then breaks
      the unique index on the name: the handler answers 500, not 400. */
  lemma ExactResubmitOfSpacedName(products: seq<Product>, known: seq<Category>, isValidId: string -> bool,
                                  req: CreateRequest, newId: Id, now: int, a: string)
    requires |products| == 1 && SpacedTwin(a, products[0].name)
    requires !MissingField(req) && req.name.value == products[0].name
    requires Trimmed(req.description.value) && req.quantity.Castable?
    requires forall k :: 0 <= k < |req.categories.value| ==> CategoryOk(known, isValidId, req.categories.value[k])
    ensures Create(products, known, isValidId, req, newId, now) == ServerError
  {
    var name := req.name.value;
    DoubledNotTaken(products, a);
    GateOpens(products, known, isValidId, req);
    var p := Product(newId, name, req.description.value, req.quantity.n, req.categories.value, now, now);
    TrimmedFieldsCast(name, req.description.value, req.quantity.n, req.categories.value, newId, now);
    CreateInserts(products, known, isValidId, req, newId, now, p);
    ClashWithFirst(products, p);
  }

  /** A single stored product with another id and a name of another length is no clash. */
  lemma NoClashWithOther(products: seq<Product>, p: Product)
    requires |products| == 1 && products[0].id != p.id && |products[0].name| != |p.name|
    ensures !IndexClash(products, p)
  {
    forall i | 0 <= i < |products|
      ensures products[i].id != p.id && products[i].name != p.name
    {
      assert i == 0;
    }
  }

  /** A first stored product with the same name is a clash. */
  lemma ClashWithFirst(products: seq<Product>, p: Product)
    requires |products| >= 1 && products[0].name == p.name
    ensures IndexClash(products, p)
  {
  }

  // ----- Properties of the delete handler -----

  /** Delete answers 400 for a malformed id, 404 for an id no product has, and otherwise
      removes exactly that product, so an immediate second delete answers 404. */
  lemma DeleteOutcome(products: seq<Product>, isValidId: string -> bool, id: Id)
    ensures DeleteStatus(products, isValidId, id) == 400 <==> !isValidId(id)
    ensures DeleteStatus(products, isValidId, id) == 404 <==> isValidId(id) && !HasId(products, id)
    ensures DeleteStatus(products, isValidId, id) == 200 ==>
              && !HasId(RemoveById(products, id), id)
              && DeleteStatus(RemoveById(products, id), isValidId, id) == 404
              && forall p :: p in products && p.id != id ==> p in RemoveById(products, id)
  {
    var r := RemoveById(products, id);
    forall i | 0 <= i < |r|
      ensures r[i].id != id
    {
      assert r[i] in r;
    }
  }

  /** Removing a product keeps the store's invariant. */
  lemma {:induction false} RemovePreservesStore(products: seq<Product>, id: Id)
    requires StoreValid(products)
    ensures StoreValid(RemoveById(products, id))
  {
    if products != [] {
      StoreValidTail(products);
      RemovePreservesStore(products[1..], id);
      var rest := RemoveById(products[1..], id);
      if products[0].id != id {
        HeadDistinct(products);
        ConsValid(products[0], rest);
      }
    }
  }

  /** The first product shares neither its id nor its name with any later one. */
  lemma HeadDistinct(products: seq<Product>)
    requires products != [] && StoreValid(products)
    ensures forall q :: q in products[1..] ==> q.id != products[0].id && q.name != products[0].name
  {
    forall q | q in products[1..]
      ensures q.id != products[0].id && q.name != products[0].name
    {
      var m :| 0 <= m < |products[1..]| && products[1..][m] == q;
      assert products[m + 1] == q;
    }
  }

  /** A well-formed product in front of a valid store, clashing with none of it. */
  lemma ConsValid(x: Product, rest: seq<Product>)
    requires WellFormed(x) && StoreValid(rest)
    requires forall q :: q in rest ==> q.id != x.id && q.name != x.name
    ensures StoreValid([x] + rest)
  {
    var r := [x] + rest;
    forall j | 1 <= j < |r|
      ensures r[j] == rest[j - 1] && r[j] in rest
    {
    }
  }

  lemma StoreValidTail(products: seq<Product>)
    requires products != [] && StoreValid(products)
    ensures StoreValid(products[1..])
  {
    var t := products[1..];
    assert forall i :: 0 <= i < |t| ==> t[i] == products[i + 1];
  }

  // ----- The categories handler -----

  /** Category order of `sort({ name: 1 })`. */
  predicate NameOrder(a: Category, b: Category) {
    LexLe(a.name, b.name)
  }

  lemma NameOrderIsTotalPreorder()
    ensures TotalPreorder(NameOrder)
  {
    forall x: Category, y: Category
      ensures NameOrder(x, y) || NameOrder(y, x)
    {
      LexLeTotal(x.name, y.name);
    }
    forall x: Category, y: Category, z: Category | NameOrder(x, y) && NameOrder(y, z)
      ensures NameOrder(x, z)
    {
      LexLeTransitive(x.name, y.name, z.name);
    }
  }

  /** `getCategories`: every category, ordered by name. */
  function ListCategories(known: seq<Category>): (r: seq<Category>)
    ensures |r| == |known|
  {
    Sort(known, NameOrder)
  }

  /** The category listing holds every category once per stored copy, in ascending name
      order, and its `count` is the number of categories. */
  lemma ListCategoriesSorted(known: seq<Category>)
    ensures multiset(ListCategories(known)) == multiset(known)
    ensures |ListCategories(known)| == |known|
    ensures forall i, j :: 0 <= i < j < |known| ==>
              LexLe(ListCategories(known)[i].name, ListCategories(known)[j].name)
  {
    NameOrderIsTotalPreorder();
    SortSorted(known, NameOrder);
  }
}
