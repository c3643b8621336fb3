# Product inventory: server handlers, client pages and seeding rules

A Dafny model of the core of a small product-inventory application. It has an Express and
Mongoose server, a React client and a seeding script. The model covers:

- **Product and Category records** (`ProductModel`). These are the schema's `required` and
  `trim` rules, a `quantity` that defaults to 0 and has no lower bound, and the creation
  timestamps. It also models `populate('categories', 'name')`.
- **The product handlers** (`ProductStore`). A `ProductStore` class holds the product and
  category collections as `seq` fields:
  - `createProduct` runs a gate of checks in a fixed order: required fields, the
    normalised-name duplicate check, then each category id in turn. The schema cast and
    the unique indexes follow.
  - `deleteProduct` answers 400, 404 or 200 and removes the product.
  - `getCategories` lists the categories in name order.
  Each method is proved against a pure specification function (`Gate`, `Create`,
  `DeleteStatus`, `RemoveById`), and the store invariant is kept by every operation.
- **The listing handler `getProducts`** (`Listing`). `page` and `limit` come from
  `parseInt(...) || default`. It also covers the optional case-insensitive name search, the
  `$in` category filter, newest-first order, skip/limit and the pagination figures.
- **The page strip of the client** (`Pagination`). The component's imperative construction
  of the page buttons and ellipses is proved equal to a declarative description. The lemmas
  prove the strip's shape, at most five buttons, and increasing, in-range page numbers. They
  also cover the item range and the disabled previous and next buttons.
- **The "add product" page** (`AddProduct`). This is the `AddProductPage` class with
  `handleChange`, `validateForm`, `handleSubmit` and the request body it sends.
- **The request URL of `getProducts`** (`Api`). The URL is built with `+=`. The lemmas prove
  that the server's query-string parsing reads back exactly the page, limit, search text and
  category ids the client put in. This uses `encodeURIComponent` and `decodeURIComponent`
  (`Uri`), with UTF-8 and a round-trip proof.
- **The seeding script** (`Seeder`). It covers the category map built by a `forEach` loop,
  and the ten keyword `if` blocks, modelled as a rule table pushed in order. When no rule
  matches, a fallback category is used.

Shared pieces:

- `Text` models the JavaScript string operations the core uses: `trim`, ASCII
  `toLowerCase`, `replace(/\s+/g, ' ')`, `includes`, `split`/`join`, `parseInt` and decimal
  printing.
- `Sorting` is an insertion sort under a total preorder.

## Model

| member | source | states |
|---|---|---|
| ProductModel.Cast | server/models/productModel.js:3-31 | The schema yields a document exactly when the trimmed name and description are non-empty and the quantity casts. The document then has the trimmed strings, the quantity or the default 0, the given categories and `createdAt` at `now`, and is well formed. |
| ProductModel.NoQuantityBound | server/models/productModel.js:16-26 | A negative quantity and an empty category list both pass the schema. |
| ProductModel.FindCategory | server/controllers/productController.js:43 | `findById` finds a category exactly when one with that id is stored, and returns a stored category with that id. |
| ProductModel.Populate | server/controllers/productController.js:60 | Every populated entry is a stored category. When every id resolves, the list has one entry per id, in the same order and with the same ids. |
| ProductStore.MissingField | server/controllers/productController.js:13 | The first check of `createProduct`: a name or description absent or empty, an undefined quantity, or a category list absent or empty. A quantity of 0 is present. `CreateGateOrder` proves that it answers 400 before anything else. |
| ProductStore.NameTaken | server/controllers/productController.js:20-28 | Some stored name equals the normalised candidate up to case; the stored names are compared as stored. `DuplicateCheckSound`, `DuplicateRejected` and `DoubledNotTaken` state what follows. |
| ProductStore.CheckCategories | server/controllers/productController.js:36-50 | A `Malformed` verdict names a submitted id that `isValid` refuses. An `Unknown` one names a submitted, well-formed id with no stored category. `AllExistIff` proves `AllExist` exactly when every id passes. |
| ProductStore.IndexClash | server/models/productModel.js:5-8 | The insert would break a unique index: a stored product already has the new `_id` or exactly the same name. |
| ProductStore.Gate | server/controllers/productController.js:13-50 | The checks before the insert only ever reject, with status 400 or 404. `CreateGateOrder` and `GateOpensIff` give their order and exactly when they let a request through. |
| ProductStore.Insert | server/controllers/productController.js:52-65 | The insert never answers with a client error. A product it creates is well formed and clashes with no stored product. |
| ProductStore.Create | server/controllers/productController.js:8-72 | A rejection is a 400 or a 404; a created product is well formed and clashes with no stored product. `CreatedIffAllPass` says exactly when a product is created. |
| ProductStore.FirstFailure | server/controllers/productController.js:36-50 | The category loop stops at the first id that is malformed or unknown. Every id before it passes both checks. |
| ProductStore.ProductStore.FindOneByName | server/controllers/productController.js:24-26 | The lookup finds a product exactly when a stored name equals the normalised candidate ignoring case, and returns such a product. |
| ProductStore.ProductStore.FindIndexById | server/controllers/productController.js:140 | Finds a position exactly when some product has the id; the product there has it. |
| ProductStore.ProductStore.CheckCategoryIds | server/controllers/productController.js:36-50 | The loop's verdict is that of `CheckCategories`. The first failing id decides it; a malformed id gives 400 before the category lookup, an unknown one 404. |
| ProductStore.ProductStore.Validate | server/controllers/productController.js:13-50 | The checks before the insert give exactly the rejection the gate specifies, in the gate's order. |
| ProductStore.ProductStore.CreateProduct | server/controllers/productController.js:8-72 | The response is `Create` of the old store. The product is appended only when it is created, and the store invariant (schema plus unique `_id` and name) is kept. |
| ProductStore.ProductStore.DeleteProduct | server/controllers/productController.js:129-161 | The status and message follow `DeleteStatus`: 400 for a malformed id, 404 for an absent one, 200 otherwise. Only on 200 is the product removed, and the invariant is kept. |
| ProductStore.CreateGateOrder | server/controllers/productController.js:13-50 | The checks apply in order: missing field (400), duplicate name (400), then per id malformed (400) or unknown (404). Only when all pass is the result `Created` or a 500. |
| ProductStore.CreatedIffAllPass | server/controllers/productController.js:13-65 | `Created` holds if and only if no field is missing, the name is free, every category id passes, the schema accepts the document and no unique index clashes. |
| ProductStore.AllExistIff | server/controllers/productController.js:36-50 | The category loop completes exactly when every id is well formed and names a stored category. |
| ProductStore.GateOpensIff | server/controllers/productController.js:20-50 | After the field check, the gate opens exactly when the name is free and every category passes. |
| ProductStore.GateOpens | server/controllers/productController.js:20-50 | A free name with all-good category ids passes the gate. |
| ProductStore.CreateInserts | server/controllers/productController.js:52-65 | Once the gate opens, the response is the populated product, or a 500 when a unique index clashes. |
| ProductStore.CreateAccepted | server/controllers/productController.js:13-65 | A created product passed the whole gate, and the response is the insert's. |
| ProductStore.InsertedProduct | server/controllers/productController.js:52-60 | A successful insert stores the new id and time, the trimmed name and description, the submitted quantity and category ids, and responds with their populated categories. |
| ProductStore.GateFindsCategories | server/controllers/productController.js:36-50 | Past the gate, every submitted category id names a stored category. |
| ProductStore.CreatedProduct | server/controllers/productController.js:52-65 | A created product carries the submitted fields (trimmed strings, cast quantity, ids in order), the store's id and the time. |
| ProductStore.CreatedPopulated | server/controllers/productController.js:59-65 | The 201 body lists one stored category per submitted id, in order. |
| ProductStore.InsertPreservesStore | server/controllers/productController.js:52-57 | An insert that succeeds keeps the schema and unique-index invariant. |
| ProductStore.CreatePreservesStore | server/controllers/productController.js:52-57 | A successful creation keeps the invariant. |
| ProductStore.DuplicateCheckSound | server/controllers/productController.js:20-33 | When the duplicate check reports a duplicate, some stored name normalises to the candidate's normal form, so no truly distinct name is refused. |
| ProductStore.DuplicateRejected | server/controllers/productController.js:20-33 | A candidate whose normal form is a stored name lower-cased is refused with 400 and the duplicate message, whatever else the request holds. |
| ProductStore.DuplicateUpToCaseAndSpaces | server/controllers/productController.js:20-33 | A stored one-letter name blocks that letter in the other case padded with spaces. |
| ProductStore.DoubledNotTaken | server/controllers/productController.js:20-33 | A stored name with a doubled inner space is taken for neither spelling, because stored names are compared as stored. |
| ProductStore.NormalizedTwinsAdmitted | server/controllers/productController.js:20-65 | With a doubled-space name stored, its single-spaced twin is created, so two products whose names normalise equal can coexist. |
| ProductStore.ExactResubmitOfSpacedName | server/controllers/productController.js:20-72 | Resubmitting such a stored name passes the duplicate check, then breaks the unique index: the answer is 500, not 400. |
| ProductStore.TrimmedFieldsCast | server/models/productModel.js:5-20 | Already trimmed, non-empty name and description with a numeric quantity are stored unchanged. |
| ProductStore.DeleteStatus | server/controllers/productController.js:133-154 | `deleteProduct` answers 200, 400 or 404. `DeleteOutcome` says exactly which. |
| ProductStore.DeleteMessage | server/controllers/productController.js:133-154 | The message that goes with each status: invalid id for 400, not found for 404, deleted for 200. |
| ProductStore.RemoveById | server/controllers/productController.js:149 | Removal keeps exactly the products with another id. |
| ProductStore.RemoveAbsent | server/controllers/productController.js:149 | Removing an id no product has changes nothing. |
| ProductStore.RemoveUniqueAt | server/controllers/productController.js:149 | Removing the only product with an id cuts that one position out and keeps the others in order. |
| ProductStore.RemovePreservesStore | server/controllers/productController.js:149 | Removal keeps the store invariant. |
| ProductStore.DeleteOutcome | server/controllers/productController.js:133-154 | 400 if and only if the id is malformed; 404 if and only if it is well formed and absent. After a 200 the id is gone, a second delete answers 404, and every other product remains. |
| ProductStore.NameOrderIsTotalPreorder | server/controllers/productController.js:168 | Ordering by name is total and transitive. |
| ProductStore.ListCategories | server/controllers/productController.js:166-173 | `getCategories` lists one entry per stored category. `ListCategoriesSorted` proves the listing a permutation in name order. |
| ProductStore.ListCategoriesSorted | server/controllers/productController.js:166-173 | The category listing is a permutation of the stored categories (so `count` is their number), in ascending name order. |
| Listing.NumberOr | server/controllers/productController.js:80-81 | The page or limit is never 0. It is the parsed value when that is a non-zero number, else the default. |
| Listing.NumberOrOfString | server/controllers/productController.js:80-81 | A non-zero number written in decimal is read back as itself. |
| Listing.CeilDiv | server/controllers/productController.js:113 | `Math.ceil(total / limit)`: the least page count covering the total for a positive limit, and the matching bound for a negative one. |
| Listing.CeilDivZero | server/controllers/productController.js:113 | For a positive limit there are no pages exactly when nothing matches. |
| Listing.NegativeLimitZeroPages | server/controllers/productController.js:108-113 | With a negative limit, three matches still report 0 pages. |
| Listing.SearchTerm | server/controllers/productController.js:88-89 | A search applies exactly when `search` is present and not empty, and it is the text sent. |
| Listing.FilterIds | server/controllers/productController.js:93-97 | There is no filter exactly when `categories` is absent or empty. A single string is split into at least one id, and joining the ids with commas gives the string back. An array is used as it is. |
| Listing.Matches | server/controllers/productController.js:87-97 | A product matches when its name contains the search text ignoring case, if there is a search, and one of its categories is a filter id, if there is a filter. `Filter` and `CategoryFilterIsUnion` state what the query selects. |
| Listing.NewestFirst | server/controllers/productController.js:106 | `sort({ createdAt: -1 })`: a product comes first when its `createdAt` is no earlier. `NewestFirstIsTotalPreorder` proves it a total preorder. |
| Listing.Filter | server/controllers/productController.js:85-98 | The selection holds exactly the stored products that match the search and the category filter, each at most as often as stored. |
| Listing.NewestFirstIsTotalPreorder | server/controllers/productController.js:106 | Newest-first order is a total preorder. |
| Listing.Window | server/controllers/productController.js:107-108 | `skip`/`limit` keep the items from `skip` on, at most `limit` of them, in order. |
| Listing.PopulateAll | server/controllers/productController.js:105 | Each listed product keeps its fields and gets its populated categories. |
| Listing.List | server/controllers/productController.js:77-124 | On success, `count` is the number of listed products. It is at most `totalProducts`, which is at most the number of stored products. `ListFigures` and `ListData` state the rest of the response. |
| Listing.ListFigures | server/controllers/productController.js:77-124 | A 500 occurs exactly for a malformed filter id or a negative skip. Otherwise `count` is the data's length and at most the limit. `totalProducts` counts all matches, `currentPage` echoes the page and `totalPages` is their ceiling; for a positive limit it is 0 exactly when nothing matches. |
| Listing.WindowSorted | server/controllers/productController.js:106-108 | A window of a sorted result is sorted. |
| Listing.ListData | server/controllers/productController.js:101-116 | The listed products are the selected window of the matches, newest first; each is a stored product that matches the query. |
| Listing.ListedWindow | server/controllers/productController.js:104-108 | The skip is not negative, and the data is the window of the ordered matches. |
| Listing.WindowMembers | server/controllers/productController.js:97-108 | Every product of a window is stored and matches. |
| Listing.SkipPastLast | server/controllers/productController.js:82 | A page past the last one skips every match. |
| Listing.PagePastLastIsEmpty | server/controllers/productController.js:80-116 | Asking for a page past the last returns no data. |
| Listing.PagesArePrefix | server/controllers/productController.js:82-108 | The first `n` pages together are the first `n * limit` matches. |
| Listing.PagesCoverMatches | server/controllers/productController.js:80-113 | Paging from 1 to `totalPages` yields every match exactly once, in order. |
| Listing.CategoryFilterIsUnion | server/controllers/productController.js:93-97 | Filtering by a concatenated id list selects what either part selects. |
| Pagination.Range | client/src/components/Pagination.jsx:10-12 | The buttons `lo` to `hi` in order, none when `lo > hi`. |
| Pagination.WindowStart | client/src/components/Pagination.jsx:18-29 | The first page of the window: one before the current page and at least 2, moved back to leave three pages before the last when the current page is near the end. `WindowBounds` proves the window within range. |
| Pagination.WindowEnd | client/src/components/Pagination.jsx:19-24 | The last page of the window: one after the current page and at most the last page but one, moved forward to page 4 when the current page is near the start. |
| Pagination.PageEntries | client/src/components/Pagination.jsx:4-48 | The strip as a description: every page when there are at most five, else page 1, an optional ellipsis, the window, an optional ellipsis and the last page. `ManyPagesShape`, `PagesIncreasing`, `AtMostFiveButtons` and `CurrentPageShown` state its properties. |
| Pagination.VisibleRange | client/src/components/Pagination.jsx:17-29 | The adjusted window equals `WindowStart`/`WindowEnd`. |
| Pagination.PushPages | client/src/components/Pagination.jsx:37-39 | The loop appends exactly the buttons `lo` to `hi`. |
| Pagination.PageNumbers | client/src/components/Pagination.jsx:4-48 | The strip built by pushing equals the declarative `PageEntries`. |
| Pagination.NumCountRange | client/src/components/Pagination.jsx:10-12 | A range of `k` pages has `k` buttons. |
| Pagination.FewPagesAllShown | client/src/components/Pagination.jsx:8-12 | With at most five pages, the strip is pages 1 to `totalPages`, with no ellipsis. |
| Pagination.WindowBounds | client/src/components/Pagination.jsx:17-29 | With more than five pages, the window lies within 2 to `totalPages - 1` and spans one to three pages. |
| Pagination.ManyPagesShape | client/src/components/Pagination.jsx:13-48 | The strip starts with page 1 and ends with the last page. An ellipsis follows page 1 if and only if the window starts after page 2, and precedes the last page if and only if the window ends before the page before it. |
| Pagination.PagesIncreasing | client/src/components/Pagination.jsx:4-48 | Page buttons lie within 1 to `totalPages` and strictly increase. |
| Pagination.AtMostFiveButtons | client/src/components/Pagination.jsx:4-48 | At most five page buttons are shown. |
| Pagination.CurrentPageShown | client/src/components/Pagination.jsx:4-48 | A valid current page always has its button. |
| Pagination.PreviousDisabled | client/src/components/Pagination.jsx:62-64 | "Previous" is disabled on page 1. |
| Pagination.NextDisabled | client/src/components/Pagination.jsx:93-95 | "Next" is disabled on the last page. |
| Pagination.DisabledAtEnds | client/src/components/Pagination.jsx:62-104 | "Previous" is disabled exactly when the current page is the strip's first button; "next" exactly when it is the last. |
| Pagination.StartItem | client/src/components/Pagination.jsx:51 | The first item shown is the one after the previous pages' items. |
| Pagination.EndItem | client/src/components/Pagination.jsx:51-52 | The last item shown is the page's end or the total, whichever is smaller. |
| AddProduct.Blank | client/src/pages/AddProduct.jsx:58-64 | A text of white space only, for which `!s.trim()` holds (`BlankIffTrimmedEmpty`). |
| AddProduct.BlankAllSpace | client/src/pages/AddProduct.jsx:58-63 | A text is blank exactly when all its characters are white space. |
| AddProduct.BlankIffTrimmedEmpty | client/src/pages/AddProduct.jsx:58-63 | `!s.trim()` holds exactly for the blank texts. |
| AddProduct.TrimsToEmpty | client/src/pages/AddProduct.jsx:58-63 | `!value.trim()` is true exactly for blank texts. |
| AddProduct.QuantityOk | client/src/pages/AddProduct.jsx:66-70 | A quantity passes when it is not empty, is a number and is not negative. |
| AddProduct.ErrorFor | client/src/pages/AddProduct.jsx:55-75 | The message for one field, if any: a blank name or description, an empty quantity, a quantity that is not a non-negative number, or no selected category. |
| AddProduct.FormOk | client/src/pages/AddProduct.jsx:55-78 | The form may be submitted: every field rule holds. `NoErrorsIffFormOk` proves it equivalent to an empty error map. |
| AddProduct.ValidateForm | client/src/pages/AddProduct.jsx:55-78 | The error map holds exactly the fields in error, each with its message; the form is valid exactly when the map is empty. |
| AddProduct.NoErrorsIffFormOk | client/src/pages/AddProduct.jsx:55-78 | No errors if and only if the name and description are not blank, the quantity is non-empty, numeric and non-negative, and a category is selected. |
| AddProduct.ZeroQuantityAccepted | client/src/pages/AddProduct.jsx:66-70 | A quantity of "0" is accepted. |
| AddProduct.QuantityMessages | client/src/pages/AddProduct.jsx:66-70 | An empty quantity gets "required"; a negative number gets "must be a positive number". |
| AddProduct.SetInput | client/src/pages/AddProduct.jsx:45-47 | The edited input takes the typed text, and the other inputs keep theirs. |
| AddProduct.ClearError | client/src/pages/AddProduct.jsx:49-52 | The edited field's error is emptied (the key stays) and every other entry is untouched. |
| AddProduct.TypingKeepsCategoriesError | client/src/pages/AddProduct.jsx:45-53 | Typing never changes whether the categories error is shown. |
| AddProduct.ClearErrorShown | client/src/pages/AddProduct.jsx:45-53 | After typing, the errors shown are those shown before, less the edited field's own. |
| AddProduct.Payload | client/src/pages/AddProduct.jsx:89-97 | The body carries the name and description as typed, `Number(quantity)` (NaN as an uncastable value) and the selected ids in order. |
| AddProduct.ValidPayloadAccepted | client/src/pages/AddProduct.jsx:80-97 | A body from a valid form passes the server's required-field check and the schema, with a non-negative quantity. |
| AddProduct.AddProductPage.HandleChange | client/src/pages/AddProduct.jsx:45-53 | The form gets the typed text, the field's error is cleared and the selection is unchanged. |
| AddProduct.AddProductPage.SelectCategories | client/src/pages/AddProduct.jsx:187-190 | The new selection replaces the old one; form and errors are unchanged. |
| AddProduct.AddProductPage.HandleSubmit | client/src/pages/AddProduct.jsx:80-97 | The page's error map becomes the validation result. A request is produced exactly when the form is valid, and it is the payload. |
| Api.Values | client/src/services/api.js:21 | The ids of the selected options, in order. |
| Api.ProductsUrl | client/src/services/api.js:13-23 | The URL built by `+=` equals the path, `?` and the `&`-join of the parameters: page and limit always, the encoded search when there is one, the comma-joined ids when any are selected. |
| Api.Params | client/src/services/api.js:13-23 | The parameters in URL order: page and limit, then the encoded search if there is one, then the comma-joined ids if any are selected. |
| Api.Url | client/src/services/api.js:13-23 | The path, `?` and the `&`-join of the parameter fields. `ProductsUrl` proves the `+=` construction equal to it. |
| Api.UrlStart | client/src/services/api.js:14 | The template literal is the join of the page and limit fields. |
| Api.UrlGrows | client/src/services/api.js:16-23 | Appending `&key=value` adds one field to the join. |
| Api.Lookup | server/controllers/productController.js:80-98 | A value is found under a key exactly when some parameter has that key. |
| Api.ParseField | server/controllers/productController.js:80-98 | How `req.query` reads one field. A field with a `]=` ends its key at the first `]=`; any other field ends it at the first `=`. Both sides are then decoded. `ParseFieldOf` proves that a field the client wrote reads back as intended, and `BracketEqualsEndsKey` that a `]=` moves the split. |
| Api.BracketEqualsEndsKey | server/controllers/productController.js:80-98 | A field `key=a]=b`, with no `]` in `key` or `a`, is read as the key `key=a]` with the value `b`. |
| Api.BracketEqualsDropsFilter | server/controllers/productController.js:93-98 | A `categories` field whose value holds a `]=` reaches the handler as no `categories` parameter at all, so no category filter applies. |
| Api.ToListQuery | server/controllers/productController.js:80-98 | The parameters the listing handler reads: the first value of `page`, `limit`, `search` and `categories`. `HandlerPageLimit`, `HandlerSearch` and `HandlerCategories` state what it receives. |
| Api.ParseQuery | server/controllers/productController.js:80-98 | One parsed parameter per `&`-separated field, in order. |
| Api.QueryOfUrl | client/src/services/api.js:14 | The query part of the URL is what follows `/products?`. |
| Api.NumberTravels | client/src/services/api.js:14 | A decimal page or limit is read back as written. |
| Api.SearchTravels | client/src/services/api.js:17 | The encoded search text is read back as the text typed. |
| Api.IdsTravel | client/src/services/api.js:21-22 | Joined plain ids are read back unchanged. A plain id has no `&`, `,`, `%`, `+`, `]` or `#`. |
| Api.ParseJoinedFields | client/src/services/api.js:13-23 | Fields that each survive decoding are read back, in order. |
| Api.ServerReadsParams | client/src/services/api.js:13-23 | The server reads back exactly the client's parameters, with the search text decoded to what was typed. |
| Api.ServerRecoversIds | client/src/services/api.js:20-22 | The listing handler splits the joined ids back into the selected ids; no selection means no filter. |
| Api.LookupPageLimit | server/controllers/productController.js:80-81 | Page and limit are found under their own names. |
| Api.LookupSearch | server/controllers/productController.js:88 | The search is found exactly when one was sent. |
| Api.LookupCategories | server/controllers/productController.js:93 | The joined ids are found exactly when a category was selected. |
| Api.HandlerPageLimit | server/controllers/productController.js:80-81 | The handler uses the client's page and limit; a 0 falls back to the default. |
| Api.HandlerSearch | server/controllers/productController.js:88-90 | The handler searches for the typed text, and only when there is one. |
| Api.HandlerCategories | server/controllers/productController.js:93-96 | The handler receives the joined ids as one string, or nothing. |
| Uri.HexRoundTrip | client/src/services/api.js:17 | A hexadecimal digit written by the encoder reads back as its value. |
| Uri.Utf8 | client/src/services/api.js:17 | A character encodes to one to four bytes, one exactly for ASCII. |
| Uri.PercentAll | client/src/services/api.js:17 | Three characters per byte. |
| Uri.EncodedCharacters | client/src/services/api.js:17 | The encoding writes only unreserved characters and `%`, so no `&`, `=`, `+` or `,` reaches the query string. |
| Uri.DecodeUtf8 | client/src/services/api.js:17 | The UTF-8 bytes of a character decode back to it. |
| Uri.DecodeEncodedChar | client/src/services/api.js:17 | Decoding undoes the encoding of one character, whatever follows it. |
| Uri.EncodeURIComponent | client/src/services/api.js:17 | `encodeURIComponent`: unreserved characters as they are, every other character as the `%XX` form of its UTF-8 bytes. `EncodedCharacters` and `DecodeEncode` state its properties. |
| Uri.DecodeURIComponent | client/src/services/api.js:17 | `decodeURIComponent`, with `None` where it throws: `%XX` sequences read as UTF-8, malformed ones refused. `DecodeEncode` proves it the inverse of the encoding. |
| Uri.QueryDecode | client/src/services/api.js:17 | How the query-string parser decodes a value: `+` as a space, then percent-decoding; when that fails, the text with its `+` already read as spaces. `QueryDecodeEncode` proves it recovers an encoded value. |
| Uri.DecodeEncode | client/src/services/api.js:17 | `decodeURIComponent(encodeURIComponent(s)) == s`. |
| Uri.PlainDecodes | client/src/services/api.js:22 | Text without `%` or `+` decodes to itself. |
| Uri.QueryDecodeEncode | client/src/services/api.js:17 | The query-string decoding recovers an encoded value exactly. |
| Text.Trim | server/controllers/productController.js:21 | `s.trim()`: leading and trailing white space removed. `TrimIsTrimmed`, `TrimEmptyIff` and `TrimOfTrimmed` state its properties. |
| Text.TrimStart | server/controllers/productController.js:21 | Drops exactly the leading white space. |
| Text.TrimEnd | server/controllers/productController.js:21 | Drops exactly the trailing white space. |
| Text.TrimIsTrimmed | server/controllers/productController.js:21 | A trimmed text has no white space at either end, and is no longer than the original. |
| Text.TrimEmptyIff | client/src/pages/AddProduct.jsx:58 | The trim is empty exactly when the text is all white space. |
| Text.TrimOfTrimmed | server/models/productModel.js:9 | Trimming a trimmed text changes nothing. |
| Text.ToLower | server/controllers/productController.js:21 | Lower-cases each character, keeping the length and the white space. |
| Text.ToLowerIsLower | server/controllers/productController.js:21 | The result is lower case. |
| Text.Collapse | server/controllers/productController.js:21 | Each run of white space becomes one space; it keeps the first and last characters when they are not white space. |
| Text.CollapseSingleSpaced | server/controllers/productController.js:21 | The result has only single spaces as white space. |
| Text.CollapseKeepsLower | server/controllers/productController.js:21 | Collapsing keeps lower case. |
| Text.CollapseKeepsTrimmed | server/controllers/productController.js:21 | Collapsing keeps a text trimmed. |
| Text.CollapseOfCollapsed | server/controllers/productController.js:21 | Collapsing a single-spaced text changes nothing. |
| Text.Normalize | server/controllers/productController.js:21 | `name.trim().toLowerCase().replace(/\s+/g, ' ')`. `NormalizeIsNormal` and `NormalizeIdempotent` prove that it yields the normal form and is idempotent. |
| Text.EqualsIgnoreCase | server/controllers/productController.js:24-26 | The anchored regular expression with the `i` flag: equality once both sides are lower-cased. |
| Text.ContainsIgnoreCase | server/controllers/productController.js:89 | The unanchored `$regex` with the `i` option: the lower-cased search text occurs in the lower-cased name. |
| Text.NormalizeIsNormal | server/controllers/productController.js:21 | The normalised name is trimmed, lower case and single-spaced. |
| Text.NormalFormIsFixed | server/controllers/productController.js:21 | A name already in normal form is unchanged. |
| Text.NormalizeIdempotent | server/controllers/productController.js:21 | Normalising twice is normalising once. |
| Text.NormalizePadded | server/controllers/productController.js:21 | One character padded with spaces normalises to that character in lower case. |
| Text.NormalizeTwoWords | server/controllers/productController.js:21 | Two one-letter words with one space normalise to their lower case. |
| Text.NormalizeSpacedTwin | server/controllers/productController.js:21 | A name and its doubled-space twin have the same normal form. |
| Text.Split | server/controllers/productController.js:96 | At least one part, and none contains the separator. |
| Text.SplitJoin | server/controllers/productController.js:96 | Splitting the join of separator-free parts gives the parts back. |
| Text.JoinSplit | server/controllers/productController.js:96 | Joining the parts of a split gives the text back. |
| Text.DigitPrefix | server/controllers/productController.js:80-81 | The longest prefix of digits. |
| Text.DigitsValueOfDigits | server/controllers/productController.js:80-81 | A decimal numeral reads back as its value. |
| Text.ParseInt | server/controllers/productController.js:80-81 | `parseInt(s, 10)`: leading white space skipped, an optional sign, then the longest run of digits; `None` for `NaN`. `ParseIntToString` proves that it reads printed integers back. |
| Text.ParseIntToString | server/controllers/productController.js:80-81 | `parseInt` of a printed integer is that integer. |
| Text.IntToString | client/src/services/api.js:14 | The template literal prints an integer with decimal digits and a leading minus only. |
| Text.LexLeTotal | server/controllers/productController.js:168 | Name order is total. |
| Text.LexLeTransitive | server/controllers/productController.js:168 | Name order is transitive. |
| Sorting.Insert | server/controllers/productController.js:106 | Insertion adds the item once and keeps every other. |
| Sorting.Sort | server/controllers/productController.js:106 | The sort is a permutation. |
| Sorting.InsertSorted | server/controllers/productController.js:106 | Inserting into a sorted sequence keeps it sorted. |
| Sorting.SortSorted | server/controllers/productController.js:106 | The sort's result is sorted. |
| Seeder.RulesFollowCategories | server/seeder.js:315-418 | The ten rules name the ten seeded categories, in creation order. |
| Seeder.CategoryMapOf | server/seeder.js:305-308 | The map's keys are exactly the created categories' names. |
| Seeder.BuildCategoryMap | server/seeder.js:305-308 | The `forEach` loop builds exactly that map. |
| Seeder.MapsToLastId | server/seeder.js:305-308 | A name maps to the id of its last occurrence. |
| Seeder.DistinctNamesMapped | server/seeder.js:305-308 | With distinct names, each category's name maps to its own id. |
| Seeder.MappedIdExists | server/seeder.js:305-308 | Every mapped id is the id of a created category with that name. |
| Seeder.MatchesRule | server/seeder.js:315-418 | One `if` condition: the name contains one of the rule's keywords. |
| Seeder.Matched | server/seeder.js:315-418 | The positions of every rule the name matches. `MatchedUpTo` and `MatchedUpToIff` prove them increasing and exactly the matching rules. |
| Seeder.MatchedUpTo | server/seeder.js:315-418 | Matched rule positions are below the bound and strictly increasing. |
| Seeder.MatchedUpToIff | server/seeder.js:315-418 | A rule position is listed exactly when the name contains one of its keywords. |
| Seeder.IdsAt | server/seeder.js:315-418 | One mapped category id per matched rule, in rule order. |
| Seeder.PushMatched | server/seeder.js:315-418 | The `if` blocks push exactly the ids of the matched rules, in order. |
| Seeder.Assigned | server/seeder.js:311-424 | The categories a product receives: the ids of the matched rules, or the fallback category's id when none matches. `NeverEmpty` and `AssignedByKeywords` state its properties. |
| Seeder.AssignCategories | server/seeder.js:311-424 | The callback's list is the matched ids, or the fallback's id when none matched. |
| Seeder.NeverEmpty | server/seeder.js:420-424 | Every product receives at least one category; with no match, exactly the fallback. |
| Seeder.AssignedByKeywords | server/seeder.js:315-418 | With some match, the product gets the matched rules' categories, each once, in rule order, and no others. |
| Seeder.NikeAirMax | server/seeder.js:328-377 | "Nike Air Max" matches both Clothing and Sports. |
| Seeder.NintendoSwitch | server/seeder.js:315-367 | "Nintendo Switch" matches both Electronics and Toys & Games. |
| Seeder.WithCategories | server/seeder.js:311-430 | Each seeded product keeps its name, description and quantity and gets its assigned categories. |
| Seeder.AssignedIdsExist | server/seeder.js:311-424 | Every id assigned to a product is a created category's id. |
| Seeder.SeededIdsExist | server/seeder.js:305-430 | Every category reference of every seeded product names a created category. |
| Seeder.MapCoversNames | server/seeder.js:305-308 | When the created categories carry a list of names in order and the rules name those categories, the map has every rule's category and every one of the names. |
| Seeder.SeedMapCovers | server/seeder.js:301-308 | The seeder's own map, built from the ten seeded categories, has every rule's category and every name the random fallback is drawn from. This meets `AssignCategories`'s precondition. |

## Left out

- Network and framework plumbing are not modelled: Express routing, the JSON bodies, axios, React rendering, toasts, navigation and the loading spinner. The response status is part of each response value.
- The `catch` branches that turn a database or network failure into a 500 are left out. The model has these 500s: a schema cast failure, a unique-index clash, a malformed filter id and a negative skip. The inputs below also raise 500s, or are read differently, and are not modelled.
- A `name` in the request body that is not a string (a number, boolean, array or object) makes `name.trim()` throw (productController.js:21), and the handler answers 500. `CreateRequest` holds names as strings only.
- A repeated `page`, `limit` or `search` query parameter arrives as an array. `parseInt` then reads the array's first element as text, and an array `$regex` makes the query fail with a 500. `Api.Lookup` keeps the first value only, and `ListQuery` holds these parameters as single strings.
- JavaScript numbers are doubles: a `page` or `limit` beyond 2^53 loses precision, and so do `skip` and `totalPages` computed from it. The model's integers are exact.
- `mongoose.Types.ObjectId.isValid` is an uninterpreted predicate `isValidId`, and ids are strings that compare exactly. The database first casts an id to an ObjectId, so two spellings of the same hex id, such as upper-case and lower-case, are one id there. The members that compare ids are listed below.
- ProductModel.FindCategory: compares ids as exact strings. `findById` (productController.js:43) casts the id, so a case variant of a stored category's hex id finds it in the source but not in the model.
- ProductStore.DeleteStatus: `HasId` compares ids as exact strings. `findById` and `findByIdAndDelete` (productController.js:140, 149) cast the id, so a case variant of a stored product's hex id gets 200 in the source and 404 in the model.
- ProductStore.ProductStore.FindIndexById: compares ids as exact strings, where `findById` (productController.js:140) compares cast ObjectIds.
- ProductStore.Create: a product keeps its category ids as submitted. The source stores the cast ObjectIds, so a later filter with another spelling of the same hex id matches it there.
- Listing.Matches: `$in` (productController.js:97) compares cast ObjectIds, and the model compares exact strings.
- The client's `Number(...)` is a parameter `toNumber`, and `isNaN` is its `None`.
- The store assigns a new document's `_id` and `createdAt`; both are parameters.
- `Math.random` in the seeder becomes the given fallback category name.
- The `products` sample data of the seeder is a parameter; its ten categories are constants.
- Concurrency is not modelled. The duplicate check and the insert are one atomic step, so the race between two creations is not modelled.
- The text index on `name` only speeds up searches and is left out.
- Case folding is ASCII only. `\s` is JavaScript's white-space class restricted to the characters `IsSpace` lists.
- Regular-expression metacharacters in a normalised name or a search text are treated as literal characters. The source builds a RegExp from them, so such names may match differently or throw.
- Quantities are integers, so fractional numbers are not modelled.
- Uri.EncodeURIComponent: strings are sequences of Unicode code points. JavaScript strings are UTF-16 code units, and a lone surrogate in the search text makes `encodeURIComponent` throw (api.js:17), so no request is sent. The model cannot express that input.
- Api.ParseField: keys are kept as flat text. The query parser also turns a key with brackets (`a[b]`, `a[]`) into a nested object or an array. The client's four keys have no brackets.
- A repeated `categories` query parameter (an array) is modelled in `Listing.FilterIds`. The client never sends one, so `Api` does not produce it.
- Products with the same `createdAt`, and categories with the same name, keep their stored order in the model. The database's sort gives no order for such ties.
- Seeder.AssignCategories: requires that the map has every rule's category and the fallback's name. The source would otherwise push `undefined`. `SeedMapCovers` proves that the seeder's own map has both.
- `categories.length === 0` in `createProduct` and the client's category count use the model's sequence length. JavaScript values that are not arrays are not modelled.
- Listing: category ids in a filter reach the query without validation. A malformed one raises a cast error, and the handler answers 500 (productController.js:93-98, 118-122).
