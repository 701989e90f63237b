# Bites Plus food-listing server: a Dafny model

The Bites Plus server (`index.js`) is an Express/MongoDB service. Donors list surplus food there, and
requesters browse listings and claim them. This project models the part of its route handlers that
holds the repository's own logic:

- **the field projection** of `GET /food/:id`: which fields a viewer sees;
- **the query resolution** of `GET /foods`: which listings a query selects, including the featured
  aggregation pipeline (keep Available, rank by quantity, limit 6, drop the helper field);
- **the collection writes** of `POST /food`, `PUT /food/:id`, `PATCH /food/:id` and `DELETE /food/:id`.

The food collection is a class, `Store.FoodCollection`. Its field `docs` maps each `_id` to a
document, and a document is a map from field name to value. Its field `order` lists the `_id`s in the
store's natural order, taken to be insertion order; a find or an aggregation scans in that order. The write
handlers are methods that change these fields. The two read handlers are functions of the state.

Projection choice, intent resolution and the featured pipeline are pure functions. Each is built
from small pieces that map onto the code: an exclusion projection is map subtraction, `$match` is
`Seqs.Filter`, `$sort` is a stable insertion sort, `$limit` is a prefix and `$project` removes a key.

Modules: `Documents` (values, documents, field names, query-parameter truthiness), `Seqs`,
`Projection`, `JsNumber` (JavaScript's `filter != 0` for a string), `Intent`, `Featured`, `Lifecycle`
(the document changes of `$set` and of a cancel) and `Store`.

Behaviours of the code that a reader might not expect, all kept in the model:

- The detail projection keeps `donatorPhotoURL`, `donatorEmail` and `donatorName`. It removes only
  `additionalNotes`, `donatorUID` and `_id`.
- `POST /food` stores the body as sent. It does not set `foodStatus` to Available and does not
  reject requester fields.
- Nothing guards a request on a listing that is already Requested. A request is simply a `PUT`.
  `Lifecycle.RerequestKeepsOldNote` shows that such a second request can keep the first requester's
  note.
- The ownership check on `GET /foods` is commented out (index.js:120-121), and there is none on the
  writes.
- Only a cancel establishes "requester fields present exactly when Requested".
  `Lifecycle.SetFieldsCanBreakConsistency` shows that a `PUT` can break it.

## Model

| member | source | states |
|---|---|---|
| `Projection.Project` | index.js:92-109 | the projected listing has exactly the stored fields minus those the view excludes, each with its stored value |
| `Projection.ChooseView` | index.js:93 | the detail projection is chosen exactly when `details` or `request` is truthy (present and non-empty); exactly then the donor's e-mail is shown and `_id` is withheld |
| `Projection.BrowseHidesDonor` | index.js:101-109 | the browse view never has donatorEmail, donatorName, donatorUID or donatorPhotoURL; every other field, `_id` included, is kept unchanged |
| `Projection.DetailHidesNotesAndId` | index.js:93-100 | the detail view has no additionalNotes, donatorUID or `_id`; all other fields are kept, the donor's photo, e-mail and name among them |
| `Projection.NoViewShowsIdWithContact` | index.js:92-109 | no view shows both `_id` and donatorEmail, and no view shows donatorUID |
| `Store.FoodCollection.GetFood` | index.js:87-112 | an unknown id gives null; a known one gives its listing under the projection the query parameters choose |
| `Intent.BrowseSort` | index.js:159 | a browse asks for an expireDate sort exactly when `filter != 0` holds in JavaScript (an absent filter is undefined, and `undefined != 0` holds), with the raw filter as the direction |
| `Intent.Resolve` | index.js:125-160 | featured iff `featured` is truthy; otherwise donor query iff `email` truthy and `request` not; otherwise requester query iff `request` truthy; otherwise public browse; each carries the right parameters |
| `Intent.FeaturedIgnoresTheRest` | index.js:125-150 | any two queries with a truthy `featured` resolve alike, whatever their email, request, search and filter |
| `Intent.SearchAndFilterOnlyBrowse` | index.js:151-160 | search and filter change nothing unless the query is a public browse |
| `Intent.FilterExamples` | index.js:159 | `filter=0` and an empty filter leave the browse unsorted; `filter=asc`, `desc`, `1` and `-1` sort it |
| `Intent.DonatorQueryIgnoresStatus` | index.js:152 | the donor query selects the donor's listings whatever their status, Requested ones included |
| `Intent.Selects` | index.js:152-158 | a donor query selects exactly the listings whose donatorEmail is the e-mail, a requester query those whose requesterEmail is; a public browse selects a listing exactly when it is Available and its foodName matches the search term, never a Requested one |
| `JsNumber.LooselyEqualsZero` | index.js:159 | a blank filter equals 0; any filter that equals 0 is blank or has a 0 digit in its trimmed text |
| `JsNumber.ZeroLiteralHasZeroDigit` | index.js:159 | every decimal or 0x/0o/0b numeral that denotes zero contains the digit 0 |
| `JsNumber.WhiteSpaceIsIgnored` | index.js:159 | surrounding white space never changes whether a filter value compares equal to 0 |
| `JsNumber.WordIsNotZero` | index.js:159 | a filter value that does not start like a number (such as asc or desc) is never equal to 0, so the sort applies |
| `Seqs.Filter` | index.js:128-132 | a `$match` or find filter keeps only elements that satisfy the condition and keeps all of them; nothing is added |
| `Seqs.FilterCount` | index.js:128-132 | each element that satisfies the condition is kept as many times as it occurs; the others not at all |
| `Seqs.FilterAppend` | index.js:128-132 | filtering a concatenation is concatenating the filtered parts, so the kept elements keep their relative order |
| `Featured.SortByRank` | index.js:138-140 | the `$sort` stage returns a permutation of its input ranked by non-increasing quantity key |
| `Featured.DropHelper` | index.js:144-148 | the `$project` stage removes numericQuantity and keeps every other field unchanged |
| `Featured.FeaturedListings` | index.js:125-150 | the featured result has at most 6 listings, all Available, none with numericQuantity, ordered by non-increasing quantity key |
| `Featured.TopAvailable` | index.js:128-143 | after `$match`, `$sort` and `$limit` there are at most 6 listings, ranked, each a stored Available listing and none kept more often than it is stored |
| `Featured.FeaturedAreStoredListings` | index.js:127-148 | each featured listing is a stored Available listing with only the helper field removed |
| `Featured.FeaturedIsTopSix` | index.js:127-143 | an Available listing left out ranks no higher than every listing kept, and one is left out only when 6 are returned; fewer than 6 means all Available listings |
| `Store.FoodCollection.ListFoods` | index.js:114-164 | featured returns the pipeline over the scan; otherwise the rows are the scan filtered by the resolved query, in scan order and with multiplicity, so exactly the stored listings it selects; a browse carries its sort |
| `Store.FoodCollection.Scan` | index.js:161 | a scan lists the stored listings in natural order, every stored listing and no other |
| `Store.InsertKey` | index.js:169 | a body that carries an `_id` is stored under it exactly as sent; one without gets the generated `_id` |
| `Store.FoodCollection.InsertOne` | index.js:167-171 | a duplicate `_id` is refused with the store unchanged; otherwise the body is stored as sent under its `_id`, appended to the natural order, and no other listing changes |
| `Store.ScanAfterInsert` | index.js:169 | a new listing comes last in the scan and the others keep their places |
| `Store.InsertKeepsWellFormed` | index.js:169 | after an insert every listing still carries its own key as `_id`, each listed once in the order |
| `Lifecycle.SetFields` | index.js:178-181 | `$set`: every patched field takes the patch's value; unpatched fields keep theirs; no field disappears |
| `Store.PutModifiesIff` | index.js:181 | a PUT reports modifiedCount 0 exactly when every patched field is already stored with the patch's value |
| `Store.CancelModifiesIff` | index.js:193 | a cancel reports modifiedCount 0 exactly when the listing is Available and has no requestDate, requesterEmail or requesterNote |
| `Store.FoodCollection.UpdateFields` | index.js:174-183 | an unknown id matches nothing and changes nothing; a patch that would change `_id` is refused; otherwise only that listing changes, to the merge, and modifiedCount says whether it changed |
| `Lifecycle.Cancelled` | index.js:189-192 | after a cancel the status is Available, requestDate, requesterEmail and requesterNote are absent, and every other field is unchanged |
| `Store.FoodCollection.CancelRequest` | index.js:186-195 | an unknown id changes nothing; otherwise only that listing changes, to its cancelled form |
| `Lifecycle.CancelIdempotent` | index.js:189-192 | cancelling twice gives the same listing as cancelling once |
| `Store.CancelTwice` | index.js:186-195 | two cancels in a row leave the store and its order as one cancel does; the second matches the listing and reports modifiedCount 0 |
| `Lifecycle.CancelOfAvailableIsNoOp` | index.js:189-192 | a cancel leaves an Available listing without requester fields as it was |
| `Lifecycle.CancelEstablishesConsistency` | index.js:189-192 | whatever the listing's state, after a cancel the requester fields are present exactly when it is Requested |
| `Lifecycle.RequestAfterCancelHasNoResidue` | index.js:174-195 | after a cancel and then a request, each requester field is present exactly when the new patch sets it, with the patch's value |
| `Lifecycle.RerequestKeepsOldNote` | index.js:174-183 | with no cancel between, a second request on a Requested listing goes through and keeps the old requesterNote if the patch omits it |
| `Lifecycle.SetFieldsCanBreakConsistency` | index.js:178-181 | a `$set` can give an Available listing a requester e-mail, breaking the request relation |
| `Store.FoodCollection.DeleteOne` | index.js:198-203 | only the listing with that `_id` is removed, from the map and from the natural order; an unknown id changes nothing; deletedCount is 1 or 0 |
| `Seqs.Without` | index.js:201 | removing a key from the order drops every copy of it, keeps every copy of every other key, and keeps a distinct order distinct |
| `Seqs.WithoutAppend` | index.js:201 | removing a key works piecewise on a concatenation, so the other keys keep their relative order |
| `Store.DeleteKeepsWellFormed` | index.js:201 | after a delete every listing still carries its own key as `_id`, each listed once in the order |
| `Store.ScanSeesAll` | index.js:161 | a scan of a well-formed store meets every stored listing |

## Left out

- Express setup, CORS, the cookie options, the port listener and the root route (index.js:1-29, 213-220): transport plumbing.
- `verifyToken`, `/signin` and `/signout` (index.js:32-42, 66-83): these are JWT and cookie library calls. `verifyToken` is attached to no route.
- The MongoClient connection and the `run()` wrapper (index.js:45-62, 204-212): I/O. Store failures and `res.send` are not modelled. Handlers return their results.
- `new ObjectId(id)` (index.js:91, 176, 188, 200): ids are opaque `Value`s, so malformed id strings and their parse errors are not modelled.
- `Featured.Rank`: `$toDouble` of foodQuantity is an abstract integer key of the field's value (absent or present). Floating point is not modelled. Neither is the store's error on text that does not parse.
- `Featured.SortByRank`: MongoDB's `$sort` does not promise an order among equal keys. The model keeps the scan order. What is proved (ranked, a permutation, the top six) holds for any order of ties.
- `Intent.Selects`: the case-insensitive `$regex` on foodName is an abstract predicate, `searchMatches(search, foodName)`, of the `search` parameter and the foodName value. Regular-expression matching is not modelled. With `search` absent the filter is `$regex: undefined`; what the driver sends for that and what it matches is not modelled either, so `searchMatches(None, v)` is left unconstrained.
- `Store.FoodCollection.Scan`: the model fixes the natural order as insertion order, with a delete keeping the others in place. The store does not promise any order for a find or an aggregation without a sort. So the row order that `ListFoods` states, and the order results of `Seqs.FilterAppend` and `Seqs.WithoutAppend` applied to it, hold for this choice only; which rows come back, and how often, does not depend on it.
- `Store.FoodCollection.ListFoods`: it requires `email` to be present for a requester query. How the driver serialises `requesterEmail: undefined` is not modelled.
- `Store.FoodCollection.ListFoods`: the rows come back in natural order together with the expireDate sort the find asks for. The sort itself is not applied. What a string direction, or an absent one, means to the driver is not modelled.
- `JsNumber.LooselyEqualsZero`: it follows StringToNumber of ECMA-262. A numeral whose value underflows to 0 in double precision (such as `1e-400`) is treated as non-zero.
- Query parameters are strings or absent. The arrays and objects that repeated or bracketed parameters would produce are not modelled.
- Values are flat (strings, integers, booleans, null, ObjectIds, dates). Nested documents, arrays and dotted `$set` paths are not modelled.
- Atomicity and concurrency of `updateOne` and `deleteOne`: the model is sequential.
- Guards the code does not have are not modelled: a status check before a request, ownership checks, validation on insert or PUT.
