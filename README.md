# Epiqdine server: request decisions and store updates

This project models the request-handling core of the Epiqdine food-ordering
server (`index.js`), an Express application backed by MongoDB. The model covers:

- the two middlewares, `verifyAcessToken` and `emailVerification`, and the fixed
  order in which routes chain them (401 before 403, and both before any store
  access);
- the status choice of `GET /getfood/:id` (400 / 404 / 500 / the document);
- every route handler over the two collections, `foodlist` (listings) and
  `purchasefoodlist` (purchase records). For each handler the model states which
  document changes, how it changes, and that nothing else changes.

Modules:

- `Wrappers` (wrappers.dfy): `Option` and `Result`.
- `Documents` (documents.dfy): field values, documents, and the `$set` and `$inc`
  update operators on a single document.
- `Collections` (collections.dfy): one collection. It is a map from `_id` to
  document plus the collection's natural order. It offers the store calls the
  handlers make as pure functions, each one atomic step: `insertOne`, `updateOne`
  with `$set` or `$inc` and `upsert`, `deleteOne`, `findOne`, equality-filtered
  `find`, and `find().sort({purchaseFoodCount: -1}).limit(n)`.
- `Auth` (auth.dfy): splitting the `Authorization` header with `split(" ")`,
  taking the bearer token, `verifyAcessToken`, `emailVerification`, and the two
  middleware chains.
- `Routes` (routes.dfy): the responses, the `/getfood/:id` decision, and the
  class `Server`. `Server` holds the two collections as fields and has one method
  per route. Methods that write have `modifies this`, state the new value of the
  collection they change, and state that the other collection is unchanged.

External pieces are parameters:

- Firebase's `verifyIdToken` is an oracle `Verifier = string -> Verdict`, passed
  with each request.
- `ObjectId.isValid` and `new ObjectId(id)` form one oracle,
  `IdParser = string -> Option<ObjectId>`. An id is valid exactly when the oracle
  gives an ObjectId.
- The `_id` the driver generates for an insert is a parameter.
- A failing store call in `/getfood/:id` is a `storeFault` flag.

A handler whose promise rejects (a malformed id given to `new ObjectId`, a
duplicate `_id`, an `$inc` the store refuses) answers `Unhandled`: the handler
itself writes no response, and what the framework then does is not modelled.
Only `/getfood/:id` catches errors.

Three behaviours of the code are worth stating plainly:

- `PUT /update/myfood/:id` checks authentication but not ownership, and its body
  may overwrite `userEmail`.
- The purchase counter may go negative.
- Routes other than `/getfood/:id` do not turn errors into 500 responses, and do
  not answer a malformed id with 400.

## Model

| member | source | states |
|---|---|---|
| `Documents.SetFields` | index.js:171-173 | `$set` merge: every key of the body overwrites that field, every other field keeps its value, and the result has exactly the union of the keys |
| `Documents.SetFieldsIdempotent` | index.js:171-179 | sending the same `$set` body twice leaves the document as one send does |
| `Documents.SetFieldsOnEmpty` | index.js:174-179 | an upserted document holds exactly the body |
| `Documents.IncField` | index.js:151-156 | `$inc` adds the signed delta to the counter (an absent field counts as 0), keeps all other fields, and is refused when the delta or the stored value is not a number |
| `Documents.IncAllAddsSum` | index.js:152-162 | after any sequence of signed increments the counter equals its start plus the sum of the deltas, and no other field changes |
| `Documents.CounterGoesNegative` | index.js:151-156 | a delta of -1 on a counter at 0 is accepted and leaves -1, because there is no floor |
| `Collections.FindAll` | index.js:197 | an unfiltered `find()` returns every stored document exactly once, as stored |
| `Collections.Where` | index.js:208 | an equality filter keeps exactly the entries whose field equals the value, in their original order, and keeps ids distinct |
| `Collections.FindWhere` | index.js:208 | `find({ field: v })` returns exactly the stored documents whose field equals `v`, each once, in natural order |
| `Collections.FindOne` | index.js:134 | `findOne({_id})` finds a document exactly when one is stored under that id, and returns it as stored |
| `Collections.InsertByCountSorted` | index.js:188 | inserting one document into a list sorted by counter keeps it sorted |
| `Collections.SortByCount` | index.js:188 | the sort on `purchaseFoodCount: -1` returns a permutation of its input, in descending BSON order of the counter (booleans, then strings, then numbers from largest, then missing or null) |
| `Collections.SortByCountDistinct` | index.js:188 | sorting documents with distinct ids returns each document once |
| `Collections.FindTopByCount` | index.js:186-190 | for a positive `limit`, returns at most `limit` stored documents, each once, and all of them when fewer are stored; they are in the sort's order, no document left out sorts before one returned, and in particular no numeric counter left out is larger than a numeric one returned |
| `Collections.InsertOne` | index.js:94 | inserts the document under the new `_id` and appends it to the natural order; a taken `_id` is a duplicate-key error that changes nothing |
| `Collections.UpdateSet` | index.js:175-179 | `$set` with upsert merges the body into the document with that id, or creates the document from the body; other documents are unchanged; on a match, reports matchedCount 1, no upserted id, and modifiedCount 1 if the document changed and 0 if not; an upsert reports 0, 0 and the new id |
| `Collections.UpdateInc` | index.js:158-162 | `$inc` with upsert adds to the counter of that document, or creates a document holding only the counter; it is refused, changing nothing, on non-numbers; other documents are unchanged; on a match, modifiedCount is 1 if the document changed and 0 if not, that is 1 exactly when the delta is non-zero or the counter was absent |
| `Collections.Without` | index.js:219 | removing an id from the natural order keeps every other id, in order, without repeats |
| `Collections.DeleteOne` | index.js:218-219 | `deleteOne({_id})` removes at most the one document with that id and keeps the others in order; an absent id changes nothing and reports 0 deleted |
| `Collections.InsertThenFindOne` | index.js:94 | a document inserted under an id is what a lookup of that id finds |
| `Collections.InsertThenFindWhere` | index.js:208 | a listing inserted with an owner email is among the listings an equality filter on that email returns |
| `Auth.Split` | index.js:50 | `split(" ")` always returns at least one piece, so the first piece always exists |
| `Auth.SplitHead` | index.js:50 | the first piece is the longest prefix without a space: it is followed by a space, with a second piece after it, or by the end of the string |
| `Auth.SplitPiecesHaveNoSpace` | index.js:50 | no piece of `split(" ")` holds a space |
| `Auth.SplitWord` | index.js:50 | a string without a space splits into itself alone |
| `Auth.SplitAfterWord` | index.js:50 | a word without a space followed by a space splits off as the first piece, and the rest splits on its own |
| `Auth.JoinSplit` | index.js:50 | joining the pieces of `split(" ")` with spaces restores the string |
| `Auth.SplitJoin` | index.js:50 | `split(" ")` recovers pieces that were joined with spaces |
| `Auth.BearerSplit` | index.js:47-50 | a header starting with "Bearer " splits into "Bearer" followed by the pieces of the rest |
| `Auth.BearerToken` | index.js:46-50 | a token is taken exactly when the header is present and starts with "Bearer "; it is the second space-separated piece, that is, the text after "Bearer " up to the next space or the end |
| `Auth.BearerTokenRoundTrip` | index.js:47-50 | the token sent as `Bearer <token>`, with or without more after a space, is exactly what the verifier is asked about |
| `Auth.VerifyAccessToken` | index.js:45-58 | 401 for a missing or non-Bearer header and for a rejected token; otherwise the verifier's decoded token is attached |
| `Auth.MalformedHeaderSkipsVerifier` | index.js:47-49 | a missing or non-Bearer header yields 401 whatever the verifier would answer, so the verifier is not consulted |
| `Auth.EmailVerification` | index.js:60-65 | passes exactly when the decoded email is present and equal to the path email |
| `Auth.EmailCaseMatters` | index.js:61 | the comparison is exact, with no case folding: for example, a token for "A@x.com" does not pass for the path email "a@x.com" |
| `Auth.AuthenticatedGate` | index.js:167 | a route behind `verifyAcessToken` alone proceeds exactly when authentication succeeds, and otherwise answers 401 |
| `Auth.OwnerScopedGate` | index.js:111-115 | `verifyAcessToken, emailVerification`: 401 exactly when authentication fails; 403 exactly when it succeeds for another email; otherwise proceeds with the verified token |
| `Auth.UnauthenticatedBeforeForbidden` | index.js:202-206 | an unauthenticated request gets 401 whatever the path email, so 401 takes precedence over 403 |
| `Auth.ForbiddenOnlyAfterVerification` | index.js:60-65 | a 403 implies that the verifier was asked and accepted the token |
| `Routes.GetFoodResponse` | index.js:125-145 | 400 for an invalid id, 500 when the lookup throws, 404 when nothing matches, otherwise the stored listing unchanged |
| `Routes.InvalidIdNeverReachesStore` | index.js:129-131 | the 400 answer does not depend on the store's contents or faults |
| `Routes.InsertThenGetFood` | index.js:92-140 | a listing inserted under an id is returned unchanged by `GET /getfood/:id` |
| `Routes.Server.constructor` | index.js:70-73 | the server starts over the two collections the store already holds, unchanged |
| `Routes.Server.AddFood` | index.js:92-96 | inserts the body as a listing under the new id and answers with that id; purchase records are unchanged; a taken id rejects with nothing changed |
| `Routes.Server.AddPurchase` | index.js:99-103 | inserts the body as a purchase record under the new id; listings are unchanged; a taken id rejects with nothing changed |
| `Routes.Server.GetPurchases` | index.js:105-108 | returns every purchase record once, unscoped |
| `Routes.Server.GetPurchasesByEmail` | index.js:111-122 | 401, then 403, then exactly the purchase records whose `email` equals the path email |
| `Routes.Server.GetFood` | index.js:125-145 | answers `GetFoodResponse` on the current listings and changes nothing |
| `Routes.Server.UpdatePurchaseCount` | index.js:147-164 | without authentication: adds the signed `newvalue` to the listing's counter, or creates a listing holding only the counter; the response is the store's report, whose modifiedCount is 1 if the listing changed (a non-zero value, or a counter that was absent) and 0 if not; a malformed id or a non-number rejects with nothing changed; purchase records are unchanged |
| `Routes.Server.UpdateMyFood` | index.js:167-182 | 401 before anything else with nothing changed; then, with no owner check, merges the body into the listing or creates the listing from the body; the response is the store's report, whose modifiedCount is 1 if the listing changed and 0 if not; other listings and purchase records are unchanged |
| `Routes.Server.GetTopFoods` | index.js:185-193 | at most six listings, each once, all of them when fewer exist; they are in the sort's order, no listing left out sorts before one returned, and numeric counters are non-increasing |
| `Routes.Server.GetAllFoods` | index.js:196-199 | returns every listing once |
| `Routes.Server.GetFoodsByEmail` | index.js:202-212 | 401, then 403, then exactly the listings whose `userEmail` equals the path email |
| `Routes.Server.DeleteOrder` | index.js:215-221 | removes at most the purchase record with that id, keeps the others in order, and reports how many were removed; an absent id changes nothing; listings are unchanged |
| `Routes.OwnerScopedScenario` | index.js:202-212 | a listing created with `userEmail` a@x.com is returned to a@x.com, and b@x.com asking for a@x.com's listings gets 403 |
| `Routes.AddThenGetScenario` | index.js:92-145 | `POST /addfood` then `GET /getfood/:id` returns the body unchanged under the new id |
| `Routes.NegativeCounterScenario` | index.js:147-164 | `newvalue: -1` on a counter at 0 is accepted and leaves -1 |

## Left out

- Process setup is not modelled: dotenv, decoding the Firebase key, `admin.initializeApp`, the Mongo URI and client, the root route and `app.listen`. These are configuration and I/O.
- Transport middleware is not modelled: CORS, `express.json()`, `cookie-parser`, and the cookie logging in `GET /purchasefood/:email`.
- The `/jwt` route is not modelled. It only calls `jwt.sign` and `res.cookie`, which are outside code.
- How Firebase verifies a token is not modelled. The verifier is an oracle that accepts or rejects, and can answer differently for each request.
- The rules of ObjectId validity are not modelled. One oracle decides validity and builds the ObjectId, so the model assumes that `ObjectId.isValid` and `new ObjectId` agree.
- Concurrency is not modelled. Each store call is one atomic step, so the atomicity of `$inc` under concurrent requests cannot be stated.
- Store failures are modelled only in `/getfood/:id`, where the code catches them. In the other handlers the store call is assumed to succeed, apart from the refusals the model does produce (duplicate `_id`, `$inc` on non-numbers).
- What Express and Node do after a handler's promise rejects (the request hangs, or the process stops) is not modelled. The model only says that the handler writes no response.
- Field values are integers, strings, booleans and null. Floating-point numbers, arrays and nested objects are not modelled, and neither are the array-element matching of MongoDB equality filters or integer overflow.
- A request body that carries its own `_id` is not modelled. MongoDB would use it on insert and refuse to change it on `$set`; the model treats `_id` in a body as an ordinary field.
- A missing `newvalue` is serialised by the driver as null. Callers of `Routes.Server.UpdatePurchaseCount` pass `Null`, which the store refuses.
- An empty `$set` body is accepted, as MongoDB 5.0 and later do.
- The natural order of an unsorted `find()` is modelled as insertion order.
- Within a listing, the order of the fields in a document is not modelled.
- The `acknowledged` flag and `upsertedCount` of driver results are not modelled. `upsertedCount` follows from `upsertedId`.
- `console.log` and `console.error` output is not modelled.
- Collections.SortByCount: fixes one order among documents whose counters compare equal (they keep their natural order). MongoDB leaves that order to the query plan, and no contract of the sort, of `Collections.FindTopByCount` or of `Routes.Server.GetTopFoods` relies on it, so which of several equal documents fill the last places of the top six is not stated.
- Collections.SortByCount: compares only the kinds of value the model has (numbers, strings, booleans, null). Strings compare by code point, which is the order of their UTF-8 bytes, that is MongoDB's default binary comparison.
- Body keys that contain a `.` or start with `$` are treated as plain top-level field names by `Documents.SetFields` and by inserts. MongoDB reads a dotted key in `$set` as a path into a subdocument and refuses `$`-prefixed field names; nested documents are not modelled.
