# Special prices: a Dafny model

This project models the core of a small product-catalog backend in which users have
per-product "special price" overrides:

- **Price merge** (`productService.getAllProducts`). The catalog listing is merged with one
  user's override list. A lookup is built from the list, and each product is flagged
  `hasSpecialPrice` and repriced when its override is truthy. The single-product read
  (`getProductById`) is modelled too.
- **Special-price profiles** (`specialPriceRepository`). One document per user holds
  `name`, `email` and an embedded `products` array of `{productId, specialPrice}`.
  The collection is a `map<Id, Profile>`. Create, upsert, targeted update, pull and delete
  are pure functions from the old collection to `Outcome(store, result)`.
- **Service and handlers** (`specialPriceService`, `specialPriceController`). The service's
  product-existence guard and its delegations are modelled. Each HTTP handler is a function
  from the request fields and the current collections to the responses it sends and the
  collection afterwards.

Modelling choices:

- Ids are strings. The driver casts every query id to an object id, which accepts hex digits
  in either case and prints them in lower case. So every lookup compares `Models.Canonical`
  forms. The one comparison that uses the raw string is the `findIndex` in
  `addProductToSpecialPrice` (see Findings).
- Prices are integers. A number is truthy when it is non-zero.
- A request body's `specialPrice` is a JSON `Value`, because the handlers test both its
  truthiness and its `typeof`. Ids, names and emails are strings; `""` stands for a missing
  or empty field, since both are falsy.
- A thrown error reaches the global error handler. That handler replies 500 with the error's
  message, because no error here sets a `status`.
- The new profile's `_id` is a parameter `newId`, required to be fresh and in printed form (it is a
  generated object id): id generation is not modelled.
- `Models.WellFormed` is the collection invariant: profile ids and stored productIds are in printed
  form, every `products` array is non-empty, and no productId repeats within one.

Three of the code's replies are easy to misread:

- A create for a product that does not exist replies 500 "Product not found". The service throws a plain error, and the handler has no 404 branch of its own for it (specialPriceController.ts lines 93-106).
- A product-entry delete on a profile that does not exist replies 500 "Special Price not found",
  although the handler has a 404 branch for that case. That branch can never run, because the repository throws instead of
  returning null (`SpecialPriceController.DeleteSpecialPriceByIdProduct`).
- In `createSpecialPrice` a malformed productId sends a 400 but does not return. The handler goes
  on and attempts a second response. Handlers therefore return every response they attempt, in
  order, and the client receives the first.

## Model

| member | source | states |
|---|---|---|
| `Models.IndexOf` | src/repositories/specialPriceRepository.ts:44-46 | `findIndex`: -1 exactly when no entry has the productId; otherwise the entry at the result has it and no earlier entry does |
| `ProductRepository.FindProduct` | src/repositories/productRepository.ts:14-16 | `findById`: absent exactly when no catalog product has the cast id; otherwise a catalog product with that id |
| `SpecialPriceRepository.CreateSpecialPrice` | src/repositories/specialPriceRepository.ts:8-24 | the new profile has the given name and email and exactly one entry, with the cast productId and the price; it is added under the fresh printed id, every other profile is kept, the invariant is preserved, and the entity read by that id returns the new document |
| `SpecialPriceRepository.Upsert` | src/repositories/specialPriceRepository.ts:44-57 | corrected upsert. If the product is present, the length is kept, the first matching entry gets the new price in place, and every other entry is unchanged. If absent, the old list is a prefix and one entry is appended at the end. The product is present afterwards, and at most one entry per productId is preserved |
| `SpecialPriceRepository.UpsertAsWritten` | src/repositories/specialPriceRepository.ts:44-57 | upsert as written: the lookup uses the raw request string. On a match the first matching entry keeps its productId and gets the new price, and every other entry is unchanged; otherwise the old list is a prefix and the appended entry stores the cast id |
| `SpecialPriceRepository.UpsertAsWrittenAgreesOnCanonicalIds` | src/repositories/specialPriceRepository.ts:44-57 | for a request id already in lower-case form, the as-written and the corrected upsert give the same list |
| `SpecialPriceRepository.UpsertAsWrittenDuplicatesOnUpperCase` | src/repositories/specialPriceRepository.ts:44-57 | an upper-case spelling of a product already in a valid profile appends a second entry for it, so the at-most-one-entry invariant breaks |
| `SpecialPriceRepository.AddProductToSpecialPriceAsWritten` | src/repositories/specialPriceRepository.ts:29-61 | the add as written: fails with "No special price found for this user. Create one first." and leaves the store unchanged exactly when the profile is missing; otherwise it saves the profile with the as-written upsert of its list, keeping name, email and the other profiles |
| `SpecialPriceRepository.AddAsWrittenAgreesOnCanonicalIds` | src/repositories/specialPriceRepository.ts:29-61 | for a productId in printed form, the add as written and the corrected add give the same store and result |
| `SpecialPriceRepository.UpsertAsWrittenAppendsUnprinted` | src/repositories/specialPriceRepository.ts:44-57 | as written, a productId that is not in printed form never matches a stored entry, so the list always grows by one appended entry and stays in printed form |
| `SpecialPriceRepository.AddAsWrittenDuplicatesStoredProduct` | src/repositories/specialPriceRepository.ts:29-61 | on a well-formed collection, an upper-case spelling of a product the profile holds makes the collection ill-formed, and repeating the same add grows the profile by a second extra entry instead of changing nothing |
| `SpecialPriceRepository.AddProductToSpecialPrice` | src/repositories/specialPriceRepository.ts:29-61 | fails with "No special price found for this user. Create one first." and leaves the store unchanged exactly when the profile is missing. Otherwise the saved profile keeps name and email and gets the upserted list; no other profile changes; the invariant is preserved |
| `SpecialPriceRepository.UpsertIdempotent` | src/repositories/specialPriceRepository.ts:44-57 | upserting twice with the same arguments gives the same list as upserting once |
| `SpecialPriceRepository.AddProductToSpecialPriceIdempotent` | src/repositories/specialPriceRepository.ts:29-61 | applying the add a second time with the same arguments returns the same store and result |
| `SpecialPriceRepository.GetSpecialPricesByIdGroup` | src/repositories/specialPriceRepository.ts:74-86 | `[]` for an absent profile; otherwise the profile's pairs in list order |
| `SpecialPriceRepository.GetSpecialPricesById` | src/repositories/specialPriceRepository.ts:91-96 | the whole document with its id exactly when the profile exists, and null otherwise |
| `SpecialPriceRepository.UpdateSpecialPrice` | src/repositories/specialPriceRepository.ts:101-120 | returns a profile exactly when the profile exists and has an entry for the product, and only then changes the store. The first matching entry gets the new price; the length, the other entries, name, email and the other profiles are kept; the invariant is preserved |
| `SpecialPriceRepository.DeleteSpecialPrice` | src/repositories/specialPriceRepository.ts:125-131 | a result with `deletedCount` 1 exactly when the profile existed, null otherwise; afterwards that id is gone and every other profile is kept |
| `SpecialPriceRepository.RemoveProduct` | src/repositories/specialPriceRepository.ts:139-150 | the `$pull`: nothing grows, no entry for the product is left, and the result is empty exactly when every entry was for the product |
| `SpecialPriceRepository.RemoveProductMembers` | src/repositories/specialPriceRepository.ts:139-150 | the pull keeps exactly the entries whose productId differs from the removed one |
| `SpecialPriceRepository.RemoveProductKeepsUnique` | src/repositories/specialPriceRepository.ts:139-150 | the pull preserves at most one entry per productId |
| `SpecialPriceRepository.RemoveProductKeepsCanonical` | src/repositories/specialPriceRepository.ts:139-150 | the pull keeps stored productIds in printed form |
| `SpecialPriceRepository.RemoveProductAppend` | src/repositories/specialPriceRepository.ts:139-150 | the pull distributes over concatenation, so the kept entries stay in their original order |
| `SpecialPriceRepository.RemoveProductAbsent` | src/repositories/specialPriceRepository.ts:139-150 | pulling a product that has no entry leaves the list as it was |
| `SpecialPriceRepository.RemoveProductSingle` | src/repositories/specialPriceRepository.ts:139-150 | under the invariant, the pull removes just the matching entry at position k and closes the gap |
| `SpecialPriceRepository.DeleteSpecialPriceByIdProduct` | src/repositories/specialPriceRepository.ts:136-167 | fails with "Special Price not found" and changes nothing exactly when the profile is absent. Otherwise it returns the pulled document; the profile stays stored exactly when its list is non-empty; other profiles are kept; the invariant is preserved |
| `SpecialPriceRepository.RemovingLastEntryDeletesProfile` | src/repositories/specialPriceRepository.ts:157-160 | when every entry is for the removed product, the profile is deleted: the entity read gives null and the grouped read gives `[]` |
| `ProductService.LastOverride` | src/services/productService.ts:23-26 | reference lookup, scanning from the end: absent exactly when no entry has the product; otherwise the price of an entry for it |
| `ProductService.BuildLookup` | src/services/productService.ts:22-26 | the lookup map has a key exactly for the productIds in the list, and each key maps to the price of the last entry for it |
| `ProductService.ApplyOverrides` | src/services/productService.ts:29-46 | one view per product, same length and same order, each view built from the product at the same position |
| `ProductService.GetAllProducts` | src/services/productService.ts:9-49 | same length as the catalog. With no user, each product is returned unchanged with no `hasSpecialPrice` or `originalPrice`. With a user, a product whose last override is truthy gets `hasSpecialPrice` true, `originalPrice` set to its base price, `price` set to the override and all other fields unchanged. Any other product is unchanged and gets `hasSpecialPrice` false |
| `ProductService.LaterDuplicateWins` | src/services/productService.ts:23-26 | when a product appears more than once in the override list, the lookup holds the price of its last entry |
| `ProductService.ZeroOverrideIsNoOverride` | src/services/productService.ts:30-33 | an override of 0 is falsy: the product keeps its price and reports `hasSpecialPrice` false |
| `ProductService.UnknownUserGetsNoSpecialPrices` | src/services/productService.ts:18-20 | a user id with no profile reads as an empty list (repository lines 77-79), so every product is unchanged and reports `hasSpecialPrice` false |
| `ProductService.GetProductById` | src/services/productService.ts:54-65 | absent exactly when the product lookup finds nothing. Without a user, the product comes back as it is. With a user, it is always flagged `hasSpecialPrice` false with no `originalPrice`, whatever overrides exist |
| `ProductService.ListingAndSingleReadDisagree` | src/services/productService.ts:54-65 | a product that the listing reprices for a user is reported by the single read as having no special price |
| `SpecialPriceService.CreateSpecialPrice` | src/services/specialPriceService.ts:22-41 | fails with "Product not found" and creates nothing exactly when the product lookup is empty; otherwise returns the repository create result for the same name, email, productId and price |
| `SpecialPriceService.CreateIgnoresExistingEmail` | src/services/specialPriceService.ts:22-41 | a create for an email that already has a profile still succeeds, leaving two profiles with that email |
| `SpecialPriceService.GetSpecialPricesById` | src/services/specialPriceService.ts:15-17 | the repository's entity read, unchanged |
| `SpecialPriceService.AddProductToSpecialPrice` | src/services/specialPriceService.ts:46-57 | passes its arguments to the repository add and returns its store and result unchanged |
| `SpecialPriceService.UpdateSpecialPrice` | src/services/specialPriceService.ts:62-72 | passes its arguments to the repository update and returns its store and result unchanged |
| `SpecialPriceService.DeleteSpecialPriceById` | src/services/specialPriceService.ts:77-79 | passes the id to the repository's profile delete and returns its store and result unchanged |
| `SpecialPriceService.DeleteSpecialPriceByIdProduct` | src/services/specialPriceService.ts:84-86 | passes its arguments to the repository's product delete and returns its store and result unchanged |
| `SpecialPriceController.CreateSpecialPrice` | src/controllers/specialPriceController.ts:62-107 | a malformed productId makes the first response a 400 and adds a second attempt. A falsy name, email, productId or price gives 400 "required"; a non-number or non-positive price gives 400 "positive". The store changes exactly when all fields pass and the product exists, and then the reply is 201 with the new profile; a missing product gives 500 "Product not found" |
| `SpecialPriceController.MalformedProductIdCreatesNothing` | src/controllers/specialPriceController.ts:71-98 | when every catalog id is well formed, a malformed productId creates nothing: the client receives 400, and no later attempt is a 201 |
| `SpecialPriceController.ZeroPriceIsMissing` | src/controllers/specialPriceController.ts:76-82 | a price of 0 is refused by the required-fields check, not by the sign check, and the store is unchanged |
| `SpecialPriceController.AddSpecialPrice` | src/controllers/specialPriceController.ts:113-172 | sends exactly one response. Missing fields give 400 and a non-positive price gives 400. A missing product gives 404, whether or not the profile exists; an existing product with a missing profile gives 400. The reply is 200 exactly when the product and profile both exist, and only then does the store change, by the repository upsert. Never 500 |
| `SpecialPriceController.UpdateSpecialPrice` | src/controllers/specialPriceController.ts:178-231 | the body fields are checked before the id parameter, then the price. The reply is 404 "Special price not found" exactly when the fields pass but the profile or its entry is missing, and 200 exactly when both exist; the store changes only on 200 |
| `SpecialPriceController.DeleteSpecialPriceById` | src/controllers/specialPriceController.ts:237-261 | 400 "id are required" without an id. 404 "Special price not found" exactly when no profile has the id, and then nothing changes. 200 with null data exactly when the profile existed, and then it is gone. Every other profile keeps its contents |
| `SpecialPriceController.DeleteSpecialPriceByIdProduct` | src/controllers/specialPriceController.ts:267-295 | 400 when id or productId is missing. Never 404. 500 "Special Price not found" with the store unchanged exactly when the profile is absent. 200 with null data exactly when it exists, with the store as the repository pull leaves it |
| `Lifecycle.Step` | src/repositories/specialPriceRepository.ts:29-167 | each mutation (add, update, pull, delete) preserves the invariant: printed profile ids, and non-empty arrays of printed productIds with at most one entry per productId |
| `Lifecycle.Run` | src/repositories/specialPriceRepository.ts:29-167 | the invariant holds after any sequence of mutations, and no sequence creates a profile id that was absent |
| `Lifecycle.AnaCreateThenAdd` | src/repositories/specialPriceRepository.ts:8-61 | for any distinct object ids in printed form, creating Ana's profile with p1 at 50 reads back as [p1:50]; then adding p2 at 30 reads back as [p1:50, p2:30] |
| `Lifecycle.AnaUpdate` | src/repositories/specialPriceRepository.ts:101-120 | for any distinct printed object ids, on the profile [p1:50, p2:30], updating p1 to 45 reads back as [p1:45, p2:30], keeping p2 and the order |
| `Lifecycle.AnaRemoveBoth` | src/repositories/specialPriceRepository.ts:136-167 | for any distinct printed object ids, on the profile [p1:45, p2:30], removing p1 reads back as [p2:30]; then removing p2 deletes the profile, so the entity read gives null |

## Findings

| source | as written | input that shows it | evidently intended | confidence | as-written member | corrected member |
|---|---|---|---|---|---|---|
| src/repositories/specialPriceRepository.ts:44-57 | `findIndex` compares the stored id's printed form (lower-case hex) with the raw request string, but `push` stores the cast id | a profile with an entry for `00000000000000000000000a`; add `00000000000000000000000A` (the product lookup casts it and finds the product) | a match on the cast id, so the existing entry is updated and no duplicate appears | medium, not executed | `SpecialPriceRepository.AddProductToSpecialPriceAsWritten` on `SpecialPriceRepository.UpsertAsWritten`, shown by `SpecialPriceRepository.AddAsWrittenDuplicatesStoredProduct` | `SpecialPriceRepository.AddProductToSpecialPrice` on `SpecialPriceRepository.Upsert` |

## Left out

- SpecialPriceRepository.AddProductToSpecialPrice: uses the corrected lookup on the cast productId. The code as written appends a duplicate entry when the request spells an existing product's hex digits in upper case (see Findings and `SpecialPriceRepository.AddProductToSpecialPriceAsWritten`). The two coincide for productIds in printed form.
- SpecialPriceService.AddProductToSpecialPrice: delegates to the corrected add. The code's delegate is the add as written, which appends a duplicate entry for an upper-case spelling of a product the profile already holds (`SpecialPriceRepository.AddProductToSpecialPriceAsWritten`).
- SpecialPriceController.AddSpecialPrice: its 200 branch stores the corrected upsert. The code's product lookup casts the id and finds the product, and the add as written then appends a duplicate entry for an upper-case spelling of a held product instead of updating it in place. The two coincide for productIds in printed form (`SpecialPriceRepository.AddAsWrittenAgreesOnCanonicalIds`).
- SpecialPriceRepository.AddProductToSpecialPriceIdempotent: holds for the corrected add only. As written, repeating an upper-case add appends again (`SpecialPriceRepository.AddAsWrittenDuplicatesStoredProduct`).
- Lifecycle.Step: its `Add` is the corrected add. As written, an upper-case productId for a product the profile already holds breaks the invariant (`SpecialPriceRepository.AddAsWrittenDuplicatesStoredProduct`).
- Lifecycle.Run: the invariant holds after any sequence of corrected mutations. As written, it fails after an add with an upper-case productId for a product the profile already holds.
- `getAllSpecialPrices` (repository, service and handler): returns the whole collection unfiltered. In this model that collection is the store map itself, so there is nothing to compute.
- Controller `getSpecialPricesById`: after its 404 it falls through to a second send, and what the client sees then depends on the web framework's send semantics.
- `getProductByUser` in the product service: unused, and it assigns the whole override array to `price`.
- The product handlers, routes, app and server bootstrap, health and not-found handlers, the database connection and environment handling: HTTP and process plumbing with no logic beyond delegation.
- Response envelopes and the global error handler: replaced by `Response(status, message, data)`. A thrown error becomes a 500 that carries its message. The stack trace field is not modelled.
- Schema machinery: the unique index on `email` (a duplicate-key rejection at insert time), timestamps and validators. `SpecialPriceService.CreateIgnoresExistingEmail` describes the service layer only.
- Id casting failures: a malformed id is an ordinary string key here. Where the code's cast throws and the error handler replies 500, the model answers as for any other key: a store may hold a key such as `u1`, and `SpecialPriceController.DeleteSpecialPriceById` then answers 200 for it. `Models.WellFormed` asks for the printed form only, not for 24 hex digits. `Models.ValidObjectId` is "24 hex digits, either case"; some driver versions also accept any 12-character string.
- Non-string request values for ids, names and emails: the model takes them as strings. The driver would cast or reject any other value.
- ProductService.GetAllProducts and ProductService.GetProductById: the model copies the product's schema fields into each view. The code spreads a non-lean driver document, and a spread copies only the document's own internal properties, not the schema fields, which live behind prototype accessors. So the JSON the code actually sends nests the product fields under `_doc`, beside the added `originalPrice`, `price` and `hasSpecialPrice`.
- Float prices and NaN: prices are integers.
- Concurrency: each operation is atomic in the model, so the lost-update race between read-modify-write requests is not represented.
- Express's reaction to a second send on the same response: `Handled.sent` lists the attempted responses, and the client receives the first.
