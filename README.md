# Inventory API: the mutating handlers, modelled in Dafny

The system is an Express + TypeORM REST API for a small warehouse
inventory. It stores products, their categories and groups, deposits
(storage places), batches of a product with an expiration date, stock
(the quantity of one batch kept in one deposit), users, and movements of
goods with their item lines. The model covers what the create, update and
delete routes do to the database and what they answer. The routes come
from three snapshots of the code base (`src/`, `app/src/` and
`backend/src/`), and each snapshot's handlers are modelled separately.

How the model is built:

- **Store.** The database is one `Inventory.Store` object with one
  `map<Id, Record>` field per table. A handler is a method that may change
  only its own table (`modifies db`groups` and so on). Its answer is a
  `Response`: `Created` (201), `Ok` (200), `NoContent` (204), `Err`
  (400 with `{error: {[field]: message}}`), or `Text` (400 with a
  plain-text body).
- **Joi schemas.** These are functions from a JSON value to a
  `Validation`. Keys are checked in declaration order and stop at the
  first error. String rules run in chain order after `trim`, and a
  `.messages()` text replaces the error code.
- **The `validator` middleware.** `Validator.Validate` answers 400 with the
  first error, or replaces the validated request slice and continues the
  chain. Where a route runs the middleware before its handler, the handler
  body is a separate method on the validated values (`Insert`, `Update`).
  `Post` and `Put` compose the validation with that method.
- **Invariants.** Every handler states its whole effect, error path by
  error path, and the invariant it keeps. The invariants are:
  - descriptions and names unique ignoring case
    (`Tables.DistinctIgnoringCase`, from the `UPPER(x) = UPPER(:x)` queries);
  - e-mail addresses unique;
  - one stock row per (batch, deposit) pair;
  - every batch, movement and movement item linked to rows that exist;
  - legacy category descriptions stored trimmed and non-empty.
- **Query routes.** The movement read routes (`/active`, the period and
  the single date) are modelled as filters over the movement table, and
  the handlers' effect on them is stated as lemmas.

Modules, file by file:

| file | module | source |
|---|---|---|
| strings.dfy | `Strings` | JavaScript `trim`, ASCII `toUpperCase`, and `Array.prototype.toString` with its comma split |
| joi.dfy | `Joi` | the part of Joi v17 the schemas use |
| tables.dfy | `Tables` | the case-insensitive uniqueness queries and the partial `update` |
| validator.dfy | `Validator` | src/middleware/validator.ts |
| inventory.dfy | `Inventory` | the entities and the store |
| group.dfy | `SrcGroup` | src/routes/group.ts |
| backend_group.dfy | `BackendGroup` | backend/src/routes/group.ts |
| category.dfy | `SrcCategory` | src/routes/category.ts |
| categories.dfy | `SrcCategories` | src/routes/categories.ts |
| product.dfy | `SrcProduct` | src/routes/product.ts |
| app_product.dfy | `AppProduct` | app/src/routes/product.ts |
| deposit.dfy | `SrcDeposit` | src/routes/deposit.ts |
| user_schema.dfy | `UserSchema` | the user schema and its password rule |
| user.dfy | `SrcUser` | src/routes/user.ts |
| movement_schema.dfy | `MovementSchema` | the movement params and body schemas |
| movement.dfy | `SrcMovement` | src/routes/movement.ts |
| movement_item.dfy | `SrcMovementItem` | src/routes/movement_item.ts |
| batch.dfy | `SrcBatch` | src/routes/batch.ts |
| app_batch.dfy | `AppBatch` | app/src/routes/batch.ts |
| stock.dfy | `SrcStock` | src/routes/stock.ts |
| scenarios.dfy | `Scenarios` | concrete consequences of the stock and legacy category rules |

Library behaviour the model does not open up is passed in as the
`Joi.Lib` value. That covers UUID and e-mail syntax, converting a string
to a number, and parsing a date. The current time (`"now"` in a date rule)
is a parameter `now`. The UUID the database generates for a new row is a
parameter `newId`, which must be absent from its table.

## Model

| member | source | states |
|---|---|---|
| Strings.Trim | src/routes/categories.ts:22-31 | the trimmed string has no leading or trailing white space, is empty exactly when the input is blank, is no longer than the input, and leaves an already trimmed string unchanged |
| Strings.TrimIdempotent | src/routes/categories.ts:31 | trimming a trimmed value changes nothing, so a value Joi trimmed is stored as validated |
| Strings.Upper | src/routes/group.ts:35 | `UPPER` keeps the length and upper-cases each ASCII letter, leaving other characters alone |
| Strings.UpperIdempotent | src/routes/group.ts:35 | upper-casing twice is upper-casing once |
| Strings.SameIgnoringCaseIsEquivalence | src/routes/group.ts:33-44 | the `UPPER(a) = UPPER(b)` comparison is reflexive, symmetric and transitive |
| Strings.SameIgnoringCaseLength | src/routes/group.ts:33-44 | two keys equal ignoring case have the same length |
| Strings.JoinCommaRoundTrip | src/middleware/validator.ts:14 | splitting the comma-joined error path gives the path back when no element holds a comma |
| Joi.FirstBroken | src/routes/user.ts:12-32 | the string rules are checked in chain order: the first failing rule is reported and all earlier ones hold; none is reported exactly when all hold |
| Joi.StrValue | src/routes/group.ts:9 | a string key is accepted exactly when it is a string whose value, trimmed when the spec trims, passes every rule (and is non-empty unless `""` is allowed); a non-string fails with `string.base`; the value handed on is that converted value |
| Joi.NumValue | backend/src/schemas/stock/createStockSchema.ts:4 | a number is accepted exactly when it lies in the safe-integer range and is at least the minimum, and it is handed on unchanged; outside that range it fails with `number.unsafe` before the minimum is tried, below the minimum with `number.min`; any value that is neither a number nor a string fails with `number.base` |
| Joi.Lower | src/routes/category.ts:10 | lower-cases the ASCII letters of a string, character by character, and keeps its length |
| Joi.BoolValue | src/routes/category.ts:10 | a boolean is accepted as is; a string is accepted exactly when it is `"true"` or `"false"` in any letter case, and converts to whether it is `"true"`; every failure is `boolean.base` |
| Joi.DateValue | src/routes/batch.ts:11 | a date is accepted exactly when it parses and lies within the bound, both ends included; otherwise `date.base`, `date.min` or `date.max` |
| Joi.IdParam | src/routes/group.ts:12-14 | the route parameter is accepted exactly when the `id` string passes its spec; errors are reported at `["id"]` |
| Joi.BoundedAccepts | src/routes/group.ts:9 | `trim().min(1).max(n)` accepts exactly a string whose trimmed value has 1 to n characters; a longer one fails with `string.max` |
| Joi.TrimmedUuidAccepts | src/schemas/group/paramsGroupSchema.ts:3-11 | `trim().uuid()` with a custom text accepts exactly a non-empty trimmed UUID, and a non-UUID gets the custom text |
| Joi.ReqBounded | src/routes/group.ts:9 | a required bounded string is accepted exactly when present and 1 to n characters once trimmed, and the trimmed value is handed on |
| Joi.OptBounded | src/routes/product.ts:10 | an optional bounded string is accepted when absent or when valid; the value is `None` or the trimmed string |
| Joi.OptBoundedOrEmpty | src/schemas/product/createProductSchema.ts:5 | an optional `max(n).allow("")` string is accepted when absent or a string of at most n characters once trimmed, blank included |
| Joi.ReqUuid | src/schemas/product/createProductSchema.ts:6-12 | a required trimmed UUID key is accepted exactly when it holds a trimmed UUID; a non-UUID gets the custom text |
| Joi.OptUuid | backend/src/schemas/stock/createStockSchema.ts:12-14 | an optional trimmed UUID is accepted when absent or a UUID; the value is `None` or the trimmed id |
| Joi.ReqRawUuid | src/routes/batch.ts:12 | an untrimmed `uuid()` key is accepted exactly when it holds a non-empty UUID as given; a non-UUID is reported as `string.guid` |
| Joi.ReqEmail | src/routes/user.ts:11 | the e-mail key is accepted exactly when its trimmed value is an address, and the trimmed value is handed on |
| Tables.InsertKeepsDistinct | src/routes/group.ts:33-52 | inserting a row whose key the uniqueness query does not find keeps the keys distinct ignoring case |
| Tables.OverwriteKeepsDistinct | src/routes/group.ts:203-225 | overwriting a row with a key no other row takes keeps the keys distinct ignoring case |
| Tables.RemoveKeepsDistinct | src/routes/group.ts:228-264 | deleting a row keeps the keys distinct |
| Tables.OwnKeyIsFree | src/routes/group.ts:203-215 | in a table with distinct keys, an update may keep its own key in any letter case |
| Validator.ErrorBodyNamesPath | src/middleware/validator.ts:9-17 | the 400 body has exactly one key, and that key splits back into the failing path, mapped to the first detail's message |
| Validator.RejectIsErrorBody | src/routes/group.ts:21-29 | a handler that validates inline answers 400 with the same single-entry body the middleware builds |
| Validator.ErrorBodyIgnoresLaterDetails | src/middleware/validator.ts:11 | only the first error detail reaches the client |
| Validator.Validate | src/middleware/validator.ts:4-23 | on failure: 400 with the first detail, request untouched, `next` not called; on success: the validated slice replaces that slice only, and `next` is called once |
| SrcGroup.GroupSchema | src/routes/group.ts:8-10 | the body is accepted exactly when its description is 1 to 250 characters once trimmed; the trimmed value is handed on |
| SrcGroup.Post | src/routes/group.ts:16-52 | schema error, then "Group already exists" when the description is taken ignoring case, else the row is inserted and returned; keys stay distinct |
| SrcGroup.Put | src/routes/group.ts:158-226 | bad id, then "Group not found", then body error, then a description another group takes; else the description is overwritten and the row as read before is returned; keys stay distinct |
| SrcGroup.Delete | src/routes/group.ts:228-264 | bad id, "Group not found", or the row is removed with 204 |
| BackendGroup.Post | backend/src/routes/group.ts:14-44 | the same create, with the body validated by the middleware |
| BackendGroup.Put | backend/src/routes/group.ts:141-191 | params and body are validated before the lookup; then "Group not found", then the duplicate check, then the overwrite; keys stay distinct |
| BackendGroup.Delete | backend/src/routes/group.ts:193-220 | validated id, lookup, removal |
| SrcCategory.CategorySchema | src/routes/category.ts:8-11 | accepted exactly when the description is 1 to 250 characters once trimmed and `isActive` is a boolean |
| SrcCategory.Post | src/routes/category.ts:17-78 | schema error, "Category already exists" when taken ignoring case, else the insert; keys stay distinct |
| SrcCategory.Put | src/routes/category.ts:181-271 | bad id, "Categories not found", body error, duplicate; else description and `isActive` are overwritten; keys stay distinct |
| SrcCategory.Delete | src/routes/category.ts:273-307 | bad id, "Categories not found", or removal |
| SrcCategories.LegacySchema | src/routes/categories.ts:8-10 | accepted exactly when the body is an object whose `description`, if present, is a non-empty string; nothing is trimmed |
| SrcCategories.CheckDescription | src/routes/categories.ts:22-31 | a missing, non-string or blank description is refused with the "non-empty string" text; one longer than 255 characters before trimming is refused with the "too long" text; otherwise the trimmed value is stored |
| SrcCategories.Post | src/routes/categories.ts:12-36 | the Joi message as plain text, then the hand-made checks, then an insert with no uniqueness check; stored descriptions stay trimmed and non-empty |
| SrcCategories.Put | src/routes/categories.ts:108-140 | "Categories not found" for an unknown raw id, then the hand-made checks, then the overwrite, answered with 201 and the row as read before |
| SrcCategories.Delete | src/routes/categories.ts:142-161 | plain-text not-found, or removal answered with the removed row |
| SrcProduct.ProductSchema | src/routes/product.ts:8-12 | accepted exactly when the name is 1 to 250 characters once trimmed, the optional description is valid, and `isActive` is a boolean |
| SrcProduct.Post | src/routes/product.ts:18-56 | schema error, "Product already exists" when the name is taken ignoring case, else the insert; names stay distinct |
| SrcProduct.Put | src/routes/product.ts:113-181 | bad id, not found, body error, duplicate name; else name, description (when given) and `isActive` are overwritten; names stay distinct |
| SrcProduct.Delete | src/routes/product.ts:183-217 | bad id, not found, or removal |
| AppProduct.CreateSchemaAccepts | src/schemas/product/createProductSchema.ts:3-20 | what the create schema accepts (name, blank-allowing description, category and group UUIDs) and the trimmed values it hands on |
| AppProduct.UpdateSchemaAccepts | src/schemas/product/updateProductSchema.ts:3-21 | the same rules plus a required boolean flag |
| AppProduct.Insert | app/src/routes/product.ts:15-73 | on a validated body: duplicate name, then "Category not found", then "Group not found"; else an active product linked to both is inserted; names stay distinct |
| AppProduct.Post | app/src/routes/product.ts:13-74 | a body error from the middleware, then the handler's cases |
| AppProduct.Update | app/src/routes/product.ts:162-248 | on a validated id and body: not found, duplicate name, category, group; else every column is overwritten, the description only when given, and the row as read before is returned; names stay distinct |
| AppProduct.Put | app/src/routes/product.ts:158-249 | a params error, then a body error, then the handler's cases |
| AppProduct.Delete | app/src/routes/product.ts:251-277 | not found, or removal |
| SrcDeposit.DepositSchemaAccepts | src/routes/deposit.ts:8-11 | accepted exactly when the name is 1 to 250 characters once trimmed and the optional description is valid |
| SrcDeposit.Post | src/routes/deposit.ts:17-55 | schema error, "Deposit already exists" when the name is taken ignoring case, else an active deposit is inserted; names stay distinct |
| SrcDeposit.Put | src/routes/deposit.ts:97-165 | bad id, not found, body error, duplicate; else name and description (when given) are overwritten and the active flag of every row stays as it was |
| SrcDeposit.Delete | src/routes/deposit.ts:167-202 | bad id, not found, or removal |
| UserSchema.PatternIsCharacterClassRule | src/routes/user.ts:28-32 | the password regular expression accepts exactly the strings of 8 to 30 characters drawn from letters, digits and `!@#$%^&*` that hold a lower-case letter, an upper-case letter, a digit and a special character |
| UserSchema.PasswordRulesHold | src/routes/user.ts:12-32 | `min(8)`, `max(30)` and the pattern all hold exactly when that character-class rule does |
| UserSchema.PasswordFirstBroken | src/routes/user.ts:14-15 | a value over 30 characters breaks `max` first; a value of legal length that breaks the rule breaks the pattern |
| UserSchema.PasswordAccepted | src/routes/user.ts:12-32 | a password is accepted exactly when its trimmed value satisfies the character-class rule |
| UserSchema.PasswordTooLong | src/routes/user.ts:26 | an over-long password gets the custom "at most 30 characters" text |
| UserSchema.PasswordBreaksPattern | src/routes/user.ts:18-19 | a password of legal length that breaks the rule gets the custom pattern text |
| UserSchema.ReqPassword | backend/src/schemas/user/updateUserSchema.ts:7-27 | the password key is accepted exactly when present, a string, and rule-abiding once trimmed |
| UserSchema.UserSchemaAccepts | src/routes/user.ts:8-33 | the body is accepted exactly when both names are 1 to 150 characters once trimmed, the e-mail is an address and the password satisfies the rule; the trimmed values are handed on |
| SrcUser.Post | src/routes/user.ts:39-78 | schema error, then "Email already registered" for an exact e-mail match, else the insert; e-mail addresses stay distinct |
| SrcUser.Put | src/routes/user.ts:151-207 | bad id, schema error, "User not found"; else the four fields are overwritten, with no e-mail check |
| SrcUser.Delete | src/routes/user.ts:209-244 | bad id, not found, or removal; e-mail addresses stay distinct |
| MovementSchema.IdParams | src/schemas/movement/paramsMovementSchema.ts:3-11 | accepted exactly when the trimmed id is a non-empty UUID; otherwise "Invalid Id" |
| MovementSchema.PeriodSchema | src/schemas/movement/paramsMovementSchema.ts:13-18 | accepted exactly when both dates parse and the end is not before the start; the validated period is ordered |
| MovementSchema.EndBeforeStartRejected | src/schemas/movement/paramsMovementSchema.ts:15-17 | an end date before the start date fails with `date.min` and the custom text |
| MovementSchema.EqualDatesAccepted | src/schemas/movement/paramsMovementSchema.ts:15 | a period whose end equals its start, a single instant, is accepted, because the minimum is inclusive |
| MovementSchema.DateSchema | src/schemas/movement/paramsMovementSchema.ts:20-22 | accepted exactly when the date parses |
| MovementSchema.CreateSchema | app/src/schemas/movement/createMovementSchema.ts:3-12 | accepted exactly when the user id is a trimmed UUID and the date is not after now |
| MovementSchema.UpdateSchema | src/schemas/movement/updateMovementSchema.ts:3-13 | the create rules plus a boolean `isActive` |
| SrcMovement.Post | src/routes/movement.ts:16-47 | schema error, "User not found", else an active movement of that user is inserted, dated no later than now; links are kept |
| SrcMovement.Update | src/routes/movement.ts:163-209 | on a validated id and body: "Movement not found", then "User not found"; else date, flag and user are overwritten; links are kept |
| SrcMovement.Put | src/routes/movement.ts:159-210 | bad id, body error, then the handler's cases; links are kept |
| SrcMovement.Delete | src/routes/movement.ts:212-234 | bad id, plain-text "Movement not found", or removal with 204 |
| SrcMovement.OnIsOneInstantPeriod | src/routes/movement.ts:139-157 | the date route answers the same as the period that starts and ends at that instant |
| SrcMovement.OnMissesLaterInstant | src/routes/movement.ts:150-153 | the date route compares whole timestamps: a movement stamped after the given instant, even on the same calendar day, is not in its answer |
| SrcMovement.PeriodSplits | src/routes/movement.ts:117-137 | splitting a period splits its answer into two disjoint parts |
| SrcMovement.ReversedPeriodIsEmpty | src/routes/movement.ts:117-137 | a reversed period would answer nothing |
| SrcMovement.PeriodRouteCoversStart | src/routes/movement.ts:117-137 | a validated period always contains the movements stamped at its start instant |
| SrcMovement.DeactivatedLeavesActive | src/routes/movement.ts:159-210 | an update that clears `isActive` removes that movement from `/active` and changes nothing else there |
| SrcMovement.CreatedIsActive | src/routes/movement.ts:16-47 | a created movement appears in `/active` |
| SrcMovementItem.ItemSchemaAccepts | src/schemas/movement_item/updateMovementItemSchema.ts:3-21 | accepted exactly when details (optional) are 1 to 250 characters once trimmed, price and quantity are at least 0, and both ids are trimmed UUIDs |
| SrcMovementItem.Post | src/routes/movement_item.ts:13-55 | "Movement not found", then "Product not found", else the insert; items stay linked |
| SrcMovementItem.Update | src/routes/movement_item.ts:94-126 | on a validated id and body: not found, else details (when given), price and quantity are overwritten; no row's links change and items stay linked |
| SrcMovementItem.Put | src/routes/movement_item.ts:90-127 | bad id, body error, then the handler's cases |
| SrcMovementItem.Delete | src/routes/movement_item.ts:129-156 | not found, or removal; items stay linked |
| SrcBatch.BatchSchemaWith | src/routes/batch.ts:11 | a validated expiration date is never before now |
| SrcBatch.BatchSchemaAccepts | src/routes/batch.ts:9-13 | accepted exactly when the description is 1 to 250 characters once trimmed, the expiration date is not before now, and the product id is a UUID as given; the trimmed description, parsed date and untrimmed id are handed on |
| SrcBatch.Post | src/routes/batch.ts:15-52 | schema error, "Product not found", else the insert; batches stay linked |
| SrcBatch.Put | src/routes/batch.ts:79-131 | lookup by the raw parameter, then schema, then product; else the three columns are overwritten; batches stay linked |
| SrcBatch.Delete | src/routes/batch.ts:133-153 | not found, or removal; batches stay linked |
| AppBatch.WrittenProductIdMessage | backend/src/schemas/batch/createBatchSchema.ts:6-11 | with the override keyed `string.uuid`, a non-UUID product id is answered with the bare code `string.guid` |
| AppBatch.IntendedProductIdMessage | backend/src/schemas/batch/createBatchSchema.ts:6-11 | keyed `string.guid`, the same input gets "Invalid Product Id" |
| AppBatch.Post | app/src/routes/batch.ts:12-43 | body error, "Product not found", else the insert; batches stay linked |
| AppBatch.Update | app/src/routes/batch.ts:81-126 | on a validated id and body: "Batch not found", "Product not found"; else the three columns are overwritten and the row as read before is returned; batches stay linked |
| AppBatch.Put | app/src/routes/batch.ts:77-127 | a params error, then a body error, then the handler's cases; batches stay linked |
| AppBatch.Delete | app/src/routes/batch.ts:129-156 | params, not found, or removal |
| SrcStock.StockSchemaAccepts | src/routes/stock.ts:10-22 | accepted exactly when quantity is at least 0, the deposit id is a trimmed UUID, and the batch id is absent or a trimmed UUID |
| SrcStock.InsertKeepsPairsUnique | src/routes/stock.ts:46-58 | inserting a row whose (batch, deposit) pair no row holds keeps pairs unique |
| SrcStock.FindBatch | src/routes/stock.ts:63-65 | `findOneBy` finds the given batch, or any stored batch when the id is undefined |
| SrcStock.Post | src/routes/stock.ts:28-92 | schema error, "Stock already exists" only when a given batch id is paired, "Batch not found", "Deposit not found"; else the insert with the batch the lookup returned |
| SrcStock.PostChecked | src/routes/stock.ts:46-89 | the corrected create: it also checks the pair of the batch actually resolved, and so keeps pairs unique in every case |
| SrcStock.Put | src/routes/stock.ts:237-316 | bad id, body error, "Stock not found", "Deposit not found", "Batch not found"; else quantity, batch and deposit are overwritten and every other row is untouched |
| SrcStock.Delete | src/routes/stock.ts:318-353 | bad id, not found, or removal; pairs stay unique |
| Scenarios.CreateWithoutBatchDuplicatesPair | src/routes/stock.ts:44-89 | a create without `batchId`, for a deposit every batch is already paired with, succeeds and breaks pair uniqueness |
| Scenarios.CheckedCreateRefusesPair | src/routes/stock.ts:46-58 | the corrected create refuses that request and leaves the table unchanged |
| Scenarios.UpdateDuplicatesPair | src/routes/stock.ts:271-313 | an update may move a row onto another row's pair, since the update checks no pairs |
| Scenarios.LegacyCategoriesAcceptDuplicates | src/routes/categories.ts:12-36 | the older category handler stores the same description twice |

## Left out

- HTTP transport and the Express app: routing, the server, swagger, migrations and the front end are not part of this model.
- The GET routes that only list or join rows are not modelled: the list, by-id and by-name routes, LIKE searches, joined products and stock listings. The movement filters `/active`, period and date are the exception.
- Joi internals are taken as given in `Joi.Lib`: UUID and e-mail syntax, string-to-number conversion and date parsing. Rejecting unknown keys is not modelled. Library messages are represented by their error codes rather than their English templates.
- Joi.NumValue: a JSON number too large for a double (`1e400`) becomes `Infinity` in JavaScript, and Joi answers `number.infinity`. Model numbers are finite reals, so such a value is refused with `number.unsafe` instead: the answer is still 400 on that key, with a different code.
- Database constraints (NOT NULL, foreign keys, column types), concurrency between requests and transactions are not modelled. A handler runs atomically on the store.
- Fresh UUID generation is the `newId` parameter. It is assumed absent from its table.
- Passwords are stored as given, in plain text, as the source does. Hashing is not part of the source.
- String lengths count Dafny characters, not UTF-16 code units.
- app/src/schemas/product/createProductSchema.ts, updateProductSchema.ts and paramsProductSchema.ts are not part of this model. The src/schemas/product files of the same names stand in. The update flag is named `status`, because the app handler reads `status`.
- app/src/schemas/batch/createBatchSchema.ts, paramsBatchSchema.ts and updateBatchSchema.ts are not part of this model. backend/src/schemas/batch/createBatchSchema.ts stands in for both bodies, and a trimmed-UUID "Invalid Id" schema stands in for the params.
- src/schemas/movement_item/createMovementItemSchema.ts and paramsMovementItemSchema.ts are not part of this model. The update schema stands in for the create body, and a trimmed-UUID "Invalid Id" schema stands in for the params.
- src/schemas/movement/createMovementSchema.ts is not part of this model. app/src/schemas/movement/createMovementSchema.ts stands in.
- backend/src/schemas/group/updateGroupSchema.ts and paramsGroupSchema.ts are not part of this model. The src/schemas/group files stand in; their rules are the same as the create schema's.
- The deposit entity declares a `status` column, but the handler sets `isActive`. The model keeps the handler's single active flag and does not model the mismatch.
- SrcUser.Post: answers `Created`, but src/entities/user.ts:24-25 declares `isActive` NOT NULL and the handler never sets it. The schema is synchronised from the entities (src/database/data-source.ts:18), so the real insert fails and the 201 answer is not reached. Column constraints are not part of this model.
- SrcProduct.Post: answers `Created` when `description` is omitted, but src/entities/product.ts:36-37 declares it NOT NULL, so the real insert of such a body fails.
- SrcDeposit.Post: answers `Created`, but src/entities/deposit.ts:12-16 declares `description` and `status` NOT NULL and the handler never sets `status`, so the real insert fails. The model does not capture this.
- SrcStock.Post: keeps pairs unique only when `batchId` is given. Without it, the pair query matches nothing and the batch lookup returns an arbitrary stored batch (see Findings). The unconditional promise is proved for SrcStock.PostChecked.
- SrcStock.Put: makes no pair promise. The source checks no pairs on update (Scenarios.UpdateDuplicatesPair).
- SrcUser.Put: makes no e-mail uniqueness promise. The source does not check the e-mail on update.
- SrcCategories.Post: makes no uniqueness promise. The older handler never checks for duplicates (Scenarios.LegacyCategoriesAcceptDuplicates).

## Findings

| source | as written | input that shows it | evidently intended | confidence | as-written member | corrected member |
|---|---|---|---|---|---|---|
| src/routes/stock.ts:46-89 | with `batchId` omitted, the pair query binds an undefined parameter and finds nothing, and `findOneBy({id: undefined})` returns some stored batch, which is saved with the deposit | a body `{quantity: 1, depositId: D}` when every stored batch already has a stock row in deposit D | one stock row per (batch, deposit) pair: the check applies to the batch actually stored | not executed | Scenarios.CreateWithoutBatchDuplicatesPair | SrcStock.PostChecked |
| backend/src/schemas/batch/createBatchSchema.ts:6-11 | the `productId` override is keyed `string.uuid`, but `.uuid()` reports the code `string.guid`, so the custom text never appears | a body whose `productId` is `"abc"` | the answer `{productId: "Invalid Product Id"}` | not executed | AppBatch.WrittenProductIdMessage | AppBatch.IntendedProductIdMessage |
