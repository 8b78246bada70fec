# El Olimpo point-of-sale backend: a Dafny model of its business core

The backend is a NestJS service over a relational database reached through
TypeORM. It sells products grouped in categories, applies percentage coupons,
records sales ("transactions") with their line items ("transaction contents"),
and undoes a sale by restocking it. This project models the services that hold
that logic, together with the request validators in front of them:

- `TransactionsService`:
  - `create` prices a sale. The total is Σ quantity × price, with an optional coupon discount, and the client's total is ignored.
  - `create` then checks and decrements stock item by item, against the running inventory, inside one database transaction.
  - `findAll` lists sales, optionally those of one calendar day.
  - `findOne` reads one sale.
  - `remove` adds each line item back to its product, deletes the line items, then deletes the sale.
- `CouponsService`:
  - `create` refuses a duplicate name and moves the expiry to the start of its day.
  - `findOne`, `update` and `remove` work on one coupon.
  - `applyCoupon` looks a coupon up by exact name and accepts it through the last instant of its expiration day.
- `ProductsService`:
  - `create` checks for a duplicate name before checking that the category exists.
  - `findAll` lists newest first, with an optional category filter, take/skip pagination and a total count.
  - `findOne`, `update` and `remove` work on one product.
  - The controller's take/skip defaults are folded into the listing's arguments.
- `CategoriesService`:
  - `create` stores a category.
  - `findOne` optionally includes the category's products.
  - `update` renames a category, and `remove` deletes one.
- Request DTOs:
  - `CreateTransactionDto` and `TransactionContentsDto`.
  - `CreateCouponDto`, `ApplyCouponDto` and `CreateProductDto`.
  - The model states their class-validator rules as predicates with the exact messages, and their `trim().toUpperCase()` transform as a normalisation.
  - The nested validation of a sale's `contents` walks into arrays and objects. The validation pipe prefixes each of its messages with the path of the element, such as `contents.0.`.

An HTTP error carries a list of messages when the service throws it with a list, and one message when it throws it with a single string (`Entities.HttpError`).

The database is one `Database` object (`store.dfy`) holding a `Tables` value. `Tables` has:

- one map from primary key to record per entity;
- the next value of each autoincrement sequence.

`Consistent` is the database invariant:

- keys agree with ids and lie below their sequences;
- the foreign keys Product → Category, TransactionContents → Product and TransactionContents → Transaction hold.

Operations that write are methods that modify the `Database`. Every one of them keeps `Consistent` and states its whole new state. Read-only operations are functions over `Tables`.

The sale is modelled the way the service runs it. `Transactions.StageItems` is the loop over the line items. It runs on a working copy of the tables, and `Transactions.Create` commits that copy only when every item passed. Both are proved against pure specifications in `sale.dfy`:

- `Sale.Price` for the money;
- `Sale.Stock` for the running stock check;
- `Transactions.CreateOutcome` for the whole outcome.

`Transactions.Remove` is likewise a loop (`Transactions.ReturnRows`) that writes one product and one line item at a time. It is proved against `Transactions.RemoveOutcome`.

Time is integer milliseconds. A calendar day is a block of 86 400 000 of them (`calendar.dfy`), and `StartOfDay` and `EndOfDay` stand for date-fns' functions of the same names. Money is an exact `real`.

Some inputs come from outside the services and become parameters:

- the current instant, `now`;
- the date library's parsing of a date text, `parseDate` / `parseIso`;
- the validator library's ISO-date test, `isIsoDate`;
- the text a database driver stores for a non-string image, `imageText`.

## Model

| member | source | states |
|---|---|---|
| `Text.Trim` | src/coupons/dto/apply-coupon.dto.ts:7 | the result is a slice of the input with only white space cut from both ends, and neither of its ends is white space |
| `Text.NormalizeIdempotent` | src/coupons/dto/create-coupon.dto.ts:20 | trim + upper-case applied twice equals applied once |
| `Text.NormalizedShape` | src/coupons/dto/create-coupon.dto.ts:20 | a normalised string has no white space at either end and no ASCII lower-case letter |
| `Text.NatToString` | src/transactions/dto/create-transaction.dto.ts:72 | the position of an element in a message path is written as digits whose decimal value is the position, with no leading zero |
| `Text.IntToString` | src/products/products.service.ts:88 | the text of an id in a message starts with '-' exactly for a negative id, and its digits have as decimal value the id, or minus the id when it is negative |
| `Text.IntToStringInjective` | src/products/products.service.ts:88 | two ids with the same text are equal, so a message names exactly the id it was given |
| `Calendar.StartOfDay` | src/coupons/coupons.service.ts:42 | the start of day is a day boundary at or before the instant, less than a day before it |
| `Calendar.EndOfDay` | src/coupons/coupons.service.ts:100 | the end of day is the last instant before a day boundary, at or after the instant, less than a day after it |
| `Calendar.WithinDayWindow` | src/transactions/transactions.service.ts:139-143 | an instant lies in [startOfDay(d), endOfDay(d)] exactly when it falls on the same day as d |
| `Calendar.DayBoundsOnSameDay` | src/coupons/coupons.service.ts:40-45 | startOfDay is idempotent and the end of a day is on that day, so storing startOfDay does not move the expiry day |
| `Validation.TrimUpper` | src/transactions/dto/create-transaction.dto.ts:62-64 | the transform normalises a string, leaves an absent property absent, and throws (500) on any other value |
| `Validation.TrimUpperIdempotent` | src/transactions/dto/create-transaction.dto.ts:63 | running the transform on its own output gives the same value |
| `Validation.WholeIsZeroDecimals` | src/products/dto/create-product.dto.ts:37-42 | `IsNumber({maxDecimalPlaces: 0})` accepts exactly the whole numbers |
| `Validation.DecimalExamples` | src/products/dto/create-product.dto.ts:25-30 | 999.99 has at most two decimals; 0.125 has three |
| `TransactionRequests.FieldErrors` | src/transactions/dto/create-transaction.dto.ts:24-42 | an object gets no message exactly when productId and quantity are present integers and price is a present number |
| `TransactionRequests.ItemErrors` | src/transactions/dto/create-transaction.dto.ts:72-73 | an element gets no message exactly when the nested validation accepts it: a missing value, an object that passes the line item rules, or an array whose elements it accepts in turn |
| `TransactionRequests.ElementErrors` | src/transactions/dto/create-transaction.dto.ts:72 | the nested validation of an array reports nothing exactly when it accepts every element |
| `TransactionRequests.ContentsErrors` | src/transactions/dto/create-transaction.dto.ts:70-74 | `contents` passes exactly when it is a non-empty array whose elements the nested validation accepts |
| `TransactionRequests.TotalErrors` | src/transactions/dto/create-transaction.dto.ts:54-56 | `total` passes exactly when it is a present number |
| `TransactionRequests.ToContentsDto` | src/transactions/dto/create-transaction.dto.ts:19-43 | the typed line item carries the numbers of the JSON element unchanged |
| `TransactionRequests.ValidateCreateTransaction` | src/transactions/dto/create-transaction.dto.ts:49-75 | a body is accepted exactly when its coupon transform succeeds and total and contents pass; a body that passes with an element that is not an object is a server error; every other refusal carries messages; the accepted request has the body's total and items and the normalised coupon, absent exactly when the body has none |
| `TransactionRequests.CouponArrivesNormalized` | src/transactions/dto/create-transaction.dto.ts:62-64 | the coupon reaching the service is a fixed point of the normalisation |
| `TransactionRequests.NonPositiveQuantityAccepted` | src/transactions/dto/create-transaction.dto.ts:28-34 | a quantity of zero or below passes validation unchanged, although the comment asks for a positive one |
| `TransactionRequests.EmptyContentsRefused` | src/transactions/dto/create-transaction.dto.ts:70-71 | an empty `contents` array is refused with exactly the custom message |
| `TransactionRequests.ContentsMessagesReported` | src/transactions/dto/create-transaction.dto.ts:49-75 | with no coupon and a valid total, a refused body reports exactly the messages of its `contents` |
| `TransactionRequests.NestedArrayElementPasses` | src/transactions/dto/create-transaction.dto.ts:72 | `[[]]` passes the rules of `contents`, the nested validation walking into the inner array |
| `TransactionRequests.NumberElementMessage` | src/transactions/dto/create-transaction.dto.ts:72 | an element that is a number is refused with exactly "contents.nested property contents must be either object or array" |
| `TransactionRequests.MissingPriceMessages` | src/transactions/dto/create-transaction.dto.ts:40-41 | an object with a whole productId and quantity and no price breaks exactly the two price rules, under the given path |
| `TransactionRequests.NestedObjectPath` | src/transactions/dto/create-transaction.dto.ts:72-73 | the messages of an object inside an array inside `contents` are those of its rules under "contents.0.0." |
| `TransactionRequests.NestedObjectMessages` | src/transactions/dto/create-transaction.dto.ts:72-73 | such an object without a price is refused with the two price messages under "contents.0.0." |
| `CouponRequests.NameErrors` | src/coupons/dto/create-coupon.dto.ts:14-19 | the name passes exactly when it is a present string of 1 to 30 characters matching `^[a-zA-Z0-9\s]+$` |
| `CouponRequests.PorcentajeErrors` | src/coupons/dto/create-coupon.dto.ts:23-27 | the percentage passes exactly when it is a present integer from 1 to 100 |
| `CouponRequests.ExpirationErrors` | src/coupons/dto/create-coupon.dto.ts:29-37 | the expiration passes exactly when it is a present ISO date string |
| `CouponRequests.ValidateCreateCoupon` | src/coupons/dto/create-coupon.dto.ts:13-38 | the body is accepted exactly when the normalised name, the percentage and the date pass; the accepted name is the normalised one, 1 to 30 allowed characters, and the percentage lies in [1, 100] |
| `CouponRequests.AcceptedNameIsNormal` | src/coupons/dto/create-coupon.dto.ts:14-20 | an accepted name has no outer white space, no lower-case ASCII letter, and is its own normalisation |
| `CouponRequests.NameNormalizationAbsorbed` | src/coupons/dto/create-coupon.dto.ts:20 | sending a name or its normalised form gives the same validation outcome |
| `CouponRequests.BlankNameRefused` | src/coupons/dto/create-coupon.dto.ts:14-20 | a name of blanks only is refused, being empty once trimmed |
| `ApplyCouponRequests.CouponNameErrors` | src/coupons/dto/apply-coupon.dto.ts:5-6 | the coupon name passes exactly when it is a present, non-empty string |
| `ApplyCouponRequests.ValidateApplyCoupon` | src/coupons/dto/apply-coupon.dto.ts:4-9 | accepted exactly when the name is a string whose normalisation is not empty; the service receives the normalised name; a non-string name makes the transform throw |
| `ApplyCouponRequests.AcceptedCouponNameIsNormal` | src/coupons/dto/apply-coupon.dto.ts:7 | the accepted name is non-empty, trimmed, upper-case and its own normalisation |
| `ApplyCouponRequests.PaddedNameTrimmed` | src/coupons/dto/apply-coupon.dto.ts:7 | a name padded with one space on each side is accepted and reaches the service unpadded and upper-cased |
| `ProductRequests.ProductErrors` | src/products/dto/create-product.dto.ts:13-51 | no message exactly when name is a non-empty string, image is present, price has at most 2 decimals, inventory is whole and categoryId is an integer, each present |
| `ProductRequests.ValidateCreateProduct` | src/products/dto/create-product.dto.ts:7-52 | accepted exactly when no rule is broken; a refusal is a 400 with messages; the accepted product carries the body's values, with a price of at most two decimals |
| `ProductRequests.NegativeInventoryAccepted` | src/products/dto/create-product.dto.ts:37-42 | an inventory of -5 passes validation unchanged |
| `ProductRequests.ThreeDecimalPriceRefused` | src/products/dto/create-product.dto.ts:25-30 | a price of 0.125 is refused with exactly the price message |
| `Ordering.DescendingIds` | src/products/products.service.ts:57-59 | the listing is strictly decreasing and holds exactly the ids of the set |
| `Ordering.DescendingRank` | src/products/products.service.ts:57-61 | in a decreasing listing exactly i members of the set lie above position i |
| `Coupons.Create` | src/coupons/coupons.service.ts:29-52 | a name already stored fails with the duplicate message and changes nothing; an unreadable date fails with the generic processing error and changes nothing; otherwise exactly one coupon is inserted at the next id, with the expiry at the start of the supplied day |
| `Coupons.FindOne` | src/coupons/coupons.service.ts:58-66 | found exactly when the id is stored, answering that coupon; otherwise not-found with the id in the message |
| `Coupons.Update` | src/coupons/coupons.service.ts:68-72 | a missing id fails not-found and changes nothing; otherwise exactly the supplied fields are overwritten, with no uniqueness or start-of-day re-check, and only that coupon changes |
| `Coupons.Remove` | src/coupons/coupons.service.ts:74-88 | a missing id fails not-found and changes nothing; otherwise exactly that coupon is deleted and returned with its confirmation |
| `Coupons.ApplyCoupon` | src/coupons/coupons.service.ts:90-110 | success answers the confirmation "Cupón aplicado correctamente" with a stored coupon of exactly that name with now ≤ endOfDay(expiry); not-found exactly when no coupon has the name; an expired refusal names a stored coupon past its day |
| `Coupons.ApplyUniqueCoupon` | src/coupons/coupons.service.ts:99-109 | for a uniquely named coupon, applying succeeds with the confirmation and the stored coupon exactly when now ≤ endOfDay(expiry), else fails 422 "El cupón ha expirado" |
| `Coupons.ExpiryBoundary` | src/coupons/coupons.service.ts:99-104 | the last millisecond of the expiration day is accepted and the next one refused |
| `Coupons.ApplyDependsOnlyOnDay` | src/coupons/coupons.service.ts:99-100 | moving an expiry within its day changes no answer of applyCoupon |
| `Coupons.CreatedCouponApplies` | src/coupons/coupons.service.ts:40-45 | a coupon just created under a fresh name applies until the end of the supplied day and not after |
| `Sale.SubtotalNonNegative` | src/transactions/transactions.service.ts:55-58 | with no negative quantity or price the subtotal is at least 0 |
| `Sale.Price` | src/transactions/transactions.service.ts:55-69 | without a (truthy) coupon the total is the subtotal and coupon and discount are unset; with one, the coupon lookup's failure is the sale's failure, otherwise discount = p/100 × subtotal, total + discount = subtotal and the stored coupon name is the coupon record's |
| `Sale.PriceIgnoresClientTotal` | src/transactions/transactions.service.ts:55-59 | the client's total has no effect on the price |
| `Sale.DiscountBounded` | src/transactions/transactions.service.ts:65-68 | for p in [1, 100] and a non-negative subtotal, discount and total lie between 0 and the subtotal |
| `Sale.SaveTenExample` | src/transactions/transactions.service.ts:61-69 | two units at 50 with a 10 % coupon are stored with total 90 and discount 10 |
| `Sale.Stock` | src/transactions/transactions.service.ts:72-97 | a successful stock check keeps the set of products and every item names an existing product; a failure is not-found or bad-request |
| `Sale.StockStep` | src/transactions/transactions.service.ts:81-97 | at each item, a missing product or a quantity above the current inventory fails with that item's error, else the item is taken and the check goes on |
| `Sale.StockOutcome` | src/transactions/transactions.service.ts:72-94 | the check passes exactly when every item fits the inventory left by the items before it (quantity == inventory fits); otherwise it fails with the error of the first item that does not |
| `Sale.RunningStock` | src/transactions/transactions.service.ts:97 | the inventory seen at item k is the original minus the quantities of items 0..k-1 of the same product |
| `Sale.StockTakesQuantities` | src/transactions/transactions.service.ts:72-109 | after a sale each product's inventory drops by exactly the sum of the quantities its items request, and nothing else about any product changes |
| `Sale.StockKeepsInventoryNonNegative` | src/transactions/transactions.service.ts:89-97 | after a sale every sold product has inventory ≥ 0, and a product that started ≥ 0 stays ≥ 0 |
| `Sale.Restock` | src/transactions/transactions.service.ts:187-192 | restocking keeps the set of products |
| `Sale.RestockAddsQuantities` | src/transactions/transactions.service.ts:187-192 | restocking adds back to each product exactly the quantity of its rows |
| `Sale.ContentRows` | src/transactions/transactions.service.ts:99-108 | row k of a sale holds item k's quantity, price and product under the sale, with the k-th next id |
| `Sale.RestockUndoesStock` | src/transactions/transactions.service.ts:187-192 | restocking the rows of a successful sale gives back exactly the inventory from before it |
| `Transactions.ContentsOf` | src/transactions/transactions.service.ts:161-166 | the line items loaded with a sale are exactly the stored rows naming it |
| `Transactions.NewRowsShape` | src/transactions/transactions.service.ts:99-108 | the rows of a sale occupy exactly the next consecutive ids, row k holding item k |
| `Transactions.NewRowsReferences` | src/transactions/transactions.service.ts:100-104 | every new row has its id as key and names the sale and an existing product |
| `Transactions.CommitKeepsConsistent` | src/transactions/transactions.service.ts:106-108 | committing a sale that passed the stock check keeps the database consistent |
| `Transactions.CreateOutcome` | src/transactions/transactions.service.ts:47-115 | a sale succeeds exactly when pricing and the stock check succeed; a pricing failure (the coupon) is reported before any item is looked at, and otherwise the stock check's error (its first item that does not fit); every failure is not-found, bad-request or unprocessable; a sale without items stores nothing; the result is consistent |
| `Transactions.TakeItem` | src/transactions/transactions.service.ts:72-96 | one item is refused exactly when its product is missing or its quantity exceeds the inventory, with the stock check's error, and otherwise its product's inventory drops by the quantity as in one step of the stock check |
| `Transactions.StageItems` | src/transactions/transactions.service.ts:72-109 | the loop fails with the stock check's error, or yields the stocked products, the sale row (when there is an item) and the new rows on the working copy |
| `Transactions.Create` | src/transactions/transactions.service.ts:47-115 | on failure the error is returned and no table changes; on success the database becomes the specified outcome and the confirmation is returned |
| `Transactions.FindAll` | src/transactions/transactions.service.ts:126-149 | fails 400 with the single message "Fecha inválida" exactly for a given, non-empty, unparseable date; without a date every sale is listed; each listed sale carries its line items |
| `Transactions.FindAllSameDay` | src/transactions/transactions.service.ts:133-145 | with a valid date the listing holds exactly the sales made on that calendar day |
| `Transactions.FindOne` | src/transactions/transactions.service.ts:160-173 | found exactly when stored, with its line items; otherwise not-found with the single message "Transacción no encontrada" |
| `Transactions.RowsOf` | src/transactions/transactions.service.ts:187 | removal visits one row per line item of the sale, in increasing id order |
| `Transactions.RowsOfRows` | src/transactions/transactions.service.ts:187-190 | each visited row is a stored row of the sale naming an existing product |
| `Transactions.RowIdsOfRowsOf` | src/transactions/transactions.service.ts:187-198 | removal visits exactly the rows of the sale |
| `Transactions.RemoveOutcome` | src/transactions/transactions.service.ts:184-203 | removal fails exactly for a missing sale, not-found with the single message "Transacción no encontrada" |
| `Transactions.RemoveOutcomeConsistent` | src/transactions/transactions.service.ts:184-203 | a removal keeps the database consistent, and afterwards neither the sale nor any of its line items is found |
| `Transactions.RemoveOutcomeValue` | src/transactions/transactions.service.ts:187-201 | a removal restocks the sale's rows in order, deletes them, deletes the sale and changes nothing else |
| `Transactions.RemoveKeepsConsistent` | src/transactions/transactions.service.ts:187-201 | restocking and deleting a sale's rows and then the sale keeps the database consistent |
| `Transactions.DeleteSaleKeepsConsistent` | src/transactions/transactions.service.ts:194-201 | deleting a sale with its rows, while products change only in inventory, keeps every foreign key |
| `Transactions.RestockKeepsRows` | src/transactions/transactions.service.ts:191 | restocking changes inventories only |
| `Transactions.RemainingRowsReferences` | src/transactions/transactions.service.ts:194-198 | once a sale's rows are gone, every remaining row names another sale |
| `Transactions.ReturnRows` | src/transactions/transactions.service.ts:187-199 | the loop leaves the products restocked by the rows, in order, and the rows deleted, and changes nothing else |
| `Transactions.RestockRow` | src/transactions/transactions.service.ts:188-192 | one product's inventory grows by the row's quantity, nothing else changes |
| `Transactions.DeleteRow` | src/transactions/transactions.service.ts:194-198 | one line item row is deleted, nothing else changes |
| `Transactions.Remove` | src/transactions/transactions.service.ts:184-203 | a missing sale fails not-found and changes nothing; otherwise the database becomes the specified outcome, stays consistent, and the confirmation is returned |
| `Transactions.CommittedRows` | src/transactions/transactions.service.ts:99-108 | after a commit the rows of the new sale are exactly the rows it stored |
| `Transactions.CommittedRowsInOrder` | src/transactions/transactions.service.ts:187 | removal visits a just-committed sale's rows in the order of its items |
| `Transactions.CommitThenRestock` | src/transactions/transactions.service.ts:187-192 | restocking a just-committed sale's rows restores the product table |
| `Transactions.CommitThenDelete` | src/transactions/transactions.service.ts:194-201 | deleting a just-committed sale's rows and row restores the sale and line item tables |
| `Transactions.RemoveRestores` | src/transactions/transactions.service.ts:184-203 | when restocking and deleting give back the tables of t, removal answers t with its two sequences advanced |
| `Transactions.CommitUndone` | src/transactions/transactions.service.ts:184-203 | a just-committed sale, restocked and deleted, leaves every table as before the commit |
| `Transactions.CreateThenRemove` | src/transactions/transactions.service.ts:184-203 | creating a sale with items and then removing it restores every table and every product's inventory; only the two id sequences have moved on |
| `Products.Create` | src/products/products.service.ts:22-50 | a duplicate name fails 400 first, even when the category is missing too; then a missing category fails 404; failures change nothing; otherwise exactly one product is inserted at the next id, linked to its category |
| `Products.Matching` | src/products/products.service.ts:63-70 | the listing's candidates are all products, or for a non-zero category id exactly that category's products |
| `Products.Window` | src/products/products.service.ts:60-61 | the page skips `skip` ids and keeps at most `take` of the rest (0: no limit), in order |
| `Products.View` | src/products/products.service.ts:54-56 | a listed product comes with its own category |
| `Products.FindAll` | src/products/products.service.ts:52-77 | total counts every match whatever the page; at most `take` products; empty past the end; every entry matches and carries its category; ids strictly decrease |
| `Products.WindowHolds` | src/products/products.service.ts:60-61 | in a decreasing listing the window holds position i exactly when skip ≤ i < skip + take (or take is 0) |
| `Products.FindAllPage` | src/products/products.service.ts:52-77 | a matching product is on the page exactly when the number of newer matches lies in [skip, skip + take) (or take is 0) |
| `Products.PageArguments` | src/products/products.controller.ts:55-57 | a missing take becomes 10 and a missing skip 0; given values pass through |
| `Products.DefaultListing` | src/products/products.controller.ts:56-57 | a listing without page arguments shows min(total, 10) products |
| `Products.FindOne` | src/products/products.service.ts:79-97 | found exactly when stored, with its category, whose id is the product's categoryId; otherwise not-found with a single message naming the id |
| `Products.Patched` | src/products/products.service.ts:101-114 | exactly the supplied fields are copied; a non-zero category id replaces the category; the id never changes |
| `Products.Update` | src/products/products.service.ts:99-116 | a missing product fails not-found and a non-zero unknown category fails "Categoría no existe", both changing nothing; otherwise only that product changes, to the patched one, and the update succeeds |
| `Products.Remove` | src/products/products.service.ts:118-123 | a missing product fails not-found; a product still named by a sale's line item is refused by the foreign key; otherwise exactly that product is deleted |
| `Products.CreatedProductListedFirst` | src/products/products.service.ts:46-49 | a product just created is found with its category and heads the first page of the unfiltered listing and of its category's listing |
| `Products.InsertKeepsConsistent` | src/products/products.service.ts:46-49 | inserting at the next id in an existing category keeps the database consistent |
| `Products.NewestFirst` | src/products/products.service.ts:57-59 | the product with the highest id heads the first page of any listing it matches |
| `Products.RemovedProductGone` | src/products/products.service.ts:118-123 | after a removal the product is not found and every listing's total drops by one exactly when it matched |
| `Categories.ProductsOf` | src/categories/categories.service.ts:50-53 | the loaded relation holds exactly the products whose categoryId is the category |
| `Categories.Create` | src/categories/categories.service.ts:20-24 | exactly one category is inserted at the next id under the given name |
| `Categories.FindOne` | src/categories/categories.service.ts:45-64 | found exactly when stored; the products come with it exactly when the flag is the text "true", and are then the category's products; otherwise not-found with the single message "La categoría no existe" |
| `Categories.Update` | src/categories/categories.service.ts:67-71 | a missing id fails not-found and changes nothing; otherwise the answer carries the id and the name sent; a name left out changes nothing, and a given name replaces only that category's name |
| `Categories.Remove` | src/categories/categories.service.ts:75-78 | a missing id fails not-found; a category still holding products is refused by the foreign key; otherwise exactly that category is deleted and returned |
| `Categories.CategoryProductsAreListed` | src/categories/categories.service.ts:50-57 | the products a category read shows are exactly those the product listing filtered by that category counts |
| `Categories.CreatedCategoryFound` | src/categories/categories.service.ts:20-24 | a category just created reads back with its name and no products |
| `Categories.RemovedCategoryGone` | src/categories/categories.service.ts:75-78 | after a removal the database is consistent and the category is not found |

## Left out

- HTTP routing, modules, bootstrap, configuration, the seeder and the image upload are not part of this model: they hold no business logic. The exception is the controller's take/skip defaults, which `Products.PageArguments` models.
- The `findAll` of coupons (src/coupons/coupons.service.ts:54-56) and of categories (src/categories/categories.service.ts:27-29) return a whole table. They are not modelled as operations.
- Concurrency between requests is not modelled. `Transactions.Create` is one atomic step, as the database transaction makes it. `Transactions.Remove` is a sequence of single writes. Sequence values that a rolled-back insert consumes are not modelled.
- Floating point and decimal column rounding are not modelled: money is an exact `real`. The discount column's scale of 1 is not modelled either.
- Time zones and date-fns parsing are abstracted. Days are UTC blocks of milliseconds, and parsing is a parameter. The coupon `date` column keeping only the day is not modelled.
- Only ASCII letters are upper-cased by `Text.Upper`: JavaScript's `toUpperCase` on other letters is not modelled. The order in which class-validator lists messages follows the decorators as written.
- Query strings are not modelled. The listing takes its category, take and skip as numbers, and an absent value is `None`. In the running service these values arrive as strings, and the text "0" is truthy, so the controller passes it on instead of its default. `Products.Window` follows TypeORM and treats a take of 0 as "no limit".
- Column widths are not enforced: varchar(255), varchar(30) and int32.
- `ProductRequests.ValidateCreateProduct` leaves the conversion of a non-string image to text to a parameter.
- `Transactions.RowsOf` visits a sale's line items in increasing id order. The relation load has no declared order, so this is the order the database commonly returns, not a promise of the source.
- `Categories.FindOne` returns the category's products as a map by id. The `order: {id: 'ASC'}` option sorts the category row rather than the products relation, so no order is promised.
- `Products.Patched`: an update with `categoryId: 0` copies 0 onto the column, but the saved relation decides. The model keeps the old category, and the failure from a column that no longer matches its relation is not modelled.
- `Products.Remove` and `Categories.Remove` do not always remove exactly the row, as a reading of the service alone suggests:
  - Past sales' line items keep a foreign key to their product, and nothing cascades to them. Removing a product that was sold is therefore refused by the database, and the service returns an unhandled 500.
  - The same holds for a category that still has products: the relation is not loaded, so `cascade` does not apply.
- TypeORM clears the id of a removed entity in the object it returns. `Categories.Remove` and `Coupons.Remove` return the record as it was stored.
- The catch around coupon removal (src/coupons/coupons.service.ts:82-87) is not modelled: nothing refers to a coupon row, so no other failure can reach it.
- `TransactionRequests.ValidateCreateTransaction` answers a server error for a body that passes validation while an element of `contents` is not an object: a missing element, or an array, which the nested validation walks into. The service then reads an undefined product id, quantity and price. What TypeORM does with a lookup by an undefined id, and with the resulting NaN inventory, is not modelled.
- `Categories.Update` takes a name that is either left out or a non-empty string. The update request inherits `IsOptional` on `name`, and its own `IsNotEmpty` replaces the inherited `IsString`, so a null name and a non-empty value that is not a string pass validation too. The database refusing a null name, and the driver's conversion of other values, are not modelled.
- `Coupons.ApplyCoupon` picks the lowest id when several coupons share a name. `Coupons.Update` can create such duplicates, and the database then picks a row with no declared order.
