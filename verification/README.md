# Cart service model

A Dafny model of the cart aggregate of a shopping-cart backend. `CartService`
keeps users' carts in a `carts(id, user_id, status)` table and the cart's
lines in a `cart_items(cart_id, product_id, count)` table, keyed uniquely by
`(cart_id, product_id)`. When it reads a cart, it joins the lines with a
read-only `products` catalog. The model also covers the two request bodies the
service and the checkout receive, `UpdateUserCart` and `CheckoutOrder`.

Files and modules:

- `tables.dfy`, module `Tables`: the rows of the three tables and one function per
  statement that reads or changes the rows the model keeps; the cart insert is an
  append in `CartService`. A table is a sequence of rows in storage order.
  - `FirstMatch` is `.first()`; `JoinItems` is the join.
  - `Upsert` is the insert with merge on conflict. `DeleteKey` and `DeleteByUser` are the deletes.
  - `SetStatus` and `UpdatedStatuses` are the status update and what it returns.
  - `Counts` views `cart_items` as the map from `(cart_id, product_id)` to `count`.
  - The lemmas say what each statement does to the rows and to that map.
- `item_list.dfy`, module `ItemList`: the item list `updateByUserId` returns. It is
  rebuilt in memory from the prior list and the one update.
- `cart_service.dfy`, module `CartService`: each service operation as a function
  from the tables' contents (`Store`) to its result and new contents, with the
  lemmas relating them. The class `CartService.CartService` has the two tables as
  fields, plus the catalog and the database's default status as constants. Its
  methods perform each operation step by step, as the source does. Each method's
  postcondition equates its result and new state with the function of the old state.
- `class_validator.dfy`, `update_user_cart.dfy`, `checkout_order.dfy`: the request
  bodies as JSON values, what the decorators `IsString`, `IsNumber`, `IsNotEmpty` and
  `IsOptional` accept, and each request's validity predicate. Each request also has a
  decoding into a typed value and an encoding back.

Modelling choices:

- New cart ids come from the database. They are modelled as a `newId` parameter that
  must be fresh (`FreshCartId`): no cart row has it and no item row refers to it.
  The empty id is allowed, so the `if (!id)` branch of `updateByUserId` can be reached.
- A new cart row takes its status from the column default, because the insert names
  only `user_id`. The model takes that default as the constant `defaultStatus`.
  The lemmas that need it to be OPEN say so. `FindOrCreateWithOrderedDefault` shows what
  happens otherwise: a new row is created on every call.
- Nothing enforces "at most one open cart per user". `Find` takes the first matching row.
- The empty user id is the falsy one. `findByUserId` returns nothing for it. So
  `findOrCreateByUserId` and `updateByUserId` insert a new cart row for `""` on every call
  (`FindOrCreate`'s postcondition for `""`).
- Counts and prices are `real`, because the source's `number` carries no integer
  constraint. The service compares the count with zero; prices are only passed through.

What the code does not enforce:

- The code does not keep "one open cart per user" as an invariant.
- `changeCartStatusTransacted` accepts any target status, so a cart can be set back to OPEN.
- A request's count is any number, not a positive integer. A count <= 0 deletes the line.

## Model

| member | source | states |
|---|---|---|
| `Tables.FirstMatch` | src/cart/services/cart.service.ts:14-17 | the index of the first cart row of that user and status; none exactly when no row matches |
| `Tables.JoinItems` | src/cart/services/cart.service.ts:22-41 | the items are exactly the cart's `cart_items` rows whose product is in the catalog, each with `product.id` = `product_id`, the catalog's display fields and the stored count |
| `Tables.JoinItemsDistinct` | src/cart/services/cart.service.ts:22-41 | under the unique key on `(cart_id, product_id)` the join gives one item per product: the items have distinct product ids |
| `Tables.Counts` | src/cart/services/cart.service.ts:88-92 | the map view of `cart_items`: its keys are exactly the keys of the stored rows |
| `Tables.CountsOfRow` | src/cart/services/cart.service.ts:88-92 | under the unique key, the map view holds each stored row's count at that row's key |
| `Tables.Upsert` | src/cart/services/cart.service.ts:88-92 | insert-or-merge on `(cart_id, product_id)`: the table grows by at most one row; what it stores is stated by `UpsertRows`, `UpsertKeepsUnique` and `UpsertCounts` |
| `Tables.UpsertRows` | src/cart/services/cart.service.ts:88-92 | after the upsert the new row is stored; a row with any other key is stored after exactly when it was before |
| `Tables.UpsertKeepsUnique` | src/cart/services/cart.service.ts:88-92 | the upsert keeps `(cart_id, product_id)` unique, adds exactly its key, and leaves exactly one row with that key: the new one |
| `Tables.UpsertCounts` | src/cart/services/cart.service.ts:88-92 | in the map view, the upsert sets its key to the new count and changes no other key |
| `Tables.UpsertIdempotent` | src/cart/services/cart.service.ts:88-92 | upserting the same row twice gives the table upserting it once gives |
| `Tables.UpsertKeepsPositive` | src/cart/services/cart.service.ts:87-92 | the upsert stores no count <= 0 when the update's count is positive |
| `Tables.DeleteKey` | src/cart/services/cart.service.ts:111-113 | the delete on `(cart_id, product_id)` never adds a row; what it keeps is stated by `DeleteKeyRows` and `DeleteKeyCounts` |
| `Tables.DeleteKeyRows` | src/cart/services/cart.service.ts:111-113 | the delete keeps exactly the rows with another key, and nothing fails when the key is absent |
| `Tables.DeleteKeyKeepsUnique` | src/cart/services/cart.service.ts:111-113 | the delete removes exactly its key from the key set and keeps keys unique |
| `Tables.DeleteKeyCounts` | src/cart/services/cart.service.ts:111-113 | in the map view, the delete removes its key and changes no other key |
| `Tables.DeleteKeyIdempotent` | src/cart/services/cart.service.ts:111-113 | deleting twice gives the table deleting once gives |
| `Tables.JoinNoRows` | src/cart/services/cart.service.ts:65-70 | a cart no item row refers to joins to the empty list |
| `Tables.FirstMatchAppend` | src/cart/services/cart.service.ts:53-55 | after appending a new row to a table with no match, the first match is the new row if it matches, else there is none |
| `Tables.DeleteByUser` | src/cart/services/cart.service.ts:129-133 | keeps exactly the carts of other users, whatever their status, and keeps the primary key |
| `Tables.NoMatchAfterDelete` | src/cart/services/cart.service.ts:129-133 | after the delete no row of that user matches, in any status |
| `Tables.SetStatus` | src/cart/services/cart.service.ts:144-146 | the same rows with the same ids and users; a row's status becomes the new one exactly when its id is the given id |
| `Tables.SetStatusIdempotent` | src/cart/services/cart.service.ts:139-148 | setting the same status twice is setting it once |
| `Tables.SetStatusKeepsIds` | src/cart/services/cart.service.ts:144-146 | the status update keeps the set of ids and the primary key |
| `Tables.UpdatedStatuses` | src/cart/services/cart.service.ts:144-147 | `returning('status')` gives `[status]` when a cart has the id (ids unique) and `[]` when none has |
| `ItemList.WithoutProduct` | src/cart/services/cart.service.ts:104 | the filter keeps exactly the items of other products |
| `ItemList.WithoutProductAppend` | src/cart/services/cart.service.ts:104 | the filter keeps order: it distributes over concatenation |
| `ItemList.WithoutAbsentProduct` | src/cart/services/cart.service.ts:123 | a list without the product is returned as it is |
| `ItemList.UpdatedItems` | src/cart/services/cart.service.ts:102-123 | the returned list: the update followed by the prior items of other products when the count is positive, only those items otherwise; its properties are `UpdatedItemsShape`, `UpdatedItemsIdempotent` and `UpdatedItemsDistinct` |
| `ItemList.UpdatedItemsShape` | src/cart/services/cart.service.ts:102-105 | with a positive count the update comes first and is the only item of its product; with a count <= 0 no item has that product; the other items are exactly the prior items of other products |
| `ItemList.UpdatedItemsIdempotent` | src/cart/services/cart.service.ts:98-124 | rebuilding the list twice with the same update gives the list rebuilt once |
| `ItemList.UpdatedItemsDistinct` | src/cart/services/cart.service.ts:102-105 | a prior list with distinct product ids stays so |
| `CartService.Find` | src/cart/services/cart.service.ts:9-45 | nothing for an empty user id; nothing exactly when no row has that user and status; otherwise a stored row of that user and status, with its joined items |
| `CartService.FoundItemsDistinct` | src/cart/services/cart.service.ts:22-45 | under the unique key on `cart_items`, a found cart's items have distinct product ids |
| `CartService.FindOrCreate` | src/cart/services/cart.service.ts:58-71 | when `Find` gives the user's OPEN cart, that cart is returned and neither table changes; otherwise exactly `CartRow(newId, userId, defaultStatus)` is appended and returned with no items; the returned cart is the user's and is stored; no item row changes; for an empty user id the row is always added |
| `CartService.Update` | src/cart/services/cart.service.ts:73-127 | the cart rows change as in find-or-create; with no result the item rows are unchanged; a result is the user's cart with a non-empty id |
| `CartService.UniqueIdsAppend` | src/cart/services/cart.service.ts:53-55 | inserting a cart with a fresh id keeps the primary key |
| `CartService.FindOrCreateKeepsValid` | src/cart/services/cart.service.ts:58-71 | find-or-create keeps both unique keys and positive counts |
| `CartService.ResolvedItemsAreJoined` | src/cart/services/cart.service.ts:58-71 | the resolved cart's items are the join of its stored rows, also for a new cart with `items = []` |
| `CartService.FindOrCreateTwice` | src/cart/services/cart.service.ts:58-71 | with default status OPEN and a non-empty user id, a second call returns the same cart and changes nothing |
| `CartService.FindOrCreateWithOrderedDefault` | src/cart/services/cart.service.ts:48-51 | with default status ORDERED, two calls for a user without an open cart add two cart rows |
| `CartService.UpdateKeepsValid` | src/cart/services/cart.service.ts:73-127 | an update keeps both unique keys and stores no count <= 0 |
| `CartService.UpdateTable` | src/cart/services/cart.service.ts:81-124 | no result exactly when the resolved id is empty; a result is the resolved cart with the rebuilt list; in the map view a positive count sets the key `(cart id, product id)`, a count <= 0 removes it, and no other key changes |
| `CartService.UpdateReturnsDistinct` | src/cart/services/cart.service.ts:98-126 | under the unique key on `cart_items`, the list an update returns has distinct product ids |
| `CartService.UpdateLeavesOneRow` | src/cart/services/cart.service.ts:87-92 | under the unique key alone, with a positive count exactly one row has the key afterwards and it holds the new count; every other row is kept and none added |
| `CartService.UpdateTwice` | src/cart/services/cart.service.ts:73-127 | with default status OPEN and a non-empty user id, the same update applied twice leaves the tables as applying it once |
| `CartService.SecondResolveSameCart` | src/cart/services/cart.service.ts:77-79 | after an update, resolving the cart again gives the same id and changes no table |
| `CartService.JoinAfterDelete` | src/cart/services/cart.service.ts:111-124 | after a delete, the returned list is exactly the list a re-read of the cart would give, order included |
| `CartService.UpsertReturnMatchesReread` | src/cart/services/cart.service.ts:87-108 | after a positive update of a catalog product, the returned list and a re-read name the same (product id, count) pairs; only order and display fields may differ |
| `CartService.AddToNewCart` | src/cart/services/cart.service.ts:73-108 | a new user's first update appends the cart row, upserts the line and returns just that item |
| `CartService.ClearNewCart` | src/cart/services/cart.service.ts:111-126 | setting the only line of that cart to count 0 returns no items and restores the table's counts |
| `CartService.NewUserScenario` | src/cart/services/cart.service.ts:58-127 | find-or-create gives a new cart with no items; adding 2 of a product returns just that item; setting it to 0 returns no items and leaves the counts as before |
| `CartService.FindAfterRemove` | src/cart/services/cart.service.ts:129-133 | after removing a user's carts, finding that user's cart gives nothing, in any status |
| `CartService.CartService.FindByUserId` | src/cart/services/cart.service.ts:9-46 | returns what `Find` gives for the current tables and changes nothing |
| `CartService.CartService.CreateByUserId` | src/cart/services/cart.service.ts:48-56 | appends exactly the row with the new id, the user and the default status, and returns it |
| `CartService.CartService.FindOrCreateByUserId` | src/cart/services/cart.service.ts:58-71 | result and new tables are `FindOrCreate` of the old tables |
| `CartService.CartService.UpdateByUserId` | src/cart/services/cart.service.ts:73-127 | result and new tables are `Update` of the old tables; the constraints are kept |
| `CartService.CartService.RemoveByUserId` | src/cart/services/cart.service.ts:129-133 | the carts table becomes `DeleteByUser` of the old one; item rows are untouched |
| `CartService.CartService.ChangeCartStatusTransacted` | src/cart/services/cart.service.ts:139-148 | the carts table becomes `SetStatus` of the old one, with ORDERED as the default target; returns `[status]` when the id exists, `[]` otherwise |
| `ClassValidator.IsString` | src/cart/updateUserCart.ts:4 | `@IsString()`: the property is present and a string |
| `ClassValidator.IsNumber` | src/cart/updateUserCart.ts:18 | `@IsNumber()`: the property is present and a number |
| `ClassValidator.IsNotEmpty` | src/cart/updateUserCart.ts:5 | `@IsNotEmpty()`: the property is present, not `null` and not `''`; an empty object passes |
| `ClassValidator.SkippedAsOptional` | src/cart/updateUserCart.ts:10 | `@IsOptional()`: a `null` or absent property skips the property's other decorators |
| `UpdateUserCart.ProductValid` | src/cart/updateUserCart.ts:3-21 | `ProductUpdateUserCart`: a non-empty string `id`; `title` and `description` absent or `null`, or else non-empty strings; a number `price` |
| `UpdateUserCart.ShallowValid` | src/cart/updateUserCart.ts:23-29 | the decorators of `UpdateUserCart` as written: `product` not empty, `count` a number of any sign; the product's own fields are not checked |
| `UpdateUserCart.Valid` | src/cart/updateUserCart.ts:3-29 | the intended check: the shallow one, and `product` an object that passes `ProductValid` |
| `UpdateUserCart.Decode` | src/cart/updateUserCart.ts:3-29 | a valid body decodes to an update carrying the body's product id, title, description, price and count; the id is non-empty and no title or description is empty |
| `UpdateUserCart.DecodeEncode` | src/cart/updateUserCart.ts:3-29 | decoding an encoded update gives it back |
| `UpdateUserCart.ValidEncode` | src/cart/updateUserCart.ts:3-29 | an encoded update is valid exactly when the product id is non-empty and any title or description is non-empty; any count, zero and negative included, is valid |
| `UpdateUserCart.ValidDecodes` | src/cart/updateUserCart.ts:23-29 | a valid body decodes, and the decoded update encodes to a valid body |
| `UpdateUserCart.ShallowAcceptsProductWithoutId` | src/cart/updateUserCart.ts:23-25 | as written, `{product: {}, count: 1}` passes, yet is not valid and does not decode |
| `CheckoutOrder.AddressValid` | src/order/checkoutOrder.ts:3-18 | `OrderAddress`: `comment` a string, possibly empty; `lastName`, `firstName` and `address` non-empty strings |
| `CheckoutOrder.ShallowValid` | src/order/checkoutOrder.ts:20-23 | the decorator of `CheckoutOrder` as written: `address` not empty; the address's own fields are not checked |
| `CheckoutOrder.Valid` | src/order/checkoutOrder.ts:3-23 | the intended check: `address` an object that passes `AddressValid` |
| `CheckoutOrder.Decode` | src/order/checkoutOrder.ts:3-22 | a valid body decodes to an order carrying the body's comment, last name, first name and address; the last three are non-empty |
| `CheckoutOrder.DecodeEncode` | src/order/checkoutOrder.ts:3-22 | decoding an encoded order gives it back |
| `CheckoutOrder.ValidEncode` | src/order/checkoutOrder.ts:3-17 | an encoded order is valid exactly when last name, first name and address are non-empty; the comment may be empty |
| `CheckoutOrder.ValidDecodes` | src/order/checkoutOrder.ts:21-22 | a valid body decodes, and the decoded order encodes to a valid body |
| `CheckoutOrder.ShallowAcceptsAddressWithoutFields` | src/order/checkoutOrder.ts:21-22 | as written, `{address: {}}` passes, yet is not valid and does not decode |

## Left out

- `updatedAt`: the code selects the column `updated_at` (src/cart/services/cart.service.ts lines 94-97 and 115-118) but reads the property `updatedAt` from the row, so the value is `undefined` unless the database client renames columns to camelCase, which is not modelled. It is not in `Cart` and nothing is stated about it; the two `select('updated_at')` reads have no counterpart in the model.
- Transactions: `createTransaction` and the `trx` handle are not modelled. Each method is one atomic change of the tables, and `changeCartStatusTransacted` takes no transaction argument.
- Concurrency and `async`: the model is sequential. The find-or-create race and concurrent upserts on one cart are outside it. So is the stale returned list they can cause: `UpsertReturnMatchesReread` holds only without interleaving.
- Knex, SQL and the database client: these are replaced by functions on the table contents. Errors the database could raise (constraint and foreign-key failures, a knex undefined binding) are not modelled.
- Row order: SQL gives `.first()` and the join no order. The model uses storage order. `FirstMatch` is the first matching row, and an upsert of an existing key overwrites the row where it stands.
- Cascading deletes: `RemoveByUserId` deletes only `carts` rows. Whether the database also deletes the cart's `cart_items` rows depends on a schema that is not part of this model.
- Id generation: new cart ids are a fresh parameter, not generated.
- The `Cart` record type, `src/cart/models`, is not part of this model. A cart here has the fields the service reads or sets: id, user id, status and items.
- User ids are strings. `null` and `undefined` are not modelled; the empty string is the falsy value.
- `IsNumber`: NaN and the infinities are not modelled, and neither are floating-point prices.
- Request bodies: fields beyond the declared ones are ignored, and class-transformer conversion is not modelled.
- Frameworks: the dependency-injection decorator is not modelled.
- `Tables.UpdatedStatuses`: `.returning('status')` is modelled as the list of bare statuses (`[status]`). Depending on the knex version and database it can give row objects (`[{ status }]`) instead; that representation is not modelled.
- `UpsertReturnMatchesReread`: stated only for a product in the catalog. For a product missing from the catalog, the returned list names the update but a re-read would not.

## Findings

| source | as written | input that shows it | evidently intended | confidence | as-written member | corrected member |
|---|---|---|---|---|---|---|
| src/cart/updateUserCart.ts:23-25 | `product` carries only `@IsNotEmpty()`. Without `@ValidateNested()` the decorators of `ProductUpdateUserCart` (lines 3-20) never run on it | `{"product": {}, "count": 1}` passes, yet has no product id to store | the product's own field constraints are checked too | medium; not executed | `UpdateUserCart.ShallowValid`, `UpdateUserCart.ShallowAcceptsProductWithoutId` | `UpdateUserCart.Valid`, `UpdateUserCart.ValidDecodes` |
| src/order/checkoutOrder.ts:21-22 | `address` carries only `@IsNotEmpty()`. Without `@ValidateNested()` the decorators of `OrderAddress` (lines 3-18) never run on it | `{"address": {}}` passes, yet has no names or address | the address's own field constraints are checked too | medium; not executed | `CheckoutOrder.ShallowValid`, `CheckoutOrder.ShallowAcceptsAddressWithoutFields` | `CheckoutOrder.Valid`, `CheckoutOrder.ValidDecodes` |
