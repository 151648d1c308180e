# Customer data layer: a verified model of the in-memory store

This project models the in-memory customer data layer of the CustomerSync
refactoring kata (`FakeCustomerDataLayer`) and the mutable `ShoppingList`
record it stamps with ids. The store keeps two tables as growable arrays:

- `customerRecords`: one row per customer, eight nullable fields;
- `shoppingLists`: one row per shopping list, holding the list's id, its
  owner's internal id and its products.

On these it offers three "first match" lookups (by company number, external id
and master external id), `createCustomerRecord`, `updateCustomerRecord` and the
shopping-list upsert `updateShoppingList`, built from the helpers
`createNewShoppingListRecord`, `updateShoppingListRecord`, `toCustomerRecord`
and `loadCustomerEntity`.

How the source maps onto Dafny:

- `FakeCustomerDataLayer` is a class whose two tables are `seq` fields that the
  methods reassign. A row is a datatype value (`CustomerRecord`,
  `ShoppingListRecord`); `Object.assign` on a found row becomes a sequence
  update, and assigning row fields becomes an update of that one element.
- `ShoppingList` is a class. Its `internalId` and `customerInternalId` fields
  are mutable, and the store writes them in place. Its `products` field is a
  `const`, because the source declares it `readonly`.
- `Customer` and `Address` are datatypes. `Customer.shoppingLists` holds
  `ShoppingList` objects, which is how `createCustomerRecord` can stamp the
  caller's lists.
- JavaScript `null` is `None` of `Option`, and `===` is `==` on `Option`
  values. So a `null` key matches a row whose field is `null`, and a list
  row's id, which is never null, never matches a `null` list id.
- `Array.prototype.find` becomes `ArraySearch.FindIndex`, the index of the
  first match. `filter(...).map(r => r.products)` becomes
  `Records.OwnedProducts`.
- A list id is `Records.IdString(n)`, the decimal numeral of the table length
  at the moment the row is appended. The invariant `Valid()` states that row
  `i` has id `IdString(i)`. `IdStringInjective` turns this into "list ids are
  unique".
- `createCustomerRecord` does not assign a customer `internalId`: the row
  stores whatever id the caller supplied, possibly `null`.
- The non-null assertions `customerRecord.internalId!` and
  `shoppingList.customerInternalId!` are erased at run time. A `null` owner id
  is therefore stored as it is: `ShoppingListRecord.customerId` is an
  `Option`.
- `loadCustomerEntity` allocates one new `ShoppingList` per owned row, so it is
  a method. Its pure parts are `OwnedProducts` (which rows and products) and
  `Entity` (the customer built from a row). `toCustomerRecord` is
  `Records.ToCustomerRecord`. `Entity`'s contract states that the two
  functions round-trip.
- The loop of `createCustomerRecord` is the method `CreateListRecords`. One turn
  of it is `CreateListRecordAt`.
- `updateShoppingList` either finishes or throws. Throwing is the outcome
  `OwnerNotFound`, which carries the missing owner id. The function
  `Records.Upsert` specifies the method's effect on the list table and on the
  argument list.

## Model

| member | source | states |
|---|---|---|
| ShoppingLists.ShoppingList.constructor | typescript/src/ShoppingList.ts:1-8 | a new list has `internalId` and `customerInternalId` null, and `products` equal to the arguments in order (empty when none are given) |
| ArraySearch.FindIndex | typescript/test/support/FakeCustomerDataLayer.ts:46-65 | `find` yields the first element, in array order, that satisfies the test; it yields nothing exactly when no element does |
| ArraySearch.FindIndexIsFirst | typescript/test/support/FakeCustomerDataLayer.ts:46-65 | `find` is fully determined: whenever position `k` matches and no earlier one does, it returns position `k` |
| ArraySearch.FindIndexAppend | typescript/test/support/FakeCustomerDataLayer.ts:35-37 | pushing a row never changes which row an existing match finds; the new row is found only when no earlier row matches |
| ArraySearch.FindIndexOverwrite | typescript/test/support/FakeCustomerDataLayer.ts:67-75 | overwriting the found row with a row that still matches the key leaves the lookup on that same row |
| ArraySearch.FindIndexSameMatches | typescript/test/support/FakeCustomerDataLayer.ts:79-80 | a lookup depends only on which positions match, so rewriting fields the test does not read leaves it unchanged |
| ArraySearch.LastPlaces | typescript/test/support/FakeCustomerDataLayer.ts:39-41 | every list object of the customer is assigned a position within the input array |
| ArraySearch.LastPlacesAreLast | typescript/test/support/FakeCustomerDataLayer.ts:39-41 | the assigned position holds the object, and no later position does, so a list object that occurs twice keeps the id of its last occurrence |
| Records.Entity | typescript/test/support/FakeCustomerDataLayer.ts:124-144 | the customer built from a row has exactly that row's eight fields (storing it again gives back the same row) and the given lists |
| Records.RowMatches | typescript/test/support/FakeCustomerDataLayer.ts:46-83 | the `find` test `record.<column> === key` holds exactly when the row's column equals the key; for a null key it holds exactly on rows whose column is null |
| Records.ListIdIs | typescript/test/support/FakeCustomerDataLayer.ts:80 | the test `record.internalId === list.internalId` never holds for a null list id, and otherwise holds exactly on rows with that id |
| Records.ToCustomerRecord | typescript/test/support/FakeCustomerDataLayer.ts:111-122 | the stored row keeps all eight scalar fields of the customer, the address copied by value: a customer rebuilt from the row with the same lists is the customer |
| Records.StoredCustomerLoadsBack | typescript/test/support/FakeCustomerDataLayer.ts:111-143 | storing a customer with `toCustomerRecord` and building the entity back from the row, with the same lists, gives the customer back |
| Records.Digit | typescript/test/support/FakeCustomerDataLayer.ts:101 | a digit below ten is written as the decimal digit character of that value |
| Records.IdString | typescript/test/support/FakeCustomerDataLayer.ts:101 | the id of a new list is a non-empty string of decimal digits, a single digit exactly below ten |
| Records.IdStringInjective | typescript/test/support/FakeCustomerDataLayer.ts:101 | different table lengths give different ids |
| Records.ListIdsUnique | typescript/test/support/FakeCustomerDataLayer.ts:100-108 | when row ids equal row positions, no two list rows share an id |
| Records.FindListById | typescript/test/support/FakeCustomerDataLayer.ts:79-80 | when row ids equal row positions, looking up the id of `k` finds row `k` exactly when the table has more than `k` rows |
| Records.NewListRowsSnoc | typescript/test/support/FakeCustomerDataLayer.ts:39-41 | creating one more list appends one row, numbered after the rows created before it |
| Records.NewListRowsKeepIdsIndices | typescript/test/support/FakeCustomerDataLayer.ts:100-108 | appending the rows for new lists, numbered by the table length, keeps every row's id equal to its position |
| Records.OwnedProducts | typescript/test/support/FakeCustomerDataLayer.ts:129-131 | defined as the filter of the list rows by `customerId === owner` followed by the map to their products, in storage order. Its contract: no owned rows load no lists, a table whose rows are all owned loads every row's products in order, and never more lists than rows |
| Records.OwnedProductsConcat | typescript/test/support/FakeCustomerDataLayer.ts:129-131 | loading distributes over the table: each row contributes its products, in storage order, exactly when its `customerId` equals the owner id |
| Records.NewListRowsLoadBack | typescript/test/support/FakeCustomerDataLayer.ts:100-108 | all rows created for an owner load back as that owner's lists, with the input products in input order |
| Records.CreatedListsLoadBack | typescript/test/support/FakeCustomerDataLayer.ts:35-43 | after a create, the owner's lists load as the lists it already owned followed by the new ones |
| Records.Upsert | typescript/test/support/FakeCustomerDataLayer.ts:78-109 | the upsert fails exactly when no customer row has the list's `customerInternalId`, even if the list row exists. If a row has the list's id, only that row's owner id and products change, the row count stays the same and the list is unchanged. Otherwise one row with the next id is appended, and the list is stamped with that id and its owner. A null list id never matches a row |
| Records.UpsertKeepsIdsIndices | typescript/test/support/FakeCustomerDataLayer.ts:88-108 | an upsert keeps every list row's id equal to its position |
| Records.UpsertIdempotent | typescript/test/support/FakeCustomerDataLayer.ts:78-98 | repeating an upsert with the list as the first call left it changes neither the table nor the list, so a second call never creates a duplicate row |
| Records.UpsertCreatedLoadsBack | typescript/test/support/FakeCustomerDataLayer.ts:91 | a list that the upsert creates loads back as its owner's last list |
| FakeCustomerDataLayers.FakeCustomerDataLayer.constructor | typescript/test/support/FakeCustomerDataLayer.ts:31-33 | a new store has two empty tables and satisfies the id invariant |
| FakeCustomerDataLayers.FakeCustomerDataLayer.CreateCustomerRecord | typescript/test/support/FakeCustomerDataLayer.ts:35-44 | appends exactly one customer row, equal to the customer's eight fields, and leaves earlier rows unchanged. Appends one list row per input list, in input order, each numbered by its position and owned by the customer's `internalId`. Stamps every input list with its owner and its new row's id. Returns the stored customer, whose lists are those the id owned before followed by the new ones. Any lookup by a column and key that found a row before the create still finds that row; the new row is found only when no earlier row matches |
| FakeCustomerDataLayers.FakeCustomerDataLayer.CreateListRecords | typescript/test/support/FakeCustomerDataLayer.ts:39-41 | the loop appends the rows for the input lists in order and stamps every list object with the owner's id and the id of the row made for its last occurrence |
| FakeCustomerDataLayers.FakeCustomerDataLayer.CreateListRecordAt | typescript/test/support/FakeCustomerDataLayer.ts:40 | one turn of that loop extends the created rows and the stamps by one list |
| FakeCustomerDataLayers.FakeCustomerDataLayer.FindBy | typescript/test/support/FakeCustomerDataLayer.ts:46-65 | the shared shape of the three lookups: nothing exactly when no row's column equals the key, otherwise the entity loaded from the first such row; no table changes |
| FakeCustomerDataLayers.FakeCustomerDataLayer.FindByCompanyNumber | typescript/test/support/FakeCustomerDataLayer.ts:46-51 | null exactly when no row's company number `===` the key, where a null key matches a null field. Otherwise returns the entity loaded from the first matching row, with fresh lists. Neither table changes |
| FakeCustomerDataLayers.FakeCustomerDataLayer.FindByExternalId | typescript/test/support/FakeCustomerDataLayer.ts:53-58 | the same, by external id |
| FakeCustomerDataLayers.FakeCustomerDataLayer.FindByMasterExternalId | typescript/test/support/FakeCustomerDataLayer.ts:60-65 | the same, by master external id |
| FakeCustomerDataLayers.FakeCustomerDataLayer.UpdateCustomerRecord | typescript/test/support/FakeCustomerDataLayer.ts:67-76 | when no row's `internalId` equals the customer's, returns null and changes nothing. Otherwise the first matching row becomes the customer's eight fields, and other rows, the list table and the table sizes stay the same. Returns the reloaded customer, and the key still finds the same row afterwards |
| FakeCustomerDataLayers.FakeCustomerDataLayer.UpdateShoppingList | typescript/test/support/FakeCustomerDataLayer.ts:78-93 | throws, with both tables and the argument unchanged, exactly when the owner is missing. Otherwise it has the effect `Upsert` describes on the list table and on the argument list. The customer table never changes |
| FakeCustomerDataLayers.FakeCustomerDataLayer.UpdateShoppingListRecord | typescript/test/support/FakeCustomerDataLayer.ts:95-98 | row `j` takes the list's owner id and products; its id and every other row stay |
| FakeCustomerDataLayers.FakeCustomerDataLayer.CreateNewShoppingListRecord | typescript/test/support/FakeCustomerDataLayer.ts:100-109 | appends one row whose id is the numeral of the old table length, owned by the owner row's `internalId`, with the list's products; stamps the list with that id and owner |
| FakeCustomerDataLayers.FakeCustomerDataLayer.LoadCustomerEntity | typescript/test/support/FakeCustomerDataLayer.ts:124-144 | the entity has the row's eight fields. Its lists are new, pairwise distinct objects with null ids, whose products are those of exactly the list rows whose `customerId` equals the row's `internalId`, in storage order |

## Left out

- `async`/`Promise`: no operation awaits anything, so each is a plain sequential method.
- The JSON deep clone of the address (`clone`): an `Address` is a datatype value, so copying it is value copy.
- The text of the error thrown by `updateShoppingList`: the outcome `OwnerNotFound` carries only the missing owner id.
- Aliasing of a list's `products` array between the list object and its row (lines 97 and 105 share the array): `readonly` only forbids reassigning the field, so a later in-place change of that array, such as a `push`, would also change the stored row. That in-place change is not modelled; both sides hold the same immutable `seq` value.
- JavaScript `undefined`: every field is modelled as a value or `null`. So the exception that `clone` raises on an `undefined` address is not modelled.
- The `CustomerSync` orchestrator (identity resolution, field merging, the `created` flag) and the `Customer`, `Address`, `CustomerType`, `ExternalCustomer` and `CustomerDataLayer` source files are not part of this model. `Customer` and `Address` are rebuilt only from the record fields and the constructor call in the data layer.
- The mocha test harness that drives the orchestrator is not modelled.
