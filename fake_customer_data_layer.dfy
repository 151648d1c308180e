/**
 * The in-memory customer data layer of typescript/test/support/FakeCustomerDataLayer.ts:
 * two tables kept as growable arrays, first-match lookups, and in-place updates.
 * The source's operations are `async` but never wait on anything, so they are
 * ordinary methods here.
 */
module FakeCustomerDataLayers {
  import opened Wrappers
  import opened ShoppingLists
  import opened Customers
  import opened ArraySearch
  import opened Records

  /** How `updateShoppingList` ends: normally, or by throwing because the owner is missing. */
  datatype Outcome = Saved | OwnerNotFound(customerInternalId: Option<string>)

  /** List objects no row refers to yet: both ids null, no object twice. */
  ghost predicate Unsaved(lists: seq<ShoppingList>)
    reads set l | l in lists
  {
    && (forall k :: 0 <= k < |lists| ==> lists[k].internalId == None && lists[k].customerInternalId == None)
    && (forall k, m :: 0 <= k < m < |lists| ==> lists[k] != lists[m])
  }

  class FakeCustomerDataLayer {
    var customerRecords: seq<CustomerRecord>
    var shoppingLists: seq<ShoppingListRecord>

    ghost predicate Valid()
      reads this
    {
      ListIdsAreIndices(shoppingLists)
    }

    /** `c` is the entity `loadCustomerEntity` builds from `row` against the current list table. */
    ghost predicate LoadedFrom(c: Customer, row: CustomerRecord)
      reads this, set l | l in c.shoppingLists
    {
      && ToCustomerRecord(c) == row
      && ProductsOf(c.shoppingLists) == OwnedProducts(shoppingLists, row.internalId)
      && Unsaved(c.shoppingLists)
    }

    constructor ()
      ensures Valid()
      ensures customerRecords == [] && shoppingLists == []
    {
      customerRecords := [];
      shoppingLists := [];
    }

    /**
     * Stores the customer's fields as a new row (its `internalId` is whatever the
     * caller put there), then appends one list row per list of the customer and
     * stamps each list object with its new id and with the owner's id.
     */
    method CreateCustomerRecord(customer: Customer) returns (r: Customer)
      requires Valid()
      modifies this, set l | l in customer.shoppingLists
      ensures Valid()
      ensures customerRecords == old(customerRecords) + [ToCustomerRecord(customer)]
      ensures shoppingLists == old(shoppingLists) + NewListRows(|old(shoppingLists)|, customer.internalId, ProductsOf(customer.shoppingLists))
      ensures forall l | l in customer.shoppingLists :: l.customerInternalId == customer.internalId
      // a list object given twice is stamped twice, and keeps the id of its last place
      ensures forall l | l in customer.shoppingLists ::
                l.internalId == Some(shoppingLists[|old(shoppingLists)| + LastPlaces(customer.shoppingLists)[l]].internalId)
      ensures LoadedFrom(r, ToCustomerRecord(customer)) && forall l | l in r.shoppingLists :: fresh(l)
      ensures ProductsOf(r.shoppingLists) == OwnedProducts(old(shoppingLists), customer.internalId) + ProductsOf(customer.shoppingLists)
      // a lookup that found a customer before still finds the same one; the new row is found only when no earlier row matches
      ensures forall column: Column, key: Option<string> ::
                (FindIndex(customerRecords, RowMatches(column, key))
                 == if FindIndex(old(customerRecords), RowMatches(column, key)).Some? then FindIndex(old(customerRecords), RowMatches(column, key))
                    else if RowMatches(column, key)(ToCustomerRecord(customer)) then Some(|old(customerRecords)|) else None)
    {
      var record := ToCustomerRecord(customer);
      forall column: Column, key: Option<string>
        ensures FindIndex(customerRecords + [record], RowMatches(column, key))
             == if FindIndex(customerRecords, RowMatches(column, key)).Some? then FindIndex(customerRecords, RowMatches(column, key))
                else if RowMatches(column, key)(record) then Some(|customerRecords|) else None
      {
        FindIndexAppend(customerRecords, record, RowMatches(column, key));
      }
      customerRecords := customerRecords + [record];
      CreateListRecords(record, customer.shoppingLists);
      r := LoadCustomerEntity(record);
      CreatedListsLoadBack(old(shoppingLists), record.internalId, ProductsOf(customer.shoppingLists));
    }

    /** The loop of `createCustomerRecord`: one new list row per list, in input order. */
    method CreateListRecords(owner: CustomerRecord, lists: seq<ShoppingList>)
      requires Valid()
      modifies this`shoppingLists, set l | l in lists
      ensures Valid()
      ensures shoppingLists == old(shoppingLists) + NewListRows(|old(shoppingLists)|, owner.internalId, ProductsOf(lists))
      ensures forall l | l in lists ::
                && l.customerInternalId == owner.internalId
                && l.internalId == Some(shoppingLists[|old(shoppingLists)| + LastPlaces(lists)[l]].internalId)
    {
      ghost var before := shoppingLists;
      var i := 0;
      while i < |lists|
        invariant 0 <= i <= |lists|
        invariant CreatedUpTo(before, owner, lists[..i])
      {
        CreateListRecordAt(before, owner, lists, i);
        i := i + 1;
      }
      assert lists[..i] == lists;
      NewListRowsKeepIdsIndices(before, owner.internalId, ProductsOf(lists));
    }

    /** The rows for `done` follow `before`, and every object of `done` carries its last row's id and the owner's id. */
    ghost predicate CreatedUpTo(before: seq<ShoppingListRecord>, owner: CustomerRecord, done: seq<ShoppingList>)
      reads this, set l | l in done
    {
      && shoppingLists == before + NewListRows(|before|, owner.internalId, ProductsOf(done))
      && forall l | l in LastPlaces(done) ::
           && l.customerInternalId == owner.internalId
           && l.internalId == Some(shoppingLists[|before| + LastPlaces(done)[l]].internalId)
    }

    /** One turn of the loop of `createCustomerRecord`. */
    method CreateListRecordAt(ghost before: seq<ShoppingListRecord>, owner: CustomerRecord, lists: seq<ShoppingList>, i: nat)
      requires i < |lists| && CreatedUpTo(before, owner, lists[..i])
      modifies this`shoppingLists, lists[i]
      ensures CreatedUpTo(before, owner, lists[..i + 1])
    {
      ghost var done := lists[..i];
      CreateNewShoppingListRecord(owner, lists[i]);
      assert lists[..i + 1] == done + [lists[i]];
      assert shoppingLists == before + NewListRows(|before|, owner.internalId, ProductsOf(lists[..i + 1])) by {
        assert ProductsOf(lists[..i + 1]) == ProductsOf(done) + [lists[i].products];
        NewListRowsSnoc(|before|, owner.internalId, ProductsOf(done), lists[i].products);
      }
      forall l | l in LastPlaces(lists[..i + 1])
        ensures l.customerInternalId == owner.internalId
        ensures l.internalId == Some(shoppingLists[|before| + LastPlaces(lists[..i + 1])[l]].internalId)
      {
        assert LastPlaces(lists[..i + 1]) == LastPlaces(done)[lists[i] := i];
      }
    }

    /** The customer of the first row whose company number is `companyNumber` (`null` matches `null`). */
    method FindByCompanyNumber(companyNumber: Option<string>) returns (r: Option<Customer>)
      ensures r.None? <==> forall i :: 0 <= i < |customerRecords| ==> customerRecords[i].companyNumber != companyNumber
      ensures r.Some? ==> exists i :: FirstWith(CompanyNumber, companyNumber, i) && LoadedFrom(r.value, customerRecords[i])
      ensures r.Some? ==> forall l | l in r.value.shoppingLists :: fresh(l)
    {
      r := FindBy(CompanyNumber, companyNumber);
    }

    /** The customer of the first row whose external id is `externalId`. */
    method FindByExternalId(externalId: string) returns (r: Option<Customer>)
      ensures r.None? <==> forall i :: 0 <= i < |customerRecords| ==> customerRecords[i].externalId != Some(externalId)
      ensures r.Some? ==> exists i :: FirstWith(ExternalId, Some(externalId), i) && LoadedFrom(r.value, customerRecords[i])
      ensures r.Some? ==> forall l | l in r.value.shoppingLists :: fresh(l)
    {
      r := FindBy(ExternalId, Some(externalId));
    }

    /** The customer of the first row whose master external id is `externalId`. */
    method FindByMasterExternalId(externalId: string) returns (r: Option<Customer>)
      ensures r.None? <==> forall i :: 0 <= i < |customerRecords| ==> customerRecords[i].masterExternalId != Some(externalId)
      ensures r.Some? ==> exists i :: FirstWith(MasterExternalId, Some(externalId), i) && LoadedFrom(r.value, customerRecords[i])
      ensures r.Some? ==> forall l | l in r.value.shoppingLists :: fresh(l)
    {
      r := FindBy(MasterExternalId, Some(externalId));
    }

    /** Row `i` is the first, in insertion order, whose `column` is `key`. */
    ghost predicate FirstWith(column: Column, key: Option<string>, i: int)
      reads this
    {
      && 0 <= i < |customerRecords|
      && ColumnValue(customerRecords[i], column) == key
      && forall k :: 0 <= k < i ==> ColumnValue(customerRecords[k], column) != key
    }

    method FindBy(column: Column, key: Option<string>) returns (r: Option<Customer>)
      ensures r.None? <==> forall i :: 0 <= i < |customerRecords| ==> ColumnValue(customerRecords[i], column) != key
      ensures r.Some? ==> exists i :: FirstWith(column, key, i) && LoadedFrom(r.value, customerRecords[i])
      ensures r.Some? ==> forall l | l in r.value.shoppingLists :: fresh(l)
    {
      var found := FindIndex(customerRecords, RowMatches(column, key));
      if found.None? {
        return None;
      }
      var c := LoadCustomerEntity(customerRecords[found.value]);
      assert FirstWith(column, key, found.value);
      r := Some(c);
    }

    /**
     * Overwrites all eight fields of the first row whose internal id is the
     * customer's; `None` and no change when there is none.
     */
    method UpdateCustomerRecord(customer: Customer) returns (r: Option<Customer>)
      requires Valid()
      modifies this`customerRecords
      ensures Valid()
      ensures |customerRecords| == |old(customerRecords)|
      ensures FindIndex(old(customerRecords), RowMatches(InternalId, customer.internalId)).None? ==>
                r.None? && customerRecords == old(customerRecords)
      ensures FindIndex(old(customerRecords), RowMatches(InternalId, customer.internalId)).Some? ==>
                var i := FindIndex(old(customerRecords), RowMatches(InternalId, customer.internalId)).value;
                && customerRecords == old(customerRecords)[i := ToCustomerRecord(customer)]
                && r.Some? && LoadedFrom(r.value, ToCustomerRecord(customer))
                && (forall l | l in r.value.shoppingLists :: fresh(l))
      // the key still leads to the same row, so repeating the update rewrites the same row
      ensures FindIndex(customerRecords, RowMatches(InternalId, customer.internalId))
           == FindIndex(old(customerRecords), RowMatches(InternalId, customer.internalId))
    {
      var found := FindIndex(customerRecords, RowMatches(InternalId, customer.internalId));
      if found.None? {
        return None;
      }
      var update := ToCustomerRecord(customer);
      FindIndexOverwrite(customerRecords, found.value, update, RowMatches(InternalId, customer.internalId));
      customerRecords := customerRecords[found.value := update];
      var c := LoadCustomerEntity(update);
      r := Some(c);
    }

    /**
     * Upserts a list: throws (an `OwnerNotFound` outcome) when no customer row
     * has the list's `customerInternalId`, even if the list row exists;
     * otherwise rewrites the row with the list's id, or appends a new row and
     * stamps the list with its id and owner.
     */
    method UpdateShoppingList(list: ShoppingList) returns (outcome: Outcome)
      requires Valid()
      modifies this`shoppingLists, list
      ensures Valid()
      ensures Upsert(old(shoppingLists), customerRecords, old(list.State())).OwnerMissing? ==>
                && outcome == OwnerNotFound(list.customerInternalId)
                && shoppingLists == old(shoppingLists)
                && list.State() == old(list.State())
      ensures Upsert(old(shoppingLists), customerRecords, old(list.State())).Upserted? ==>
                && outcome == Saved
                && shoppingLists == Upsert(old(shoppingLists), customerRecords, old(list.State())).lists
                && list.State() == Upsert(old(shoppingLists), customerRecords, old(list.State())).list
    {
      var found := FindIndex(shoppingLists, ListIdIs(list.internalId));
      var owner := FindIndex(customerRecords, RowMatches(InternalId, list.customerInternalId));
      if owner.None? {
        return OwnerNotFound(list.customerInternalId);
      }
      UpsertKeepsIdsIndices(shoppingLists, customerRecords, list.State());
      if found.Some? {
        UpdateShoppingListRecord(found.value, list);
      } else {
        CreateNewShoppingListRecord(customerRecords[owner.value], list);
      }
      outcome := Saved;
    }

    /** Gives list row `j` the list's owner id and products; its id stays. */
    method UpdateShoppingListRecord(j: nat, list: ShoppingList)
      requires j < |shoppingLists|
      modifies this`shoppingLists
      ensures |shoppingLists| == |old(shoppingLists)|
      ensures shoppingLists == old(shoppingLists)[j := ShoppingListRecord(old(shoppingLists)[j].internalId, list.customerInternalId, list.products)]
    {
      shoppingLists := shoppingLists[j := shoppingLists[j].(customerId := list.customerInternalId, products := list.products)];
    }

    /** Appends a row for `list` owned by `owner`, numbered by the table's length, and stamps `list`. */
    method CreateNewShoppingListRecord(owner: CustomerRecord, list: ShoppingList)
      modifies this`shoppingLists, list
      ensures shoppingLists == old(shoppingLists) + [ShoppingListRecord(IdString(|old(shoppingLists)|), owner.internalId, list.products)]
      ensures list.internalId == Some(IdString(|old(shoppingLists)|))
      ensures list.customerInternalId == owner.internalId
    {
      list.internalId := Some(IdString(|shoppingLists|));
      var rec := ShoppingListRecord(list.internalId.value, owner.internalId, list.products);
      list.customerInternalId := owner.internalId;
      shoppingLists := shoppingLists + [rec];
    }

    /** Builds the customer of a row, with a new list object for each list row the customer owns, in storage order. */
    method LoadCustomerEntity(row: CustomerRecord) returns (c: Customer)
      ensures LoadedFrom(c, row)
      ensures forall l | l in c.shoppingLists :: fresh(l)
    {
      var owned := OwnedProducts(shoppingLists, row.internalId);
      var lists: seq<ShoppingList> := [];
      var i := 0;
      while i < |owned|
        invariant 0 <= i <= |owned|
        invariant |lists| == i
        invariant forall k :: 0 <= k < i ==> fresh(lists[k]) && lists[k].products == owned[k]
        invariant Unsaved(lists)
      {
        var l := new ShoppingList(owned[i]);
        lists := lists + [l];
        i := i + 1;
      }
      c := Entity(row, lists);
    }
  }
}
