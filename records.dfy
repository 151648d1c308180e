/**
 * The two tables of the in-memory data layer (typescript/test/support/FakeCustomerDataLayer.ts),
 * their rows, and the pure functions the store's operations are specified by.
 */
module Records {
  import opened Wrappers
  import opened ShoppingLists
  import opened Customers
  import opened ArraySearch

  /** A row of the customer table: the eight scalar fields of a Customer. */
  datatype CustomerRecord = CustomerRecord(
    externalId: Option<string>,
    masterExternalId: Option<string>,
    address: Option<Address>,
    preferredStore: Option<string>,
    internalId: Option<string>,
    name: Option<string>,
    customerType: Option<CustomerType>,
    companyNumber: Option<string>)

  /**
   * A row of the shopping-list table. The source declares `customerId` as a
   * string but fills it through non-null assertions (`!`), which are erased at
   * run time, so a null owner id is stored as it is.
   */
  datatype ShoppingListRecord = ShoppingListRecord(internalId: string, customerId: Option<string>, products: seq<string>)

  /** The customer-table columns that the store looks rows up by. */
  datatype Column = ExternalId | MasterExternalId | InternalId | CompanyNumber

  function ColumnValue(row: CustomerRecord, column: Column): Option<string>
  {
    match column
    case ExternalId => row.externalId
    case MasterExternalId => row.masterExternalId
    case InternalId => row.internalId
    case CompanyNumber => row.companyNumber
  }

  /** `record => record.<column> === key`: strict equality, so a null key matches a null field. */
  function RowMatches(column: Column, key: Option<string>): (p: CustomerRecord -> bool)
    ensures forall row :: p(row) <==> ColumnValue(row, column) == key
    ensures key == None ==> forall row :: p(row) <==> ColumnValue(row, column).None?
  {
    (row: CustomerRecord) => ColumnValue(row, column) == key
  }

  /** `record => record.internalId === id`: a row id is never null, so a null id matches no row. */
  function ListIdIs(id: Option<string>): (p: ShoppingListRecord -> bool)
    ensures id == None ==> forall rec :: !p(rec)
    ensures id.Some? ==> forall rec :: p(rec) <==> rec.internalId == id.value
  {
    (rec: ShoppingListRecord) => Some(rec.internalId) == id
  }

  /** The row stored for a customer: its eight scalar fields, the address copied by value. */
  function ToCustomerRecord(c: Customer): (r: CustomerRecord)
    // the row loses nothing but the lists: rebuilding a customer from it gives `c` back
    ensures Customer(r.externalId, r.masterExternalId, r.address, r.preferredStore,
                     r.internalId, r.name, r.customerType, r.companyNumber, c.shoppingLists) == c
  {
    CustomerRecord(c.externalId, c.masterExternalId, c.address, c.preferredStore,
                   c.internalId, c.name, c.customerType, c.companyNumber)
  }

  /** The customer built from a row and the list objects made for it. */
  function Entity(row: CustomerRecord, lists: seq<ShoppingList>): (c: Customer)
    ensures ToCustomerRecord(c) == row
    ensures c.shoppingLists == lists
  {
    Customer(row.externalId, row.masterExternalId, row.address, row.preferredStore,
             row.internalId, row.name, row.customerType, row.companyNumber, lists)
  }

  /** Storing a customer and building the entity back from its row, with the same lists, gives the customer. */
  lemma StoredCustomerLoadsBack(c: Customer)
    ensures Entity(ToCustomerRecord(c), c.shoppingLists) == c
  {
  }

  // ---------------------------------------------------------------------------
  // List ids: `this.shoppingLists.length.toString()`

  function Digit(d: nat): (c: char)
    requires d < 10
    ensures '0' <= c <= '9'
    ensures c as int - '0' as int == d
  {
    (48 + d) as char
  }

  /** The decimal numeral of `n`, as `Number.prototype.toString()` writes a natural number. */
  function IdString(n: nat): (s: string)
    ensures |s| >= 1
    ensures n < 10 <==> |s| == 1
    ensures forall i :: 0 <= i < |s| ==> '0' <= s[i] <= '9'
  {
    if n < 10 then [Digit(n)] else IdString(n / 10) + [Digit(n % 10)]
  }

  /** Distinct numbers have distinct numerals. */
  lemma {:induction false} IdStringInjective(a: nat, b: nat)
    requires IdString(a) == IdString(b)
    ensures a == b
  {
    if a >= 10 && b >= 10 {
      var s := IdString(a);
      assert s == IdString(a / 10) + [Digit(a % 10)];
      assert s == IdString(b / 10) + [Digit(b % 10)];
      assert s[|s| - 1] == Digit(a % 10) == Digit(b % 10);
      assert IdString(a / 10) == s[..|s| - 1] == IdString(b / 10);
      IdStringInjective(a / 10, b / 10);
    }
  }

  /** The invariant of the list table: it is only ever appended to, so row `i` has id `i`. */
  predicate ListIdsAreIndices(lists: seq<ShoppingListRecord>)
  {
    forall i :: 0 <= i < |lists| ==> lists[i].internalId == IdString(i)
  }

  lemma ListIdsUnique(lists: seq<ShoppingListRecord>)
    requires ListIdsAreIndices(lists)
    ensures forall i, j :: 0 <= i < |lists| && 0 <= j < |lists| && i != j ==> lists[i].internalId != lists[j].internalId
  {
    forall i, j | 0 <= i < |lists| && 0 <= j < |lists| && lists[i].internalId == lists[j].internalId
      ensures i == j
    {
      IdStringInjective(i, j);
    }
  }

  /** Under the invariant, looking a list up by the id of number `k` finds row `k` exactly when it exists. */
  lemma FindListById(lists: seq<ShoppingListRecord>, k: nat)
    requires ListIdsAreIndices(lists)
    ensures FindIndex(lists, ListIdIs(Some(IdString(k)))) == if k < |lists| then Some(k) else None
  {
    var p := ListIdIs(Some(IdString(k)));
    forall i | 0 <= i < |lists| && p(lists[i])
      ensures i == k
    {
      IdStringInjective(i, k);
    }
  }

  // ---------------------------------------------------------------------------
  // Creating lists

  /** The rows `createNewShoppingListRecord` appends for `products`, numbered from `start`. */
  function NewListRows(start: nat, owner: Option<string>, products: seq<seq<string>>): seq<ShoppingListRecord>
  {
    seq(|products|, k requires 0 <= k < |products| => ShoppingListRecord(IdString(start + k), owner, products[k]))
  }

  /** Creating one more list appends one more row, numbered after the others. */
  lemma NewListRowsSnoc(start: nat, owner: Option<string>, products: seq<seq<string>>, p: seq<string>)
    ensures NewListRows(start, owner, products + [p])
         == NewListRows(start, owner, products) + [ShoppingListRecord(IdString(start + |products|), owner, p)]
  {
    var a := NewListRows(start, owner, products + [p]);
    var b := NewListRows(start, owner, products) + [ShoppingListRecord(IdString(start + |products|), owner, p)];
    assert |a| == |b|;
    forall k | 0 <= k < |a| ensures a[k] == b[k] {
      if k < |products| {
        assert (products + [p])[k] == products[k];
      }
    }
  }

  lemma NewListRowsKeepIdsIndices(lists: seq<ShoppingListRecord>, owner: Option<string>, products: seq<seq<string>>)
    requires ListIdsAreIndices(lists)
    ensures ListIdsAreIndices(lists + NewListRows(|lists|, owner, products))
  {
    var rows := NewListRows(|lists|, owner, products);
    forall i | |lists| <= i < |lists| + |rows|
      ensures (lists + rows)[i].internalId == IdString(i)
    {
      assert rows[i - |lists|].internalId == IdString(|lists| + (i - |lists|));
    }
  }

  // ---------------------------------------------------------------------------
  // Loading lists

  /** `lists.filter(r => r.customerId === owner).map(r => r.products)`. */
  function OwnedProducts(lists: seq<ShoppingListRecord>, owner: Option<string>): (ps: seq<seq<string>>)
    ensures |ps| <= |lists|
    ensures (forall i :: 0 <= i < |lists| ==> lists[i].customerId != owner) ==> ps == []
    ensures (forall i :: 0 <= i < |lists| ==> lists[i].customerId == owner) ==>
              ps == seq(|lists|, i requires 0 <= i < |lists| => lists[i].products)
  {
    if lists == [] then []
    else (if lists[0].customerId == owner then [lists[0].products] else []) + OwnedProducts(lists[1..], owner)
  }

  /** Loading distributes over the table: each row contributes its products, in storage order, exactly when it is owned. */
  lemma {:induction false} OwnedProductsConcat(a: seq<ShoppingListRecord>, b: seq<ShoppingListRecord>, owner: Option<string>)
    ensures OwnedProducts(a + b, owner) == OwnedProducts(a, owner) + OwnedProducts(b, owner)
  {
    if a != [] {
      var head := if a[0].customerId == owner then [a[0].products] else [];
      assert (a + b)[0] == a[0];
      assert (a + b)[1..] == a[1..] + b;
      assert OwnedProducts(a + b, owner) == head + OwnedProducts(a[1..] + b, owner);
      assert OwnedProducts(a, owner) == head + OwnedProducts(a[1..], owner);
      OwnedProductsConcat(a[1..], b, owner);
    } else {
      assert a + b == b;
    }
  }

  /** Every row `createCustomerRecord` appends belongs to the new owner, in input order. */
  lemma {:induction false} NewListRowsLoadBack(start: nat, owner: Option<string>, products: seq<seq<string>>)
    ensures OwnedProducts(NewListRows(start, owner, products), owner) == products
    decreases |products|
  {
    if products != [] {
      var rows := NewListRows(start, owner, products);
      assert rows[1..] == NewListRows(start + 1, owner, products[1..]);
      NewListRowsLoadBack(start + 1, owner, products[1..]);
      assert products == [products[0]] + products[1..];
    }
  }

  /** Loading after a create yields the owner's earlier lists followed by the created ones. */
  lemma CreatedListsLoadBack(lists: seq<ShoppingListRecord>, owner: Option<string>, products: seq<seq<string>>)
    ensures OwnedProducts(lists + NewListRows(|lists|, owner, products), owner) == OwnedProducts(lists, owner) + products
  {
    OwnedProductsConcat(lists, NewListRows(|lists|, owner, products), owner);
    NewListRowsLoadBack(|lists|, owner, products);
  }

  // ---------------------------------------------------------------------------
  // Upserting a list

  datatype UpsertResult =
    | OwnerMissing
    | Upserted(lists: seq<ShoppingListRecord>, list: ListState)

  /** The effect of `updateShoppingList` on the list table and on the argument list. */
  function Upsert(lists: seq<ShoppingListRecord>, customers: seq<CustomerRecord>, l: ListState): (r: UpsertResult)
    ensures r.OwnerMissing? <==> forall i :: 0 <= i < |customers| ==> customers[i].internalId != l.customerInternalId
    ensures r.Upserted? && FindIndex(lists, ListIdIs(l.internalId)).Some? ==>
      var j := FindIndex(lists, ListIdIs(l.internalId)).value;
      && r.list == l
      && |r.lists| == |lists|
      && (forall k :: 0 <= k < |lists| && k != j ==> r.lists[k] == lists[k])
      && r.lists[j] == ShoppingListRecord(lists[j].internalId, l.customerInternalId, l.products)
    ensures r.Upserted? && FindIndex(lists, ListIdIs(l.internalId)).None? ==>
      && r.lists == lists + [ShoppingListRecord(IdString(|lists|), l.customerInternalId, l.products)]
      && r.list == ListState(Some(IdString(|lists|)), l.customerInternalId, l.products)
    ensures l.internalId == None ==> FindIndex(lists, ListIdIs(l.internalId)).None?
  {
    var found := FindIndex(lists, ListIdIs(l.internalId));
    var owner := FindIndex(customers, RowMatches(InternalId, l.customerInternalId));
    match owner
    case None => OwnerMissing
    case Some(o) =>
      match found
      case Some(j) =>
        Upserted(lists[j := lists[j].(customerId := l.customerInternalId, products := l.products)], l)
      case None =>
        var id := IdString(|lists|);
        Upserted(lists + [ShoppingListRecord(id, customers[o].internalId, l.products)],
                 l.(internalId := Some(id), customerInternalId := customers[o].internalId))
  }

  lemma UpsertKeepsIdsIndices(lists: seq<ShoppingListRecord>, customers: seq<CustomerRecord>, l: ListState)
    requires ListIdsAreIndices(lists)
    ensures Upsert(lists, customers, l).Upserted? ==> ListIdsAreIndices(Upsert(lists, customers, l).lists)
  {
  }

  /** Repeating an upsert with the list as the first one left it changes nothing. */
  lemma UpsertIdempotent(lists: seq<ShoppingListRecord>, customers: seq<CustomerRecord>, l: ListState)
    requires ListIdsAreIndices(lists)
    requires Upsert(lists, customers, l).Upserted?
    ensures Upsert(Upsert(lists, customers, l).lists, customers, Upsert(lists, customers, l).list)
         == Upsert(lists, customers, l)
  {
    var r := Upsert(lists, customers, l);
    var lists', l' := r.lists, r.list;
    assert l'.customerInternalId == l.customerInternalId;
    match FindIndex(lists, ListIdIs(l.internalId))
    case Some(j) =>
      FindIndexSameMatches(lists, lists', ListIdIs(l.internalId), ListIdIs(l.internalId));
      assert lists'[j := lists'[j].(customerId := l.customerInternalId, products := l.products)] == lists';
    case None =>
      var n := |lists|;
      UpsertKeepsIdsIndices(lists, customers, l);
      FindListById(lists', n);
      assert lists'[n := lists'[n].(customerId := l'.customerInternalId, products := l'.products)] == lists';
  }

  /** A list the upsert creates is loaded back last among its owner's lists. */
  lemma UpsertCreatedLoadsBack(lists: seq<ShoppingListRecord>, customers: seq<CustomerRecord>, l: ListState)
    requires Upsert(lists, customers, l).Upserted?
    requires FindIndex(lists, ListIdIs(l.internalId)).None?
    ensures OwnedProducts(Upsert(lists, customers, l).lists, l.customerInternalId)
         == OwnedProducts(lists, l.customerInternalId) + [l.products]
  {
    var row := ShoppingListRecord(IdString(|lists|), l.customerInternalId, l.products);
    OwnedProductsConcat(lists, [row], l.customerInternalId);
    assert OwnedProducts([row], l.customerInternalId) == [l.products];
  }
}
