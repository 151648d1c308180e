/**
 * The customer entity and its address and type, as the data layer builds them:
 * the nine constructor arguments of Customer in the order loadCustomerEntity
 * passes them.
 */
module Customers {
  import opened Wrappers
  import opened ShoppingLists

  datatype Address = Address(street: string, city: string, postalCode: string)

  datatype CustomerType = Person | Company

  datatype Customer = Customer(
    externalId: Option<string>,
    masterExternalId: Option<string>,
    address: Option<Address>,
    preferredStore: Option<string>,
    internalId: Option<string>,
    name: Option<string>,
    customerType: Option<CustomerType>,
    companyNumber: Option<string>,
    shoppingLists: seq<ShoppingList>)

  /** `lists.map(l => l.products)`: products are read-only, so no heap is read. */
  function ProductsOf(lists: seq<ShoppingList>): seq<seq<string>>
  {
    seq(|lists|, i requires 0 <= i < |lists| => lists[i].products)
  }
}
