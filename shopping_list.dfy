/**
 * The mutable shopping-list record of typescript/src/ShoppingList.ts. Its two
 * ids start out null and are stamped later by the data layer; its products are
 * fixed when it is constructed.
 */
module ShoppingLists {
  import opened Wrappers

  /** The values of the three fields of a ShoppingList object at one moment. */
  datatype ListState = ListState(internalId: Option<string>, customerInternalId: Option<string>, products: seq<string>)

  class ShoppingList {
    var internalId: Option<string>
    var customerInternalId: Option<string>
    // `readonly` in the source: a `const` can never be reassigned.
    const products: seq<string>

    /** `new ShoppingList(...products)`; no arguments gives `products == []`. */
    constructor (products: seq<string>)
      ensures internalId == None && customerInternalId == None
      ensures this.products == products
    {
      this.products := products;
      internalId := None;
      customerInternalId := None;
    }

    function State(): ListState
      reads this
    {
      ListState(internalId, customerInternalId, products)
    }
  }
}
