/**
  The documents of the store (products, inventory records, orders) and the
  shapes of requests and replies shared by the controllers.
 */
module Models {
  import opened Wrappers

  /** Document ids (ObjectIds) in their string form. */
  type Id = string

  /** A role name other than the four the controllers know. */
  type OtherRoleName = n: string | n !in {"admin", "warehouse_manager", "delivery_agent", "user"} witness ""

  /** A status name other than the six of the order schema. */
  type OtherStatusName = n: string
    | n !in {"pending", "processed", "shipped", "delivered", "returned", "cancelled"} witness ""

  /** `role.name`; `OtherRole` stands for any name that is not one of the four. */
  datatype Role = Admin | WarehouseManager | DeliveryAgent | User | OtherRole(name: OtherRoleName)

  /** Order status names; `OtherStatus` stands for any other string a request may carry. */
  datatype Status =
    | Pending | Processed | Shipped | Delivered | Returned | Cancelled
    | OtherStatus(name: OtherStatusName)

  /** One entry of an order's `products` array. A missing `product` is written "" and a
      missing `quantity` is written 0: both are falsy, which is all the controller asks. */
  datatype LineItem = LineItem(product: Id, quantity: int)

  datatype Order = Order(user: Id, items: seq<LineItem>, totalAmount: int, status: Status, returnRequest: bool)

  /** A product document; `imageUrls` is None when the field is missing or not an array. */
  datatype Product = Product(stock: int, imageUrls: Option<seq<string>>)

  /** `req.user` as the controllers read it: its `_id` and `role.name`. */
  datatype Actor = Actor(id: Id, role: Role)

  /** The error statuses the core answers with: 400, 401, 403, 404 and 500. */
  datatype HttpError = BadRequest | Unauthorized | Forbidden | NotFound | ServerError

  /** An HTTP reply, reduced to its status. `Ok` is 200, or 201 for a created order. */
  datatype Reply<T> = Ok(value: T) | Fail(error: HttpError)

  /** The `stock` counter of every product. */
  function Stocks(products: map<Id, Product>): (r: map<Id, int>)
    ensures r.Keys == products.Keys
  {
    map id | id in products :: products[id].stock
  }

  /** The two product maps hold the same products with the same image lists. */
  predicate SameImages(a: map<Id, Product>, b: map<Id, Product>)
  {
    a.Keys == b.Keys && forall id | id in a :: a[id].imageUrls == b[id].imageUrls
  }

  /** Writing one product's `stock` changes that one counter. */
  lemma StocksUpdate(products: map<Id, Product>, id: Id, v: int)
    requires id in products
    ensures Stocks(products[id := products[id].(stock := v)]) == Stocks(products)[id := v]
    ensures SameImages(products, products[id := products[id].(stock := v)])
  {
    var after := products[id := products[id].(stock := v)];
    assert Stocks(after).Keys == (Stocks(products)[id := v]).Keys;
  }

  lemma SameImagesTrans(a: map<Id, Product>, b: map<Id, Product>, c: map<Id, Product>)
    requires SameImages(a, b) && SameImages(b, c)
    ensures SameImages(a, c)
  {
  }

  /** Stocks and image lists together determine the products. */
  lemma ProductsDetermined(a: map<Id, Product>, b: map<Id, Product>)
    requires Stocks(a) == Stocks(b) && SameImages(a, b)
    ensures a == b
  {
    forall id | id in a
      ensures a[id] == b[id]
    {
      assert Stocks(a)[id] == Stocks(b)[id];
    }
  }

  /** The document store: products by id, inventory quantities by product id
      (one record per product), orders by id. */
  class Store {
    var products: map<Id, Product>
    var inventory: map<Id, int>
    var orders: map<Id, Order>

    constructor (products: map<Id, Product>, inventory: map<Id, int>, orders: map<Id, Order>)
      ensures this.products == products && this.inventory == inventory && this.orders == orders
    {
      this.products := products;
      this.inventory := inventory;
      this.orders := orders;
    }

    /** `Product.find()`: every product id once, in an order the store chooses. */
    method FindProducts() returns (ids: seq<Id>)
      ensures forall id :: id in ids <==> id in products
      ensures forall i, j | 0 <= i < j < |ids| :: ids[i] != ids[j]
    {
      ids := [];
      var rest := products.Keys;
      while rest != {}
        invariant rest <= products.Keys
        invariant forall id :: id in ids <==> id in products && id !in rest
        invariant forall i, j | 0 <= i < j < |ids| :: ids[i] != ids[j]
        decreases rest
      {
        var id :| id in rest;
        ids := ids + [id];
        rest := rest - {id};
      }
    }
  }
}
