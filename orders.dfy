/**
  The order controller: checkout with its stock screening, the role-filtered
  reads, cancellation, return requests and the role-to-transition table.
 */
module Orders {
  import opened Wrappers
  import opened Models
  import opened Ledger
  import Validators

  // ---------------------------------------------------------------------------
  // createOrder

  /** The negation of `!totalAmount`: JavaScript truthiness of the amount,
      a missing amount being `undefined`. */
  predicate Truthy(totalAmount: Option<int>)
    ensures Truthy(totalAmount) <==>
      Validators.JsTruthy(if totalAmount.None? then Validators.Undefined else Validators.Num(totalAmount.value))
  {
    totalAmount.Some? && totalAmount.value != 0
  }

  /** The quantity the inventory record of `x` holds once it exists: the record's
      own quantity, or the product's stock that a lazily created record starts from. */
  function Available(products: map<Id, Product>, inv: map<Id, int>, x: Id): int
    requires x in products
  {
    if x in inv then inv[x] else products[x].stock
  }

  /** Why checkout refuses one line item, judged against the store as it was
      when the request arrived; None when the item is acceptable. */
  function Rejection(products: map<Id, Product>, inv: map<Id, int>, item: LineItem): (r: Option<HttpError>)
    ensures r.None? <==>
      item.product != "" && item.quantity > 0 && item.product in products
      && item.quantity <= products[item.product].stock
      && item.quantity <= Available(products, inv, item.product)
    ensures r == Some(NotFound) <==> item.product != "" && item.quantity > 0 && item.product !in products
    ensures r.Some? ==> r.value in {BadRequest, NotFound}
  {
    if item.product == "" || item.quantity <= 0 then Some(BadRequest)
    else if item.product !in products then Some(NotFound)
    else if products[item.product].stock < item.quantity then Some(BadRequest)
    else if Available(products, inv, item.product) < item.quantity then Some(BadRequest)
    else None
  }

  /** The outcome of the checking loop: the first refusal, if any, and the
      inventory as the loop leaves it (records it created are kept either way). */
  datatype Screening = Screening(rejection: Option<HttpError>, inventory: map<Id, int>)

  /** The checking loop, item by item in request order. Each item is checked on
      its own against the current counters, so a product listed twice is never
      checked against the sum of its quantities. */
  function Screen(products: map<Id, Product>, inv: map<Id, int>, items: seq<LineItem>): (r: Screening)
    ensures inv.Keys <= r.inventory.Keys
    ensures forall x | x in inv :: r.inventory[x] == inv[x]
    ensures forall x | x in r.inventory && x !in inv :: x in products && r.inventory[x] == products[x].stock
    ensures forall x | x in r.inventory && x !in inv :: exists k | 0 <= k < |items| :: items[k].product == x
    ensures r.rejection.None? ==> forall k | 0 <= k < |items| :: items[k].product in products && items[k].product in r.inventory
    ensures r.rejection.Some? ==> r.rejection.value in {BadRequest, NotFound}
    decreases |items|
  {
    if items == [] then Screening(None, inv)
    else
      var item := items[0];
      if item.product == "" || item.quantity <= 0 then Screening(Some(BadRequest), inv)
      else if item.product !in products then Screening(Some(NotFound), inv)
      else if products[item.product].stock < item.quantity then Screening(Some(BadRequest), inv)
      else
        var inv' := if item.product in inv then inv else inv[item.product := products[item.product].stock];
        if inv'[item.product] < item.quantity then Screening(Some(BadRequest), inv')
        else Screen(products, inv', items[1..])
  }

  /** Creating a record from the product's stock does not change what is available. */
  lemma LazyKeepsAvailable(products: map<Id, Product>, inv: map<Id, int>, p: Id, item: LineItem)
    requires p in products
    ensures var inv' := if p in inv then inv else inv[p := products[p].stock];
            Rejection(products, inv', item) == Rejection(products, inv, item)
  {
  }

  /** The refusal of the first unacceptable item, each judged against the
      store as the request found it. */
  function FirstRejection(products: map<Id, Product>, inv: map<Id, int>, items: seq<LineItem>): Option<HttpError>
  {
    if items == [] then None
    else if Rejection(products, inv, items[0]).Some? then Rejection(products, inv, items[0])
    else FirstRejection(products, inv, items[1..])
  }

  /** Lazily creating a record leaves the first refusal as it was. */
  lemma {:induction false} FirstRejectionLazy(products: map<Id, Product>, inv: map<Id, int>, p: Id, items: seq<LineItem>)
    requires p in products
    ensures var inv' := if p in inv then inv else inv[p := products[p].stock];
            FirstRejection(products, inv', items) == FirstRejection(products, inv, items)
  {
    if items != [] {
      LazyKeepsAvailable(products, inv, p, items[0]);
      FirstRejectionLazy(products, inv, p, items[1..]);
    }
  }

  /** The checking loop, which threads the records it creates, refuses with
      exactly the first refusal of the items judged one by one. */
  lemma {:induction false} ScreenIsFirstRejection(products: map<Id, Product>, inv: map<Id, int>, items: seq<LineItem>)
    ensures Screen(products, inv, items).rejection == FirstRejection(products, inv, items)
    decreases |items|
  {
    if items != [] && Rejection(products, inv, items[0]).None? {
      var p := items[0].product;
      var inv' := if p in inv then inv else inv[p := products[p].stock];
      assert Screen(products, inv, items) == Screen(products, inv', items[1..]);
      ScreenIsFirstRejection(products, inv', items[1..]);
      FirstRejectionLazy(products, inv, p, items[1..]);
    }
  }

  /** The first refusal is None exactly when every item is acceptable, and
      otherwise the refusal of the first unacceptable item. */
  lemma {:induction false} FirstRejectionMeaning(products: map<Id, Product>, inv: map<Id, int>, items: seq<LineItem>)
    ensures (forall k | 0 <= k < |items| :: Rejection(products, inv, items[k]).None?)
            <==> FirstRejection(products, inv, items).None?
    ensures forall k | 0 <= k < |items| && Rejection(products, inv, items[k]).Some?
                       && (forall j | 0 <= j < k :: Rejection(products, inv, items[j]).None?) ::
              FirstRejection(products, inv, items) == Rejection(products, inv, items[k])
  {
    if items != [] && Rejection(products, inv, items[0]).None? {
      FirstRejectionMeaning(products, inv, items[1..]);
      forall k | 1 <= k < |items|
        ensures items[k] == items[1..][k - 1]
      {
      }
    }
  }

  /** The loop accepts exactly when every item is acceptable on its own, and
      otherwise replies with the refusal of the first unacceptable item. */
  lemma ScreenVerdict(products: map<Id, Product>, inv: map<Id, int>, items: seq<LineItem>)
    ensures (forall k | 0 <= k < |items| :: Rejection(products, inv, items[k]).None?)
            <==> Screen(products, inv, items).rejection.None?
    ensures forall k | 0 <= k < |items| && Rejection(products, inv, items[k]).Some?
                       && (forall j | 0 <= j < k :: Rejection(products, inv, items[j]).None?) ::
              Screen(products, inv, items).rejection == Rejection(products, inv, items[k])
  {
    ScreenIsFirstRejection(products, inv, items);
    FirstRejectionMeaning(products, inv, items);
  }

  /** The checking loop of `createOrder`, creating missing inventory records as it goes. */
  method ScreenItems(s: Store, items: seq<LineItem>) returns (rejection: Option<HttpError>)
    modifies s
    ensures rejection == Screen(old(s.products), old(s.inventory), items).rejection
    ensures s.inventory == Screen(old(s.products), old(s.inventory), items).inventory
    ensures s.products == old(s.products) && s.orders == old(s.orders)
  {
    ghost var p0, inv0 := s.products, s.inventory;
    var i := 0;
    while i < |items|
      invariant 0 <= i <= |items|
      invariant s.products == p0 && s.orders == old(s.orders)
      invariant Screen(p0, inv0, items) == Screen(p0, s.inventory, items[i..])
    {
      var item := items[i];
      assert items[i..][0] == item && items[i..][1..] == items[i + 1..];
      if item.product == "" || item.quantity <= 0 {
        return Some(BadRequest);
      }
      if item.product !in s.products {
        return Some(NotFound);
      }
      if s.products[item.product].stock < item.quantity {
        return Some(BadRequest);
      }
      if item.product !in s.inventory {
        s.inventory := s.inventory[item.product := s.products[item.product].stock];
      }
      if s.inventory[item.product] < item.quantity {
        return Some(BadRequest);
      }
      i := i + 1;
    }
    return None;
  }

  /** Take one item's quantity from its inventory record and from its product. */
  method Take(s: Store, item: LineItem)
    requires item.product in s.inventory && item.product in s.products
    modifies s
    ensures s.inventory == old(s.inventory)[item.product := old(s.inventory)[item.product] - item.quantity]
    ensures Stocks(s.products) == Stocks(old(s.products))[item.product := Stocks(old(s.products))[item.product] - item.quantity]
    ensures SameImages(old(s.products), s.products)
    ensures s.orders == old(s.orders)
  {
    s.inventory := s.inventory[item.product := s.inventory[item.product] - item.quantity];
    var stock := s.products[item.product].stock - item.quantity;
    StocksUpdate(s.products, item.product, stock);
    s.products := s.products[item.product := s.products[item.product].(stock := stock)];
  }

  /** The deduction loop of `createOrder`: take each item's quantity from its
      inventory record and from its product. */
  method Reserve(s: Store, items: seq<LineItem>)
    requires Covers(s.inventory, items) && Covers(Stocks(s.products), items)
    modifies s
    ensures s.inventory == Debit(old(s.inventory), items)
    ensures Stocks(s.products) == Debit(Stocks(old(s.products)), items)
    ensures SameImages(old(s.products), s.products)
    ensures s.orders == old(s.orders)
  {
    ghost var inv0, p0 := s.inventory, s.products;
    var i := 0;
    while i < |items|
      invariant 0 <= i <= |items|
      invariant s.inventory == Debit(inv0, items[..i])
      invariant Stocks(s.products) == Debit(Stocks(p0), items[..i])
      invariant SameImages(p0, s.products)
      invariant s.orders == old(s.orders)
    {
      ghost var inv1, p1 := s.inventory, s.products;
      Take(s, items[i]);
      DebitExtend(inv0, items, i, inv1, s.inventory);
      DebitExtend(Stocks(p0), items, i, Stocks(p1), Stocks(s.products));
      SameImagesTrans(p0, p1, s.products);
      i := i + 1;
    }
    assert items[..|items|] == items;
  }

  /** `createOrder`: reject a malformed body, screen every item, then save the
      order and debit both counters for each item. */
  method CreateOrder(s: Store, actor: Actor, items: Option<seq<LineItem>>, totalAmount: Option<int>, newId: Id)
    returns (r: Reply<Id>)
    requires newId !in s.orders
    modifies s
    ensures items.None? || !Truthy(totalAmount) ==> r == Fail(BadRequest) && unchanged(s)
    ensures items.Some? && Truthy(totalAmount) ==>
      var sc := Screen(old(s.products), old(s.inventory), items.value);
      if sc.rejection.Some? then
        r == Fail(sc.rejection.value) && s.inventory == sc.inventory
        && s.products == old(s.products) && s.orders == old(s.orders)
      else
        r == Ok(newId)
        && s.orders == old(s.orders)[newId := Order(actor.id, items.value, totalAmount.value, Pending, false)]
        && s.inventory == Debit(sc.inventory, items.value)
        && Stocks(s.products) == Debit(Stocks(old(s.products)), items.value)
        && SameImages(old(s.products), s.products)
  {
    if items.None? || !Truthy(totalAmount) {
      return Fail(BadRequest);
    }
    var rejection := ScreenItems(s, items.value);
    if rejection.Some? {
      return Fail(rejection.value);
    }
    s.orders := s.orders[newId := Order(actor.id, items.value, totalAmount.value, Pending, false)];
    Reserve(s, items.value);
    return Ok(newId);
  }

  // ---------------------------------------------------------------------------
  // Restocking, shared by cancelOrder and by updateOrderStatus to 'returned'

  /** Add one item's quantity back to its inventory record and to its product,
      each only if it exists. */
  method PutBack(s: Store, item: LineItem)
    modifies s
    ensures s.inventory ==
      if item.product in old(s.inventory)
      then old(s.inventory)[item.product := old(s.inventory)[item.product] + item.quantity]
      else old(s.inventory)
    ensures Stocks(s.products) ==
      if item.product in Stocks(old(s.products))
      then Stocks(old(s.products))[item.product := Stocks(old(s.products))[item.product] + item.quantity]
      else Stocks(old(s.products))
    ensures SameImages(old(s.products), s.products)
    ensures s.orders == old(s.orders)
  {
    if item.product in s.inventory {
      s.inventory := s.inventory[item.product := s.inventory[item.product] + item.quantity];
    }
    if item.product in s.products {
      var stock := s.products[item.product].stock + item.quantity;
      StocksUpdate(s.products, item.product, stock);
      s.products := s.products[item.product := s.products[item.product].(stock := stock)];
    }
  }

  /** Add each item's quantity back to the inventory record and to the product
      that still exist; a missing one is skipped, not created. */
  method Restock(s: Store, items: seq<LineItem>)
    modifies s
    ensures s.inventory == Credit(old(s.inventory), items)
    ensures Stocks(s.products) == Credit(Stocks(old(s.products)), items)
    ensures SameImages(old(s.products), s.products)
    ensures s.orders == old(s.orders)
  {
    ghost var inv0, stocks0, p0 := s.inventory, Stocks(s.products), s.products;
    var i := 0;
    while i < |items|
      invariant 0 <= i <= |items|
      invariant s.inventory == Credit(inv0, items[..i])
      invariant Stocks(s.products) == Credit(stocks0, items[..i])
      invariant SameImages(p0, s.products)
      invariant s.orders == old(s.orders)
    {
      ghost var inv1, p1 := s.inventory, s.products;
      PutBack(s, items[i]);
      CreditExtend(inv0, items, i, inv1, s.inventory);
      CreditExtend(stocks0, items, i, Stocks(p1), Stocks(s.products));
      SameImagesTrans(p0, p1, s.products);
      i := i + 1;
    }
    assert items[..|items|] == items;
  }

  // ---------------------------------------------------------------------------
  // getOrders and getOrderById

  /** `getOrders`: which orders each role may list. */
  function GetOrders(orders: map<Id, Order>, actor: Actor): (r: Reply<map<Id, Order>>)
    ensures r.Fail? <==> actor.role.OtherRole?
    ensures r.Fail? ==> r.error == Forbidden
    ensures r.Ok? ==> forall id | id in r.value :: id in orders && r.value[id] == orders[id]
    ensures actor.role == User ==>
      r.Ok? && forall id | id in orders :: id in r.value <==> orders[id].user == actor.id
    ensures actor.role == WarehouseManager ==>
      r.Ok? && forall id | id in orders :: id in r.value <==> orders[id].status in {Pending, Processed}
    ensures actor.role == DeliveryAgent ==>
      r.Ok? && forall id | id in orders :: id in r.value <==> orders[id].status in {Processed, Shipped}
    ensures actor.role == Admin ==> r == Ok(orders)
  {
    match actor.role
    case User => Ok(map id | id in orders && orders[id].user == actor.id :: orders[id])
    case WarehouseManager => Ok(map id | id in orders && orders[id].status in [Pending, Processed] :: orders[id])
    case DeliveryAgent => Ok(map id | id in orders && orders[id].status in [Processed, Shipped] :: orders[id])
    case Admin => Ok(orders)
    case OtherRole(_) => Fail(Forbidden)
  }

  /** `getOrderById`: the order, to an admin or to its owner. */
  function GetOrderById(orders: map<Id, Order>, actor: Actor, id: Id): (r: Reply<Order>)
    ensures r == Fail(NotFound) <==> id !in orders
    ensures id in orders ==> (r.Ok? <==> actor.role == Admin || orders[id].user == actor.id)
    ensures id in orders && r.Ok? ==> r.value == orders[id]
    ensures id in orders && r.Fail? ==> r.error == Forbidden
  {
    if id !in orders then Fail(NotFound)
    else if actor.role != Admin && orders[id].user != actor.id then Fail(Forbidden)
    else Ok(orders[id])
  }

  // ---------------------------------------------------------------------------
  // cancelOrder

  /** The role and ownership guards of `cancelOrder`, in the controller's order.
      An admin is refused here even though the route lets admins through. */
  function CancelDecision(actor: Actor, order: Order): (r: Option<HttpError>)
    ensures r.None? <==>
      order.status == Pending
      && (actor.role == WarehouseManager || (actor.role == User && order.user == actor.id))
    ensures r.Some? ==> r.value == Forbidden
  {
    if actor.role == User && (order.user != actor.id || order.status != Pending) then Some(Forbidden)
    else if actor.role == WarehouseManager && order.status != Pending then Some(Forbidden)
    else if actor.role !in [User, WarehouseManager] then Some(Forbidden)
    else None
  }

  /** `cancelOrder`: mark the order cancelled, then restock its items. */
  method CancelOrder(s: Store, actor: Actor, id: Id) returns (r: Reply<Order>)
    modifies s
    ensures id !in old(s.orders) ==> r == Fail(NotFound) && unchanged(s)
    ensures id in old(s.orders) && CancelDecision(actor, old(s.orders)[id]).Some? ==>
      r == Fail(Forbidden) && unchanged(s)
    ensures id in old(s.orders) && CancelDecision(actor, old(s.orders)[id]).None? ==>
      var cancelled := old(s.orders)[id].(status := Cancelled);
      r == Ok(cancelled)
      && s.orders == old(s.orders)[id := cancelled]
      && s.inventory == Credit(old(s.inventory), cancelled.items)
      && Stocks(s.products) == Credit(Stocks(old(s.products)), cancelled.items)
      && SameImages(old(s.products), s.products)
  {
    if id !in s.orders {
      return Fail(NotFound);
    }
    var order := s.orders[id];
    var refusal := CancelDecision(actor, order);
    if refusal.Some? {
      return Fail(refusal.value);
    }
    order := order.(status := Cancelled);
    s.orders := s.orders[id := order];
    Restock(s, order.items);
    return Ok(order);
  }

  // ---------------------------------------------------------------------------
  // requestReturn

  /** `requestReturn`: the owner of a delivered order raises its return flag;
      the status stays as it is. */
  method RequestReturn(s: Store, actor: Actor, id: Id) returns (r: Reply<Order>)
    modifies s
    ensures id !in old(s.orders) ==> r == Fail(NotFound) && unchanged(s)
    ensures id in old(s.orders) ==>
      var order := old(s.orders)[id];
      if order.user == actor.id && order.status == Delivered then
        r == Ok(order.(returnRequest := true))
        && s.orders == old(s.orders)[id := order.(returnRequest := true)]
        && s.products == old(s.products) && s.inventory == old(s.inventory)
      else
        r == Fail(Forbidden) && unchanged(s)
  {
    if id !in s.orders {
      return Fail(NotFound);
    }
    var order := s.orders[id];
    if order.user != actor.id || order.status != Delivered {
      return Fail(Forbidden);
    }
    order := order.(returnRequest := true);
    s.orders := s.orders[id := order];
    return Ok(order);
  }

  // ---------------------------------------------------------------------------
  // updateOrderStatus

  /** One row of the transition table: the statuses a role may move an order
      from, and those it may move it to. */
  datatype Row = Row(from: seq<Status>, to: seq<Status>)

  const EveryStatus: seq<Status> := [Pending, Processed, Shipped, Delivered, Returned, Cancelled]

  /** `allowedTransitions`, looked up by role name. */
  function TransitionRow(role: Role): (r: Option<Row>)
    ensures r.None? <==> role == User || role.OtherRole?
    ensures r.Some? ==> forall from: Status, to: Status ::
      from in r.value.from && to in r.value.to <==> TablePermits(role, from, to)
  {
    match role
    case WarehouseManager => Some(Row([Pending], [Processed, Cancelled]))
    case DeliveryAgent => Some(Row([Processed, Shipped], [Delivered, Returned]))
    case Admin => Some(Row(EveryStatus, EveryStatus))
    case _ => None
  }

  /** The table, written out as a relation on (role, from, to). */
  predicate TablePermits(role: Role, from: Status, to: Status)
  {
    || (role == WarehouseManager && from == Pending && (to == Processed || to == Cancelled))
    || (role == DeliveryAgent && (from == Processed || from == Shipped) && (to == Delivered || to == Returned))
    || (role == Admin && !from.OtherStatus? && !to.OtherStatus?)
  }

  /** The guards of `updateOrderStatus`: a transition is allowed exactly when
      the table permits it and, for a return, the return flag is set. */
  function StatusDecision(role: Role, order: Order, target: Status): (r: Option<HttpError>)
    ensures r.None? <==> TablePermits(role, order.status, target) && (target == Returned ==> order.returnRequest)
    ensures r.Some? ==> r.value == Forbidden
  {
    var row := TransitionRow(role);
    if row.None? || order.status !in row.value.from || target !in row.value.to then Some(Forbidden)
    else if target == Returned && !order.returnRequest then Some(Forbidden)
    else None
  }

  /** `updateOrderStatus`: write the new status; only a move to 'returned'
      restocks the order's items. */
  method UpdateOrderStatus(s: Store, actor: Actor, id: Id, target: Status) returns (r: Reply<Order>)
    modifies s
    ensures id !in old(s.orders) ==> r == Fail(NotFound) && unchanged(s)
    ensures id in old(s.orders) && StatusDecision(actor.role, old(s.orders)[id], target).Some? ==>
      r == Fail(Forbidden) && unchanged(s)
    ensures id in old(s.orders) && StatusDecision(actor.role, old(s.orders)[id], target).None? ==>
      var moved := old(s.orders)[id].(status := target);
      r == Ok(moved) && s.orders == old(s.orders)[id := moved]
      && (target == Returned ==>
            s.inventory == Credit(old(s.inventory), moved.items)
            && Stocks(s.products) == Credit(Stocks(old(s.products)), moved.items)
            && SameImages(old(s.products), s.products))
      && (target != Returned ==> s.inventory == old(s.inventory) && s.products == old(s.products))
  {
    if id !in s.orders {
      return Fail(NotFound);
    }
    var order := s.orders[id];
    var refusal := StatusDecision(actor.role, order, target);
    if refusal.Some? {
      return Fail(refusal.value);
    }
    order := order.(status := target);
    s.orders := s.orders[id := order];
    if target == Returned {
      Restock(s, order.items);
    }
    return Ok(order);
  }

  // ---------------------------------------------------------------------------
  // Properties of the workflow

  /** A successful checkout leaves every product the order does not name as it
      was: no inventory record is created or changed for it, and its stock is kept. */
  lemma CheckoutLeavesOthers(products: map<Id, Product>, inv: map<Id, int>, items: seq<LineItem>, x: Id)
    requires Screen(products, inv, items).rejection.None?
    requires forall k | 0 <= k < |items| :: items[k].product != x
    ensures var sc := Screen(products, inv, items);
      Covers(sc.inventory, items) && Covers(Stocks(products), items)
      && (x in Debit(sc.inventory, items) <==> x in inv)
      && (x in inv ==> Debit(sc.inventory, items)[x] == inv[x])
      && (x in products ==> Debit(Stocks(products), items)[x] == products[x].stock)
  {
    var sc := Screen(products, inv, items);
    if x in inv {
      DebitAt(sc.inventory, items, x);
    }
    if x in products {
      DebitAt(Stocks(products), items, x);
    }
  }

  /** A checkout followed by the owner's cancellation of that order: the
      requires are what `CreateOrder` ensures on success (from `p0`, `inv0` to
      `p1`, `inv1`) and what `CancelOrder` ensures on success (from there to
      `p2`, `inv2`). Every product and every existing inventory record ends as
      it was; the only trace is the records checkout created, which hold the
      product's stock. */
  lemma CancelRestores(p0: map<Id, Product>, inv0: map<Id, int>, items: seq<LineItem>,
                       p1: map<Id, Product>, inv1: map<Id, int>, p2: map<Id, Product>, inv2: map<Id, int>)
    requires Screen(p0, inv0, items).rejection.None?
    requires inv1 == Debit(Screen(p0, inv0, items).inventory, items)
    requires Stocks(p1) == Debit(Stocks(p0), items) && SameImages(p0, p1)
    requires inv2 == Credit(inv1, items)
    requires Stocks(p2) == Credit(Stocks(p1), items) && SameImages(p1, p2)
    ensures p2 == p0
    ensures forall x | x in inv0 :: x in inv2 && inv2[x] == inv0[x]
    ensures forall x | x in inv2 && x !in inv0 :: x in p0 && inv2[x] == p0[x].stock
  {
    CreditUndoesDebit(Screen(p0, inv0, items).inventory, items);
    CreditUndoesDebit(Stocks(p0), items);
    SameImagesTrans(p0, p1, p2);
    ProductsDetermined(p0, p2);
  }

  /** Each item is checked against the current counters on its own, so one
      product listed twice can be taken below zero. */
  lemma RepeatedItemOverdraws()
    ensures var products := map["p" := Product(3, None)];
            var items := [LineItem("p", 2), LineItem("p", 2)];
            var sc := Screen(products, map[], items);
            sc.rejection.None? && Debit(sc.inventory, items)["p"] == -1
  {
    var products := map["p" := Product(3, None)];
    var items := [LineItem("p", 2), LineItem("p", 2)];
    var created := map["p" := 3];
    assert Screen(products, created, items[1..][1..]) == Screening(None, created);
    assert Screen(products, created, items[1..]) == Screening(None, created);
    assert Screen(products, map[], items) == Screening(None, created);
    DebitAt(created, items, "p");
    assert items[..1] == [LineItem("p", 2)];
  }

  /** The table lets an admin move a returned order to 'returned' again while
      its return flag is still set, and that move restocks a second time;
      a delivery agent cannot, since 'returned' is not in its 'from' list. */
  lemma ReturnedAgain(order: Order)
    requires order.status == Returned && order.returnRequest
    ensures StatusDecision(Admin, order, Returned).None?
    ensures StatusDecision(DeliveryAgent, order, Returned) == Some(Forbidden)
  {
  }

  /** A delivery agent can never return a delivered order, even once its owner
      has asked: the agent's row moves orders only from 'processed' or
      'shipped', while a return can only be requested for a delivered order. */
  lemma AgentCannotReturnDelivered(order: Order)
    requires order.status == Delivered && order.returnRequest
    ensures StatusDecision(DeliveryAgent, order, Returned) == Some(Forbidden)
    ensures StatusDecision(Admin, order, Returned).None?
  {
  }

  /** The return flag is never cleared, so an admin may move a flagged delivered
      order back to "shipped", and from there the delivery agent may return it. */
  lemma AdminReopensForAgent(order: Order)
    requires order.status == Delivered && order.returnRequest
    ensures StatusDecision(Admin, order, Shipped).None?
    ensures StatusDecision(DeliveryAgent, order.(status := Shipped), Returned).None?
  {
  }

  /** A warehouse manager may cancel a pending order through the status route;
      unlike `cancelOrder`, that puts nothing back. */
  method ManagerCancelsByStatus(s: Store, actor: Actor, id: Id) returns (r: Reply<Order>)
    requires actor.role == WarehouseManager && id in s.orders && s.orders[id].status == Pending
    modifies s
    ensures r == Ok(old(s.orders)[id].(status := Cancelled))
    ensures s.orders == old(s.orders)[id := old(s.orders)[id].(status := Cancelled)]
    ensures s.inventory == old(s.inventory) && s.products == old(s.products)
  {
    r := UpdateOrderStatus(s, actor, id, Cancelled);
  }
}
