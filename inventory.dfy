/** The inventory controller: adjusting a product's inventory record and reading it. */
module InventoryControl {
  import opened Wrappers
  import opened Models

  /** `updateInventory`: create the record with `quantity`, or add `quantity` to the
      existing record as a delta; then copy the record's quantity into the
      product's `stock`. The record is written first: when the product does not
      exist the copy throws, nothing catches it, and the record stays written. */
  method UpdateInventory(s: Store, productId: Id, quantity: int) returns (r: Reply<int>)
    modifies s
    ensures var q := if productId in old(s.inventory) then old(s.inventory)[productId] + quantity else quantity;
      s.inventory == old(s.inventory)[productId := q]
      && s.orders == old(s.orders)
      && if productId in old(s.products) then
           r == Ok(q)
           && s.products == old(s.products)[productId := old(s.products)[productId].(stock := q)]
         else
           r == Fail(ServerError) && s.products == old(s.products)
  {
    if productId !in s.inventory {
      s.inventory := s.inventory[productId := quantity];
    } else {
      s.inventory := s.inventory[productId := s.inventory[productId] + quantity];
    }
    if productId !in s.products {
      return Fail(ServerError);
    }
    var q := s.inventory[productId];
    s.products := s.products[productId := s.products[productId].(stock := q)];
    return Ok(q);
  }

  /** `getInventoryByProduct`: the product's record, or 404 when it has none. */
  function GetInventoryByProduct(inventory: map<Id, int>, productId: Id): (r: Reply<int>)
    ensures r == Fail(NotFound) <==> productId !in inventory
    ensures r.Ok? ==> productId in inventory && r.value == inventory[productId]
  {
    if productId in inventory then Ok(inventory[productId]) else Fail(NotFound)
  }

  /** Two adjustments of one product add up; its stock then mirrors the record. */
  method AdjustTwice(s: Store, productId: Id, first: int, second: int) returns (r: Reply<int>)
    requires productId in s.products && productId in s.inventory
    modifies s
    ensures s.inventory == old(s.inventory)[productId := old(s.inventory)[productId] + first + second]
    ensures productId in s.products && r == Ok(s.inventory[productId]) && s.products[productId].stock == s.inventory[productId]
    ensures GetInventoryByProduct(s.inventory, productId) == r
    ensures s.products == old(s.products)[productId := old(s.products)[productId].(stock := s.inventory[productId])]
    ensures s.orders == old(s.orders)
  {
    r := UpdateInventory(s, productId, first);
    r := UpdateInventory(s, productId, second);
  }
}
