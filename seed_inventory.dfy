/** The start-up step that gives every product an inventory record. */
module SeedInventory {
  import opened Models

  /** `initializeInventory`: each product without a record gets one holding
      its `stock`; existing records are left alone. Returns the products it
      created records for. */
  method InitializeInventory(s: Store) returns (created: set<Id>)
    modifies s
    ensures created == old(s.products).Keys - old(s.inventory).Keys
    ensures s.inventory.Keys == old(s.inventory).Keys + old(s.products).Keys
    ensures forall x | x in old(s.inventory) :: s.inventory[x] == old(s.inventory)[x]
    ensures forall x | x in created :: s.inventory[x] == old(s.products)[x].stock
    ensures s.products == old(s.products) && s.orders == old(s.orders)
  {
    var ids := s.FindProducts();
    created := {};
    ghost var seen: set<Id> := {};
    var i := 0;
    while i < |ids|
      invariant 0 <= i <= |ids|
      invariant s.products == old(s.products) && s.orders == old(s.orders)
      invariant seen <= s.products.Keys
      invariant forall k | 0 <= k < i :: ids[k] in seen
      invariant created == seen - old(s.inventory).Keys
      invariant s.inventory.Keys == old(s.inventory).Keys + seen
      invariant forall x | x in old(s.inventory) :: s.inventory[x] == old(s.inventory)[x]
      invariant forall x | x in created :: s.inventory[x] == s.products[x].stock
    {
      var id := ids[i];
      if id !in s.inventory {
        s.inventory := s.inventory[id := s.products[id].stock];
        created := created + {id};
      }
      seen := seen + {id};
      i := i + 1;
    }
    assert seen == s.products.Keys;
  }

  /** Seeding twice: the second run creates nothing, and the store is the one a single run leaves. */
  method SeedTwice(s: Store) returns (first: set<Id>, second: set<Id>)
    modifies s
    ensures first == old(s.products).Keys - old(s.inventory).Keys
    ensures second == {}
    ensures s.inventory.Keys == old(s.inventory).Keys + old(s.products).Keys
    ensures forall x | x in old(s.inventory) :: s.inventory[x] == old(s.inventory)[x]
    ensures forall x | x in first :: s.inventory[x] == old(s.products)[x].stock
    ensures s.products == old(s.products) && s.orders == old(s.orders)
  {
    first := InitializeInventory(s);
    ghost var between := s.inventory;
    second := InitializeInventory(s);
    assert s.inventory == between;
  }
}
