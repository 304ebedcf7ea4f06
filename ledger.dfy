/**
  How line items move the two stock counters: the inventory record's
  `quantity` and the product's `stock`. The order controller debits every
  line item on a successful create and credits them back on cancel and on
  return; a credit skips a product whose record is gone.
 */
module Ledger {
  import opened Models

  /** Sum of the quantities the items request for product `x`. */
  function Total(items: seq<LineItem>, x: Id): (t: int)
    ensures (forall k | 0 <= k < |items| :: items[k].product != x) ==> t == 0
  {
    if items == [] then 0
    else
      var last := items[|items| - 1];
      Total(items[..|items| - 1], x) + (if last.product == x then last.quantity else 0)
  }

  predicate Covers(m: map<Id, int>, items: seq<LineItem>)
  {
    forall k | 0 <= k < |items| :: items[k].product in m
  }

  /** Subtract every item's quantity from its product's counter, item by item. */
  function Debit(m: map<Id, int>, items: seq<LineItem>): (r: map<Id, int>)
    requires Covers(m, items)
    ensures r.Keys == m.Keys
  {
    if items == [] then m
    else
      var prev := Debit(m, items[..|items| - 1]);
      var last := items[|items| - 1];
      prev[last.product := prev[last.product] - last.quantity]
  }

  /** Add every item's quantity back to its product's counter when that counter exists. */
  function Credit(m: map<Id, int>, items: seq<LineItem>): (r: map<Id, int>)
    ensures r.Keys == m.Keys
  {
    if items == [] then m
    else
      var prev := Credit(m, items[..|items| - 1]);
      var last := items[|items| - 1];
      if last.product in prev then prev[last.product := prev[last.product] + last.quantity] else prev
  }

  lemma {:induction false} DebitAt(m: map<Id, int>, items: seq<LineItem>, x: Id)
    requires Covers(m, items) && x in m
    ensures Debit(m, items)[x] == m[x] - Total(items, x)
  {
    if items != [] {
      DebitAt(m, items[..|items| - 1], x);
    }
  }

  lemma {:induction false} CreditAt(m: map<Id, int>, items: seq<LineItem>, x: Id)
    requires x in m
    ensures Credit(m, items)[x] == m[x] + Total(items, x)
  {
    if items != [] {
      CreditAt(m, items[..|items| - 1], x);
    }
  }

  /** Crediting the items a debit took restores every counter exactly. */
  lemma CreditUndoesDebit(m: map<Id, int>, items: seq<LineItem>)
    requires Covers(m, items)
    ensures Credit(Debit(m, items), items) == m
  {
    var d := Debit(m, items);
    forall x | x in m
      ensures Credit(d, items)[x] == m[x]
    {
      DebitAt(m, items, x);
      CreditAt(d, items, x);
    }
  }

  /** One more item extends a debit by one subtraction. */
  lemma DebitStep(m: map<Id, int>, items: seq<LineItem>, i: nat)
    requires Covers(m, items) && i < |items|
    ensures items[i].product in Debit(m, items[..i])
    ensures Debit(m, items[..i + 1]) ==
      Debit(m, items[..i])[items[i].product := Debit(m, items[..i])[items[i].product] - items[i].quantity]
  {
    assert items[..i + 1][..i] == items[..i];
  }

  /** One more item extends a credit by one addition, when the counter exists. */
  lemma CreditStep(m: map<Id, int>, items: seq<LineItem>, i: nat)
    requires i < |items|
    ensures var c := Credit(m, items[..i]);
      Credit(m, items[..i + 1]) ==
        if items[i].product in c then c[items[i].product := c[items[i].product] + items[i].quantity] else c
  {
    assert items[..i + 1][..i] == items[..i];
  }

  /** A map that is one item further debited than a prefix's debit is the
      debit of the longer prefix. */
  lemma DebitExtend(m: map<Id, int>, items: seq<LineItem>, i: nat, before: map<Id, int>, after: map<Id, int>)
    requires Covers(m, items) && i < |items|
    requires before == Debit(m, items[..i]) && items[i].product in before
    requires after == before[items[i].product := before[items[i].product] - items[i].quantity]
    ensures after == Debit(m, items[..i + 1])
  {
    DebitStep(m, items, i);
  }

  /** A map that is one item further credited than a prefix's credit is the
      credit of the longer prefix. */
  lemma CreditExtend(m: map<Id, int>, items: seq<LineItem>, i: nat, before: map<Id, int>, after: map<Id, int>)
    requires i < |items| && before == Credit(m, items[..i])
    requires after ==
      if items[i].product in before
      then before[items[i].product := before[items[i].product] + items[i].quantity]
      else before
    ensures after == Credit(m, items[..i + 1])
  {
    CreditStep(m, items, i);
  }
}
