/** The three "max-by" scans over the loaded orders.

    Each scan walks the list once, front to back, keeping a running `highest`
    that starts out absent and is replaced by the current order only when it
    is absent or the current order's key is strictly greater. So an empty
    list gives no order, and among orders sharing the maximal key the first
    one wins. */
module Reductions {
  import opened Wrappers
  import opened OrderModel

  /** The key each scan maximises. */
  datatype Criterion = HighestTotal | HighestQuantity | MaxDiscountDifference

  /** The value each scan compares. The quantity is an integer in the program;
      as a real it compares the same way. */
  function Key(c: Criterion, o: Order): real {
    match c
    case HighestTotal => Total(o)
    case HighestQuantity => o.quantity as real
    case MaxDiscountDifference => DiscountDifference(o)
  }

  /** Position `i` holds the first order whose key is maximal: no order has a
      greater key, and every earlier order has a strictly smaller one. */
  ghost predicate IsFirstMax(orders: seq<Order>, c: Criterion, i: int) {
    && 0 <= i < |orders|
    && (forall j :: 0 <= j < |orders| ==> Key(c, orders[j]) <= Key(c, orders[i]))
    && (forall j :: 0 <= j < i ==> Key(c, orders[j]) < Key(c, orders[i]))
  }

  /** Reference definition of a forward scan: the index the scan holds after
      the whole list, computed from the index it held before the last order. */
  function FirstArgMax(orders: seq<Order>, c: Criterion): (r: Option<nat>)
    ensures r.None? <==> orders == []
    ensures r.Some? ==> IsFirstMax(orders, c, r.value)
  {
    if orders == [] then None
    else
      var last := |orders| - 1;
      var prev := FirstArgMax(orders[..last], c);
      if prev.None? || Key(c, orders[last]) > Key(c, orders[prev.value]) then Some(last)
      else prev
  }

  /** At most one position is the first maximum. */
  lemma FirstMaxIsUnique(orders: seq<Order>, c: Criterion, i: int, k: int)
    requires IsFirstMax(orders, c, i) && IsFirstMax(orders, c, k)
    ensures i == k
  {
    assert Key(c, orders[i]) == Key(c, orders[k]);
  }

  // The three lemmas below follow from the contract of FirstArgMax; they
  // spell out, for readers, what that contract means for callers.

  /** The scan's result is exactly the first maximum, in both directions. */
  lemma FirstArgMaxIsFirstMax(orders: seq<Order>, c: Criterion, i: int)
    ensures FirstArgMax(orders, c) == Some(i) <==> IsFirstMax(orders, c, i)
  {
  }

  /** When a later order ties with an earlier one at the maximum, the later
      one is never chosen. */
  lemma TieGoesToEarliest(orders: seq<Order>, c: Criterion, i: int, k: int)
    requires 0 <= i < k < |orders|
    requires Key(c, orders[i]) == Key(c, orders[k])
    ensures FirstArgMax(orders, c) != Some(k)
  {
  }

  /** The scan's choice is an order of the list whose key is at least every
      key in the list. */
  lemma FirstArgMaxIsMaximal(orders: seq<Order>, c: Criterion, o: Order)
    requires o in orders
    ensures FirstArgMax(orders, c).Some?
    ensures Key(c, o) <= Key(c, orders[FirstArgMax(orders, c).value])
  {
  }

  /** Order with the highest full price; on ties the earliest one. */
  method GetOrderWithHighestTotal(orders: seq<Order>) returns (highest: Option<Order>, ghost winner: nat)
    ensures highest.None? <==> orders == []
    ensures highest.Some? ==> highest.value in orders && IsFirstMax(orders, HighestTotal, winner)
    ensures highest.Some? ==> FirstArgMax(orders, HighestTotal) == Some(winner) && highest.value == orders[winner]
  {
    highest, winner := None, 0;
    for i := 0 to |orders|
      invariant highest.None? <==> i == 0
      invariant highest.Some? ==> FirstArgMax(orders[..i], HighestTotal) == Some(winner) && highest.value == orders[winner]
    {
      var order := orders[i];
      assert orders[..i + 1][..i] == orders[..i];
      if highest.None? || Total(order) > Total(highest.value) {
        highest, winner := Some(order), i;
      }
    }
    assert orders[..|orders|] == orders;
  }

  /** Order with the highest quantity; on ties the earliest one. */
  method GetOrderWithHighestQuantity(orders: seq<Order>) returns (highest: Option<Order>, ghost winner: nat)
    ensures highest.None? <==> orders == []
    ensures highest.Some? ==> highest.value in orders && IsFirstMax(orders, HighestQuantity, winner)
    ensures highest.Some? ==> FirstArgMax(orders, HighestQuantity) == Some(winner) && highest.value == orders[winner]
  {
    highest, winner := None, 0;
    for i := 0 to |orders|
      invariant highest.None? <==> i == 0
      invariant highest.Some? ==> FirstArgMax(orders[..i], HighestQuantity) == Some(winner) && highest.value == orders[winner]
    {
      var order := orders[i];
      assert orders[..i + 1][..i] == orders[..i];
      if highest.None? || order.quantity > highest.value.quantity {
        highest, winner := Some(order), i;
      }
    }
    assert orders[..|orders|] == orders;
  }

  /** Order whose discount takes the most off its full price; on ties the
      earliest one. */
  method GetOrderWithMaxDiscountDifference(orders: seq<Order>) returns (highest: Option<Order>, ghost winner: nat)
    ensures highest.None? <==> orders == []
    ensures highest.Some? ==> highest.value in orders && IsFirstMax(orders, MaxDiscountDifference, winner)
    ensures highest.Some? ==> FirstArgMax(orders, MaxDiscountDifference) == Some(winner) && highest.value == orders[winner]
  {
    highest, winner := None, 0;
    for i := 0 to |orders|
      invariant highest.None? <==> i == 0
      invariant highest.Some? ==> FirstArgMax(orders[..i], MaxDiscountDifference) == Some(winner) && highest.value == orders[winner]
    {
      var order := orders[i];
      var discountDifference := Total(order) - TotalWithDiscount(order);
      assert orders[..i + 1][..i] == orders[..i];
      if highest.None? || discountDifference > Total(highest.value) - TotalWithDiscount(highest.value) {
        highest, winner := Some(order), i;
      }
    }
    assert orders[..|orders|] == orders;
  }
}
