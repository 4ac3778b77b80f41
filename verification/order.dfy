/** One purchase line item and the two amounts derived from it.

    Monetary amounts are exact decimals in the program; they are modelled as
    `real`, which is exact as well. Nothing is range-checked: the quantity may
    be negative and the discount may lie outside [0, 100]. */
module OrderModel {

  datatype Order = Order(
    id: int,
    articleName: string,
    quantity: int,
    unitPrice: real,
    percentageDiscount: real,
    buyer: string)

  /** Full price of the line: quantity times unit price. It vanishes exactly
      when one of the two factors does, and it is non-negative when both are. */
  function Total(o: Order): (r: real)
    ensures r == 0.0 <==> o.quantity == 0 || o.unitPrice == 0.0
    ensures o.quantity >= 0 && o.unitPrice >= 0.0 ==> r >= 0.0
  {
    o.quantity as real * o.unitPrice
  }

  /** Price after the percentage discount is taken off the full price. For a
      non-negative full price and a discount within [0, 100] it lies between
      zero and the full price. */
  function TotalWithDiscount(o: Order): (r: real)
    ensures Total(o) >= 0.0 && 0.0 <= o.percentageDiscount <= 100.0 ==> 0.0 <= r <= Total(o)
  {
    Total(o) * (1.0 - o.percentageDiscount / 100.0)
  }

  /** How much the discount takes off the full price: that percentage of the
      full price. */
  function DiscountDifference(o: Order): (r: real)
    ensures r == Total(o) * o.percentageDiscount / 100.0
  {
    Total(o) - TotalWithDiscount(o)
  }

  /** A discount of 0% leaves the price unchanged. */
  lemma NoDiscountKeepsTotal(o: Order)
    requires o.percentageDiscount == 0.0
    ensures TotalWithDiscount(o) == Total(o)
    ensures DiscountDifference(o) == 0.0
  {
  }

  /** A discount of 100% makes the order free. */
  lemma FullDiscountIsFree(o: Order)
    requires o.percentageDiscount == 100.0
    ensures TotalWithDiscount(o) == 0.0
    ensures DiscountDifference(o) == Total(o)
  {
  }

  /** Out-of-range discounts are accepted silently: on a positive full price a
      negative discount raises the price (the discount takes off a negative
      amount), and a discount above 100% makes the discounted price negative
      (the discount takes off more than the full price). */
  lemma DiscountOutOfRange(o: Order)
    requires Total(o) > 0.0
    ensures o.percentageDiscount < 0.0 ==> DiscountDifference(o) < 0.0 && TotalWithDiscount(o) > Total(o)
    ensures o.percentageDiscount > 100.0 ==> DiscountDifference(o) > Total(o) && TotalWithDiscount(o) < 0.0
  {
    var t, d := Total(o), DiscountDifference(o);
    assert TotalWithDiscount(o) == t - d;
    PercentageOfPositive(t, o.percentageDiscount, d);
  }

  /** A share `d` of `p` percent of a positive amount `t` is negative below 0%
      and exceeds the amount above 100%. */
  lemma PercentageOfPositive(t: real, p: real, d: real)
    requires t > 0.0 && d == t * p / 100.0
    ensures p < 0.0 ==> d < 0.0
    ensures p > 100.0 ==> d > t
  {
    if p > 100.0 {
      assert t * (p - 100.0) > 0.0;
      assert d - t == t * (p - 100.0) / 100.0;
    }
  }

  /** A worked example: ten widgets at 2.50 with a 10% discount cost 25.00 in
      full and 22.50 after the discount. */
  lemma WidgetExample()
    ensures Total(Order(1, "Widget", 10, 2.50, 10.0, "Alice")) == 25.0
    ensures TotalWithDiscount(Order(1, "Widget", 10, 2.50, 10.0, "Alice")) == 22.5
  {
  }
}
