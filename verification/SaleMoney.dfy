/** The money of a sale line and of the refund fact a returned line projects beside it. */
module SaleMoney {
  import opened Wrappers
  import opened Decimals

  /** A staged line: quantities and prices scaled, absent calculated fields None. */
  datatype Line = Line(
    quantity: Scaled, unitPrice: Scaled, rawDiscount: Scaled, lineDiscount: Option<Scaled>,
    transactionDiscount: Option<Scaled>, total: Option<Scaled>, tax1: Scaled, tax2: Scaled, unitCost: Option<Scaled>)

  datatype Amounts = Amounts(gross: Scaled, discount: Scaled, net: Scaled, tax: Scaled, exTax: Scaled,
                             cost: Option<Scaled>)

  datatype Refund = Refund(quantity: Scaled, amount: Scaled, tax: Scaled, exTax: Scaled, cost: Option<Scaled>)

  function OrZero(x: Option<Scaled>): Scaled { if x.None? then 0 else x.value }

  function Negated(x: Option<Scaled>): Option<Scaled> { if x.None? then None else Some(-x.value) }

  function Abs(x: Scaled): Scaled { if x < 0 then -x else x }

  /** The applied allocations where the vendor calculated any, otherwise the configured input with the line's sign. */
  function DiscountOf(l: Line): Scaled {
    if l.lineDiscount.Some? || l.transactionDiscount.Some? then OrZero(l.lineDiscount) + OrZero(l.transactionDiscount)
    else if l.quantity < 0 then -Abs(l.rawDiscount) else Abs(l.rawDiscount)
  }

  function NetOf(l: Line): Scaled {
    if l.total.Some? then l.total.value else Multiply(l.unitPrice, l.quantity) - DiscountOf(l)
  }

  function CostOf(l: Line, quantity: Scaled): Option<Scaled> {
    if l.unitCost.None? then None else Some(Multiply(l.unitCost.value, quantity))
  }

  function LineAmounts(l: Line): Amounts {
    var net, discount, tax := NetOf(l), DiscountOf(l), l.tax1 + l.tax2;
    Amounts(net + discount, discount, net, tax, net - tax, CostOf(l, l.quantity))
  }

  /** Only a line of negative quantity projects a refund. */
  function RefundOf(l: Line): Option<Refund> {
    if l.quantity >= 0 then None
    else
      var amount, tax := Abs(NetOf(l)), Abs(l.tax1 + l.tax2);
      Some(Refund(Abs(l.quantity), amount, tax, amount - tax, CostOf(l, Abs(l.quantity))))
  }

  /** The same line handed back: quantity and every signed amount reversed. */
  function Reversed(l: Line): Line {
    l.(quantity := -l.quantity, lineDiscount := Negated(l.lineDiscount),
       transactionDiscount := Negated(l.transactionDiscount),
       total := Negated(l.total), tax1 := -l.tax1, tax2 := -l.tax2)
  }

  function Minus(a: Amounts): Amounts {
    Amounts(-a.gross, -a.discount, -a.net, -a.tax, -a.exTax, Negated(a.cost))
  }

  lemma ProductReverses(x: Scaled, y: Scaled)
    ensures Multiply(x, -y) == -Multiply(x, y)
  {
    assert x * -y == -(x * y);
    RoundedIsNearest(x * y, SCALE);
  }

  /** A line and its full return cancel in every amount, rounding included, so the signed lines reconcile the sale. */
  lemma ReturnCancelsLine(l: Line)
    requires l.quantity != 0
    ensures LineAmounts(Reversed(l)) == Minus(LineAmounts(l))
  {
    hide Multiply;
    ProductReverses(l.unitPrice, l.quantity);
    if l.unitCost.Some? {
      ProductReverses(l.unitCost.value, l.quantity);
    }
  }

  /** On a zero quantity the fallback discount keeps its sign, so exactly a non-zero one fails to cancel. */
  lemma ZeroQuantityCancelsExactly(l: Line)
    requires l.quantity == 0
    ensures LineAmounts(Reversed(l)) == Minus(LineAmounts(l)) <==>
              l.lineDiscount.Some? || l.transactionDiscount.Some? || l.rawDiscount == 0
  {
    hide Multiply;
    ProductReverses(l.unitPrice, 0);
    if l.unitCost.Some? {
      ProductReverses(l.unitCost.value, 0);
    }
  }

  /** The refund's cost always mirrors the line's; its tax-inclusive amount and tax do when they are not positive. */
  lemma RefundMirrorsCost(l: Line)
    requires l.quantity < 0
    ensures RefundOf(l).value.cost == Negated(LineAmounts(l).cost)
    ensures RefundOf(l).value.amount == -LineAmounts(l).net <==> LineAmounts(l).net <= 0
    ensures RefundOf(l).value.tax == -LineAmounts(l).tax <==> LineAmounts(l).tax <= 0
  {
    hide Multiply;
    if l.unitCost.Some? {
      ProductReverses(l.unitCost.value, l.quantity);
    }
  }

  /**
   * What the refund fact reverses before tax is what its line shows before tax exactly when amount and tax are both
   * reversals, or when they are positive and equal, which leaves nothing before tax.
   */
  lemma RefundMirrorsExTaxExactly(l: Line)
    requires l.quantity < 0
    ensures RefundOf(l).value.exTax == -LineAmounts(l).exTax <==>
              (LineAmounts(l).net <= 0 && LineAmounts(l).tax <= 0) || LineAmounts(l).net == LineAmounts(l).tax
  {
    hide Multiply;
  }

  // ---------------------------------------------------------------- how the amounts hang together

  /** Gross less discount is net, net less tax is before tax; without a vendor total gross is price times quantity. */
  lemma LineAddsUp(l: Line)
    ensures var a := LineAmounts(l);
            && a.gross - a.discount == a.net && a.net - a.tax == a.exTax
            && (l.total.Some? ==> Some(a.net) == l.total)
            && (l.total.None? ==> 2 * Absolute(a.gross * 10_000 - l.unitPrice * l.quantity) <= 10_000)
            && (l.unitCost.Some? ==>
                  a.cost.Some? && 2 * Absolute(a.cost.value * 10_000 - l.unitCost.value * l.quantity) <= 10_000)
  {
    RoundedIsNearest(l.unitPrice * l.quantity, SCALE);
    if l.unitCost.Some? {
      RoundedIsNearest(l.unitCost.value * l.quantity, SCALE);
    }
  }

  /** Allocations add up; the configured discount counts only without any, with the sign of the quantity. */
  lemma DiscountHasItsSign(l: Line, line: Scaled, transaction: Scaled)
    ensures var both := l.(lineDiscount := Some(line), transactionDiscount := Some(transaction));
            && DiscountOf(both) == line + transaction
            && DiscountOf(both.(lineDiscount := None)) == transaction
            && DiscountOf(both.(transactionDiscount := None)) == line
    ensures var plain := l.(lineDiscount := None, transactionDiscount := None);
            && (l.quantity < 0 ==> DiscountOf(plain) <= 0) && (l.quantity >= 0 ==> DiscountOf(plain) >= 0)
            && (DiscountOf(plain) == l.rawDiscount || DiscountOf(plain) == -l.rawDiscount)
  {
  }

  /** A refund is projected exactly for a negative quantity, and hands back what the line took, in positive amounts. */
  lemma RefundHandsBack(l: Line)
    ensures RefundOf(l).Some? <==> l.quantity < 0
    ensures RefundOf(l).Some? ==>
              var r := RefundOf(l).value;
              && r.quantity == -l.quantity && r.amount >= 0 && r.tax >= 0 && r.amount - r.tax == r.exTax
              && (r.amount == LineAmounts(l).net || r.amount == -LineAmounts(l).net)
              && (r.tax == LineAmounts(l).tax || r.tax == -LineAmounts(l).tax)
  {
    hide Multiply;
  }
}
