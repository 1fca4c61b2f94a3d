/** The GST calculator screen: an amount and a GST rate, read either as a net
    amount with GST charged on top ("exclusive") or as a gross amount that
    already contains the GST ("inclusive"), split into a net part, the GST and
    the total, with the GST shown again as equal central and state halves. */
module GstCalculator {
  import opened Basics
  import opened FinanceMath

  datatype Mode = Exclusive | Inclusive

  /** The calculator's inputs. */
  datatype State = State(amount: real, gstRate: real, mode: Mode)

  /** The three figures the screen shows. */
  datatype Breakdown = Breakdown(net: real, gst: real, total: real)

  /** The inputs the screen starts from and returns to on reset: 1000 at 18 %, GST on top. */
  const Initial := State(1000.0, 18.0, Exclusive)

  /** The inclusive reading: the net amount is the gross divided by the GST
      factor 1 + rate / 100 and the GST is the rest. A rate of −100 makes the
      factor zero and the division meaningless (JavaScript would show an
      infinity or NaN), so that case has no breakdown. */
  function GstIncluded(amount: real, rate: real): (b: Option<Breakdown>)
    ensures b.None? <==> rate == -100.0
    ensures b.Some? ==> b.value.total == amount && b.value.net + b.value.gst == amount
    ensures b.Some? ==> b.value.net * (1.0 + rate / 100.0) == amount
  {
    var factor := 1.0 + rate / 100.0;
    if factor == 0.0 then None
    else
      var net := amount / factor;
      Some(Breakdown(net, amount - net, amount))
  }

  /** The exclusive reading: calculateGST on the amount. */
  function GstOnTop(amount: real, rate: real): (b: Breakdown)
    ensures amount <= 0.0 || rate < 0.0 ==> b == Breakdown(0.0, 0.0, 0.0)
    ensures amount > 0.0 && rate >= 0.0 ==>
      && b.net == amount
      && b.total == b.net + b.gst
      && b.gst * 100.0 == amount * rate
  {
    var g := CalculateGST(amount, rate);
    Breakdown(g.amountWithoutGST, g.gstAmount, g.totalAmount)
  }

  /** The effect that recomputes the figures whenever an input changes. */
  function Compute(s: State): (b: Option<Breakdown>)
    ensures b.None? <==> s.mode == Inclusive && s.gstRate == -100.0
  {
    match s.mode
    case Exclusive => Some(GstOnTop(s.amount, s.gstRate))
    case Inclusive => GstIncluded(s.amount, s.gstRate)
  }

  /** Whatever the mode, the net amount and the GST add up to the total, and
      the GST is the rate's share of the net amount (zero when calculateGST
      zeroes a non-positive amount or a negative rate). */
  lemma BreakdownConsistent(s: State)
    requires Compute(s).Some?
    ensures var b := Compute(s).value;
      && b.net + b.gst == b.total
      && b.gst * 100.0 == b.net * s.gstRate
  {
    var b := Compute(s).value;
    if s.mode == Inclusive {
      var f := 1.0 + s.gstRate / 100.0;
      assert b.net * f == s.amount;
      assert b.gst == s.amount - b.net;
      assert b.gst == b.net * f - b.net;
      assert b.gst * 100.0 == b.net * (f * 100.0 - 100.0);
    }
  }

  /** The exclusive figures for a positive amount at a non-negative rate: the
      amount is the net part and the total exceeds it by the GST. */
  lemma ExclusiveFigures(amount: real, rate: real)
    requires amount > 0.0 && rate >= 0.0
    ensures var b := GstOnTop(amount, rate);
      && b.net == amount
      && b.gst == amount * rate / 100.0
      && b.total == amount + amount * rate / 100.0
  {
  }

  /** Reading the exclusive total back in inclusive mode recovers the original
      amount as the net part and the same GST. */
  lemma InclusiveUndoesExclusive(amount: real, rate: real)
    requires amount > 0.0 && rate >= 0.0
    ensures var e := GstOnTop(amount, rate);
      var i := GstIncluded(e.total, rate);
      i.Some? && i.value == e
  {
    var e := GstOnTop(amount, rate);
    var f := 1.0 + rate / 100.0;
    assert e.total == amount * f;
    var i := GstIncluded(e.total, rate).value;
    assert i.net * f == amount * f;
    MulCancel(i.net, amount, f);
  }

  /** Charging GST on top of the inclusive net amount restores the gross amount
      as the total, with the same GST. */
  lemma ExclusiveUndoesInclusive(amount: real, rate: real)
    requires amount > 0.0 && rate >= 0.0
    ensures var i := GstIncluded(amount, rate);
      i.Some? && i.value.net > 0.0 && GstOnTop(i.value.net, rate) == i.value
  {
    var i := GstIncluded(amount, rate).value;
    var f := 1.0 + rate / 100.0;
    assert i.net == amount / f;
    assert i.net > 0.0;
    var e := GstOnTop(i.net, rate);
    assert e.total == i.net * f;
  }

  /** The worked example: 1000 at 18 % gives 180 of GST and 1180 in all, and
      1180 read inclusively at 18 % gives back 1000 and 180. */
  lemma EighteenPercentOfAThousand()
    ensures Compute(Initial) == Some(Breakdown(1000.0, 180.0, 1180.0))
    ensures Compute(State(1180.0, 18.0, Inclusive)) == Some(Breakdown(1000.0, 180.0, 1180.0))
  {
    InclusiveUndoesExclusive(1000.0, 18.0);
  }

  /** The breakdown card's central and state GST lines: each is half of the
      GST at half the rate. */
  datatype Split = Split(cgstRate: real, cgst: real, sgstRate: real, sgst: real)

  function SplitGST(rate: real, gst: real): (sp: Split)
    ensures sp.cgst == sp.sgst && sp.cgst + sp.sgst == gst
    ensures sp.cgstRate == sp.sgstRate && sp.cgstRate + sp.sgstRate == rate
  {
    Split(rate / 2.0, gst / 2.0, rate / 2.0, gst / 2.0)
  }

  /** Each half is charged at its half rate on the net amount. */
  lemma SplitChargesHalfRate(s: State)
    requires Compute(s).Some?
    ensures var b := Compute(s).value;
      var sp := SplitGST(s.gstRate, b.gst);
      sp.cgst * 100.0 == b.net * sp.cgstRate
  {
    BreakdownConsistent(s);
  }

  /** handleReset: back to the initial amount, rate and mode. */
  function Reset(s: State): (r: State)
    ensures r.amount == 1000.0 && r.gstRate == 18.0 && r.mode == Exclusive
  {
    Initial
  }

  /** Resetting twice is resetting once, and the reset screen shows the worked example. */
  lemma ResetIdempotent(s: State)
    ensures Reset(Reset(s)) == Reset(s)
    ensures Compute(Reset(s)) == Some(Breakdown(1000.0, 180.0, 1180.0))
  {
    EighteenPercentOfAThousand();
  }
}
