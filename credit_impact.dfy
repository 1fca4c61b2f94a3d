/** The credit score impact simulator: a current score, a list of factors the
    user can switch on and off, each with a signed point impact, and the
    projected score — the current score plus the impacts of the selected
    factors, kept within 300–850. A bar chart shows each selected factor's
    size and direction. */
module CreditImpact {
  import opened Basics

  datatype Factor = Factor(id: string, name: string, impact: real, selected: bool)

  const DefaultScore := 650.0

  function DefaultFactors(): (factors: seq<Factor>)
    ensures |factors| == 10
    ensures forall k :: 0 <= k < |factors| ==> !factors[k].selected
  {
    [ Factor("late_payment", "Late Payment", -50.0, false),
      Factor("credit_inquiry", "Credit Inquiry", -10.0, false),
      Factor("new_credit_card", "New Credit Card", -25.0, false),
      Factor("loan_application", "Loan Application", -20.0, false),
      Factor("debt_settlement", "Debt Settlement", -45.0, false),
      Factor("bankruptcy", "Bankruptcy", -150.0, false),
      Factor("on_time_payments", "Consistent On-Time Payments", 30.0, false),
      Factor("credit_limit_increase", "Credit Limit Increase", 15.0, false),
      Factor("pay_down_debt", "Pay Down Debt", 40.0, false),
      Factor("old_account", "Keep Old Accounts Open", 25.0, false) ]
  }

  // ---------------------------------------------------------------------------
  // The projected score

  /** What one factor adds to the total: its impact when selected, else 0. */
  function Contribution(f: Factor): real
  {
    if f.selected then f.impact else 0.0
  }

  /** The total impact of the selected factors, accumulated front to back. */
  function SelectedImpact(factors: seq<Factor>): (total: real)
    ensures (forall k :: 0 <= k < |factors| ==> !factors[k].selected) ==> total == 0.0
    ensures (forall k :: 0 <= k < |factors| ==> factors[k].impact >= 0.0) ==> total >= 0.0
    ensures (forall k :: 0 <= k < |factors| ==> factors[k].impact <= 0.0) ==> total <= 0.0
  {
    if |factors| == 0 then 0.0
    else SelectedImpact(factors[..|factors| - 1]) + Contribution(factors[|factors| - 1])
  }

  /** The current score moved by the selected impacts, kept within 300–850. */
  function Projected(current: real, factors: seq<Factor>): (score: real)
    ensures 300.0 <= score <= 850.0
    ensures 300.0 <= current + SelectedImpact(factors) <= 850.0 ==> score == current + SelectedImpact(factors)
  {
    Min(850.0, Max(300.0, current + SelectedImpact(factors)))
  }

  lemma {:induction false} SelectedImpactAppend(a: seq<Factor>, b: seq<Factor>)
    ensures SelectedImpact(a + b) == SelectedImpact(a) + SelectedImpact(b)
  {
    if |b| == 0 {
      assert a + b == a;
    } else {
      var n := |b| - 1;
      assert (a + b)[..|a + b| - 1] == a + b[..n];
      assert (a + b)[|a + b| - 1] == b[n];
      SelectedImpactAppend(a, b[..n]);
    }
  }

  /** Taking one factor out of the list takes away exactly its contribution. */
  lemma SelectedImpactSplice(before: seq<Factor>, f: Factor, after: seq<Factor>)
    ensures SelectedImpact(before + [f] + after) == SelectedImpact(before + after) + Contribution(f)
  {
    SelectedImpactAppend(before + [f], after);
    SelectedImpactAppend(before, [f]);
    SelectedImpactAppend(before, after);
    SelectedImpactSingle(f);
  }

  lemma SelectedImpactRemove(factors: seq<Factor>, k: nat)
    requires k < |factors|
    ensures SelectedImpact(factors) == SelectedImpact(factors[..k] + factors[k + 1..]) + Contribution(factors[k])
  {
    Reassembled(factors, k);
    SelectedImpactSplice(factors[..k], factors[k], factors[k + 1..]);
  }

  lemma Reassembled(factors: seq<Factor>, k: nat)
    requires k < |factors|
    ensures factors == factors[..k] + [factors[k]] + factors[k + 1..]
  {
  }

  lemma SelectedImpactSingle(f: Factor)
    ensures SelectedImpact([f]) == Contribution(f)
  {
    assert [f][..0] == [];
  }

  /** The total does not depend on the order of the factors: any rearrangement
      of the list has the same selected impact. */
  lemma {:induction false} SelectedImpactPermutation(a: seq<Factor>, b: seq<Factor>)
    requires multiset(a) == multiset(b)
    ensures SelectedImpact(a) == SelectedImpact(b)
  {
    if |a| > 0 {
      var n := |a| - 1;
      assert a[n] in multiset(b);
      var k :| 0 <= k < |b| && b[k] == a[n];
      RemoveMatching(a, b, k);
      SelectedImpactPermutation(a[..n], b[..k] + b[k + 1..]);
      SelectedImpactRemove(b, k);
    } else {
      assert |b| == 0;
    }
  }

  /** Dropping the last factor of one list and a matching factor of a
      rearrangement of it leaves rearrangements of each other. */
  lemma RemoveMatching(a: seq<Factor>, b: seq<Factor>, k: nat)
    requires multiset(a) == multiset(b) && |a| > 0 && k < |b| && b[k] == a[|a| - 1]
    ensures multiset(a[..|a| - 1]) == multiset(b[..k] + b[k + 1..])
  {
    var n := |a| - 1;
    var rest := b[..k] + b[k + 1..];
    Reassembled(a, n);
    Reassembled(b, k);
    assert multiset(a) == multiset(a[..n]) + multiset{a[n]};
    assert multiset(b) == multiset(rest) + multiset{b[k]};
    assert multiset(a[..n]) == multiset(a) - multiset{a[n]};
    assert multiset(rest) == multiset(b) - multiset{b[k]};
  }

  /** So the projected score does not depend on the order either. */
  lemma ProjectedOrderIndependent(current: real, a: seq<Factor>, b: seq<Factor>)
    requires multiset(a) == multiset(b)
    ensures Projected(current, a) == Projected(current, b)
  {
    SelectedImpactPermutation(a, b);
  }

  // ---------------------------------------------------------------------------
  // Selecting and clearing factors

  /** The list after clicking the factor with this id: only its selection flips. */
  function Toggled(factors: seq<Factor>, id: string): (r: seq<Factor>)
    ensures |r| == |factors|
    ensures forall k :: 0 <= k < |r| ==>
      r[k] == if factors[k].id == id then factors[k].(selected := !factors[k].selected) else factors[k]
  {
    seq(|factors|, k requires 0 <= k < |factors| =>
      if factors[k].id == id then factors[k].(selected := !factors[k].selected) else factors[k])
  }

  /** Clicking the same factor twice restores the list. */
  lemma ToggleTwice(factors: seq<Factor>, id: string)
    ensures Toggled(Toggled(factors, id), id) == factors
  {
    var once := Toggled(factors, id);
    var twice := Toggled(once, id);
    forall k | 0 <= k < |factors|
      ensures twice[k] == factors[k]
    {
      assert once[k].id == factors[k].id;
    }
  }

  /** A click moves the total by exactly the clicked factors' impacts: added
      when they become selected, taken away when they are cleared. */
  lemma {:induction false} ToggleShiftsImpact(factors: seq<Factor>, id: string)
    ensures SelectedImpact(Toggled(factors, id)) == SelectedImpact(factors) + ToggleShift(factors, id)
  {
    if |factors| > 0 {
      var n := |factors| - 1;
      var t := Toggled(factors, id);
      assert t[..n] == Toggled(factors[..n], id);
      ToggleShiftsImpact(factors[..n], id);
    }
  }

  /** The change in the total that toggling this id brings about. */
  function ToggleShift(factors: seq<Factor>, id: string): real
  {
    if |factors| == 0 then 0.0
    else
      var f := factors[|factors| - 1];
      ToggleShift(factors[..|factors| - 1], id)
        + (if f.id != id then 0.0 else if f.selected then -f.impact else f.impact)
  }

  /** The list with every factor cleared and nothing else changed. */
  function Unselected(factors: seq<Factor>): (r: seq<Factor>)
    ensures |r| == |factors|
    ensures forall k :: 0 <= k < |r| ==> r[k] == factors[k].(selected := false)
  {
    seq(|factors|, k requires 0 <= k < |factors| => factors[k].(selected := false))
  }

  lemma {:induction false} UnselectedImpact(factors: seq<Factor>)
    ensures SelectedImpact(Unselected(factors)) == 0.0
  {
    if |factors| > 0 {
      var n := |factors| - 1;
      assert Unselected(factors)[..n] == Unselected(factors[..n]);
      UnselectedImpact(factors[..n]);
    }
  }

  /** After a reset the projection is the current score itself, for any score
      the input allows. */
  lemma ResetRestoresCurrent(current: real, factors: seq<Factor>)
    requires 300.0 <= current <= 850.0
    ensures Projected(current, Unselected(factors)) == current
  {
    UnselectedImpact(factors);
  }

  // ---------------------------------------------------------------------------
  // The chart

  /** One bar: the factor's name, the size of its impact and its direction. */
  datatype ChartEntry = ChartEntry(name: string, scoreImpact: real, value: real, isPositive: bool)

  /** The selected factors, in list order. */
  function Selected(factors: seq<Factor>): (r: seq<Factor>)
    ensures |r| <= |factors|
  {
    if |factors| == 0 then []
    else
      var last := factors[|factors| - 1];
      Selected(factors[..|factors| - 1]) + (if last.selected then [last] else [])
  }

  function EntryOf(f: Factor): ChartEntry
  {
    ChartEntry(f.name, Abs(f.impact), Abs(f.impact), f.impact > 0.0)
  }

  function ChartData(factors: seq<Factor>): (chart: seq<ChartEntry>)
    ensures |chart| == |Selected(factors)|
  {
    var chosen := Selected(factors);
    seq(|chosen|, k requires 0 <= k < |chosen| => EntryOf(chosen[k]))
  }

  /** The filter keeps exactly the selected factors. */
  lemma {:induction false} SelectedExactly(factors: seq<Factor>, f: Factor)
    ensures f in Selected(factors) <==> f in factors && f.selected
  {
    if |factors| > 0 {
      var n := |factors| - 1;
      SelectedExactly(factors[..n], f);
      assert factors == factors[..n] + [factors[n]];
    }
  }

  /** Each bar's size is the impact's magnitude and its colour says whether
      the impact is a gain. */
  lemma ChartEntriesDescribeImpact(factors: seq<Factor>, k: nat)
    requires k < |ChartData(factors)|
    ensures var e := ChartData(factors)[k];
      && e.value == e.scoreImpact >= 0.0
      && (e.isPositive <==> Selected(factors)[k].impact > 0.0)
      && (if e.isPositive then e.value else -e.value) == Selected(factors)[k].impact
  {
  }

  /** The bars' signed sizes add up to the total the projection uses. */
  function SignedTotal(chart: seq<ChartEntry>): real
  {
    if |chart| == 0 then 0.0
    else
      var last := chart[|chart| - 1];
      SignedTotal(chart[..|chart| - 1]) + (if last.isPositive then last.value else -last.value)
  }

  lemma {:induction false} ChartAgreesWithProjection(factors: seq<Factor>)
    ensures SignedTotal(ChartData(factors)) == SelectedImpact(factors)
  {
    if |factors| > 0 {
      var n := |factors| - 1;
      var last := factors[n];
      ChartAgreesWithProjection(factors[..n]);
      var before := ChartData(factors[..n]);
      var after := ChartData(factors);
      if last.selected {
        assert after[..|after| - 1] == before;
      } else {
        assert after == before;
      }
    }
  }

  // ---------------------------------------------------------------------------
  // The screen

  class ImpactScreen {
    var currentScore: real
    var factors: seq<Factor>
    var projectedScore: real

    constructor ()
      ensures currentScore == DefaultScore && factors == DefaultFactors()
      ensures projectedScore == DefaultScore
    {
      currentScore := DefaultScore;
      factors := DefaultFactors();
      projectedScore := DefaultScore;
    }

    /** The projection effect: add up the selected impacts, then clamp. */
    method UpdateProjection()
      modifies this
      ensures currentScore == old(currentScore) && factors == old(factors)
      ensures projectedScore == Projected(currentScore, factors)
    {
      var impact := 0.0;
      var i := 0;
      while i < |factors|
        invariant 0 <= i <= |factors|
        invariant impact == SelectedImpact(factors[..i])
      {
        var factor := factors[i];
        assert factors[..i + 1][..i] == factors[..i];
        if factor.selected {
          impact := impact + factor.impact;
        }
        i := i + 1;
      }
      assert factors[..i] == factors;
      projectedScore := Min(850.0, Max(300.0, currentScore + impact));
    }

    method ToggleFactor(id: string)
      modifies this
      ensures factors == Toggled(old(factors), id)
      ensures currentScore == old(currentScore) && projectedScore == old(projectedScore)
    {
      factors := Toggled(factors, id);
    }

    method ResetSelections()
      modifies this
      ensures factors == Unselected(old(factors))
      ensures currentScore == old(currentScore) && projectedScore == old(projectedScore)
    {
      factors := Unselected(factors);
    }
  }
}
