/** The month-by-month amortization schedule of a loan and the two chart
    series built from the finance formulas (src/utils/calculatorUtils.ts:155-254). */
module Amortization {
  import opened Basics
  import opened Power
  import opened FinanceMath

  /** One row of the schedule: the installment split into principal and interest,
      and the balance left (never shown below 0). */
  datatype Entry = Entry(month: int, emi: real, principal: real, interest: real, balance: real)

  /** The last month the schedule loop may reach: months 1, 2, … while month <= time·12. */
  function LastMonth(time: real): int
  {
    Months(time).Floor
  }

  /** The schedule rows from `month` on, starting from a running `balance`:
      each month pays interest on the balance and the rest of the installment
      off the balance, and the run stops after the first month whose running
      balance is not positive. */
  function ScheduleFrom(emi: real, r: real, balance: real, month: int, last: int): seq<Entry>
    decreases if month <= last then last - month + 1 else 0
  {
    if month > last then []
    else
      var interest := balance * r;
      var paid := emi - interest;
      var next := balance - paid;
      [Entry(month, emi, paid, interest, if next > 0.0 then next else 0.0)]
      + (if next <= 0.0 then [] else ScheduleFrom(emi, r, next, month + 1, last))
  }

  /** One step of the schedule: the row for `month`, then the rest while a balance is owed. */
  lemma ScheduleFromUnfold(emi: real, r: real, balance: real, month: int, last: int)
    requires month <= last
    ensures var next := balance - (emi - balance * r);
      ScheduleFrom(emi, r, balance, month, last)
      == [Entry(month, emi, emi - balance * r, balance * r, if next > 0.0 then next else 0.0)]
         + (if next <= 0.0 then [] else ScheduleFrom(emi, r, next, month + 1, last))
  {
  }

  /** A month that leaves a balance: its row records it and the run continues from it. */
  lemma ScheduleFromStep(emi: real, r: real, balance: real, month: int, last: int, next: real)
    requires month <= last && next == balance - (emi - balance * r) && next > 0.0
    ensures var s := ScheduleFrom(emi, r, balance, month, last);
      && |s| > 0 && s[0].balance == next && s[0].principal == balance - next
      && s[1..] == ScheduleFrom(emi, r, next, month + 1, last)
  {
    ScheduleFromUnfold(emi, r, balance, month, last);
  }

  /** A month that pays the balance off is the run's last row. */
  lemma ScheduleFromStop(emi: real, r: real, balance: real, month: int, last: int, next: real)
    requires month <= last && next == balance - (emi - balance * r) && next <= 0.0
    ensures var s := ScheduleFrom(emi, r, balance, month, last);
      && |s| == 1 && s[0].balance == 0.0 && s[0].principal == balance - next
  {
    ScheduleFromUnfold(emi, r, balance, month, last);
  }

  /** The schedule calculateAmortizationSchedule returns. */
  function Schedule(principal: real, rate: real, time: real): seq<Entry>
  {
    ScheduleFrom(CalculateEMI(principal, rate, time), MonthlyRate(rate), principal, 1, LastMonth(time))
  }

  /** One pass of the loop: with `interest`, `paid` and `next` computed from
      the running balance, appending the month's row to a prefix of a schedule
      completes it when the month pays the balance off, and otherwise leaves the
      rest to be produced from the new balance. */
  lemma AppendRow(emi: real, r: real, balance: real, month: int, last: int,
                  interest: real, paid: real, next: real, done: seq<Entry>, whole: seq<Entry>)
    requires month <= last && done + ScheduleFrom(emi, r, balance, month, last) == whole
    requires interest == balance * r && paid == emi - interest && next == balance - paid
    ensures next <= 0.0 ==> done + [Entry(month, emi, paid, interest, if next > 0.0 then next else 0.0)] == whole
    ensures next > 0.0 ==>
      (done + [Entry(month, emi, paid, interest, if next > 0.0 then next else 0.0)])
      + ScheduleFrom(emi, r, next, month + 1, last) == whole
  {
    var row := Entry(month, emi, paid, interest, if next > 0.0 then next else 0.0);
    var rest := if next <= 0.0 then [] else ScheduleFrom(emi, r, next, month + 1, last);
    ScheduleFromRow(emi, r, balance, month, last, interest, paid, next);
    Regrouped(done, row, rest, whole);
  }

  /** The first row of a run, written with the loop's own intermediate values. */
  lemma ScheduleFromRow(emi: real, r: real, balance: real, month: int, last: int, interest: real, paid: real, next: real)
    requires month <= last
    requires interest == balance * r && paid == emi - interest && next == balance - paid
    ensures ScheduleFrom(emi, r, balance, month, last)
      == [Entry(month, emi, paid, interest, if next > 0.0 then next else 0.0)]
         + (if next <= 0.0 then [] else ScheduleFrom(emi, r, next, month + 1, last))
  {
    ScheduleFromUnfold(emi, r, balance, month, last);
  }

  /** Moving one row from the rest of a sequence onto its prefix. */
  lemma Regrouped<T>(done: seq<T>, row: T, rest: seq<T>, whole: seq<T>)
    requires done + ([row] + rest) == whole
    ensures (done + [row]) + rest == whole
    ensures rest == [] ==> done + [row] == whole
  {
    assert (done + [row]) + rest == done + ([row] + rest);
  }

  /** calculateAmortizationSchedule: walk the months, updating the running
      balance and appending a row per month; stop early once it is paid off. */
  method CalculateAmortizationSchedule(principal: real, rate: real, time: real) returns (schedule: seq<Entry>)
    ensures schedule == Schedule(principal, rate, time)
  {
    var emi := CalculateEMI(principal, rate, time);
    var monthlyRate := MonthlyRate(rate);
    var totalMonths := Months(time);
    ghost var last := LastMonth(time);
    ghost var whole := Schedule(principal, rate, time);
    var balance := principal;
    schedule := [];
    var month := 1;
    while month as real <= totalMonths
      invariant schedule + ScheduleFrom(emi, monthlyRate, balance, month, last) == whole
      decreases last - month
    {
      WithinLastMonth(month, time);
      var interest := balance * monthlyRate;
      var principalPaid := emi - interest;
      var next := balance - principalPaid;
      AppendRow(emi, monthlyRate, balance, month, last, interest, principalPaid, next, schedule, whole);
      balance := next;
      schedule := schedule + [Entry(month, emi, principalPaid, interest, if balance > 0.0 then balance else 0.0)];
      if balance <= 0.0 {
        break;
      }
      month := month + 1;
    }
    if !(month as real <= totalMonths) {
      PastLastMonth(emi, monthlyRate, balance, month, time, schedule, whole);
    }
  }

  /** A month the loop enters is within the last month. */
  lemma WithinLastMonth(month: int, time: real)
    requires month as real <= Months(time)
    ensures month <= LastMonth(time)
  {
  }

  /** Once past the last month nothing is left to produce. */
  lemma PastLastMonth(emi: real, r: real, balance: real, month: int, time: real, done: seq<Entry>, whole: seq<Entry>)
    requires !(month as real <= Months(time))
    requires done + ScheduleFrom(emi, r, balance, month, LastMonth(time)) == whole
    ensures done == whole
  {
    assert ScheduleFrom(emi, r, balance, month, LastMonth(time)) == [];
    assert done + [] == done;
  }

  /** Rows numbered from `month` on, each splitting the installment exactly
      into principal and interest, with no negative balance. */
  predicate RowsFrom(s: seq<Entry>, emi: real, month: int)
  {
    forall i :: 0 <= i < |s| ==>
      s[i].month == month + i && s[i].emi == emi
      && s[i].principal + s[i].interest == emi && s[i].balance >= 0.0
  }

  /** Every balance but the last is positive: the loop stops right after the
      first month that leaves nothing owed. */
  predicate PaidOffOnlyAtEnd(s: seq<Entry>)
  {
    forall i :: 0 <= i < |s| - 1 ==> s[i].balance > 0.0
  }

  /** A run of the loop has a row for each month left until it pays off, and
      at least one when a month is left. */
  lemma {:induction false} ScheduleFromLength(emi: real, r: real, balance: real, month: int, last: int)
    ensures var s := ScheduleFrom(emi, r, balance, month, last);
      && (|s| > 0 <==> month <= last)
      && |s| <= (if month <= last then last - month + 1 else 0)
    decreases if month <= last then last - month + 1 else 0
  {
    if month <= last {
      ScheduleFromUnfold(emi, r, balance, month, last);
      var next := balance - (emi - balance * r);
      if next > 0.0 {
        ScheduleFromLength(emi, r, next, month + 1, last);
      }
    }
  }

  /** The rows of a run are numbered consecutively and split the installment exactly. */
  lemma {:induction false} ScheduleFromRows(emi: real, r: real, balance: real, month: int, last: int)
    ensures RowsFrom(ScheduleFrom(emi, r, balance, month, last), emi, month)
    decreases if month <= last then last - month + 1 else 0
  {
    if month <= last {
      ScheduleFromUnfold(emi, r, balance, month, last);
      var next := balance - (emi - balance * r);
      if next > 0.0 {
        ScheduleFromRows(emi, r, next, month + 1, last);
        var s := ScheduleFrom(emi, r, balance, month, last);
        var rest := ScheduleFrom(emi, r, next, month + 1, last);
        assert s == [s[0]] + rest;
        forall i | 0 < i < |s|
          ensures s[i].month == month + i && s[i].emi == emi
            && s[i].principal + s[i].interest == emi && s[i].balance >= 0.0
        {
          assert s[i] == rest[i - 1];
        }
      }
    }
  }

  /** In a run only the last row may have nothing left owed. */
  lemma {:induction false} ScheduleFromPaidOffOnlyAtEnd(emi: real, r: real, balance: real, month: int, last: int)
    ensures PaidOffOnlyAtEnd(ScheduleFrom(emi, r, balance, month, last))
    decreases if month <= last then last - month + 1 else 0
  {
    if month <= last {
      ScheduleFromUnfold(emi, r, balance, month, last);
      var next := balance - (emi - balance * r);
      if next > 0.0 {
        ScheduleFromPaidOffOnlyAtEnd(emi, r, next, month + 1, last);
        var s := ScheduleFrom(emi, r, balance, month, last);
        var rest := ScheduleFrom(emi, r, next, month + 1, last);
        assert s == [s[0]] + rest;
        forall i | 0 < i < |s| - 1
          ensures s[i].balance > 0.0
        {
          assert s[i] == rest[i - 1];
        }
      }
    }
  }

  /** A schedule is months 1..k with k at most time·12, installments split
      exactly, balances never negative and only the last one possibly zero. */
  lemma ScheduleWellFormed(principal: real, rate: real, time: real)
    ensures var s := Schedule(principal, rate, time);
      && (|s| > 0 <==> time * 12.0 >= 1.0)
      && |s| as real <= Max(0.0, time * 12.0)
      && RowsFrom(s, CalculateEMI(principal, rate, time), 1)
      && PaidOffOnlyAtEnd(s)
  {
    var last := LastMonth(time);
    ScheduleFromLength(CalculateEMI(principal, rate, time), MonthlyRate(rate), principal, 1, last);
    ScheduleFromRows(CalculateEMI(principal, rate, time), MonthlyRate(rate), principal, 1, last);
    ScheduleFromPaidOffOnlyAtEnd(CalculateEMI(principal, rate, time), MonthlyRate(rate), principal, 1, last);
    assert Schedule(principal, rate, time) == ScheduleFrom(CalculateEMI(principal, rate, time), MonthlyRate(rate), principal, 1, last);
  }

  /** An installment above the interest-only payment on the principal pays
      something off any balance that is at most the principal. */
  lemma StepPaysDown(emi: real, r: real, balance: real, principal: real)
    requires r > 0.0 && emi > principal * r && balance <= principal
    ensures emi - balance * r > 0.0
  {
    MulLe(balance, principal, r);
  }

  /** While the balance stays positive and at most the principal, every month
      pays something off and leaves less owed than at the start. */
  lemma {:induction false} ScheduleFromPaysDown(emi: real, r: real, balance: real, month: int, last: int, principal: real)
    requires r > 0.0 && emi > principal * r && 0.0 < balance <= principal
    ensures var s := ScheduleFrom(emi, r, balance, month, last);
      forall i :: 0 <= i < |s| ==> s[i].principal > 0.0 && s[i].balance < balance
    decreases if month <= last then last - month + 1 else 0
  {
    if month <= last {
      StepPaysDown(emi, r, balance, principal);
      var next := balance - (emi - balance * r);
      ScheduleFromUnfold(emi, r, balance, month, last);
      var s := ScheduleFrom(emi, r, balance, month, last);
      if next > 0.0 {
        ScheduleFromPaysDown(emi, r, next, month + 1, last, principal);
        var rest := ScheduleFrom(emi, r, next, month + 1, last);
        assert s == [s[0]] + rest;
        forall i | 0 < i < |s|
          ensures s[i].principal > 0.0 && s[i].balance < balance
        {
          assert s[i] == rest[i - 1];
        }
      }
    }
  }

  /** Balances that never rise from one row to a later one. */
  predicate Declining(s: seq<Entry>)
  {
    forall i, j :: 0 <= i <= j < |s| ==> s[j].balance <= s[i].balance
  }

  /** A first row owing at least as much as every later one, ahead of a
      declining run, gives a declining run. */
  lemma DecliningCons(s: seq<Entry>)
    requires |s| > 0 && Declining(s[1..])
    requires forall k :: 1 <= k < |s| ==> s[k].balance <= s[0].balance
    ensures Declining(s)
  {
    forall i, j | 0 <= i <= j < |s|
      ensures s[j].balance <= s[i].balance
    {
      if 0 < i {
        assert s[i] == s[1..][i - 1] && s[j] == s[1..][j - 1];
      }
    }
  }

  /** Under the same conditions the balances never rise from one month to a later one. */
  lemma {:induction false} ScheduleFromDeclines(emi: real, r: real, balance: real, month: int, last: int, principal: real)
    requires r > 0.0 && emi > principal * r && 0.0 < balance <= principal
    ensures Declining(ScheduleFrom(emi, r, balance, month, last))
    decreases if month <= last then last - month + 1 else 0
  {
    if month <= last {
      StepPaysDown(emi, r, balance, principal);
      var next := balance - (emi - balance * r);
      var s := ScheduleFrom(emi, r, balance, month, last);
      if next > 0.0 {
        ScheduleFromStep(emi, r, balance, month, last, next);
        ScheduleFromDeclines(emi, r, next, month + 1, last, principal);
        ScheduleFromPaysDown(emi, r, next, month + 1, last, principal);
        forall k | 1 <= k < |s|
          ensures s[k].balance <= s[0].balance
        {
          assert s[k] == s[1..][k - 1];
        }
        DecliningCons(s);
      } else {
        ScheduleFromStop(emi, r, balance, month, last, next);
      }
    }
  }

  /** For a real loan every month pays off some principal and the balances
      never rise. */
  lemma ScheduleBalancesDecline(principal: real, rate: real, time: real)
    requires principal > 0.0 && rate > 0.0 && time > 0.0
    ensures var s := Schedule(principal, rate, time);
      && (forall i :: 0 <= i < |s| ==> s[i].principal > 0.0 && s[i].balance < principal)
      && (forall i, j :: 0 <= i <= j < |s| ==> s[j].balance <= s[i].balance)
  {
    var last := LastMonth(time);
    ScheduleFromPaysDown(CalculateEMI(principal, rate, time), MonthlyRate(rate), principal, 1, last, principal);
    ScheduleFromDeclines(CalculateEMI(principal, rate, time), MonthlyRate(rate), principal, 1, last, principal);
    assert Schedule(principal, rate, time) == ScheduleFrom(CalculateEMI(principal, rate, time), MonthlyRate(rate), principal, 1, last);
  }

  // ---------------------------------------------------------------------------
  // Exact pay-off over whole months

  /** Total principal repaid over a schedule. */
  function SumPrincipal(s: seq<Entry>): real
    decreases |s|
  {
    if s == [] then 0.0 else s[0].principal + SumPrincipal(s[1..])
  }

  /** The running balance after k of n months, P·(X − (1+r)^k)/(X − 1) with X = (1+r)^n. */
  function Remaining(p: real, x: real, g: real): real
    requires x != 1.0
  {
    p * (x - g) / (x - 1.0)
  }

  /** One month of the schedule moves the closed-form balance from k to k + 1 months. */
  lemma RemainingStep(p: real, r: real, x: real, g: real)
    requires r > 0.0 && x > 1.0
    ensures Remaining(p, x, g) - (Installment(p, r, x) - Remaining(p, x, g) * r) == Remaining(p, x, (1.0 + r) * g)
  {
    var a := p / (x - 1.0);
    DivMul(p, x - 1.0);
    var b := Remaining(p, x, g);
    DivMul(p * (x - g), x - 1.0);
    MulCancel(b, a * (x - g), x - 1.0);
    var e := Installment(p, r, x);
    DivMul(p * r * x, x - 1.0);
    MulCancel(e, a * r * x, x - 1.0);
    var b' := Remaining(p, x, (1.0 + r) * g);
    DivMul(p * (x - (1.0 + r) * g), x - 1.0);
    MulCancel(b', a * (x - (1.0 + r) * g), x - 1.0);
    assert b - (e - b * r) == a * (x - g) * (1.0 + r) - a * r * x;
    assert a * (x - g) * (1.0 + r) - a * r * x == a * (x - (1.0 + r) * g);
  }

  /** Month j + 1 takes the closed-form balance after j months to the one after j + 1. */
  lemma RemainingMonth(p: real, r: real, x: real, j: nat)
    requires r > 0.0 && x > 1.0
    ensures Remaining(p, x, Pow(1.0 + r, j)) - (Installment(p, r, x) - Remaining(p, x, Pow(1.0 + r, j)) * r)
         == Remaining(p, x, Pow(1.0 + r, j + 1))
  {
    var g := Pow(1.0 + r, j);
    var g' := Pow(1.0 + r, j + 1);
    PowSucc(1.0 + r, j);
    assert g' == (1.0 + r) * g;
    RemainingStep(p, r, x, g);
    assert Remaining(p, x, g') == Remaining(p, x, (1.0 + r) * g);
  }

  /** A balance still owed: the growth so far is below the full-term growth. */
  lemma RemainingPositive(p: real, x: real, g: real)
    requires p > 0.0 && 1.0 < x && g < x
    ensures Remaining(p, x, g) > 0.0
  {
    assert p * (x - g) > 0.0;
    DivMul(p * (x - g), x - 1.0);
    PositiveFactor(Remaining(p, x, g), x - 1.0);
  }

  lemma RemainingEnds(p: real, x: real)
    requires x > 1.0
    ensures Remaining(p, x, x) == 0.0
    ensures Remaining(p, x, 1.0) == p
  {
    DivMul(p * (x - 1.0), x - 1.0);
    MulCancel(Remaining(p, x, 1.0), p, x - 1.0);
  }

  /** One month of the schedule takes owed[j] to owed[j + 1]. */
  predicate StepsTo(emi: real, r: real, owed: seq<real>, j: nat)
    requires j + 1 < |owed|
  {
    owed[j] - (emi - owed[j] * r) == owed[j + 1]
  }

  /** If a sequence of balances `owed` is such that one month of the schedule
      takes owed[j] to owed[j + 1], every owed[j] strictly between k and n is
      positive and owed[n] is zero, then the loop started from owed[k] at
      month k + 1 runs exactly to month n, records owed[k + 1], …, owed[n] as
      balances, and its principal parts add up to owed[k]. */
  lemma ScheduleFollows(emi: real, r: real, owed: seq<real>, k: nat, n: nat)
    requires k < n && |owed| == n + 1
    requires forall j :: k <= j < n ==> StepsTo(emi, r, owed, j)
    requires forall j :: k < j < n ==> owed[j] > 0.0
    requires owed[n] == 0.0
    ensures var s := ScheduleFrom(emi, r, owed[k], k + 1, n);
      && |s| == n - k
      && (forall i :: 0 <= i < |s| ==> s[i].balance == owed[k + 1 + i])
      && SumPrincipal(s) == owed[k]
  {
    ScheduleIsExpected(emi, r, owed, k, n);
    ExpectedFacts(emi, r, owed, k, n);
  }

  /** The rows such a run is expected to produce, read off the balances. */
  function ExpectedFrom(emi: real, r: real, owed: seq<real>, k: nat, n: nat): seq<Entry>
    requires k <= n && |owed| == n + 1
    decreases n - k
  {
    if k == n then []
    else [Entry(k + 1, emi, owed[k] - owed[k + 1], owed[k] * r, owed[k + 1])] + ExpectedFrom(emi, r, owed, k + 1, n)
  }

  /** The run and the expected rows agree. */
  lemma {:induction false} ScheduleIsExpected(emi: real, r: real, owed: seq<real>, k: nat, n: nat)
    requires k < n && |owed| == n + 1
    requires forall j :: k <= j < n ==> StepsTo(emi, r, owed, j)
    requires forall j :: k < j < n ==> owed[j] > 0.0
    requires owed[n] == 0.0
    ensures ScheduleFrom(emi, r, owed[k], k + 1, n) == ExpectedFrom(emi, r, owed, k, n)
    decreases n - k
  {
    OwedRow(emi, r, owed, k, n);
    var row := Entry(k + 1, emi, owed[k] - owed[k + 1], owed[k] * r, owed[k + 1]);
    if k + 1 < n {
      ScheduleIsExpected(emi, r, owed, k + 1, n);
      SameTail(ScheduleFrom(emi, r, owed[k], k + 1, n), ExpectedFrom(emi, r, owed, k, n),
               row, ScheduleFrom(emi, r, owed[k + 1], k + 2, n), ExpectedFrom(emi, r, owed, k + 1, n));
    } else {
      SameTail(ScheduleFrom(emi, r, owed[k], k + 1, n), ExpectedFrom(emi, r, owed, k, n),
               row, [], ExpectedFrom(emi, r, owed, k + 1, n));
    }
  }

  /** Two sequences with the same head and equal tails are equal. */
  lemma SameTail<T>(a: seq<T>, b: seq<T>, x: T, ra: seq<T>, rb: seq<T>)
    requires a == [x] + ra && b == [x] + rb && ra == rb
    ensures a == b
  {
  }

  /** The month from owed[k] records owed[k + 1], and the run goes on from it
      unless that was the last month. */
  lemma OwedRow(emi: real, r: real, owed: seq<real>, k: nat, n: nat)
    requires k < n && |owed| == n + 1
    requires StepsTo(emi, r, owed, k)
    requires k + 1 < n ==> owed[k + 1] > 0.0
    requires owed[n] == 0.0
    ensures ScheduleFrom(emi, r, owed[k], k + 1, n)
      == [Entry(k + 1, emi, owed[k] - owed[k + 1], owed[k] * r, owed[k + 1])]
         + (if k + 1 < n then ScheduleFrom(emi, r, owed[k + 1], k + 2, n) else [])
  {
    ScheduleFromRow(emi, r, owed[k], k + 1, n, owed[k] * r, emi - owed[k] * r, owed[k + 1]);
  }

  /** The expected rows: one per month from k + 1 to n, recording owed[k + 1],
      …, owed[n], with principal parts telescoping to owed[k] − owed[n]. */
  lemma {:induction false} ExpectedFacts(emi: real, r: real, owed: seq<real>, k: nat, n: nat)
    requires k <= n && |owed| == n + 1
    ensures var e := ExpectedFrom(emi, r, owed, k, n);
      && |e| == n - k
      && (forall i :: 0 <= i < |e| ==> e[i].balance == owed[k + 1 + i])
      && SumPrincipal(e) == owed[k] - owed[n]
    decreases n - k
  {
    if k < n {
      ExpectedFacts(emi, r, owed, k + 1, n);
      var e := ExpectedFrom(emi, r, owed, k, n);
      var rest := ExpectedFrom(emi, r, owed, k + 1, n);
      assert e[1..] == rest;
      forall i | 0 < i < |e|
        ensures e[i].balance == owed[k + 1 + i]
      {
        assert e[i] == rest[i - 1];
      }
    }
  }

  /** The closed-form balances after 0, 1, …, n months of an n-month loan. */
  function ClosedFormOwed(p: real, r: real, n: nat): (owed: seq<real>)
    requires r > 0.0 && n > 0
    ensures |owed| == n + 1
  {
    PowAboveOne(1.0 + r, n);
    var x := Pow(1.0 + r, n);
    seq(n + 1, j requires 0 <= j <= n => Remaining(p, x, Pow(1.0 + r, j)))
  }

  /** Each month of the schedule at the n-month installment moves one closed-form balance to the next. */
  lemma ClosedFormSteps(p: real, r: real, n: nat)
    requires r > 0.0 && n > 0
    ensures Pow(1.0 + r, n) > 1.0
    ensures var emi := Installment(p, r, Pow(1.0 + r, n));
      var owed := ClosedFormOwed(p, r, n);
      forall j :: 0 <= j < n ==> StepsTo(emi, r, owed, j)
  {
    PowAboveOne(1.0 + r, n);
    var x := Pow(1.0 + r, n);
    var owed := ClosedFormOwed(p, r, n);
    forall j | 0 <= j < n
      ensures StepsTo(Installment(p, r, x), r, owed, j)
    {
      RemainingMonth(p, r, x, j);
      assert owed[j] == Remaining(p, x, Pow(1.0 + r, j));
      assert owed[j + 1] == Remaining(p, x, Pow(1.0 + r, j + 1));
    }
  }

  /** The closed-form balance starts at the loan, stays positive before the last month and ends at 0. */
  lemma ClosedFormBounds(p: real, r: real, n: nat)
    requires p > 0.0 && r > 0.0 && n > 0
    ensures var owed := ClosedFormOwed(p, r, n);
      && owed[0] == p && owed[n] == 0.0
      && forall j :: 0 < j < n ==> owed[j] > 0.0
  {
    PowAboveOne(1.0 + r, n);
    var x := Pow(1.0 + r, n);
    var owed := ClosedFormOwed(p, r, n);
    forall j | 0 < j < n
      ensures owed[j] > 0.0
    {
      PowStrictlyIncreasing(1.0 + r, j, n);
      RemainingPositive(p, x, Pow(1.0 + r, j));
    }
    RemainingEnds(p, x);
    assert Pow(1.0 + r, 0) == 1.0;
  }

  /** Over a whole number n of months the loop runs months 1..n at the n-month installment. */
  lemma ScheduleWholeMonths(principal: real, rate: real, n: nat)
    requires principal > 0.0 && rate > 0.0 && n > 0
    ensures MonthlyRate(rate) > 0.0 && Pow(1.0 + MonthlyRate(rate), n) > 1.0
    ensures var r := MonthlyRate(rate);
      Schedule(principal, rate, n as real / 12.0) == ScheduleFrom(Installment(principal, r, Pow(1.0 + r, n)), r, principal, 1, n)
  {
    var time := n as real / 12.0;
    var r := MonthlyRate(rate);
    assert Months(time) == n as real;
    assert LastMonth(time) == n;
    PowRWhole(1.0 + r, n);
    PowAboveOne(1.0 + r, n);
    assert Growth(rate, time) == Pow(1.0 + r, n);
    EMIPositiveInputs(principal, rate, time);
  }

  /** The loop at the n-month installment, started from the loan, follows the closed form. */
  lemma ClosedFormRun(p: real, r: real, n: nat)
    requires p > 0.0 && r > 0.0 && n > 0
    ensures Pow(1.0 + r, n) > 1.0
    ensures var s := ScheduleFrom(Installment(p, r, Pow(1.0 + r, n)), r, p, 1, n);
      var owed := ClosedFormOwed(p, r, n);
      && |s| == n
      && (forall i :: 0 <= i < n ==> s[i].balance == owed[i + 1])
      && SumPrincipal(s) == p
  {
    PowAboveOne(1.0 + r, n);
    var emi := Installment(p, r, Pow(1.0 + r, n));
    var owed := ClosedFormOwed(p, r, n);
    ClosedFormSteps(p, r, n);
    ClosedFormBounds(p, r, n);
    ScheduleFollows(emi, r, owed, 0, n);
  }

  /** Over exact reals and a whole number n of months, the schedule has exactly
      n rows, the k-th balance is P·((1+r)^n − (1+r)^k)/((1+r)^n − 1), so the
      last one is exactly 0, and the principal parts add up to the loan. */
  lemma ScheduleRepaysLoan(principal: real, rate: real, n: nat)
    requires principal > 0.0 && rate > 0.0 && n > 0
    ensures MonthlyRate(rate) > 0.0
    ensures var s := Schedule(principal, rate, n as real / 12.0);
      var owed := ClosedFormOwed(principal, MonthlyRate(rate), n);
      && |s| == n
      && s[n - 1].balance == 0.0
      && SumPrincipal(s) == principal
      && forall i :: 0 <= i < n ==> s[i].balance == owed[i + 1]
  {
    ScheduleWholeMonths(principal, rate, n);
    ClosedFormRun(principal, MonthlyRate(rate), n);
    ClosedFormBounds(principal, MonthlyRate(rate), n);
  }

  // ---------------------------------------------------------------------------
  // EMI chart (generateEMIChartData)

  datatype EMIChart = EMIChart(labels: seq<string>, principal: seq<real>, interest: seq<real>)

  /** The sampling step: one point per twelfth of the schedule, at least every row. */
  function Interval(len: nat): (k: nat)
    ensures k >= 1
  {
    if len / 12 > 1 then len / 12 else 1
  }

  predicate Kept(len: nat, interval: nat, i: nat)
    requires interval >= 1
  {
    i % interval == 0 || i == len - 1
  }

  /** Indices from `from` on that the chart filter keeps, in order. */
  function KeptIndices(len: nat, interval: nat, from: nat): seq<nat>
    requires interval >= 1
    decreases len - from
  {
    if from >= len then []
    else (if Kept(len, interval, from) then [from] else []) + KeptIndices(len, interval, from + 1)
  }

  /** The kept indices are exactly the indices the filter accepts, strictly increasing. */
  lemma {:induction false} KeptIndicesFacts(len: nat, interval: nat, from: nat)
    requires interval >= 1
    ensures var ks := KeptIndices(len, interval, from);
      && (forall i :: i in ks <==> from <= i < len && Kept(len, interval, i))
      && (forall a, b :: 0 <= a < b < |ks| ==> ks[a] < ks[b])
      && (forall a :: 0 <= a < |ks| ==> from <= ks[a] < len)
    decreases len - from
  {
    if from < len {
      KeptIndicesFacts(len, interval, from + 1);
    }
  }

  /** A non-empty schedule always keeps its first and its last row. */
  lemma KeptEnds(len: nat, interval: nat)
    requires len > 0 && interval >= 1
    ensures var ks := KeptIndices(len, interval, 0);
      |ks| > 0 && ks[0] == 0 && ks[|ks| - 1] == len - 1
  {
    var ks := KeptIndices(len, interval, 0);
    KeptIndicesFacts(len, interval, 0);
    assert 0 in ks;
    assert len - 1 in ks;
  }

  /** `filter`: the rows at the kept indices. */
  function Sampled(s: seq<Entry>): (rows: seq<Entry>)
    ensures |rows| == |KeptIndices(|s|, Interval(|s|), 0)|
  {
    var ks := KeptIndices(|s|, Interval(|s|), 0);
    KeptIndicesFacts(|s|, Interval(|s|), 0);
    seq(|ks|, k requires 0 <= k < |ks| => s[ks[k]])
  }

  /** `findIndex`: the first position of a row with the given month, or −1. */
  function FindMonth(rows: seq<Entry>, month: int): (i: int)
    ensures -1 <= i < |rows|
    ensures 0 <= i ==> rows[i].month == month && forall j :: 0 <= j < i ==> rows[j].month != month
    ensures i == -1 ==> forall j :: 0 <= j < |rows| ==> rows[j].month != month
    decreases |rows|
  {
    if rows == [] then -1
    else if rows[0].month == month then 0
    else
      var i := FindMonth(rows[1..], month);
      if i == -1 then -1 else i + 1
  }

  /** `reduce`: total interest of some rows. */
  function SumInterest(rows: seq<Entry>): real
    decreases |rows|
  {
    if rows == [] then 0.0 else SumInterest(rows[..|rows| - 1]) + rows[|rows| - 1].interest
  }

  /** The chart for a schedule: labels "Month m", principal repaid so far as
      principal minus balance, and interest summed over the sampled rows up to
      the row with the same month. */
  function ChartFromSchedule(principal: real, schedule: seq<Entry>): EMIChart
  {
    var rows := Sampled(schedule);
    EMIChart(
      seq(|rows|, k requires 0 <= k < |rows| => "Month " + IntToString(rows[k].month)),
      seq(|rows|, k requires 0 <= k < |rows| => principal - rows[k].balance),
      seq(|rows|, k requires 0 <= k < |rows| => SumInterest(rows[..FindMonth(rows, rows[k].month) + 1])))
  }

  /** generateEMIChartData: build the schedule, then sample it. */
  method GenerateEMIChartData(principal: real, rate: real, time: real) returns (chart: EMIChart)
    ensures chart == ChartFromSchedule(principal, Schedule(principal, rate, time))
  {
    var schedule := CalculateAmortizationSchedule(principal, rate, time);
    chart := ChartFromSchedule(principal, schedule);
  }

  /** In a schedule numbered 1, 2, …, the sampled row k is row ks[k], with
      month ks[k] + 1, and looking its month up finds position k again, since
      the kept indices increase. */
  lemma SampledMonths(s: seq<Entry>, emi: real)
    requires RowsFrom(s, emi, 1)
    ensures var ks := KeptIndices(|s|, Interval(|s|), 0);
      var rows := Sampled(s);
      forall k :: 0 <= k < |rows| ==>
        ks[k] < |s| && rows[k] == s[ks[k]] && rows[k].month == ks[k] + 1 && FindMonth(rows, rows[k].month) == k
  {
    var ks := KeptIndices(|s|, Interval(|s|), 0);
    KeptIndicesFacts(|s|, Interval(|s|), 0);
    var rows := Sampled(s);
    forall k | 0 <= k < |rows|
      ensures ks[k] < |s| && rows[k] == s[ks[k]] && rows[k].month == ks[k] + 1 && FindMonth(rows, rows[k].month) == k
    {
      assert rows[k] == s[ks[k]];
    }
  }

  /** The EMI chart samples the schedule every max(1, ⌊len/12⌋) rows, always
      keeping the first and the last row, in order; its three series have one
      value per sampled row; principal is the loan minus that row's balance and
      interest is the running total over the sampled rows only. */
  lemma EMIChartFacts(principal: real, rate: real, time: real)
    ensures var s := Schedule(principal, rate, time);
      var c := ChartFromSchedule(principal, s);
      var ks := KeptIndices(|s|, Interval(|s|), 0);
      && Interval(|s|) == (if |s| / 12 >= 1 then |s| / 12 else 1)
      && |c.labels| == |c.principal| == |c.interest| == |ks|
      && (forall a, b :: 0 <= a < b < |ks| ==> ks[a] < ks[b])
      && (forall i :: i in ks <==> 0 <= i < |s| && (i % Interval(|s|) == 0 || i == |s| - 1))
      && (|s| > 0 ==> ks[0] == 0 && ks[|ks| - 1] == |s| - 1)
      && (forall k :: 0 <= k < |ks| ==>
            c.labels[k] == "Month " + IntToString(ks[k] + 1)
            && c.principal[k] == principal - s[ks[k]].balance
            && c.interest[k] == SumInterest(Sampled(s)[..k + 1]))
  {
    ScheduleWellFormed(principal, rate, time);
    ChartOfRows(principal, Schedule(principal, rate, time), CalculateEMI(principal, rate, time));
  }

  /** The chart facts for any rows numbered from month 1. */
  lemma ChartOfRows(principal: real, s: seq<Entry>, emi: real)
    requires RowsFrom(s, emi, 1)
    ensures var c := ChartFromSchedule(principal, s);
      var ks := KeptIndices(|s|, Interval(|s|), 0);
      && Interval(|s|) == (if |s| / 12 >= 1 then |s| / 12 else 1)
      && |c.labels| == |c.principal| == |c.interest| == |ks|
      && (forall a, b :: 0 <= a < b < |ks| ==> ks[a] < ks[b])
      && (forall i :: i in ks <==> 0 <= i < |s| && (i % Interval(|s|) == 0 || i == |s| - 1))
      && (|s| > 0 ==> ks[0] == 0 && ks[|ks| - 1] == |s| - 1)
      && (forall k :: 0 <= k < |ks| ==>
            c.labels[k] == "Month " + IntToString(ks[k] + 1)
            && c.principal[k] == principal - s[ks[k]].balance
            && c.interest[k] == SumInterest(Sampled(s)[..k + 1]))
  {
    KeptIndexFacts(|s|);
    ChartSeries(principal, s, emi);
  }

  /** The sampled indices: every interval-th row and the last, in order. */
  lemma KeptIndexFacts(len: nat)
    ensures var ks := KeptIndices(len, Interval(len), 0);
      && Interval(len) == (if len / 12 >= 1 then len / 12 else 1)
      && (forall a, b :: 0 <= a < b < |ks| ==> ks[a] < ks[b])
      && (forall i :: i in ks <==> 0 <= i < len && (i % Interval(len) == 0 || i == len - 1))
      && (len > 0 ==> ks[0] == 0 && ks[|ks| - 1] == len - 1)
  {
    KeptIndicesFacts(len, Interval(len), 0);
    if len > 0 {
      KeptEnds(len, Interval(len));
    }
  }

  /** The three series, point by point, for rows numbered from month 1. */
  lemma ChartSeries(principal: real, s: seq<Entry>, emi: real)
    requires RowsFrom(s, emi, 1)
    ensures var c := ChartFromSchedule(principal, s);
      var ks := KeptIndices(|s|, Interval(|s|), 0);
      && |c.labels| == |c.principal| == |c.interest| == |ks|
      && (forall k :: 0 <= k < |ks| ==> ks[k] < |s|)
      && (forall k :: 0 <= k < |ks| ==>
            c.labels[k] == "Month " + IntToString(ks[k] + 1)
            && c.principal[k] == principal - s[ks[k]].balance
            && c.interest[k] == SumInterest(Sampled(s)[..k + 1]))
  {
    var c := ChartFromSchedule(principal, s);
    var ks := KeptIndices(|s|, Interval(|s|), 0);
    var rows := Sampled(s);
    SampledMonths(s, emi);
    forall k | 0 <= k < |ks|
      ensures ks[k] < |s|
      ensures c.labels[k] == "Month " + IntToString(ks[k] + 1)
      ensures c.principal[k] == principal - s[ks[k]].balance
      ensures c.interest[k] == SumInterest(rows[..k + 1])
    {
      assert rows[k] == s[ks[k]] && rows[k].month == ks[k] + 1;
      assert FindMonth(rows, rows[k].month) == k;
    }
  }

  // ---------------------------------------------------------------------------
  // SIP chart (generateSIPChartData)

  /** One year of the SIP chart: the amount paid in so far, what it has grown to
      and the difference. */
  datatype YearPoint = YearPoint(year: nat, investedAmount: real, futureValue: real, wealthGained: real)

  datatype SIPChart = SIPChart(labels: seq<string>, investedAmount: seq<real>, wealthGained: seq<real>)

  /** One point per whole year 1..⌊years⌋. */
  function YearCount(years: real): nat
  {
    if years >= 1.0 then years.Floor else 0
  }

  /** The point for a year: 12·year deposits, and their annuity-due value. */
  function YearPointAt(monthlyInvestment: real, monthlyRate: real, year: nat): YearPoint
    requires monthlyRate != 0.0
  {
    var invested := monthlyInvestment * (year * 12) as real;
    var futureValue := SIPFutureValue(monthlyInvestment, monthlyRate, year * 12);
    YearPoint(year, invested, futureValue, futureValue - invested)
  }

  /** A whole number no greater than x is no greater than ⌊x⌋. */
  lemma WholeBelowFloor(n: int, x: real)
    requires n as real <= x
    ensures n <= x.Floor
  {
  }

  /** generateSIPChartData: for each whole year, the amount invested so far,
      the annuity-due value after that many months and the difference. The
      formula divides by the monthly rate, so a zero rate is outside its domain. */
  method GenerateSIPChartData(monthlyInvestment: real, expectedReturnRate: real, timePeriodYears: real) returns (chart: SIPChart)
    requires expectedReturnRate != 0.0
    ensures |chart.labels| == |chart.investedAmount| == |chart.wealthGained| == YearCount(timePeriodYears)
    ensures forall k :: 0 <= k < |chart.labels| ==>
      var p := YearPointAt(monthlyInvestment, MonthlyRate(expectedReturnRate), k + 1);
      && chart.labels[k] == "Year " + NatToString(k + 1)
      && chart.investedAmount[k] == p.investedAmount
      && chart.wealthGained[k] == p.wealthGained
  {
    var monthlyRate := MonthlyRate(expectedReturnRate);
    var yearlyData: seq<YearPoint> := [];
    var year := 1;
    while year as real <= timePeriodYears
      invariant 1 <= year
      invariant year - 1 <= YearCount(timePeriodYears)
      invariant |yearlyData| == year - 1
      invariant forall k :: 0 <= k < |yearlyData| ==> yearlyData[k] == YearPointAt(monthlyInvestment, monthlyRate, k + 1)
      decreases timePeriodYears.Floor - year
    {
      WholeBelowFloor(year, timePeriodYears);
      var months := year * 12;
      var investedAmount := monthlyInvestment * months as real;
      var futureValue := SIPFutureValue(monthlyInvestment, monthlyRate, months);
      var point := YearPoint(year, investedAmount, futureValue, futureValue - investedAmount);
      assert point == YearPointAt(monthlyInvestment, monthlyRate, year);
      yearlyData := yearlyData + [point];
      year := year + 1;
    }
    chart := ChartOf(yearlyData);
  }

  /** The three chart series read off the yearly points, one entry per point. */
  function ChartOf(points: seq<YearPoint>): (chart: SIPChart)
    ensures |chart.labels| == |chart.investedAmount| == |chart.wealthGained| == |points|
    ensures forall k :: 0 <= k < |points| ==>
      && chart.labels[k] == "Year " + NatToString(points[k].year)
      && chart.investedAmount[k] == points[k].investedAmount
      && chart.wealthGained[k] == points[k].wealthGained
  {
    SIPChart(
      seq(|points|, k requires 0 <= k < |points| => "Year " + NatToString(points[k].year)),
      seq(|points|, k requires 0 <= k < |points| => points[k].investedAmount),
      seq(|points|, k requires 0 <= k < |points| => points[k].wealthGained))
  }

  /** The year-N point of the SIP chart: 12·N months paid in, a future value
      equal to calculateSIP over N years, and a wealth gain that is never
      negative for a positive installment and rate. */
  lemma SIPChartMatchesCalculateSIP(monthlyInvestment: real, expectedReturnRate: real, year: nat)
    requires monthlyInvestment > 0.0 && expectedReturnRate > 0.0 && year > 0
    ensures var p := YearPointAt(monthlyInvestment, MonthlyRate(expectedReturnRate), year);
      && p.investedAmount == monthlyInvestment * 12.0 * year as real
      && p.futureValue == CalculateSIP(monthlyInvestment, expectedReturnRate, year as real)
      && p.wealthGained == p.futureValue - p.investedAmount
      && p.wealthGained >= 0.0
  {
    assert (year * 12) as real / 12.0 == year as real;
    SIPWholeMonths(monthlyInvestment, expectedReturnRate, year * 12);
    SIPClosedForm(monthlyInvestment, MonthlyRate(expectedReturnRate), year * 12);
  }
}
