/** The closed-form loan and investment formulas of the finance utilities
    (src/utils/calculatorUtils.ts): EMI and its inverse, the two bisection
    solvers for rate and tenure, the SIP annuity-due value and GST on top of a
    net amount. Every formula returns 0 for non-positive inputs instead of
    failing. */
module FinanceMath {
  import opened Basics
  import opened Power

  /** Annual percentage rate to a monthly decimal rate. */
  function MonthlyRate(rate: real): real
  {
    rate / 12.0 / 100.0
  }

  /** Tenure in years to a (possibly fractional) count of months. */
  function Months(time: real): real
  {
    time * 12.0
  }

  /** (1 + r)^n for the monthly rate r and the month count n of a tenure. */
  function Growth(rate: real, time: real): real
    requires time >= 0.0
  {
    PowR(1.0 + MonthlyRate(rate), Months(time))
  }

  /** With a positive rate and tenure the growth factor exceeds one. */
  lemma GrowthAboveOne(rate: real, time: real)
    requires rate > 0.0 && time > 0.0
    ensures Growth(rate, time) > 1.0
  {
  }

  /** x / y · y == x for a non-zero y. */
  lemma DivMul(x: real, y: real)
    requires y != 0.0
    ensures x / y * y == x
  {
  }

  /** A product with a positive factor is positive only if the other factor is. */
  lemma PositiveFactor(x: real, y: real)
    requires y > 0.0 && x * y > 0.0
    ensures x > 0.0
  {
  }

  lemma MulCancel(a: real, b: real, c: real)
    requires c != 0.0 && a * c == b * c
    ensures a == b
  {
  }

  lemma MulLe(a: real, b: real, c: real)
    requires c >= 0.0 && a <= b
    ensures a * c <= b * c
  {
  }

  /** p·r·g/(g − 1) exceeds the interest-only payment p·r. */
  lemma AnnuityAboveInterest(p: real, r: real, g: real)
    requires p > 0.0 && r > 0.0 && g > 1.0
    ensures Installment(p, r, g) > p * r
  {
    var a := p * r;
    var q := a * g / (g - 1.0);
    DivMul(a * g, g - 1.0);
    assert (q - a) * (g - 1.0) == a;
    PositiveFactor(q - a, g - 1.0);
  }

  /** The annuity formula and its inverse undo each other. */
  lemma AnnuityRoundTrip(p: real, r: real, g: real)
    requires r > 0.0 && g > 1.0
    ensures PresentValue(Installment(p, r, g), r, g) == p
  {
    var e := p * r * g / (g - 1.0);
    DivMul(p * r * g, g - 1.0);
    assert e * (g - 1.0) == p * (r * g);
  }

  lemma DiscountRoundTrip(e: real, r: real, g: real)
    requires r > 0.0 && g > 1.0
    ensures Installment(PresentValue(e, r, g), r, g) == e
  {
    var l := e * (g - 1.0) / (r * g);
    DivMul(e * (g - 1.0), r * g);
    var x := l * r * g;
    assert x == e * (g - 1.0);
    DivMul(x, g - 1.0);
    MulCancel(x / (g - 1.0), e, g - 1.0);
  }

  lemma LoanBelowPerpetuity(e: real, r: real, g: real)
    requires e > 0.0 && r > 0.0 && g > 1.0
    ensures 0.0 < e * (g - 1.0) / (r * g) < e / r
  {
    var l := e * (g - 1.0) / (r * g);
    DivMul(e * (g - 1.0), r * g);
    assert e * (g - 1.0) > 0.0;
    PositiveFactor(l, r * g);
    var u := e / r;
    DivMul(e, r);
    assert (u - l) * (r * g) == u * r * g - e * (g - 1.0);
    assert (u - l) * (r * g) == e;
    PositiveFactor(u - l, r * g);
  }

  /** The annuity installment p·r·g/(g − 1) for monthly rate r and growth factor g = (1+r)^n. */
  function Installment(p: real, r: real, g: real): real
    requires g != 1.0
  {
    p * r * g / (g - 1.0)
  }

  /** The principal an installment e pays off: e·(g − 1)/(r·g). */
  function PresentValue(e: real, r: real, g: real): real
    requires r * g != 0.0
  {
    e * (g - 1.0) / (r * g)
  }

  /** calculateEMI: the fixed monthly installment P·r·(1+r)^n / ((1+r)^n − 1). */
  function CalculateEMI(principal: real, rate: real, time: real): (emi: real)
    ensures principal <= 0.0 || rate <= 0.0 || time <= 0.0 ==> emi == 0.0
    ensures principal > 0.0 && rate > 0.0 && time > 0.0 ==> emi > principal * MonthlyRate(rate)
  {
    if principal <= 0.0 || rate <= 0.0 || time <= 0.0 then 0.0
    else
      var r := MonthlyRate(rate);
      var g := Growth(rate, time);
      AnnuityAboveInterest(principal, r, g);
      Installment(principal, r, g)
  }

  lemma EMIPositiveInputs(principal: real, rate: real, time: real)
    requires principal > 0.0 && rate > 0.0 && time > 0.0
    ensures Growth(rate, time) > 1.0 && MonthlyRate(rate) > 0.0
    ensures CalculateEMI(principal, rate, time) == Installment(principal, MonthlyRate(rate), Growth(rate, time))
  {
  }

  /** calculateLoanAmount: the principal an installment pays off, EMI·((1+r)^n − 1) / (r·(1+r)^n). */
  function CalculateLoanAmount(emi: real, rate: real, time: real): (loan: real)
    ensures emi <= 0.0 || rate <= 0.0 || time <= 0.0 ==> loan == 0.0
    ensures emi > 0.0 && rate > 0.0 && time > 0.0 ==> 0.0 < loan < emi / MonthlyRate(rate)
  {
    if emi <= 0.0 || rate <= 0.0 || time <= 0.0 then 0.0
    else
      var r := MonthlyRate(rate);
      var g := Growth(rate, time);
      LoanBelowPerpetuity(emi, r, g);
      PresentValue(emi, r, g)
  }

  lemma LoanAmountPositiveInputs(emi: real, rate: real, time: real)
    requires emi > 0.0 && rate > 0.0 && time > 0.0
    ensures Growth(rate, time) > 1.0 && MonthlyRate(rate) > 0.0
    ensures CalculateLoanAmount(emi, rate, time) == PresentValue(emi, MonthlyRate(rate), Growth(rate, time))
  {
  }

  /** The loan amount from the EMI of a loan is that loan's principal. */
  lemma LoanAmountInvertsEMI(principal: real, rate: real, time: real)
    requires principal > 0.0 && rate > 0.0 && time > 0.0
    ensures CalculateLoanAmount(CalculateEMI(principal, rate, time), rate, time) == principal
  {
    var e := CalculateEMI(principal, rate, time);
    EMIPositiveInputs(principal, rate, time);
    LoanAmountPositiveInputs(e, rate, time);
    AnnuityRoundTrip(principal, MonthlyRate(rate), Growth(rate, time));
  }

  /** The EMI of the loan amount an installment pays off is that installment. */
  lemma EMIInvertsLoanAmount(emi: real, rate: real, time: real)
    requires emi > 0.0 && rate > 0.0 && time > 0.0
    ensures CalculateEMI(CalculateLoanAmount(emi, rate, time), rate, time) == emi
  {
    var l := CalculateLoanAmount(emi, rate, time);
    LoanAmountPositiveInputs(emi, rate, time);
    EMIPositiveInputs(l, rate, time);
    DiscountRoundTrip(emi, MonthlyRate(rate), Growth(rate, time));
  }

  /** (1+r)^n − 1 <= n·r·(1+r)^n: the compounding fact behind "installments cover the principal". */
  lemma {:induction false} GrowthBelowLinear(r: real, n: nat)
    requires r > 0.0
    ensures Pow(1.0 + r, n) - 1.0 <= n as real * r * Pow(1.0 + r, n)
    decreases n
  {
    if n > 0 {
      GrowthBelowLinear(r, n - 1);
      var g := Pow(1.0 + r, n - 1);
      var g' := Pow(1.0 + r, n);
      var k := (n - 1) as real;
      PowAtLeastOne(1.0 + r, n - 1);
      assert g' == (1.0 + r) * g;
      assert g - 1.0 <= k * r * g;
      assert g' - 1.0 == (g - 1.0) + r * g;
      assert g' - 1.0 <= k * r * g + r * g;
      assert k * r * g + r * g == (k + 1.0) * r * g;
      MulLe(g, g', (k + 1.0) * r);
      assert (k + 1.0) * r * g <= (k + 1.0) * r * g';
      assert (k + 1.0) == n as real;
    }
  }

  lemma CoverAlgebra(p: real, r: real, g: real, m: real)
    requires p > 0.0 && r > 0.0 && g > 1.0 && m > 0.0
    requires g - 1.0 <= m * r * g
    ensures Installment(p, r, g) * m >= p
  {
    var e := p * r * g / (g - 1.0);
    DivMul(p * r * g, g - 1.0);
    MulLe(g - 1.0, m * r * g, p);
    assert e * m * (g - 1.0) == p * r * g * m;
    assert (e * m - p) * (g - 1.0) >= 0.0;
    if e * m - p < 0.0 {
      PositiveFactor(p - e * m, g - 1.0);
    }
  }

  /** Over a whole number of months the installments add up to at least the principal. */
  lemma TotalPaymentCoversPrincipal(principal: real, rate: real, months: nat)
    requires principal > 0.0 && rate > 0.0 && months > 0
    ensures CalculateEMI(principal, rate, months as real / 12.0) * months as real >= principal
  {
    var time := months as real / 12.0;
    assert Months(time) == months as real;
    var r := MonthlyRate(rate);
    PowRWhole(1.0 + r, months);
    GrowthBelowLinear(r, months);
    EMIPositiveInputs(principal, rate, time);
    CoverAlgebra(principal, r, Growth(rate, time), months as real);
  }

  // ---------------------------------------------------------------------------
  // Bisection solvers (calculateInterestRate, calculateTimePeriod)

  const MaxIterations: nat := 100
  const Precision: real := 0.01

  /** `Math.abs(computed - target) < precision`: the probed EMI is within a paisa of the target. */
  predicate Close(computed: real, target: real)
  {
    -Precision < computed - target < Precision
  }

  /** The two searches differ only in the EMI they probe and in its direction:
      the EMI grows with the rate, so the rate search raises its lower end when
      the probed EMI is too small; it shrinks as the tenure grows, so the tenure
      search raises its lower end when the probed EMI is too large. */
  predicate RaisesLow(rising: bool, computed: real, target: real)
  {
    if rising then computed < target else computed > target
  }

  /** The last probe of a bisection run: the bracket it split, its midpoint,
      whether the EMI there was within tolerance, and how many probes were made. */
  datatype Probe = Probe(low: real, high: real, mid: real, converged: bool, steps: nat)

  /** At most `fuel` probes of the bracket [low, high]: stop at the first
      midpoint whose EMI `emiAt(mid)` is within 0.01 of the target, otherwise
      move one end of the bracket to the midpoint. */
  function Bisect(emiAt: real -> real, rising: bool, emi: real, low: real, high: real, fuel: nat): Probe
    requires fuel > 0
    decreases fuel, emi
  {
    var mid := (low + high) / 2.0;
    var computed := emiAt(mid);
    if Close(computed, emi) then Probe(low, high, mid, true, 1)
    else if fuel == 1 then Probe(low, high, mid, false, 1)
    else
      var up := RaisesLow(rising, computed, emi);
      var next := Bisect(emiAt, rising, emi, if up then mid else low, if up then high else mid, fuel - 1);
      next.(steps := next.steps + 1)
  }

  /** A probe within tolerance, or the last one allowed, is the answer. */
  lemma BisectStops(emiAt: real -> real, rising: bool, emi: real, low: real, high: real, fuel: nat)
    requires fuel > 0
    requires Close(emiAt((low + high) / 2.0), emi) || fuel == 1
    ensures Bisect(emiAt, rising, emi, low, high, fuel).mid == (low + high) / 2.0
  {
  }

  /** Otherwise the search goes on in the half the EMI comparison selects. */
  lemma BisectContinues(emiAt: real -> real, rising: bool, emi: real, low: real, high: real, fuel: nat)
    requires fuel > 1
    requires !Close(emiAt((low + high) / 2.0), emi)
    ensures var mid := (low + high) / 2.0;
      var up := RaisesLow(rising, emiAt(mid), emi);
      Bisect(emiAt, rising, emi, low, high, fuel).mid ==
        Bisect(emiAt, rising, emi, if up then mid else low, if up then high else mid, fuel - 1).mid
  {
  }

  /** w halved k times. */
  function Halved(w: real, k: nat): real
    decreases k
  {
    if k == 0 then w else Halved(w, k - 1) / 2.0
  }

  lemma {:induction false} HalvedHalf(w: real, k: nat)
    ensures Halved(w / 2.0, k) == Halved(w, k + 1)
    decreases k
  {
    if k > 0 {
      HalvedHalf(w, k - 1);
    }
  }

  /** The bracket only shrinks; the run makes between 1 and `fuel` probes and
      uses all of them unless it converged; a converged midpoint has an EMI
      within the tolerance of the target. */
  lemma {:induction false} BisectFacts(emiAt: real -> real, rising: bool, emi: real, low: real, high: real, fuel: nat)
    requires low <= high && fuel > 0
    ensures var p := Bisect(emiAt, rising, emi, low, high, fuel);
      && low <= p.low <= p.mid <= p.high <= high
      && p.mid == (p.low + p.high) / 2.0
      && 1 <= p.steps <= fuel
      && (p.converged ==> Close(emiAt(p.mid), emi))
      && (!p.converged ==> p.steps == fuel)
    decreases fuel
  {
    var mid := (low + high) / 2.0;
    var computed := emiAt(mid);
    if !Close(computed, emi) && fuel > 1 {
      var up := RaisesLow(rising, computed, emi);
      var lo, hi := if up then mid else low, if up then high else mid;
      BisectFacts(emiAt, rising, emi, lo, hi, fuel - 1);
    }
  }

  /** Each probe halves the bracket: the last probe split a bracket of width
      (high − low) / 2^(steps − 1). */
  lemma {:induction false} BisectHalves(emiAt: real -> real, rising: bool, emi: real, low: real, high: real, fuel: nat)
    requires fuel > 0
    ensures var p := Bisect(emiAt, rising, emi, low, high, fuel);
      p.steps >= 1 && p.high - p.low == Halved(high - low, p.steps - 1)
    decreases fuel
  {
    var mid := (low + high) / 2.0;
    var computed := emiAt(mid);
    if !Close(computed, emi) && fuel > 1 {
      var up := RaisesLow(rising, computed, emi);
      var lo, hi := if up then mid else low, if up then high else mid;
      BisectHalves(emiAt, rising, emi, lo, hi, fuel - 1);
      var next := Bisect(emiAt, rising, emi, lo, hi, fuel - 1);
      assert hi - lo == (high - low) / 2.0;
      HalvedHalf(high - low, next.steps - 1);
    }
  }

  /** The EMI as a function of the rate, the tenure held fixed. */
  function EMIAtRate(principal: real, time: real): real -> real
  {
    rate => CalculateEMI(principal, rate, time)
  }

  /** The EMI as a function of the tenure, the rate held fixed. */
  function EMIAtTenure(principal: real, rate: real): real -> real
  {
    time => CalculateEMI(principal, rate, time)
  }

  /** The value calculateInterestRate returns: 0 for non-positive inputs,
      otherwise the last probe of a 100-step search of [0, 100] to 2 decimals. */
  function InterestRateOf(emi: real, principal: real, time: real): (rate: real)
    ensures emi <= 0.0 || principal <= 0.0 || time <= 0.0 ==> rate == 0.0
    ensures 0.0 <= rate <= 100.0
  {
    if emi <= 0.0 || principal <= 0.0 || time <= 0.0 then 0.0
    else
      var p := Bisect(EMIAtRate(principal, time), true, emi, 0.0, 100.0, MaxIterations);
      BisectFacts(EMIAtRate(principal, time), true, emi, 0.0, 100.0, MaxIterations);
      Round2Bounded(p.mid, 100);
      Round2(p.mid)
  }

  /** The value calculateTimePeriod returns: 0 for non-positive inputs,
      otherwise the last probe of a 100-step search of [0, 30] years to 2 decimals. */
  function TimePeriodOf(emi: real, principal: real, rate: real): (time: real)
    ensures emi <= 0.0 || principal <= 0.0 || rate <= 0.0 ==> time == 0.0
    ensures 0.0 <= time <= 30.0
  {
    if emi <= 0.0 || principal <= 0.0 || rate <= 0.0 then 0.0
    else
      var p := Bisect(EMIAtTenure(principal, rate), false, emi, 0.0, 30.0, MaxIterations);
      BisectFacts(EMIAtTenure(principal, rate), false, emi, 0.0, 30.0, MaxIterations);
      Round2Bounded(p.mid, 30);
      Round2(p.mid)
  }

  /** The loop shared by both solvers: probe the midpoint, return as soon as
      its EMI is within tolerance, otherwise halve the bracket [0, upper], at
      most 100 times. */
  method BisectSearch(emiAt: real -> real, rising: bool, emi: real, upper: real, maxIterations: nat) returns (mid: real)
    requires upper >= 0.0 && maxIterations > 0
    ensures mid == Bisect(emiAt, rising, emi, 0.0, upper, maxIterations).mid
    ensures 0.0 <= mid <= upper
  {
    var low, high := 0.0, upper;
    ghost var last := Bisect(emiAt, rising, emi, low, high, maxIterations);
    mid := 0.0;
    var i := 0;
    while i < maxIterations
      invariant 0 <= i <= maxIterations
      invariant 0.0 <= low <= high <= upper
      invariant 0.0 <= mid <= upper
      invariant high - low == Halved(upper, i)
      invariant i < maxIterations ==> Bisect(emiAt, rising, emi, low, high, maxIterations - i).mid == last.mid
      invariant i == maxIterations ==> mid == last.mid
    {
      mid := (low + high) / 2.0;
      var computed := emiAt(mid);
      if Close(computed, emi) {
        BisectStops(emiAt, rising, emi, low, high, maxIterations - i);
        return;
      }
      if i == maxIterations - 1 {
        BisectStops(emiAt, rising, emi, low, high, maxIterations - i);
      } else {
        BisectContinues(emiAt, rising, emi, low, high, maxIterations - i);
      }
      if RaisesLow(rising, computed, emi) {
        low := mid;
      } else {
        high := mid;
      }
      assert high - low == Halved(upper, i) / 2.0;
      i := i + 1;
    }
  }

  /** calculateInterestRate: the annual rate at which `principal` over `time` years costs `emi` a month. */
  method CalculateInterestRate(emi: real, principal: real, time: real) returns (rate: real)
    ensures rate == InterestRateOf(emi, principal, time)
  {
    if emi <= 0.0 || principal <= 0.0 || time <= 0.0 {
      return 0.0;
    }
    var mid := BisectSearch(EMIAtRate(principal, time), true, emi, 100.0, MaxIterations);
    rate := Round2(mid);
  }

  /** calculateTimePeriod: the tenure in years at which `principal` at `rate` costs `emi` a month. */
  method CalculateTimePeriod(emi: real, principal: real, rate: real) returns (time: real)
    ensures time == TimePeriodOf(emi, principal, rate)
  {
    if emi <= 0.0 || principal <= 0.0 || rate <= 0.0 {
      return 0.0;
    }
    var mid := BisectSearch(EMIAtTenure(principal, rate), false, emi, 30.0, MaxIterations);
    time := Round2(mid);
  }

  /** Both solvers stop after at most 100 probes; when they stop early the probed
      EMI is within 0.01 of the target and the answer is that probe to the cent. */
  lemma SolverStopsWithinCap(emiAt: real -> real, rising: bool, emi: real, upper: real)
    requires upper >= 0.0
    ensures var p := Bisect(emiAt, rising, emi, 0.0, upper, MaxIterations);
      && 1 <= p.steps <= MaxIterations
      && 0.0 <= p.mid <= upper
      && (p.converged ==> Close(emiAt(p.mid), emi))
      && (p.steps < MaxIterations ==> p.converged)
      && Abs(Round2(p.mid) - p.mid) <= 0.005
  {
    BisectFacts(emiAt, rising, emi, 0.0, upper, MaxIterations);
  }

  // ---------------------------------------------------------------------------
  // SIP

  /** The SIP future value m·((1+r)^n − 1)/r·(1+r) after n whole months. */
  function SIPFutureValue(monthly: real, r: real, n: nat): real
    requires r != 0.0
  {
    monthly * ((Pow(1.0 + r, n) - 1.0) / r) * (1.0 + r)
  }

  /** Month-by-month reference for an annuity due: each month the installment
      is paid in first, then the whole balance earns a month's interest. */
  function SIPAccumulated(monthly: real, r: real, n: nat): real
    decreases n
  {
    if n == 0 then 0.0 else (SIPAccumulated(monthly, r, n - 1) + monthly) * (1.0 + r)
  }

  /** One month of the annuity due in closed form: pay in, then grow. */
  lemma AnnuityDueStep(monthly: real, r: real, g: real)
    requires r != 0.0
    ensures (monthly * ((g - 1.0) / r) * (1.0 + r) + monthly) * (1.0 + r)
         == monthly * (((1.0 + r) * g - 1.0) / r) * (1.0 + r)
  {
    var q := (g - 1.0) / r;
    DivMul(g - 1.0, r);
    var q' := ((1.0 + r) * g - 1.0) / r;
    DivMul((1.0 + r) * g - 1.0, r);
    assert q * r * (1.0 + r) == (g - 1.0) * (1.0 + r);
    assert (g - 1.0) * (1.0 + r) + r == (1.0 + r) * g - 1.0;
    assert (q * (1.0 + r) + 1.0) * r == q * r * (1.0 + r) + r;
    MulCancel(q', q * (1.0 + r) + 1.0, r);
    calc {
      (monthly * q * (1.0 + r) + monthly) * (1.0 + r);
      monthly * (q * (1.0 + r) + 1.0) * (1.0 + r);
      monthly * q' * (1.0 + r);
    }
  }

  /** One more month of the closed form: pay in, then earn a month's interest. */
  lemma SIPFutureValueStep(monthly: real, r: real, n: nat)
    requires r != 0.0 && n > 0
    ensures (SIPFutureValue(monthly, r, n - 1) + monthly) * (1.0 + r) == SIPFutureValue(monthly, r, n)
  {
    var g := Pow(1.0 + r, n - 1);
    AnnuityDueStep(monthly, r, g);
    assert Pow(1.0 + r, n) == (1.0 + r) * g;
  }

  /** The closed form is the month-by-month accumulation. */
  lemma {:induction false} SIPClosedForm(monthly: real, r: real, n: nat)
    requires r != 0.0
    ensures SIPFutureValue(monthly, r, n) == SIPAccumulated(monthly, r, n)
    decreases n
  {
    if n > 0 {
      SIPClosedForm(monthly, r, n - 1);
      SIPFutureValueStep(monthly, r, n);
    } else {
      assert Pow(1.0 + r, 0) == 1.0;
    }
  }

  /** Paying in at the start of each month, the balance is at least the total paid in. */
  lemma {:induction false} SIPAtLeastInvested(monthly: real, r: real, n: nat)
    requires monthly >= 0.0 && r >= 0.0
    ensures SIPAccumulated(monthly, r, n) >= monthly * n as real
    decreases n
  {
    if n > 0 {
      SIPAtLeastInvested(monthly, r, n - 1);
      var b := SIPAccumulated(monthly, r, n - 1) + monthly;
      assert b >= 0.0;
      assert b * (1.0 + r) >= b;
    }
  }

  /** calculateSIP: the annuity-due future value of `monthlyInvestment` a month. */
  function CalculateSIP(monthlyInvestment: real, expectedReturnRate: real, timePeriodYears: real): (fv: real)
    ensures monthlyInvestment <= 0.0 || expectedReturnRate <= 0.0 || timePeriodYears <= 0.0 ==> fv == 0.0
    ensures monthlyInvestment > 0.0 && expectedReturnRate > 0.0 && timePeriodYears > 0.0 ==> fv > 0.0
  {
    if monthlyInvestment <= 0.0 || expectedReturnRate <= 0.0 || timePeriodYears <= 0.0 then 0.0
    else
      var r := MonthlyRate(expectedReturnRate);
      var g := Growth(expectedReturnRate, timePeriodYears);
      assert (g - 1.0) / r > 0.0;
      monthlyInvestment * ((g - 1.0) / r) * (1.0 + r)
  }

  /** Over whole months calculateSIP is the month-by-month accumulation, so it is
      never below the amount invested. */
  lemma SIPWholeMonths(monthly: real, rate: real, months: nat)
    requires monthly > 0.0 && rate > 0.0 && months > 0
    ensures CalculateSIP(monthly, rate, months as real / 12.0) == SIPAccumulated(monthly, MonthlyRate(rate), months)
    ensures CalculateSIP(monthly, rate, months as real / 12.0) >= monthly * months as real
  {
    CalculateSIPWhole(monthly, rate, months);
    SIPClosedForm(monthly, MonthlyRate(rate), months);
    SIPAtLeastInvested(monthly, MonthlyRate(rate), months);
  }

  /** Over whole months calculateSIP is the closed form with an exact power. */
  lemma CalculateSIPWhole(monthly: real, rate: real, months: nat)
    requires monthly > 0.0 && rate > 0.0 && months > 0
    ensures MonthlyRate(rate) > 0.0
    ensures CalculateSIP(monthly, rate, months as real / 12.0) == SIPFutureValue(monthly, MonthlyRate(rate), months)
  {
    var r := MonthlyRate(rate);
    var time := months as real / 12.0;
    assert Months(time) == months as real;
    PowRWhole(1.0 + r, months);
    assert Growth(rate, time) == Pow(1.0 + r, months);
  }

  // ---------------------------------------------------------------------------
  // GST

  datatype GSTResult = GSTResult(gstAmount: real, totalAmount: real, amountWithoutGST: real)

  /** calculateGST: GST at `rate` percent on top of a net amount; all zeros for a
      non-positive amount or a negative rate (a zero rate is allowed). */
  function CalculateGST(amount: real, rate: real): (g: GSTResult)
    ensures amount <= 0.0 || rate < 0.0 ==> g == GSTResult(0.0, 0.0, 0.0)
    ensures amount > 0.0 && rate >= 0.0 ==>
      && g.amountWithoutGST == amount
      && g.totalAmount == g.amountWithoutGST + g.gstAmount
      && g.gstAmount * 100.0 == amount * rate
      && g.totalAmount >= amount
  {
    if amount <= 0.0 || rate < 0.0 then GSTResult(0.0, 0.0, 0.0)
    else
      var gst := amount * (rate / 100.0);
      GSTResult(gst, amount + gst, amount)
  }
}
