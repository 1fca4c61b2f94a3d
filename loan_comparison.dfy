/** The loan comparison screen: two to four loans side by side, each with its
    own principal, annual rate and tenure in years. An effect recomputes every
    loan's EMI, total payment and total interest, samples each loan's
    outstanding principal every six months for the line chart, and lays the
    three cost figures out per loan for the comparison chart. Chart points are
    JavaScript objects keyed by loan name, so a later loan with the same name
    overwrites an earlier one's value. */
module LoanComparison {
  import opened Basics
  import opened Power
  import opened FinanceMath

  /** The four series colours, handed out by position. */
  const LoanColors: seq<string> := ["#8B5CF6", "#3B82F6", "#10B981", "#F97316"]

  /** One loan card. The id is the decimal string of a whole number in the
      source (it is parsed back with parseInt), so it is a nat here. */
  datatype Loan = Loan(
    id: nat, name: string,
    principal: real, interestRate: real, tenure: real,
    emi: real, totalInterest: real, totalAmount: real,
    color: string)

  /** The loans the screen starts with and returns to on reset. */
  function DefaultLoans(): (loans: seq<Loan>)
    ensures |loans| == 2
  {
    [ Loan(1, "Loan 1", 500000.0, 8.5, 20.0, 0.0, 0.0, 0.0, LoanColors[0]),
      Loan(2, "Loan 2", 500000.0, 10.0, 15.0, 0.0, 0.0, 0.0, LoanColors[1]) ]
  }

  // ---------------------------------------------------------------------------
  // Per-loan figures

  /** The screen's own EMI formula has no guard: at a zero rate or tenure it
      divides zero by zero. The model needs the rate and tenure positive, as
      the inputs' minimums of 4 % and 1 year keep them. */
  predicate Computable(l: Loan)
  {
    l.interestRate > 0.0 && l.tenure > 0.0
  }

  /** Dividing a multiple of y by y gives back the factor. */
  lemma MulDivCancel(x: real, y: real)
    requires y != 0.0
    ensures x * y / y == x
  {
  }

  /** The local calculateEMI: P·r·(1+r)^n / ((1+r)^n − 1) with r the monthly
      rate and n the tenure in months. */
  function LocalEMI(principal: real, rate: real, tenure: real): (emi: real)
    requires rate > 0.0 && tenure > 0.0
    ensures principal == 0.0 ==> emi == 0.0
    ensures principal > 0.0 ==> emi > principal * (rate / 12.0 / 100.0)
  {
    var monthlyRate := rate / 12.0 / 100.0;
    var months := tenure * 12.0;
    var g := PowR(1.0 + monthlyRate, months);
    if principal > 0.0 then
      AnnuityAboveInterest(principal, monthlyRate, g);
      Installment(principal, monthlyRate, g)
    else
      assert principal == 0.0 ==> principal * monthlyRate * g == 0.0 * (g - 1.0);
      MulDivCancel(0.0, g - 1.0);
      Installment(principal, monthlyRate, g)
  }

  /** For a positive principal the screen's formula agrees with the shared
      utility calculateEMI; it differs only where the utility's guard returns 0. */
  lemma LocalEMIMatchesUtility(principal: real, rate: real, tenure: real)
    requires principal > 0.0 && rate > 0.0 && tenure > 0.0
    ensures LocalEMI(principal, rate, tenure) == CalculateEMI(principal, rate, tenure)
    ensures LocalEMI(principal, rate, tenure) > principal * MonthlyRate(rate)
  {
    EMIPositiveInputs(principal, rate, tenure);
    var r := rate / 12.0 / 100.0;
    var g := PowR(1.0 + r, tenure * 12.0);
    assert MonthlyRate(rate) == r;
    assert Growth(rate, tenure) == g;
    assert LocalEMI(principal, rate, tenure) == Installment(principal, r, g);
  }

  /** One step of the effect's map: the EMI, the total over all months and
      the interest part of it; every other field is copied. */
  function WithMetrics(l: Loan): (m: Loan)
    requires Computable(l)
    ensures m.emi == LocalEMI(l.principal, l.interestRate, l.tenure)
    ensures m.totalAmount == m.emi * m.tenure * 12.0
    ensures m.totalInterest == m.totalAmount - m.principal
    ensures m.(emi := l.emi, totalInterest := l.totalInterest, totalAmount := l.totalAmount) == l
  {
    var emi := LocalEMI(l.principal, l.interestRate, l.tenure);
    var totalAmount := emi * l.tenure * 12.0;
    l.(emi := emi, totalInterest := totalAmount - l.principal, totalAmount := totalAmount)
  }

  /** Over a whole number of months the installments of a positive loan at a
      positive rate cover its principal, so the reported interest is not negative. */
  lemma WithMetricsInterestNonNegative(l: Loan, months: nat)
    requires l.principal > 0.0 && l.interestRate > 0.0 && months > 0
    requires l.tenure == months as real / 12.0
    ensures WithMetrics(l).totalInterest >= 0.0
  {
    LocalEMIMatchesUtility(l.principal, l.interestRate, l.tenure);
    TotalPaymentCoversPrincipal(l.principal, l.interestRate, months);
    var emi := LocalEMI(l.principal, l.interestRate, l.tenure);
    assert emi * l.tenure * 12.0 == emi * months as real;
  }

  /** Recomputing is idempotent: the figures depend only on the inputs, which it keeps. */
  lemma WithMetricsIdempotent(l: Loan)
    requires Computable(l)
    ensures WithMetrics(WithMetrics(l)) == WithMetrics(l)
  {
  }

  predicate AllComputable(loans: seq<Loan>)
  {
    forall k :: 0 <= k < |loans| ==> Computable(loans[k])
  }

  /** The effect's `loans.map(...)`. */
  function AllWithMetrics(loans: seq<Loan>): (updated: seq<Loan>)
    requires AllComputable(loans)
    ensures |updated| == |loans|
    ensures forall k :: 0 <= k < |loans| ==> updated[k] == WithMetrics(loans[k])
  {
    seq(|loans|, k requires 0 <= k < |loans| => WithMetrics(loans[k]))
  }

  // ---------------------------------------------------------------------------
  // Objects keyed by loan name

  function Names(loans: seq<Loan>): (names: seq<string>)
    ensures |names| == |loans|
    ensures forall k :: 0 <= k < |loans| ==> names[k] == loans[k].name
  {
    seq(|loans|, k requires 0 <= k < |loans| => loans[k].name)
  }

  /** `point[name] = value` for each pair in order: later pairs overwrite
      earlier ones with the same name. */
  function Keyed(names: seq<string>, values: seq<real>): (point: map<string, real>)
    requires |names| == |values|
    ensures forall n :: n in point <==> n in names
    decreases |names|
  {
    if |names| == 0 then map[]
    else Keyed(names[..|names| - 1], values[..|values| - 1])[names[|names| - 1] := values[|values| - 1]]
  }

  /** A name written only once, or last, keeps the value written with it. */
  lemma {:induction false} KeyedLastWriter(names: seq<string>, values: seq<real>, k: nat)
    requires |names| == |values| && k < |names|
    requires forall j :: k < j < |names| ==> names[j] != names[k]
    ensures Keyed(names, values)[names[k]] == values[k]
    decreases |names|
  {
    var n := |names| - 1;
    if k < n {
      assert names[n] != names[k];
      KeyedLastWriter(names[..n], values[..n], k);
    }
  }

  /** Every value in the object is one of the values written. */
  lemma {:induction false} KeyedValuesWritten(names: seq<string>, values: seq<real>)
    requires |names| == |values|
    ensures forall n :: n in Keyed(names, values) ==> Keyed(names, values)[n] in values
    decreases |names|
  {
    if |names| > 0 {
      var n := |names| - 1;
      KeyedValuesWritten(names[..n], values[..n]);
      assert forall v :: v in values[..n] ==> v in values;
    }
  }

  /** The forEach that fills one chart point. */
  method FillPoint(names: seq<string>, values: seq<real>) returns (point: map<string, real>)
    requires |names| == |values|
    ensures point == Keyed(names, values)
  {
    point := map[];
    var k := 0;
    while k < |names|
      invariant 0 <= k <= |names|
      invariant point == Keyed(names[..k], values[..k])
    {
      assert names[..k + 1][..k] == names[..k];
      assert values[..k + 1][..k] == values[..k];
      point := point[names[k] := values[k]];
      k := k + 1;
    }
    assert names[..k] == names && values[..k] == values;
  }

  // ---------------------------------------------------------------------------
  // The outstanding-principal chart (generateChartData)

  /** One point of the line chart: the month label and a value per loan name. */
  datatype ChartRow = ChartRow(name: string, values: map<string, real>)

  /** A property of a chart point as the JavaScript object the source builds:
      the label, or a number written for a loan. */
  datatype Cell = Label(text: string) | Amount(value: real)

  /** The object `{ name: label }` after the forEach has set `point[loan.name]`
      for every loan: a loan whose name is "name" overwrites the label. */
  function AsObject(row: ChartRow): (obj: map<string, Cell>)
    ensures forall k :: k in obj <==> k == "name" || k in row.values
    ensures forall k :: k in row.values ==> obj[k] == Amount(row.values[k])
    ensures "name" !in row.values ==> obj["name"] == Label(row.name)
  {
    map["name" := Label(row.name)] + map k | k in row.values :: Amount(row.values[k])
  }

  /** The label survives exactly when no loan is called "name"; otherwise that
      loan's figure takes its place. */
  lemma KeyedObject(title: string, loans: seq<Loan>, values: seq<real>)
    requires |values| == |loans|
    ensures var obj := AsObject(ChartRow(title, Keyed(Names(loans), values)));
      && (obj["name"] == Label(title) <==> forall k :: 0 <= k < |loans| ==> loans[k].name != "name")
      && (forall k :: 0 <= k < |loans| && loans[k].name == "name" ==> obj["name"].Amount?)
  {
    var names := Names(loans);
    forall k | 0 <= k < |loans| && loans[k].name == "name"
      ensures "name" in names
    {
      assert names[k] == "name";
    }
    if "name" in names {
      var k :| 0 <= k < |names| && names[k] == "name";
      assert loans[k].name == "name";
    }
  }

  /** The x-axis label: "Start" at month 0, else "<month> mo". */
  function MonthLabel(month: nat): string
  {
    if month == 0 then "Start" else NatToString(month) + " mo"
  }

  /** `Math.max(...loans.map(loan => loan.tenure * 12))`. */
  function MaxMonths(loans: seq<Loan>): (m: real)
    requires |loans| > 0
    ensures forall k :: 0 <= k < |loans| ==> loans[k].tenure * 12.0 <= m
    ensures exists k :: 0 <= k < |loans| && loans[k].tenure * 12.0 == m
  {
    if |loans| == 1 then loans[0].tenure * 12.0
    else Max(loans[0].tenure * 12.0, MaxMonths(loans[1..]))
  }

  /** A loan's outstanding principal at a month: the principal at the start,
      the present value of the remaining installments while the loan runs,
      0 after its last month; rounded and never below 0. */
  function Outstanding(l: Loan, month: nat): (v: real)
    requires Computable(l)
    ensures v >= 0.0 && v == v.Floor as real
    ensures month as real > l.tenure * 12.0 ==> v == 0.0
  {
    if month as real <= l.tenure * 12.0 then Max(0.0, Round(Owed(l, month)) as real)
    else 0.0
  }

  /** The unrounded figure while the loan runs: the principal at month 0,
      afterwards (EMI / r)·(1 − 1/(1+r)^remaining). */
  function Owed(l: Loan, month: nat): real
    requires Computable(l) && month as real <= l.tenure * 12.0
  {
    var monthlyRate := l.interestRate / 12.0 / 100.0;
    var remainingMonths := l.tenure * 12.0 - month as real;
    if month == 0 then l.principal
    else RemainingValue(l.emi, monthlyRate, PowR(1.0 + monthlyRate, remainingMonths))
  }

  /** (e / r)·(1 − 1/g): what the installments e still due are worth at the
      monthly rate r, with g the growth factor over the months left. */
  function RemainingValue(e: real, r: real, g: real): real
    requires r != 0.0 && g != 0.0
  {
    (e / r) * (1.0 - 1.0 / g)
  }

  function OutstandingAll(loans: seq<Loan>, month: nat): (values: seq<real>)
    requires AllComputable(loans)
    ensures |values| == |loans|
    ensures forall k :: 0 <= k < |loans| ==> values[k] == Outstanding(loans[k], month)
  {
    seq(|loans|, k requires 0 <= k < |loans| => Outstanding(loans[k], month))
  }

  function ChartRowAt(loans: seq<Loan>, month: nat): ChartRow
    requires AllComputable(loans)
  {
    ChartRow(MonthLabel(month), Keyed(Names(loans), OutstandingAll(loans, month)))
  }

  /** How many of the months 0, 6, 12, ... are at most `maxMonths`. */
  function SampleCount(maxMonths: real): nat
  {
    if maxMonths < 0.0 then 0 else maxMonths.Floor / 6 + 1
  }

  /** The chart data: nothing for an empty list, otherwise one row every six
      months up to the longest tenure. */
  function ChartData(loans: seq<Loan>): (data: Option<seq<ChartRow>>)
    requires AllComputable(loans)
    ensures data.None? <==> |loans| == 0
  {
    if |loans| == 0 then None
    else Some(ChartRows(loans, SampleCount(MaxMonths(loans))))
  }

  /** The rows for months 0, 6, ..., 6·(count − 1). */
  function ChartRows(loans: seq<Loan>, count: nat): (rows: seq<ChartRow>)
    requires AllComputable(loans)
    ensures |rows| == count
    ensures forall j :: 0 <= j < count ==> rows[j] == ChartRowAt(loans, 6 * j)
  {
    seq(count, j requires 0 <= j => ChartRowAt(loans, 6 * j))
  }

  lemma ChartRowsSnoc(loans: seq<Loan>, count: nat)
    requires AllComputable(loans)
    ensures ChartRows(loans, count + 1) == ChartRows(loans, count) + [ChartRowAt(loans, 6 * count)]
  {
    assert ChartRows(loans, count + 1)[..count] == ChartRows(loans, count);
  }

  /** One pass of the month loop: the label and the point the forEach fills. */
  method ChartPoint(loans: seq<Loan>, month: nat) returns (row: ChartRow)
    requires AllComputable(loans)
    ensures row == ChartRowAt(loans, month)
  {
    var point := FillPoint(Names(loans), OutstandingAll(loans, month));
    row := ChartRow(MonthLabel(month), point);
  }

  /** generateChartData's loop over months, each filled by a forEach over the loans. */
  method GenerateChartData(loans: seq<Loan>) returns (data: Option<seq<ChartRow>>)
    requires AllComputable(loans)
    ensures data == ChartData(loans)
  {
    if |loans| == 0 {
      return None;
    }
    var maxMonths := MaxMonths(loans);
    var rows: seq<ChartRow> := [];
    var month: nat := 0;
    while month as real <= maxMonths
      invariant month == 6 * |rows|
      invariant |rows| > 0 ==> (6 * (|rows| - 1)) as real <= maxMonths
      invariant rows == ChartRows(loans, |rows|)
      decreases maxMonths.Floor - month
    {
      var row := ChartPoint(loans, month);
      ChartRowsSnoc(loans, |rows|);
      rows := rows + [row];
      month := month + 6;
    }
    assert |rows| == SampleCount(maxMonths);
    data := Some(rows);
  }

  /** Every sampled month is within the longest tenure, labelled, and in steps of six. */
  lemma ChartSamplesEverySixMonths(loans: seq<Loan>)
    requires AllComputable(loans) && |loans| > 0
    ensures var rows := ChartData(loans).value;
      && |rows| > 0
      && rows[0].name == "Start"
      && (forall j :: 0 <= j < |rows| ==> (6 * j) as real <= MaxMonths(loans) && rows[j].name == MonthLabel(6 * j))
      && (6 * |rows|) as real > MaxMonths(loans)
  {
    var m := MaxMonths(loans);
    assert m > 0.0;
  }

  /** The first row shows each loan's principal (rounded), unless a later loan
      has the same name. */
  lemma ChartStartsAtPrincipal(loans: seq<Loan>, k: nat)
    requires AllComputable(loans) && k < |loans|
    requires forall j :: k < j < |loans| ==> loans[j].name != loans[k].name
    ensures ChartData(loans).value[0].values[loans[k].name] == Max(0.0, Round(loans[k].principal) as real)
  {
    ChartSamplesEverySixMonths(loans);
    KeyedLastWriter(Names(loans), OutstandingAll(loans, 0), k);
  }

  /** A loan whose tenure ends before a sampled month shows 0 there. */
  lemma ChartZeroAfterTenure(loans: seq<Loan>, k: nat, j: nat)
    requires AllComputable(loans) && k < |loans| && |loans| > 0
    requires forall i :: k < i < |loans| ==> loans[i].name != loans[k].name
    requires j < |ChartData(loans).value| && (6 * j) as real > loans[k].tenure * 12.0
    ensures ChartData(loans).value[j].values[loans[k].name] == 0.0
  {
    KeyedLastWriter(Names(loans), OutstandingAll(loans, 6 * j), k);
  }

  /** Every chart value is a whole number of at least 0. */
  lemma ChartValuesWholeAndNonNegative(loans: seq<Loan>, j: nat, name: string)
    requires AllComputable(loans) && |loans| > 0
    requires j < |ChartData(loans).value| && name in ChartData(loans).value[j].values
    ensures var v := ChartData(loans).value[j].values[name];
      v >= 0.0 && v == v.Floor as real
  {
    var values := OutstandingAll(loans, 6 * j);
    KeyedValuesWritten(Names(loans), values);
    var v := ChartData(loans).value[j].values[name];
    assert v in values;
    var i :| 0 <= i < |values| && values[i] == v;
  }

  /** While a loan runs, its outstanding principal never goes up from one
      sampled month to a later one (months after the start). */
  lemma OutstandingDeclines(l: Loan, m1: nat, m2: nat)
    requires Computable(l) && l.emi >= 0.0
    requires 0 < m1 <= m2
    ensures Outstanding(l, m2) <= Outstanding(l, m1)
  {
    if m2 as real <= l.tenure * 12.0 {
      OwedDeclines(l, m1, m2);
      RoundMonotone(Owed(l, m2), Owed(l, m1));
    }
  }

  lemma OwedDeclines(l: Loan, m1: nat, m2: nat)
    requires Computable(l) && l.emi >= 0.0
    requires 0 < m1 <= m2 && m2 as real <= l.tenure * 12.0
    ensures Owed(l, m2) <= Owed(l, m1)
  {
    var r := l.interestRate / 12.0 / 100.0;
    var n := l.tenure * 12.0;
    var g1 := PowR(1.0 + r, n - m1 as real);
    var g2 := PowR(1.0 + r, n - m2 as real);
    assert Owed(l, m1) == RemainingValue(l.emi, r, g1);
    assert Owed(l, m2) == RemainingValue(l.emi, r, g2);
    PowRMonotone(1.0 + r, n - m2 as real, n - m1 as real);
    PresentValueGrows(l.emi, r, g2, g1);
  }

  /** The present value (e/r)·(1 − 1/g) of the remaining installments grows with g. */
  lemma PresentValueGrows(e: real, r: real, g2: real, g1: real)
    requires e >= 0.0 && r > 0.0 && 1.0 <= g2 <= g1
    ensures RemainingValue(e, r, g2) <= RemainingValue(e, r, g1)
  {
    InverseAntitone(g2, g1);
    assert e / r >= 0.0;
    ScaleLe(e / r, 1.0 - 1.0 / g2, 1.0 - 1.0 / g1);
  }

  lemma InverseAntitone(a: real, b: real)
    requires 1.0 <= a <= b
    ensures 1.0 / b <= 1.0 / a
  {
    assert (1.0 / a) * a == 1.0;
    assert (1.0 / b) * b == 1.0;
    ScaleLe(1.0 / b, a, b);
  }

  // ---------------------------------------------------------------------------
  // The cost comparison chart (generateComparisonData)

  datatype Metric = EmiMetric | InterestMetric | AmountMetric

  /** The three compared figures, in the order the chart shows them. */
  const ComparisonMetrics: seq<Metric> := [EmiMetric, InterestMetric, AmountMetric]

  function MetricName(m: Metric): string
  {
    match m
    case EmiMetric => "EMI"
    case InterestMetric => "Total Interest"
    case AmountMetric => "Total Payment"
  }

  function MetricOf(l: Loan, m: Metric): real
  {
    match m
    case EmiMetric => l.emi
    case InterestMetric => l.totalInterest
    case AmountMetric => l.totalAmount
  }

  function MetricAll(loans: seq<Loan>, m: Metric): (values: seq<real>)
    ensures |values| == |loans|
    ensures forall k :: 0 <= k < |loans| ==> values[k] == MetricOf(loans[k], m)
  {
    seq(|loans|, k requires 0 <= k < |loans| => MetricOf(loans[k], m))
  }

  function ComparisonRowFor(loans: seq<Loan>, m: Metric): ChartRow
  {
    ChartRow(MetricName(m), Keyed(Names(loans), MetricAll(loans, m)))
  }

  /** The comparison data: nothing for an empty list, otherwise one row per metric. */
  function ComparisonData(loans: seq<Loan>): (data: Option<seq<ChartRow>>)
    ensures data.None? <==> |loans| == 0
  {
    if |loans| == 0 then None
    else Some(seq(|ComparisonMetrics|, i requires 0 <= i < |ComparisonMetrics| => ComparisonRowFor(loans, ComparisonMetrics[i])))
  }

  /** generateComparisonData: a map over the three metrics, each point filled by a forEach. */
  method GenerateComparisonData(loans: seq<Loan>) returns (data: Option<seq<ChartRow>>)
    ensures data == ComparisonData(loans)
  {
    if |loans| == 0 {
      return None;
    }
    var rows: seq<ChartRow> := [];
    var i := 0;
    while i < |ComparisonMetrics|
      invariant 0 <= i <= |ComparisonMetrics|
      invariant |rows| == i
      invariant forall j :: 0 <= j < i ==> rows[j] == ComparisonRowFor(loans, ComparisonMetrics[j])
    {
      var m := ComparisonMetrics[i];
      var point := FillPoint(Names(loans), MetricAll(loans, m));
      rows := rows + [ChartRow(MetricName(m), point)];
      i := i + 1;
    }
    assert rows == ComparisonData(loans).value;
    data := Some(rows);
  }

  /** Three rows, EMI then total interest then total payment, each holding a
      uniquely named loan's own figure. */
  lemma ComparisonRowsPerLoan(loans: seq<Loan>, k: nat)
    requires k < |loans|
    requires forall j :: k < j < |loans| ==> loans[j].name != loans[k].name
    ensures var rows := ComparisonData(loans).value;
      && |rows| == 3
      && rows[0].name == "EMI" && rows[1].name == "Total Interest" && rows[2].name == "Total Payment"
      && rows[0].values[loans[k].name] == loans[k].emi
      && rows[1].values[loans[k].name] == loans[k].totalInterest
      && rows[2].values[loans[k].name] == loans[k].totalAmount
  {
    KeyedLastWriter(Names(loans), MetricAll(loans, EmiMetric), k);
    KeyedLastWriter(Names(loans), MetricAll(loans, InterestMetric), k);
    KeyedLastWriter(Names(loans), MetricAll(loans, AmountMetric), k);
  }

  // ---------------------------------------------------------------------------
  // The list operations

  predicate IdsDistinct(loans: seq<Loan>)
  {
    forall i, j :: 0 <= i < j < |loans| ==> loans[i].id != loans[j].id
  }

  /** What the screen keeps true: two to four loans with distinct ids. */
  predicate ValidLoans(loans: seq<Loan>)
  {
    2 <= |loans| <= 4 && IdsDistinct(loans)
  }

  /** `Math.max(...loans.map(loan => parseInt(loan.id)))`. */
  function MaxId(loans: seq<Loan>): (m: nat)
    requires |loans| > 0
    ensures forall k :: 0 <= k < |loans| ==> loans[k].id <= m
    ensures exists k :: 0 <= k < |loans| && loans[k].id == m
  {
    if |loans| == 1 then loans[0].id
    else var rest := MaxId(loans[1..]); if loans[0].id >= rest then loans[0].id else rest
  }

  /** The loan handleAddLoan appends: the next id, named after it, with the
      default figures and the colour of its position. */
  function NewLoan(loans: seq<Loan>): (l: Loan)
    requires |loans| > 0
    ensures forall k :: 0 <= k < |loans| ==> loans[k].id < l.id
    ensures l.name == "Loan " + NatToString(l.id)
    ensures l.principal == 500000.0 && l.interestRate == 9.0 && l.tenure == 10.0
    ensures l.color == LoanColors[|loans| % 4]
  {
    var newId := MaxId(loans) + 1;
    Loan(newId, "Loan " + NatToString(newId), 500000.0, 9.0, 10.0, 0.0, 0.0, 0.0,
         LoanColors[|loans| % |LoanColors|])
  }

  /** handleAddLoan: nothing at four loans, otherwise one more loan at the end. */
  function AddLoan(loans: seq<Loan>): (r: seq<Loan>)
    requires |loans| > 0
    ensures |loans| >= 4 ==> r == loans
    ensures |loans| < 4 ==> |r| == |loans| + 1 && r[..|loans|] == loans && r[|loans|] == NewLoan(loans)
  {
    if |loans| >= 4 then loans else loans + [NewLoan(loans)]
  }

  /** The appended loan's id is larger than every existing one, so adding keeps
      the ids distinct and the count at most four. */
  lemma AddLoanKeepsValid(loans: seq<Loan>)
    requires ValidLoans(loans)
    ensures ValidLoans(AddLoan(loans))
    ensures |loans| < 4 ==> |AddLoan(loans)| == |loans| + 1 && AddLoan(loans)[..|loans|] == loans
    ensures |loans| < 4 ==> forall k :: 0 <= k < |loans| ==> loans[k].id < AddLoan(loans)[|loans|].id
  {
    if |loans| < 4 {
      var r := AddLoan(loans);
      assert r[..|loans|] == loans;
      forall i, j | 0 <= i < j < |r|
        ensures r[i].id != r[j].id
      {
        if j == |loans| {
          assert loans[i].id <= MaxId(loans);
        }
      }
    }
  }

  /** `loans.filter(loan => loan.id !== id)`. */
  function WithoutId(loans: seq<Loan>, id: nat): (r: seq<Loan>)
    ensures |r| <= |loans|
  {
    if |loans| == 0 then []
    else (if loans[0].id != id then [loans[0]] else []) + WithoutId(loans[1..], id)
  }

  /** The filter keeps every other loan, in order: the list itself when no loan
      has the id, and the list with that one loan cut out when one has. */
  lemma {:induction false} WithoutIdCutsOne(loans: seq<Loan>, id: nat)
    requires IdsDistinct(loans)
    ensures (forall k :: 0 <= k < |loans| ==> loans[k].id != id) ==> WithoutId(loans, id) == loans
    ensures forall k :: 0 <= k < |loans| && loans[k].id == id ==> WithoutId(loans, id) == loans[..k] + loans[k + 1..]
  {
    if forall k :: 0 <= k < |loans| ==> loans[k].id != id {
      WithoutIdAbsent(loans, id);
    }
    forall k | 0 <= k < |loans| && loans[k].id == id
      ensures WithoutId(loans, id) == loans[..k] + loans[k + 1..]
    {
      WithoutIdCutAt(loans, id, k);
    }
  }

  /** With no loan carrying the id the filter keeps the whole list. */
  lemma {:induction false} WithoutIdAbsent(loans: seq<Loan>, id: nat)
    requires forall k :: 0 <= k < |loans| ==> loans[k].id != id
    ensures WithoutId(loans, id) == loans
    decreases |loans|
  {
    if |loans| > 0 {
      WithoutIdAbsent(loans[1..], id);
    }
  }

  /** With distinct ids the filter cuts out exactly the loan at k. */
  lemma {:induction false} WithoutIdCutAt(loans: seq<Loan>, id: nat, k: nat)
    requires IdsDistinct(loans)
    requires k < |loans| && loans[k].id == id
    ensures WithoutId(loans, id) == loans[..k] + loans[k + 1..]
    decreases k
  {
    var tail := loans[1..];
    if k == 0 {
      assert forall i :: 0 <= i < |tail| ==> tail[i].id == loans[i + 1].id;
      WithoutIdAbsent(tail, id);
    } else {
      assert IdsDistinct(tail);
      assert tail[k - 1].id == id;
      WithoutIdCutAt(tail, id, k - 1);
      assert loans[..k] == [loans[0]] + tail[..k - 1];
      assert loans[k + 1..] == tail[k..];
    }
  }

  /** Whatever the filter keeps was in the list and has another id. */
  lemma {:induction false} WithoutIdKeepsOthers(loans: seq<Loan>, id: nat)
    ensures forall l :: l in WithoutId(loans, id) ==> l in loans && l.id != id
    decreases |loans|
  {
    if |loans| > 0 {
      WithoutIdKeepsOthers(loans[1..], id);
    }
  }

  /** handleRemoveLoan: nothing at two loans or fewer, otherwise the filter. */
  function RemoveLoan(loans: seq<Loan>, id: nat): (r: seq<Loan>)
    ensures |loans| <= 2 ==> r == loans
    ensures |loans| > 2 ==> forall l :: l in r ==> l in loans && l.id != id
  {
    if |loans| <= 2 then loans
    else
      WithoutIdKeepsOthers(loans, id);
      WithoutId(loans, id)
  }

  lemma DistinctCut(loans: seq<Loan>, k: nat)
    requires IdsDistinct(loans) && k < |loans|
    ensures IdsDistinct(loans[..k] + loans[k + 1..])
  {
    var r := loans[..k] + loans[k + 1..];
    forall i, j | 0 <= i < j < |r|
      ensures r[i].id != r[j].id
    {
      var i' := if i < k then i else i + 1;
      var j' := if j < k then j else j + 1;
      assert r[i] == loans[i'] && r[j] == loans[j'];
    }
  }

  /** Removing keeps at least two loans and the ids distinct. */
  lemma RemoveLoanKeepsValid(loans: seq<Loan>, id: nat)
    requires ValidLoans(loans)
    ensures ValidLoans(RemoveLoan(loans, id))
  {
    if |loans| > 2 {
      WithoutIdCutsOne(loans, id);
      if k :| 0 <= k < |loans| && loans[k].id == id {
        DistinctCut(loans, k);
      }
    }
  }

  /** The fields the cards edit, and the values the change handler receives. */
  datatype Field = Name | Principal | InterestRate | Tenure
  datatype Value = Text(text: string) | Number(number: real)

  /** One loan after a change: the name takes only text, the figures only numbers;
      anything else leaves the loan as it was. */
  function UpdateField(l: Loan, field: Field, value: Value): (u: Loan)
    ensures u.id == l.id && u.color == l.color
    ensures u.emi == l.emi && u.totalInterest == l.totalInterest && u.totalAmount == l.totalAmount
    ensures (field == Name) != value.Text? ==> u == l
    ensures field == Name && value.Text? ==> u == l.(name := value.text)
    ensures field == Principal && value.Number? ==> u == l.(principal := value.number)
    ensures field == InterestRate && value.Number? ==> u == l.(interestRate := value.number)
    ensures field == Tenure && value.Number? ==> u == l.(tenure := value.number)
  {
    match (field, value)
    case (Name, Text(s)) => l.(name := s)
    case (Principal, Number(x)) => l.(principal := x)
    case (InterestRate, Number(x)) => l.(interestRate := x)
    case (Tenure, Number(x)) => l.(tenure := x)
    case _ => l
  }

  /** handleLoanChange: the loans with that id are updated, the others kept. */
  function ChangeLoan(loans: seq<Loan>, id: nat, field: Field, value: Value): (r: seq<Loan>)
    ensures |r| == |loans|
    ensures forall k :: 0 <= k < |loans| ==> r[k] == if loans[k].id == id then UpdateField(loans[k], field, value) else loans[k]
  {
    seq(|loans|, k requires 0 <= k < |loans| => if loans[k].id == id then UpdateField(loans[k], field, value) else loans[k])
  }

  /** A change keeps the ids, hence the invariant. */
  lemma ChangeLoanKeepsValid(loans: seq<Loan>, id: nat, field: Field, value: Value)
    requires ValidLoans(loans)
    ensures ValidLoans(ChangeLoan(loans, id, field, value))
  {
    var r := ChangeLoan(loans, id, field, value);
    assert forall k :: 0 <= k < |loans| ==> r[k].id == loans[k].id;
  }

  /** The user's actions on the list. */
  datatype Action = Add | Remove(removeId: nat) | Change(changeId: nat, field: Field, value: Value) | Reset

  function Apply(loans: seq<Loan>, a: Action): seq<Loan>
    requires |loans| > 0
  {
    match a
    case Add => AddLoan(loans)
    case Remove(id) => RemoveLoan(loans, id)
    case Change(id, f, v) => ChangeLoan(loans, id, f, v)
    case Reset => DefaultLoans()
  }

  /** The list after a run of actions. A run stops early if the list ever
      empties, which never happens from a valid start (see RunKeepsValid). */
  function Run(loans: seq<Loan>, actions: seq<Action>): seq<Loan>
    requires |loans| > 0
    decreases |actions|
  {
    if |actions| == 0 then loans
    else
      var next := Apply(loans, actions[0]);
      if |next| == 0 then next else Run(next, actions[1..])
  }

  lemma ApplyKeepsValid(loans: seq<Loan>, a: Action)
    requires ValidLoans(loans)
    ensures ValidLoans(Apply(loans, a))
  {
    match a
    case Add => AddLoanKeepsValid(loans);
    case Remove(id) => RemoveLoanKeepsValid(loans, id);
    case Change(id, f, v) => ChangeLoanKeepsValid(loans, id, f, v);
    case Reset =>
  }

  /** Starting from two to four loans with distinct ids, every sequence of
      additions, removals, changes and resets keeps two to four loans with
      distinct ids. */
  lemma {:induction false} RunKeepsValid(loans: seq<Loan>, actions: seq<Action>)
    requires ValidLoans(loans)
    ensures ValidLoans(Run(loans, actions))
    decreases |actions|
  {
    if |actions| > 0 {
      ApplyKeepsValid(loans, actions[0]);
      RunKeepsValid(Apply(loans, actions[0]), actions[1..]);
    }
  }

  /** The screen's state: the loan list and the two chart datasets. */
  class LoanComparisonScreen {
    var loans: seq<Loan>
    var chartData: seq<ChartRow>
    var comparisonData: seq<ChartRow>

    predicate Valid()
      reads this
    {
      ValidLoans(loans)
    }

    constructor ()
      ensures Valid() && loans == DefaultLoans()
      ensures chartData == [] && comparisonData == []
    {
      loans := DefaultLoans();
      chartData := [];
      comparisonData := [];
    }

    /** The effect: recompute every loan's figures, then both datasets from
        the recomputed list. */
    method Recalculate()
      requires Valid() && AllComputable(loans)
      modifies this
      ensures Valid()
      ensures loans == AllWithMetrics(old(loans))
      ensures chartData == ChartData(loans).value
      ensures comparisonData == ComparisonData(loans).value
    {
      var updated := AllWithMetrics(loans);
      assert forall k :: 0 <= k < |updated| ==> updated[k].id == loans[k].id && Computable(updated[k]);
      loans := updated;
      var chart := GenerateChartData(updated);
      if chart.Some? {
        chartData := chart.value;
      }
      var comparison := GenerateComparisonData(updated);
      if comparison.Some? {
        comparisonData := comparison.value;
      }
    }

    method HandleAddLoan()
      requires Valid()
      modifies this
      ensures Valid() && loans == AddLoan(old(loans))
      ensures chartData == old(chartData) && comparisonData == old(comparisonData)
    {
      AddLoanKeepsValid(loans);
      loans := AddLoan(loans);
    }

    method HandleRemoveLoan(id: nat)
      requires Valid()
      modifies this
      ensures Valid() && loans == RemoveLoan(old(loans), id)
      ensures chartData == old(chartData) && comparisonData == old(comparisonData)
    {
      RemoveLoanKeepsValid(loans, id);
      loans := RemoveLoan(loans, id);
    }

    method HandleLoanChange(id: nat, field: Field, value: Value)
      requires Valid()
      modifies this
      ensures Valid() && loans == ChangeLoan(old(loans), id, field, value)
      ensures chartData == old(chartData) && comparisonData == old(comparisonData)
    {
      ChangeLoanKeepsValid(loans, id, field, value);
      loans := ChangeLoan(loans, id, field, value);
    }

    method HandleReset()
      modifies this
      ensures Valid() && loans == DefaultLoans()
      ensures chartData == old(chartData) && comparisonData == old(comparisonData)
    {
      loans := DefaultLoans();
    }
  }
}
