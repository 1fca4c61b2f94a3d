/** The credit score estimator: five factors (payment history, credit
    utilisation, credit age, credit mix and hard inquiries) are turned into
    weighted sub-scores, summed onto the 300–850 scale, clamped, rounded and
    put into one of five bands. The screen also shows how many of each
    factor's points the user earns and a list of recommendations. */
module CreditScore {
  import opened Basics

  /** The six inputs of the screen. */
  datatype Factors = Factors(
    paymentHistory: real,   // % of payments made on time
    totalCredit: real,
    usedCredit: real,
    creditAge: real,        // months
    creditMixScore: real,   // out of 10
    inquiries: real)        // hard inquiries in the last two years

  const Defaults := Factors(100.0, 200000.0, 60000.0, 36.0, 8.0, 1.0)

  /** Used credit as a percentage of the total. The total's input starts at
      1000, so it is never 0 on the screen. */
  function UtilizationRatio(f: Factors): real
    requires f.totalCredit > 0.0
  {
    f.usedCredit / f.totalCredit * 100.0
  }

  // ---------------------------------------------------------------------------
  // Sub-scores (out of 350, 300, 150, 100 and 100 points)

  function PaymentScore(paymentHistory: real): (s: real)
    ensures s <= 350.0
    ensures paymentHistory >= 0.0 ==> s >= 0.0
  {
    Min(100.0, paymentHistory) * 3.5
  }

  /** Three points off per percentage point of utilisation, times three. */
  function UtilizationScore(ratio: real): (s: real)
    ensures s >= 0.0
    ensures ratio >= 0.0 ==> s <= 300.0
    ensures ratio == 0.0 ==> s == 300.0
    ensures ratio >= 100.0 / 3.0 ==> s == 0.0
  {
    Max(0.0, 100.0 - ratio * 3.0) * 3.0
  }

  /** Grows with the age of the credit history up to seven years (84 months). */
  function AgeScore(creditAge: real): (s: real)
    ensures s <= 150.0
    ensures creditAge >= 84.0 ==> s == 150.0
    ensures creditAge >= 0.0 ==> s >= 0.0
  {
    Min(84.0, creditAge) / 84.0 * 150.0
  }

  /** Ten points per point of the 1–10 mix score. */
  function MixScore(creditMixScore: real): (s: real)
    ensures 0.0 <= creditMixScore <= 10.0 ==> 0.0 <= s <= 100.0
    ensures creditMixScore >= 1.0 ==> s >= 10.0
  {
    creditMixScore * 10.0
  }

  /** Twenty points off per inquiry; five or more leave nothing. */
  function InquiryScore(inquiries: real): (s: real)
    ensures s >= 0.0
    ensures inquiries >= 0.0 ==> s <= 100.0
    ensures inquiries >= 5.0 ==> s == 0.0
  {
    Max(0.0, 100.0 - inquiries * 20.0) * 1.0
  }

  /** The five sub-scores together, out of 1000 points. */
  function SubScoreSum(f: Factors): real
    requires f.totalCredit > 0.0
  {
    PaymentScore(f.paymentHistory) + UtilizationScore(UtilizationRatio(f))
      + AgeScore(f.creditAge) + MixScore(f.creditMixScore) + InquiryScore(f.inquiries)
  }

  /** The raw score as the screen computes it: the sub-score total (out of
      1000 points) is divided by 100, not by 1000, before being spread over
      the 550 points between 300 and 850. */
  function RawScoreAsWritten(f: Factors): (raw: real)
    requires f.totalCredit > 0.0
    ensures raw - 300.0 == (RawScore(f) - 300.0) * 10.0
    ensures SubScoreSum(f) >= 100.0 ==> raw >= 850.0
  {
    300.0 + SubScoreSum(f) / 100.0 * 550.0
  }

  function FinalScoreAsWritten(f: Factors): (score: int)
    requires f.totalCredit > 0.0
    ensures 300 <= score <= 850
  {
    var clamped := Min(850.0, Max(300.0, RawScoreAsWritten(f)));
    RoundBetween(clamped, 300, 850);
    Round(clamped)
  }

  /** As written, a tenth of the available points already reaches the top of
      the scale: the default inputs (about 604 of 1000 points) show 850. */
  lemma AsWrittenSaturates(f: Factors)
    requires f.totalCredit > 0.0 && SubScoreSum(f) >= 100.0
    ensures FinalScoreAsWritten(f) == 850
    ensures FinalScoreAsWritten(Defaults) == 850
  {
    RoundOfInt(850);
    assert UtilizationRatio(Defaults) == 30.0;
    assert SubScoreSum(Defaults) >= 100.0;
  }

  /** The raw score with the sub-score total read out of its 1000 points, so
      that the 300–850 range is covered linearly. */
  function RawScore(f: Factors): real
    requires f.totalCredit > 0.0
  {
    300.0 + SubScoreSum(f) / 1000.0 * 550.0
  }

  /** The displayed score: the raw score clamped to [300, 850] and rounded. */
  function FinalScore(f: Factors): (score: int)
    requires f.totalCredit > 0.0
    ensures 300 <= score <= 850
  {
    var clamped := Min(850.0, Max(300.0, RawScore(f)));
    RoundBetween(clamped, 300, 850);
    Round(clamped)
  }

  /** For inputs the screen allows, the raw score already lies in [300, 850]:
      the clamp only guards the ends. */
  lemma RawScoreWithinScale(f: Factors)
    requires InRange(f)
    ensures 300.0 <= RawScore(f) <= 850.0
  {
    CappedRatio(f);
  }

  /** Perfect inputs reach 850. */
  lemma FinalScoreAtBest(f: Factors)
    requires f.totalCredit > 0.0 && f.paymentHistory >= 100.0 && f.usedCredit == 0.0
    requires f.creditAge >= 84.0 && f.creditMixScore == 10.0 && f.inquiries == 0.0
    ensures FinalScore(f) == 850
  {
    assert UtilizationRatio(f) == 0.0;
    assert SubScoreSum(f) == 1000.0;
    RoundOfInt(850);
  }

  /** As the screen computes it, perfect inputs show 850 as well. */
  lemma FinalScoreAsWrittenAtBest(f: Factors)
    requires f.totalCredit > 0.0 && f.paymentHistory >= 100.0 && f.usedCredit == 0.0
    requires f.creditAge >= 84.0 && f.creditMixScore == 10.0 && f.inquiries == 0.0
    ensures FinalScoreAsWritten(f) == 850
  {
    assert UtilizationRatio(f) == 0.0;
    assert SubScoreSum(f) == 1000.0;
    AsWrittenSaturates(f);
  }

  /** With no points earned on any factor the score is 300. This needs a mix
      score of 0, below the mix input's minimum of 1; see WorstAllowedInputs
      for the lowest score the screen can reach. */
  lemma FinalScoreAtWorst(f: Factors)
    requires f.totalCredit > 0.0 && f.paymentHistory == 0.0 && f.usedCredit == f.totalCredit
    requires f.creditAge == 0.0 && f.creditMixScore == 0.0 && f.inquiries >= 5.0
    ensures FinalScore(f) == 300
  {
    FullUsageScoresNothing(f);
    NothingEarned(f.paymentHistory, f.creditAge, f.creditMixScore, f.inquiries);
    ZeroSum(f);
  }

  /** The worst inputs the screen allows (no on-time payments, the whole limit
      used, no credit age, a mix of 1 and five or more inquiries) still earn
      the mix's 10 points: 306 with the total read out of 1000 points, 355 as
      the screen computes it. */
  lemma WorstAllowedInputs(f: Factors)
    requires f.totalCredit > 0.0 && f.paymentHistory == 0.0 && f.usedCredit == f.totalCredit
    requires f.creditAge == 0.0 && f.creditMixScore == 1.0 && f.inquiries >= 5.0
    ensures FinalScore(f) == 306
    ensures FinalScoreAsWritten(f) == 355
  {
    FullUsageScoresNothing(f);
    assert PaymentScore(f.paymentHistory) == Min(100.0, 0.0) * 3.5 == 0.0;
    assert AgeScore(f.creditAge) == Min(84.0, 0.0) / 84.0 * 150.0 == 0.0;
    assert SubScoreSum(f) == 10.0;
    assert RawScore(f) == 305.5;
    assert RawScoreAsWritten(f) == 355.0;
    RoundOfInt(355);
  }

  /** Those are the lowest scores the screen's inputs can give. */
  lemma InRangeScoreFloor(f: Factors)
    requires InRange(f)
    ensures FinalScore(f) >= 306
    ensures FinalScoreAsWritten(f) >= 355
  {
    CappedRatio(f);
    assert SubScoreSum(f) >= 10.0;
    RoundMonotone(305.5, Min(850.0, Max(300.0, RawScore(f))));
    assert Round(305.5) == 306;
    RoundMonotone(355.0, Min(850.0, Max(300.0, RawScoreAsWritten(f))));
    RoundOfInt(355);
  }

  lemma ZeroSum(f: Factors)
    requires f.totalCredit > 0.0
    requires PaymentScore(f.paymentHistory) == 0.0 && UtilizationScore(UtilizationRatio(f)) == 0.0
    requires AgeScore(f.creditAge) == 0.0 && MixScore(f.creditMixScore) == 0.0 && InquiryScore(f.inquiries) == 0.0
    ensures FinalScore(f) == 300
  {
    RoundOfInt(300);
  }

  lemma NothingEarned(paymentHistory: real, creditAge: real, creditMixScore: real, inquiries: real)
    requires paymentHistory == 0.0 && creditAge == 0.0 && creditMixScore == 0.0 && inquiries >= 5.0
    ensures PaymentScore(paymentHistory) == 0.0 && AgeScore(creditAge) == 0.0
    ensures MixScore(creditMixScore) == 0.0 && InquiryScore(inquiries) == 0.0
  {
    assert PaymentScore(paymentHistory) == Min(100.0, 0.0) * 3.5 == 0.0;
    assert AgeScore(creditAge) == Min(84.0, 0.0) / 84.0 * 150.0 == 0.0;
  }

  lemma FullUsageScoresNothing(f: Factors)
    requires f.totalCredit > 0.0 && f.usedCredit == f.totalCredit
    ensures UtilizationScore(UtilizationRatio(f)) == 0.0
  {
    assert f.usedCredit / f.totalCredit == 1.0;
  }

  /** A better history on every factor never lowers the score: more on-time
      payments, an older history and a better mix raise it or keep it, lower
      utilisation and fewer inquiries likewise. */
  lemma FinalScoreMonotone(f: Factors, g: Factors)
    requires f.totalCredit > 0.0 && g.totalCredit > 0.0
    requires f.paymentHistory <= g.paymentHistory
    requires UtilizationRatio(g) <= UtilizationRatio(f)
    requires f.creditAge <= g.creditAge
    requires f.creditMixScore <= g.creditMixScore
    requires g.inquiries <= f.inquiries
    ensures FinalScore(f) <= FinalScore(g)
  {
    SubScoreSumMonotone(f, g);
    RoundMonotone(Min(850.0, Max(300.0, RawScore(f))), Min(850.0, Max(300.0, RawScore(g))));
  }

  /** The same promise for the score as the screen computes it (dividing by
      100): a better history never lowers it either. */
  lemma FinalScoreAsWrittenMonotone(f: Factors, g: Factors)
    requires f.totalCredit > 0.0 && g.totalCredit > 0.0
    requires f.paymentHistory <= g.paymentHistory
    requires UtilizationRatio(g) <= UtilizationRatio(f)
    requires f.creditAge <= g.creditAge
    requires f.creditMixScore <= g.creditMixScore
    requires g.inquiries <= f.inquiries
    ensures FinalScoreAsWritten(f) <= FinalScoreAsWritten(g)
  {
    SubScoreSumMonotone(f, g);
    RoundMonotone(Min(850.0, Max(300.0, RawScoreAsWritten(f))), Min(850.0, Max(300.0, RawScoreAsWritten(g))));
  }

  /** Each sub-score grows with its factor, so their total does. */
  lemma SubScoreSumMonotone(f: Factors, g: Factors)
    requires f.totalCredit > 0.0 && g.totalCredit > 0.0
    requires f.paymentHistory <= g.paymentHistory
    requires UtilizationRatio(g) <= UtilizationRatio(f)
    requires f.creditAge <= g.creditAge
    requires f.creditMixScore <= g.creditMixScore
    requires g.inquiries <= f.inquiries
    ensures SubScoreSum(f) <= SubScoreSum(g)
  {
    assert PaymentScore(f.paymentHistory) <= PaymentScore(g.paymentHistory);
    assert UtilizationScore(UtilizationRatio(f)) <= UtilizationScore(UtilizationRatio(g));
    assert AgeScore(f.creditAge) <= AgeScore(g.creditAge);
    assert InquiryScore(f.inquiries) <= InquiryScore(g.inquiries);
  }

  /** The default inputs score 632 ("Fair"). */
  lemma DefaultsScore()
    ensures FinalScore(Defaults) == 632
    ensures CategoryOf(FinalScore(Defaults)) == Fair
  {
    assert UtilizationRatio(Defaults) == 30.0;
    assert AgeScore(36.0) == 450.0 / 7.0;
    assert SubScoreSum(Defaults) == 4230.0 / 7.0;
    assert 632.0 <= RawScore(Defaults) < 632.5;
  }

  /** As the screen computes it, the default inputs show 850, "Excellent". */
  lemma DefaultsScoreAsWritten()
    ensures FinalScoreAsWritten(Defaults) == 850
    ensures CategoryOf(FinalScoreAsWritten(Defaults)) == Excellent
  {
    assert UtilizationRatio(Defaults) == 30.0;
    assert SubScoreSum(Defaults) >= 100.0;
    AsWrittenSaturates(Defaults);
  }

  /** The ranges the screen's inputs allow: history 0–100 %, a limit of 1000
      to 1000000, used credit between 0 and the limit, age 0–360 months, mix
      1–10 and 0–10 inquiries. */
  predicate InRange(f: Factors)
  {
    && 0.0 <= f.paymentHistory <= 100.0
    && 1000.0 <= f.totalCredit <= 1000000.0 && 0.0 <= f.usedCredit <= f.totalCredit
    && 0.0 <= f.creditAge <= 360.0
    && 1.0 <= f.creditMixScore <= 10.0
    && 0.0 <= f.inquiries <= 10.0
  }

  lemma CappedRatio(f: Factors)
    requires f.totalCredit > 0.0 && 0.0 <= f.usedCredit <= f.totalCredit
    ensures 0.0 <= UtilizationRatio(f) <= 100.0
  {
    assert f.usedCredit / f.totalCredit <= 1.0;
  }

  // ---------------------------------------------------------------------------
  // Bands

  datatype Category = Excellent | VeryGood | Good | Fair | Poor

  function CategoryOf(score: int): (c: Category)
    ensures c == Excellent <==> score >= 800
    ensures c == VeryGood <==> 740 <= score < 800
    ensures c == Good <==> 670 <= score < 740
    ensures c == Fair <==> 580 <= score < 670
    ensures c == Poor <==> score < 580
  {
    if score >= 800 then Excellent
    else if score >= 740 then VeryGood
    else if score >= 670 then Good
    else if score >= 580 then Fair
    else Poor
  }

  function CategoryLabel(c: Category): string
  {
    match c
    case Excellent => "Excellent"
    case VeryGood => "Very Good"
    case Good => "Good"
    case Fair => "Fair"
    case Poor => "Poor"
  }

  function CategoryColor(c: Category): string
  {
    match c
    case Excellent => "bg-green-500/10"
    case VeryGood => "bg-emerald-500/10"
    case Good => "bg-blue-500/10"
    case Fair => "bg-yellow-500/10"
    case Poor => "bg-red-500/10"
  }

  /** Each band is exactly a half-open range of scores. */
  lemma CategoryBands(score: int)
    ensures CategoryOf(score) == Excellent <==> score >= 800
    ensures CategoryOf(score) == VeryGood <==> 740 <= score < 800
    ensures CategoryOf(score) == Good <==> 670 <= score < 740
    ensures CategoryOf(score) == Fair <==> 580 <= score < 670
    ensures CategoryOf(score) == Poor <==> score < 580
  {
  }

  /** A higher score never falls into a lower band. */
  lemma CategoryMonotone(s: int, t: int)
    requires s <= t
    ensures Rank(CategoryOf(s)) <= Rank(CategoryOf(t))
  {
  }

  /** The bands from Poor (0) up to Excellent (4). */
  function Rank(c: Category): nat
  {
    match c
    case Poor => 0
    case Fair => 1
    case Good => 2
    case VeryGood => 3
    case Excellent => 4
  }

  /** The gauge under the score: how far along 300–850 it is, in percent. */
  function GaugeWidth(score: int): real
  {
    (score - 300) as real / 550.0 * 100.0
  }

  lemma GaugeWithinBar(f: Factors)
    requires f.totalCredit > 0.0
    ensures 0.0 <= GaugeWidth(FinalScore(f)) <= 100.0
    ensures 0.0 <= GaugeWidth(FinalScoreAsWritten(f)) <= 100.0
  {
  }

  // ---------------------------------------------------------------------------
  // The factor breakdown chart

  /** One bar pair: the factor, its weight in points, and the points earned. */
  datatype BreakdownRow = BreakdownRow(name: string, maximumImpact: int, yourScore: int)

  function Breakdown(f: Factors): (rows: seq<BreakdownRow>)
    requires f.totalCredit > 0.0
    ensures |rows| == 5
  {
    var ratio := UtilizationRatio(f);
    [ BreakdownRow("Payment History (35%)", 35, Round(f.paymentHistory / 100.0 * 35.0)),
      BreakdownRow("Credit Utilization (30%)", 30, Round(Max(0.0, 30.0 - ratio * 0.9))),
      BreakdownRow("Credit Age (15%)", 15, Round(Min(15.0, f.creditAge / 84.0 * 15.0))),
      BreakdownRow("Credit Mix (10%)", 10, Round(f.creditMixScore / 10.0 * 10.0)),
      BreakdownRow("Credit Inquiries (10%)", 10, Round(Max(0.0, 10.0 - f.inquiries * 2.0))) ]
  }

  /** For inputs in range every factor earns between 0 and its weight, and the
      weights add up to 100. */
  lemma BreakdownWithinWeights(f: Factors)
    requires InRange(f)
    ensures var rows := Breakdown(f);
      && (forall k :: 0 <= k < 5 ==> 0 <= rows[k].yourScore <= rows[k].maximumImpact)
      && rows[0].maximumImpact + rows[1].maximumImpact + rows[2].maximumImpact
         + rows[3].maximumImpact + rows[4].maximumImpact == 100
  {
    var ratio := UtilizationRatio(f);
    CappedRatio(f);
    RoundBetween(f.paymentHistory / 100.0 * 35.0, 0, 35);
    RoundBetween(Max(0.0, 30.0 - ratio * 0.9), 0, 30);
    RoundBetween(Min(15.0, f.creditAge / 84.0 * 15.0), 0, 15);
    RoundBetween(f.creditMixScore / 10.0 * 10.0, 0, 10);
    RoundBetween(Max(0.0, 10.0 - f.inquiries * 2.0), 0, 10);
  }

  // ---------------------------------------------------------------------------
  // Recommendations

  const PaymentAdvice := "Aim for 100% on-time payments to improve your payment history"
  const UtilizationAdvice := "Try to keep your credit utilization below 30%"
  const AgeAdvice := "Keep your oldest credit accounts open to increase average credit age"
  const MixAdvice := "Consider diversifying your credit mix with different types of accounts"
  const InquiryAdvice := "Limit new credit applications to reduce the number of hard inquiries"
  const StandingAdvice := "Your credit score is in good standing. Continue your current credit habits."

  /** The five checks, in the order the list shows them. */
  function Checks(f: Factors): (checks: seq<(bool, string)>)
    requires f.totalCredit > 0.0
    ensures |checks| == 5
  {
    [ (f.paymentHistory < 100.0, PaymentAdvice),
      (UtilizationRatio(f) > 30.0, UtilizationAdvice),
      (f.creditAge < 24.0, AgeAdvice),
      (f.creditMixScore < 7.0, MixAdvice),
      (f.inquiries > 2.0, InquiryAdvice) ]
  }

  /** The message a single check contributes. */
  function FiredOne(check: (bool, string)): seq<string>
  {
    if check.0 then [check.1] else []
  }

  /** The messages of the checks that fire, in order. */
  function Fired(checks: seq<(bool, string)>): (msgs: seq<string>)
    ensures |msgs| <= |checks|
  {
    if |checks| == 0 then []
    else Fired(checks[..|checks| - 1]) + FiredOne(checks[|checks| - 1])
  }

  /** A message is listed exactly when its check fires (the messages differ). */
  lemma {:induction false} FiredExactly(checks: seq<(bool, string)>, k: nat)
    requires k < |checks|
    requires forall i, j :: 0 <= i < j < |checks| ==> checks[i].1 != checks[j].1
    ensures checks[k].1 in Fired(checks) <==> checks[k].0
  {
    var n := |checks| - 1;
    var prefix := checks[..n];
    if k < n {
      FiredExactly(prefix, k);
      assert prefix[k] == checks[k];
      if checks[n].0 {
        assert checks[k].1 != checks[n].1;
      }
    } else {
      FiredNone(prefix, checks[k].1);
    }
  }

  lemma {:induction false} FiredNone(checks: seq<(bool, string)>, m: string)
    requires forall i :: 0 <= i < |checks| ==> checks[i].1 != m
    ensures m !in Fired(checks)
  {
    if |checks| > 0 {
      FiredNone(checks[..|checks| - 1], m);
    }
  }

  /** The advice of every check that fires, or the all-is-well message. */
  function Recommendations(f: Factors): seq<string>
    requires f.totalCredit > 0.0
  {
    var fired := Fired(Checks(f));
    if |fired| > 0 then fired else [StandingAdvice]
  }

  /** getRecommendations: push the advice of each check that fires; with none,
      the single message that all is well. */
  method GetRecommendations(f: Factors) returns (recommendations: seq<string>)
    requires f.totalCredit > 0.0
    ensures recommendations == Recommendations(f)
  {
    ghost var c := Checks(f);
    FiredFive(c);
    recommendations := [];
    var utilizationRatio := UtilizationRatio(f);
    if f.paymentHistory < 100.0 {
      recommendations := recommendations + [PaymentAdvice];
    }
    assert recommendations == FiredOne(c[0]);
    if utilizationRatio > 30.0 {
      recommendations := recommendations + [UtilizationAdvice];
    }
    assert recommendations == FiredOne(c[0]) + FiredOne(c[1]);
    if f.creditAge < 24.0 {
      recommendations := recommendations + [AgeAdvice];
    }
    assert recommendations == FiredOne(c[0]) + FiredOne(c[1]) + FiredOne(c[2]);
    if f.creditMixScore < 7.0 {
      recommendations := recommendations + [MixAdvice];
    }
    assert recommendations == FiredOne(c[0]) + FiredOne(c[1]) + FiredOne(c[2]) + FiredOne(c[3]);
    if f.inquiries > 2.0 {
      recommendations := recommendations + [InquiryAdvice];
    }
    assert recommendations == Fired(c);
    if |recommendations| == 0 {
      recommendations := [StandingAdvice];
    }
  }

  lemma FiredFive(c: seq<(bool, string)>)
    requires |c| == 5
    ensures Fired(c) == FiredOne(c[0]) + FiredOne(c[1]) + FiredOne(c[2]) + FiredOne(c[3]) + FiredOne(c[4])
  {
    assert c[..1][..0] == [] && c[..1][0] == c[0];
    assert Fired(c[..1]) == FiredOne(c[0]);
    assert c[..2][..1] == c[..1] && c[..2][1] == c[1];
    assert Fired(c[..2]) == FiredOne(c[0]) + FiredOne(c[1]);
    assert c[..3][..2] == c[..2] && c[..3][2] == c[2];
    assert Fired(c[..3]) == FiredOne(c[0]) + FiredOne(c[1]) + FiredOne(c[2]);
    assert c[..4][..3] == c[..3] && c[..4][3] == c[3];
    assert Fired(c[..4]) == FiredOne(c[0]) + FiredOne(c[1]) + FiredOne(c[2]) + FiredOne(c[3]);
    assert c[..4] == c[..|c| - 1];
  }

  lemma FiredUnrolled(f: Factors)
    requires f.totalCredit > 0.0
    ensures Fired(Checks(f)) ==
      (if f.paymentHistory < 100.0 then [PaymentAdvice] else [])
      + (if UtilizationRatio(f) > 30.0 then [UtilizationAdvice] else [])
      + (if f.creditAge < 24.0 then [AgeAdvice] else [])
      + (if f.creditMixScore < 7.0 then [MixAdvice] else [])
      + (if f.inquiries > 2.0 then [InquiryAdvice] else [])
  {
    FiredFive(Checks(f));
  }

  /** The list is never empty; each advice appears exactly when its factor
      calls for it, and the all-is-well message exactly when none does. */
  lemma RecommendationsExact(f: Factors)
    requires f.totalCredit > 0.0
    ensures var recs := Recommendations(f);
      && 1 <= |recs| <= 5
      && (PaymentAdvice in recs <==> f.paymentHistory < 100.0)
      && (UtilizationAdvice in recs <==> UtilizationRatio(f) > 30.0)
      && (AgeAdvice in recs <==> f.creditAge < 24.0)
      && (MixAdvice in recs <==> f.creditMixScore < 7.0)
      && (InquiryAdvice in recs <==> f.inquiries > 2.0)
      && (recs == [StandingAdvice] <==>
            !(f.paymentHistory < 100.0 || UtilizationRatio(f) > 30.0
              || f.creditAge < 24.0 || f.creditMixScore < 7.0 || f.inquiries > 2.0))
  {
    var c := Checks(f);
    FiredUnrolled(f);
    FiredExactly(c, 0);
    FiredExactly(c, 1);
    FiredExactly(c, 2);
    FiredExactly(c, 3);
    FiredExactly(c, 4);
  }

  // ---------------------------------------------------------------------------
  // The screen

  class CreditScoreScreen {
    var paymentHistory: real
    var totalCredit: real
    var usedCredit: real
    var creditAge: real
    var creditMixScore: real
    var inquiries: real
    var creditScore: int
    var scoreCategory: string
    var scoreColor: string

    function Current(): Factors
      reads this
    {
      Factors(paymentHistory, totalCredit, usedCredit, creditAge, creditMixScore, inquiries)
    }

    constructor ()
      ensures Current() == Defaults
      ensures creditScore == 0 && scoreCategory == "" && scoreColor == ""
    {
      paymentHistory := 100.0;
      totalCredit := 200000.0;
      usedCredit := 60000.0;
      creditAge := 36.0;
      creditMixScore := 8.0;
      inquiries := 1.0;
      creditScore := 0;
      scoreCategory := "";
      scoreColor := "";
    }

    /** The score effect: sub-scores, raw score, clamp and round, then the
        band. The raw score divides the sub-score total by 100, as the screen
        does, so the stored score is the as-written one. */
    method UpdateScore()
      requires totalCredit > 0.0
      modifies this
      ensures Current() == old(Current())
      ensures creditScore == FinalScoreAsWritten(Current())
      ensures scoreCategory == CategoryLabel(CategoryOf(creditScore))
      ensures scoreColor == CategoryColor(CategoryOf(creditScore))
    {
      var paymentScore := Min(100.0, paymentHistory) * 3.5;
      var utilizationRatio := (usedCredit / totalCredit) * 100.0;
      var utilizationScore := Max(0.0, 100.0 - (utilizationRatio * 3.0)) * 3.0;
      var ageScore := Min(84.0, creditAge) / 84.0 * 150.0;
      var mixScore := creditMixScore * 10.0;
      var inquiryScore := Max(0.0, 100.0 - (inquiries * 20.0)) * 1.0;
      var rawScore := 300.0 + ((paymentScore + utilizationScore + ageScore + mixScore + inquiryScore) / 100.0) * 550.0;
      assert rawScore == RawScoreAsWritten(Current());
      var finalScore := Round(Min(850.0, Max(300.0, rawScore)));
      creditScore := finalScore;
      if finalScore >= 800 {
        scoreCategory := "Excellent";
        scoreColor := "bg-green-500/10";
      } else if finalScore >= 740 {
        scoreCategory := "Very Good";
        scoreColor := "bg-emerald-500/10";
      } else if finalScore >= 670 {
        scoreCategory := "Good";
        scoreColor := "bg-blue-500/10";
      } else if finalScore >= 580 {
        scoreCategory := "Fair";
        scoreColor := "bg-yellow-500/10";
      } else {
        scoreCategory := "Poor";
        scoreColor := "bg-red-500/10";
      }
    }

    /** The used-credit input: a value above the total is cut down to the total. */
    method SetUsedCredit(value: real)
      modifies this
      ensures usedCredit == Min(value, old(totalCredit))
      ensures usedCredit <= totalCredit
      ensures Current() == old(Current()).(usedCredit := usedCredit)
      ensures creditScore == old(creditScore) && scoreCategory == old(scoreCategory) && scoreColor == old(scoreColor)
    {
      usedCredit := Min(value, totalCredit);
    }
  }

  /** Entered through its input, used credit never exceeds the total, so the
      utilisation ratio is at most 100 % and the utilisation sub-score at least 0. */
  lemma CappedUsageWithinTotal(f: Factors, value: real)
    requires f.totalCredit > 0.0 && value >= 0.0
    ensures var g := f.(usedCredit := Min(value, f.totalCredit));
      0.0 <= UtilizationRatio(g) <= 100.0
  {
    var g := f.(usedCredit := Min(value, f.totalCredit));
    assert g.usedCredit / g.totalCredit <= 1.0;
  }
}
