// Scoring a candidate against all requirements, and ranking the candidates of a request.
module Ranking {
  import opened Wrappers
  import opened Rounding
  import opened Scoring
  import opened StableSort

  datatype Eligibility = Eligible | PotentiallyEligible | ConstraintUnknown | ConstraintFailed

  datatype Ranked = Ranked(id: string, rank: nat, score: real, confidence: real, eligibility: Eligibility,
                           strengths: seq<string>, gaps: seq<string>, unknowns: seq<string>,
                           assessments: seq<Assessment>)

  // ---------- the weighted score ----------

  function TotalWeight(rs: seq<Requirement>): real {
    if rs == [] then 0.0 else TotalWeight(rs[..|rs| - 1]) + rs[|rs| - 1].weight
  }

  function Weighed(weight: real, score: real): real {
    weight * score
  }

  function WeightedSum(rs: seq<Requirement>, scores: seq<real>): real
    requires |rs| == |scores|
  {
    if rs == [] then 0.0
    else
      var last := |rs| - 1;
      WeightedSum(rs[..last], scores[..last]) + Weighed(rs[last].weight, scores[last])
  }

  function Sum(xs: seq<real>): real {
    if xs == [] then 0.0 else Sum(xs[..|xs| - 1]) + xs[|xs| - 1]
  }

  predicate PositiveWeights(rs: seq<Requirement>) {
    rs != [] && forall i | 0 <= i < |rs| :: rs[i].weight > 0.0
  }

  lemma {:induction false} TotalWeightPositive(rs: seq<Requirement>)
    requires PositiveWeights(rs)
    ensures TotalWeight(rs) > 0.0
  {
    if |rs| > 1 {
      TotalWeightPositive(rs[..|rs| - 1]);
    } else {
      assert TotalWeight(rs[..0]) == 0.0;
    }
  }

  function Average(rs: seq<Requirement>, scores: seq<real>): real
    requires |rs| == |scores| && PositiveWeights(rs)
  {
    TotalWeightPositive(rs);
    WeightedSum(rs, scores) / TotalWeight(rs)
  }

  lemma {:induction false} WeightedSumMonotone(rs: seq<Requirement>, scores: seq<real>, better: seq<real>)
    requires |rs| == |scores| == |better|
    requires forall i | 0 <= i < |rs| :: rs[i].weight > 0.0 && scores[i] <= better[i]
    ensures WeightedSum(rs, scores) <= WeightedSum(rs, better)
  {
    hide Weighed;
    if rs != [] {
      var last := |rs| - 1;
      assert forall i | 0 <= i < last :: rs[..last][i] == rs[i];
      WeightedSumMonotone(rs[..last], scores[..last], better[..last]);
      WeighMonotone(rs[last].weight, scores[last], better[last]);
    }
  }

  lemma WeighMonotone(w: real, x: real, y: real)
    requires w > 0.0 && x <= y
    ensures Weighed(w, x) <= Weighed(w, y)
  {
  }

  lemma QuotientMonotone(x: real, y: real, d: real)
    requires x <= y && d > 0.0
    ensures x / d <= y / d
  {
  }

  /** The final score to six decimals. */
  function FinalScore(rs: seq<Requirement>, scores: seq<real>): real
    requires |rs| == |scores| && PositiveWeights(rs)
  {
    RoundEven(Average(rs, scores), SIX_DECIMALS)
  }

  /** Better assessments never give a lower final score. */
  lemma FinalScoreMonotone(rs: seq<Requirement>, scores: seq<real>, better: seq<real>)
    requires |rs| == |scores| == |better| && PositiveWeights(rs)
    requires forall i | 0 <= i < |rs| :: scores[i] <= better[i]
    ensures FinalScore(rs, scores) <= FinalScore(rs, better)
  {
    TotalWeightPositive(rs);
    WeightedSumMonotone(rs, scores, better);
    QuotientMonotone(WeightedSum(rs, scores), WeightedSum(rs, better), TotalWeight(rs));
    RoundEvenMonotone(Average(rs, scores), Average(rs, better), SIX_DECIMALS);
  }

  lemma {:induction false} ConstantSum(rs: seq<Requirement>, x: real, scores: seq<real>)
    requires |rs| == |scores| && forall i | 0 <= i < |rs| :: scores[i] == x
    ensures WeightedSum(rs, scores) == Weighed(TotalWeight(rs), x)
  {
    if rs != [] {
      hide Weighed;
      var last := |rs| - 1;
      ConstantSum(rs[..last], x, scores[..last]);
      Distribute(x, TotalWeight(rs[..last]), rs[last].weight);
    }
  }

  lemma Distribute(x: real, a: real, b: real)
    ensures Weighed(a + b, x) == Weighed(a, x) + Weighed(b, x)
    ensures Weighed(x, a + b) == Weighed(x, a) + Weighed(x, b)
  {
  }

  lemma ProductPositive(a: real, b: real)
    requires a > 0.0 && b > 0.0
    ensures Weighed(a, b) > 0.0
  {
  }

  lemma CancelWeight(x: real, total: real)
    requires total > 0.0
    ensures Weighed(total, x) / total == x
  {
    var q := Weighed(total, x) / total;
    assert Weighed(total, q) == Weighed(total, x);
    if q > x {
      ProductPositive(total, q - x);
      Distribute(total, x, q - x);
    } else if q < x {
      ProductPositive(total, x - q);
      Distribute(total, q, x - q);
    }
  }

  lemma {:induction false} AverageOfConstant(rs: seq<Requirement>, x: real)
    requires PositiveWeights(rs)
    ensures Average(rs, seq(|rs|, i => x)) == x
  {
    hide Weighed;
    TotalWeightPositive(rs);
    ConstantSum(rs, x, seq(|rs|, i => x));
    CancelWeight(x, TotalWeight(rs));
  }

  /** The average lies between any bounds on the scores; with the bounds zero and one, so does the final score. */
  lemma AverageIsBetween(rs: seq<Requirement>, scores: seq<real>, low: real, high: real)
    requires |rs| == |scores| && PositiveWeights(rs)
    requires forall i | 0 <= i < |rs| :: low <= scores[i] <= high
    ensures low <= Average(rs, scores) <= high
    ensures 0.0 <= low && high <= 1.0 ==> Unit(FinalScore(rs, scores))
  {
    var lows, highs := seq(|rs|, i => low), seq(|rs|, i => high);
    TotalWeightPositive(rs);
    AverageOfConstant(rs, low);
    AverageOfConstant(rs, high);
    WeightedSumMonotone(rs, lows, scores);
    WeightedSumMonotone(rs, scores, highs);
    QuotientMonotone(WeightedSum(rs, lows), WeightedSum(rs, scores), TotalWeight(rs));
    QuotientMonotone(WeightedSum(rs, scores), WeightedSum(rs, highs), TotalWeight(rs));
    if 0.0 <= low && high <= 1.0 {
      RoundingKeepsUnit(Average(rs, scores), SIX_DECIMALS);
    }
  }

  function Reweighted(rs: seq<Requirement>, factor: real): seq<Requirement> {
    seq(|rs|, i requires 0 <= i < |rs| => rs[i].(weight := Weighed(factor, rs[i].weight)))
  }

  lemma ReweightedPrefix(rs: seq<Requirement>, factor: real)
    requires rs != []
    ensures Reweighted(rs, factor)[..|rs| - 1] == Reweighted(rs[..|rs| - 1], factor)
  {
    hide Weighed;
    var last := |rs| - 1;
    forall i | 0 <= i < last ensures Reweighted(rs, factor)[..last][i] == Reweighted(rs[..last], factor)[i] {
      assert rs[..last][i] == rs[i];
    }
  }

  lemma Reassociate(a: real, b: real, c: real)
    ensures Weighed(Weighed(a, b), c) == Weighed(a, Weighed(b, c))
  {
  }

  lemma {:induction false} ReweightedSums(rs: seq<Requirement>, scores: seq<real>, factor: real)
    requires |rs| == |scores|
    ensures TotalWeight(Reweighted(rs, factor)) == Weighed(factor, TotalWeight(rs))
    ensures WeightedSum(Reweighted(rs, factor), scores) == Weighed(factor, WeightedSum(rs, scores))
  {
    if rs != [] {
      hide Weighed;
      var last := |rs| - 1;
      var w, x := rs[last].weight, scores[last];
      ReweightedSums(rs[..last], scores[..last], factor);
      ReweightedPrefix(rs, factor);
      Reassociate(factor, w, x);
      Distribute(factor, TotalWeight(rs[..last]), w);
      Distribute(factor, WeightedSum(rs[..last], scores[..last]), Weighed(w, x));
    }
  }

  lemma CancelFactor(factor: real, a: real, b: real)
    requires factor > 0.0 && b > 0.0
    ensures Weighed(factor, b) > 0.0 && Weighed(factor, a) / Weighed(factor, b) == a / b
  {
    var q := a / b;
    assert Weighed(b, q) == a;
    ProductPositive(factor, b);
    hide Weighed;
    Reassociate(factor, b, q);
    CancelWeight(q, Weighed(factor, b));
  }

  lemma ReweightedIsPositive(rs: seq<Requirement>, factor: real)
    requires PositiveWeights(rs) && factor > 0.0
    ensures PositiveWeights(Reweighted(rs, factor))
  {
    hide Weighed;
    forall i | 0 <= i < |rs| ensures Reweighted(rs, factor)[i].weight > 0.0 {
      ProductPositive(factor, rs[i].weight);
    }
  }

  /** Only the proportions of the weights matter. */
  lemma WeightsAreProportions(rs: seq<Requirement>, scores: seq<real>, factor: real)
    requires |rs| == |scores| && PositiveWeights(rs) && factor > 0.0
    ensures PositiveWeights(Reweighted(rs, factor))
    ensures FinalScore(Reweighted(rs, factor), scores) == FinalScore(rs, scores)
  {
    hide Weighed, WeightedSum, TotalWeight;
    ReweightedIsPositive(rs, factor);
    TotalWeightPositive(rs);
    TotalWeightPositive(Reweighted(rs, factor));
    ReweightedSums(rs, scores, factor);
    CancelFactor(factor, WeightedSum(rs, scores), TotalWeight(rs));
    assert Average(Reweighted(rs, factor), scores) == Average(rs, scores);
  }

  lemma {:induction false} SumBetween(xs: seq<real>)
    requires forall i | 0 <= i < |xs| :: Unit(xs[i])
    ensures 0.0 <= Sum(xs) <= |xs| as real
  {
    if xs != [] {
      SumBetween(xs[..|xs| - 1]);
    }
  }

  // ---------- one candidate ----------

  function Assessments(rs: seq<Requirement>, c: Candidate, power: real -> real): (all: seq<Assessment>)
    ensures |all| == |rs|
  {
    seq(|rs|, i requires 0 <= i < |rs| => Assess(rs[i], c, power))
  }

  function Scores(all: seq<Assessment>): (scores: seq<real>)
    ensures |scores| == |all|
  {
    seq(|all|, i requires 0 <= i < |all| => all[i].score)
  }

  function Confidences(all: seq<Assessment>): (confidences: seq<real>)
    ensures |confidences| == |all|
  {
    seq(|all|, i requires 0 <= i < |all| => all[i].confidence)
  }

  function Confidence(all: seq<Assessment>): real
    requires all != []
  {
    RoundEven(Sum(Confidences(all)) / |all| as real, SIX_DECIMALS)
  }

  // The running verdict of the loop over the requirements.
  datatype Verdict = Verdict(strengths: seq<string>, gaps: seq<string>, unknowns: seq<string>,
                             hardFailed: bool, mustGap: bool)

  /** The verdict over the requirements, assessed in order. */
  function Judge(rs: seq<Requirement>, all: seq<Assessment>): Verdict
    requires |rs| == |all|
  {
    if rs == [] then Verdict([], [], [], false, false)
    else
      var last := |rs| - 1;
      JudgeOne(Judge(rs[..last], all[..last]), rs[last], all[last])
  }

  function JudgeOne(before: Verdict, r: Requirement, a: Assessment): Verdict {
    match a.status
    case Met => before.(strengths := before.strengths + [r.key])
    case PartiallyMet => before.(gaps := before.gaps + [r.key], mustGap := before.mustGap || r.mustHave)
    case Unknown => before.(unknowns := before.unknowns + [r.key], mustGap := before.mustGap || r.mustHave)
    case _ => before.(gaps := before.gaps + [r.key], mustGap := before.mustGap || r.mustHave,
                      hardFailed := before.hardFailed || r.hard)
  }

  function EligibilityOf(v: Verdict): Eligibility {
    if v.hardFailed then ConstraintFailed else if v.mustGap then PotentiallyEligible else Eligible
  }

  function ScoreOf(rs: seq<Requirement>, c: Candidate, power: real -> real): Ranked
    requires PositiveWeights(rs)
  {
    var all := Assessments(rs, c, power);
    var v := Judge(rs, all);
    Ranked(c.id, 1, FinalScore(rs, Scores(all)), Confidence(all), EligibilityOf(v), v.strengths, v.gaps, v.unknowns, all)
  }

  method ScoreCandidate(rs: seq<Requirement>, c: Candidate, power: real -> real) returns (result: Ranked)
    requires PositiveWeights(rs)
    ensures result == ScoreOf(rs, c, power)
  {
    var all := Assessments(rs, c, power);
    var score := FinalScore(rs, Scores(all));
    var confidence := Confidence(all);
    var strengths: seq<string>, gaps: seq<string>, unknowns: seq<string> := [], [], [];
    var hardFailed, mustGap := false, false;
    for i := 0 to |rs|
      invariant Verdict(strengths, gaps, unknowns, hardFailed, mustGap) == Judge(rs[..i], all[..i])
    {
      assert rs[..i + 1][..i] == rs[..i] && all[..i + 1][..i] == all[..i];
      if all[i].status == Met {
        strengths := strengths + [rs[i].key];
      } else if all[i].status == PartiallyMet {
        gaps := gaps + [rs[i].key];
        mustGap := mustGap || rs[i].mustHave;
      } else if all[i].status == Unknown {
        unknowns := unknowns + [rs[i].key];
        mustGap := mustGap || rs[i].mustHave;
      } else {
        gaps := gaps + [rs[i].key];
        mustGap := mustGap || rs[i].mustHave;
        hardFailed := hardFailed || rs[i].hard;
      }
    }
    assert rs[..|rs|] == rs && all[..|rs|] == all;
    var eligibility := if hardFailed then ConstraintFailed else if mustGap then PotentiallyEligible else Eligible;
    result := Ranked(c.id, 1, score, confidence, eligibility, strengths, gaps, unknowns, all);
  }

  /** A candidate fails a constraint exactly when a hard requirement was not found, and is otherwise fully
      eligible exactly when every must-have is met. */
  lemma {:induction false} EligibilityMeaning(rs: seq<Requirement>, all: seq<Assessment>)
    requires |rs| == |all|
    ensures Judge(rs, all).hardFailed <==> exists i :: 0 <= i < |rs| && rs[i].hard && all[i].status in {NotFound, NotMet}
    ensures Judge(rs, all).mustGap <==> exists i :: 0 <= i < |rs| && rs[i].mustHave && all[i].status != Met
  {
    if rs != [] {
      var last := |rs| - 1;
      EligibilityMeaning(rs[..last], all[..last]);
      assert forall i | 0 <= i < last :: rs[..last][i] == rs[i] && all[..last][i] == all[i];
    }
  }

  /** How often a key is reported. */
  function Reports(v: Verdict, key: string): nat {
    multiset(v.strengths)[key] + multiset(v.gaps)[key] + multiset(v.unknowns)[key]
  }

  lemma CountOfSnoc(xs: seq<string>, x: string, key: string)
    ensures multiset(xs + [x])[key] == multiset(xs)[key] + (if x == key then 1 else 0)
  {
  }

  lemma ReportedOnce(before: Verdict, r: Requirement, a: Assessment, key: string)
    ensures Reports(JudgeOne(before, r, a), key) == Reports(before, key) + (if r.key == key then 1 else 0)
  {
    CountOfSnoc(match a.status case Met => before.strengths case Unknown => before.unknowns case _ => before.gaps, r.key, key);
  }

  lemma KeysGrow(rs: seq<Requirement>, key: string)
    requires rs != []
    ensures var last := |rs| - 1;
            multiset(Keys(rs))[key] == multiset(Keys(rs[..last]))[key] + (if rs[last].key == key then 1 else 0)
  {
    var last := |rs| - 1;
    assert Keys(rs) == Keys(rs[..last]) + [rs[last].key];
    CountOfSnoc(Keys(rs[..last]), rs[last].key, key);
  }

  function CountOf(rs: seq<Requirement>, key: string): nat {
    multiset(Keys(rs))[key]
  }

  lemma NothingToReport(key: string)
    ensures Reports(Judge([], []), key) == CountOf([], key)
  {
  }

  lemma {:induction false} ReportsOfKey(rs: seq<Requirement>, all: seq<Assessment>, key: string)
    requires |rs| == |all|
    ensures Reports(Judge(rs, all), key) == CountOf(rs, key)
  {
    if rs == [] {
      NothingToReport(key);
    } else {
      hide Reports, JudgeOne, Keys;
      var last := |rs| - 1;
      ReportsOfKey(rs[..last], all[..last], key);
      ReportedOnce(Judge(rs[..last], all[..last]), rs[last], all[last], key);
      KeysGrow(rs, key);
    }
  }

  /** Every requirement is reported once: as a strength, as a gap or as unknown. */
  lemma EveryRequirementIsReported(rs: seq<Requirement>, all: seq<Assessment>)
    requires |rs| == |all|
    ensures var v := Judge(rs, all); multiset(v.strengths) + multiset(v.gaps) + multiset(v.unknowns) == multiset(Keys(rs))
  {
    hide Judge;
    forall key {
      ReportsOfKey(rs, all, key);
    }
    SameCounts(Judge(rs, all), multiset(Keys(rs)));
  }

  lemma SameCounts(v: Verdict, keys: multiset<string>)
    requires forall key :: Reports(v, key) == keys[key]
    ensures multiset(v.strengths) + multiset(v.gaps) + multiset(v.unknowns) == keys
  {
    forall key ensures (multiset(v.strengths) + multiset(v.gaps) + multiset(v.unknowns))[key] == keys[key] {
      assert Reports(v, key) == keys[key];
    }
  }

  function Keys(rs: seq<Requirement>): seq<string> {
    seq(|rs|, i requires 0 <= i < |rs| => rs[i].key)
  }

  /** A valid request yields scores and confidences in the unit interval. */
  lemma ScoresAreShares(rs: seq<Requirement>, c: Candidate, power: real -> real)
    requires PositiveWeights(rs) && ValidCandidate(c) && IsPower(power)
    requires forall i | 0 <= i < |rs| :: ValidRequirement(rs[i])
    ensures Unit(ScoreOf(rs, c, power).score) && Unit(ScoreOf(rs, c, power).confidence)
  {
    var all := Assessments(rs, c, power);
    forall i | 0 <= i < |rs| ensures Unit(all[i].score) && Unit(all[i].confidence) {
      AssessmentsAreShares(rs[i], c, power);
    }
    AverageIsBetween(rs, Scores(all), 0.0, 1.0);
    SumBetween(Confidences(all));
    QuotientInUnit(Sum(Confidences(all)), |all| as real);
    RoundingKeepsUnit(Sum(Confidences(all)) / |all| as real, SIX_DECIMALS);
  }

  // ---------- the order of the ranking ----------

  /** Strings compare by code point, a proper prefix first. */
  predicate TextLeq(a: string, b: string) {
    a == [] || (b != [] && (a[0] < b[0] || (a[0] == b[0] && TextLeq(a[1..], b[1..]))))
  }

  lemma {:induction false} TextTotal(a: string, b: string)
    ensures TextLeq(a, b) || TextLeq(b, a)
    ensures TextLeq(a, b) && TextLeq(b, a) ==> a == b
    ensures TextLeq(a, a)
  {
    if a != [] && b != [] {
      TextTotal(a[1..], b[1..]);
    }
    if a != [] {
      TextTotal(a[1..], []);
    }
  }

  lemma {:induction false} TextTransitive(a: string, b: string, c: string)
    requires TextLeq(a, b) && TextLeq(b, c)
    ensures TextLeq(a, c)
  {
    if a != [] && b != [] && c != [] && a[0] == b[0] == c[0] {
      TextTransitive(a[1..], b[1..], c[1..]);
    }
  }

  /** The sort key (-final_score, -confidence, candidate_id). */
  predicate KeyLeq(a: Ranked, b: Ranked) {
    a.score > b.score
    || (a.score == b.score && (a.confidence > b.confidence || (a.confidence == b.confidence && TextLeq(a.id, b.id))))
  }

  lemma KeyIsTotal()
    ensures TotalPreorder(KeyLeq)
    ensures forall a, b | Tied(a, b, KeyLeq) :: a.id == b.id
  {
    forall a: Ranked, b: Ranked ensures (KeyLeq(a, b) || KeyLeq(b, a)) && (Tied(a, b, KeyLeq) ==> a.id == b.id) {
      TextTotal(a.id, b.id);
    }
    forall a: Ranked, b: Ranked, c: Ranked | KeyLeq(a, b) && KeyLeq(b, c) ensures KeyLeq(a, c) {
      if TextLeq(a.id, b.id) && TextLeq(b.id, c.id) {
        TextTransitive(a.id, b.id, c.id);
      }
    }
  }

  function Scored(rs: seq<Requirement>, cs: seq<Candidate>, power: real -> real): (scored: seq<Ranked>)
    requires PositiveWeights(rs)
    ensures |scored| == |cs|
  {
    seq(|cs|, i requires 0 <= i < |cs| => ScoreOf(rs, cs[i], power))
  }

  function WithRanks(results: seq<Ranked>): (ranked: seq<Ranked>)
    ensures |ranked| == |results|
  {
    seq(|results|, i requires 0 <= i < |results| => results[i].(rank := i + 1))
  }

  function RankingOf(rs: seq<Requirement>, cs: seq<Candidate>, power: real -> real): seq<Ranked>
    requires PositiveWeights(rs)
  {
    WithRanks(Sort(Scored(rs, cs, power), KeyLeq))
  }

  method AssignRanks(sorted: seq<Ranked>) returns (results: seq<Ranked>)
    ensures results == WithRanks(sorted)
  {
    results := sorted;
    for i := 0 to |results|
      invariant |results| == |sorted|
      invariant forall k | 0 <= k < i :: results[k] == sorted[k].(rank := k + 1)
      invariant forall k | i <= k < |results| :: results[k] == sorted[k]
    {
      results := results[i := results[i].(rank := i + 1)];
    }
  }

  method RankCandidates(rs: seq<Requirement>, cs: seq<Candidate>, power: real -> real) returns (results: seq<Ranked>)
    requires PositiveWeights(rs)
    ensures results == RankingOf(rs, cs, power)
  {
    hide ScoreOf, Sort;
    results := [];
    for i := 0 to |cs|
      invariant results == Scored(rs, cs[..i], power)
    {
      var result := ScoreCandidate(rs, cs[i], power);
      results := results + [result];
    }
    assert cs[..|cs|] == cs;
    results := Sort(results, KeyLeq);
    results := AssignRanks(results);
  }

  predicate DistinctIds(cs: seq<Candidate>) {
    forall i, j | 0 <= i < j < |cs| :: cs[i].id != cs[j].id
  }

  predicate Precedes(a: Ranked, b: Ranked) {
    KeyLeq(a, b) && !KeyLeq(b, a)
  }

  /** Every candidate is ranked exactly once, ranks run from one, and with distinct ids the order is strict. */
  lemma RankingIsAnOrder(rs: seq<Requirement>, cs: seq<Candidate>, power: real -> real)
    requires PositiveWeights(rs) && DistinctIds(cs)
    ensures var results := RankingOf(rs, cs, power);
            && |results| == |cs|
            && (forall i | 0 <= i < |results| :: results[i].rank == i + 1)
            && (forall i, j | 0 <= i < j < |results| :: Precedes(results[i], results[j]))
            && multiset(Unranked(results)) == multiset(Scored(rs, cs, power))
  {
    var scored := Scored(rs, cs, power);
    var sorted := Sort(scored, KeyLeq);
    var results := WithRanks(sorted);
    KeyIsTotal();
    SortSorts(scored, KeyLeq);
    SortedScoresAreUnranked(rs, cs, power);
    assert Unranked(results) == sorted;
    forall i, j | 0 <= i < j < |results| ensures Precedes(results[i], results[j]) {
      assert KeyLeq(sorted[i], sorted[j]);
      DistinctIdsStayDistinct(rs, cs, power, i, j);
      assert !Tied(sorted[i], sorted[j], KeyLeq);
    }
  }

  function Unranked(results: seq<Ranked>): seq<Ranked> {
    seq(|results|, i requires 0 <= i < |results| => results[i].(rank := 1))
  }

  lemma SortedScoresAreUnranked(rs: seq<Requirement>, cs: seq<Candidate>, power: real -> real)
    requires PositiveWeights(rs)
    ensures var sorted := Sort(Scored(rs, cs, power), KeyLeq); forall i | 0 <= i < |sorted| :: sorted[i].rank == 1
  {
    var scored := Scored(rs, cs, power);
    var sorted := Sort(scored, KeyLeq);
    KeyIsTotal();
    SortSorts(scored, KeyLeq);
    forall i | 0 <= i < |sorted| ensures sorted[i].rank == 1 {
      assert sorted[i] in multiset(scored);
    }
  }

  lemma DistinctIdsStayDistinct(rs: seq<Requirement>, cs: seq<Candidate>, power: real -> real, i: nat, j: nat)
    requires PositiveWeights(rs) && DistinctIds(cs)
    requires i < j < |Sort(Scored(rs, cs, power), KeyLeq)|
    ensures Sort(Scored(rs, cs, power), KeyLeq)[i].id != Sort(Scored(rs, cs, power), KeyLeq)[j].id
  {
    var scored := Scored(rs, cs, power);
    var sorted := Sort(scored, KeyLeq);
    KeyIsTotal();
    SortSorts(scored, KeyLeq);
    PermutationKeepsDistinct(scored, sorted, (r: Ranked) => r.id);
  }

  // ---------- the order of the input does not matter ----------

  lemma ScoredOfConcat(rs: seq<Requirement>, cs: seq<Candidate>, ds: seq<Candidate>, power: real -> real)
    requires PositiveWeights(rs)
    ensures Scored(rs, cs + ds, power) == Scored(rs, cs, power) + Scored(rs, ds, power)
  {
    hide ScoreOf, PositiveWeights;
    var all, parts := Scored(rs, cs + ds, power), Scored(rs, cs, power) + Scored(rs, ds, power);
    forall i | 0 <= i < |cs| + |ds| ensures all[i] == parts[i] {
      assert (cs + ds)[i] == if i < |cs| then cs[i] else ds[i - |cs|];
    }
  }

  lemma ScoredWithout(rs: seq<Requirement>, front: seq<Candidate>, c: Candidate, back: seq<Candidate>, power: real -> real)
    requires PositiveWeights(rs)
    ensures multiset(Scored(rs, front + [c] + back, power))
            == multiset(Scored(rs, front + back, power)) + multiset{ScoreOf(rs, c, power)}
  {
    ScoredOfConcat(rs, front + [c], back, power);
    ScoredOfConcat(rs, front, [c], power);
    ScoredOfConcat(rs, front, back, power);
    assert Scored(rs, [c], power) == [ScoreOf(rs, c, power)];
  }

  lemma {:induction false} ScoredElements(rs: seq<Requirement>, cs: seq<Candidate>, ds: seq<Candidate>, power: real -> real)
    requires PositiveWeights(rs) && multiset(cs) == multiset(ds)
    ensures multiset(Scored(rs, cs, power)) == multiset(Scored(rs, ds, power))
  {
    hide ScoreOf, PositiveWeights;
    if cs == [] {
      assert |multiset(ds)| == 0;
    } else {
      var c, rest := cs[0], cs[1..];
      assert [] + [c] + rest == cs && [] + rest == rest;
      var i := Locate(cs, ds);
      var front, back := ds[..i], ds[i + 1..];
      assert front + [c] + back == ds;
      WithoutOne([], c, rest);
      WithoutOne(front, c, back);
      ScoredElements(rs, rest, front + back, power);
      ScoredWithout(rs, [], c, rest, power);
      ScoredWithout(rs, front, c, back, power);
    }
  }

  lemma Locate<T>(xs: seq<T>, ys: seq<T>) returns (i: nat)
    requires xs != [] && multiset(xs) == multiset(ys)
    ensures i < |ys| && ys[i] == xs[0]
  {
    assert xs[0] in multiset(ys);
    i :| 0 <= i < |ys| && ys[i] == xs[0];
  }

  lemma WithoutOne<T>(front: seq<T>, x: T, back: seq<T>)
    ensures multiset(front + back) == multiset(front + [x] + back) - multiset{x}
  {
  }

  lemma SameRanksSameOrder(a: seq<Ranked>, b: seq<Ranked>)
    requires WithRanks(a) == WithRanks(b)
    requires forall i | 0 <= i < |a| :: a[i].rank == 1
    requires forall i | 0 <= i < |b| :: b[i].rank == 1
    ensures a == b
  {
    assert |a| == |WithRanks(a)| && |b| == |WithRanks(b)|;
    forall i | 0 <= i < |a| ensures a[i] == b[i] {
      assert WithRanks(a)[i] == WithRanks(b)[i];
    }
  }

  /** The ranking is the same for every arrangement of the candidates exactly when no two different results tie. */
  lemma InputOrderIsIrrelevantIffTieFree(rs: seq<Requirement>, cs: seq<Candidate>, power: real -> real)
    requires PositiveWeights(rs)
    ensures TieFree(Scored(rs, cs, power), KeyLeq)
            <==> forall ds | multiset(ds) == multiset(cs) :: RankingOf(rs, ds, power) == RankingOf(rs, cs, power)
  {
    hide ScoreOf, RankingOf, PositiveWeights, KeyLeq;
    var scored := Scored(rs, cs, power);
    if TieFree(scored, KeyLeq) {
      forall ds | multiset(ds) == multiset(cs) ensures RankingOf(rs, ds, power) == RankingOf(rs, cs, power) {
        TieFreeRanksTheSame(rs, cs, ds, power);
      }
    } else {
      var i, j :| 0 <= i < j < |scored| && Tied(scored[i], scored[j], KeyLeq) && scored[i] != scored[j];
      SwappedCandidatesShow(rs, cs, i, j, power);
    }
  }

  lemma TieFreeRanksTheSame(rs: seq<Requirement>, cs: seq<Candidate>, ds: seq<Candidate>, power: real -> real)
    requires PositiveWeights(rs) && TieFree(Scored(rs, cs, power), KeyLeq) && multiset(ds) == multiset(cs)
    ensures RankingOf(rs, ds, power) == RankingOf(rs, cs, power)
  {
    KeyIsTotal();
    ScoredElements(rs, ds, cs, power);
    TieFreeSortsTheSame(Scored(rs, cs, power), Scored(rs, ds, power), KeyLeq);
  }

  lemma SwappedCandidatesShow(rs: seq<Requirement>, cs: seq<Candidate>, i: nat, j: nat, power: real -> real)
    requires PositiveWeights(rs) && i < j < |cs|
    requires var scored := Scored(rs, cs, power); Tied(scored[i], scored[j], KeyLeq) && scored[i] != scored[j]
    ensures var ds := cs[i := cs[j]][j := cs[i]];
            multiset(ds) == multiset(cs) && RankingOf(rs, ds, power) != RankingOf(rs, cs, power)
  {
    var scored := Scored(rs, cs, power);
    var ds := cs[i := cs[j]][j := cs[i]];
    var swapped := Scored(rs, ds, power);
    assert swapped == scored[i := scored[j]][j := scored[i]];
    KeyIsTotal();
    SwappedTieShows(scored, i, j, KeyLeq);
    SortedScoresAreUnranked(rs, cs, power);
    SortedScoresAreUnranked(rs, ds, power);
    if WithRanks(Sort(swapped, KeyLeq)) == WithRanks(Sort(scored, KeyLeq)) {
      SameRanksSameOrder(Sort(scored, KeyLeq), Sort(swapped, KeyLeq));
    }
  }

  /** Distinct candidate ids are enough: the same candidates in any order give the identical ranking. */
  lemma DistinctIdsRankTheSame(rs: seq<Requirement>, cs: seq<Candidate>, ds: seq<Candidate>, power: real -> real)
    requires PositiveWeights(rs) && DistinctIds(cs) && multiset(ds) == multiset(cs)
    ensures RankingOf(rs, ds, power) == RankingOf(rs, cs, power)
  {
    KeyIsTotal();
    TieFreeRanksTheSame(rs, cs, ds, power);
  }
}
