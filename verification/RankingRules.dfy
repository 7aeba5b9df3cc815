// What a ranked result says about its candidate, and in which order results come.
module RankingRules {
  import opened Wrappers
  import opened Rounding
  import opened Scoring
  import opened ScoringRules
  import opened StableSort
  import opened Ranking

  // ---------- the two averages ----------

  lemma {:induction false} WeightedSumMoves(rs: seq<Requirement>, scores: seq<real>, i: nat, score: real)
    requires |rs| == |scores| && i < |rs|
    ensures WeightedSum(rs, scores[i := score]) == WeightedSum(rs, scores) + Weighed(rs[i].weight, score - scores[i])
  {
    hide Weighed;
    var last := |rs| - 1;
    if i < last {
      assert scores[i := score][..last] == scores[..last][i := score];
      WeightedSumMoves(rs[..last], scores[..last], i, score);
    } else {
      assert scores[i := score][..last] == scores[..last];
      Distribute(rs[last].weight, scores[last], score - scores[last]);
    }
  }

  lemma SumOfQuotients(a: real, b: real, d: real)
    requires d > 0.0
    ensures (a + b) / d == a / d + b / d
  {
  }

  /** A changed score moves the average by its share of the total weight. With AverageIsBetween this leaves only the
      weighted mean. */
  lemma AverageMoves(rs: seq<Requirement>, scores: seq<real>, i: nat, score: real)
    requires |rs| == |scores| && PositiveWeights(rs) && i < |rs|
    ensures TotalWeight(rs) > 0.0
    ensures Average(rs, scores[i := score])
            == Average(rs, scores) + rs[i].weight * (score - scores[i]) / TotalWeight(rs)
  {
    TotalWeightPositive(rs);
    WeightedSumMoves(rs, scores, i, score);
    SumOfQuotients(WeightedSum(rs, scores), Weighed(rs[i].weight, score - scores[i]), TotalWeight(rs));
  }

  lemma {:induction false} UnitWeightsSum(rs: seq<Requirement>, xs: seq<real>)
    requires |rs| == |xs| && forall i | 0 <= i < |rs| :: rs[i].weight == 1.0
    ensures WeightedSum(rs, xs) == Sum(xs) && TotalWeight(rs) == |rs| as real
  {
    if rs != [] {
      UnitWeightsSum(rs[..|rs| - 1], xs[..|rs| - 1]);
    }
  }

  /** The confidence of a result is the average of the confidences with equal weights. */
  lemma ConfidenceIsMean(rs: seq<Requirement>, all: seq<Assessment>)
    requires |rs| == |all| > 0 && forall i | 0 <= i < |rs| :: rs[i].weight == 1.0
    ensures Confidence(all) == FinalScore(rs, seq(|all|, i requires 0 <= i < |all| => all[i].confidence))
  {
    UnitWeightsSum(rs, Confidences(all));
    assert Confidences(all) == seq(|all|, i requires 0 <= i < |all| => all[i].confidence);
  }

  // ---------- lists and eligibility ----------

  /** The keys of the requirements with one of these statuses, in the order of the request. */
  function KeysWith(rs: seq<Requirement>, all: seq<Assessment>, statuses: set<Status>): seq<string>
    requires |rs| == |all|
  {
    if rs == [] then []
    else (if all[0].status in statuses then [rs[0].key] else []) + KeysWith(rs[1..], all[1..], statuses)
  }

  lemma {:induction false} KeysWithSnoc(rs: seq<Requirement>, all: seq<Assessment>, statuses: set<Status>)
    requires |rs| == |all| > 0
    ensures var last := |rs| - 1;
            KeysWith(rs, all, statuses)
            == KeysWith(rs[..last], all[..last], statuses) + (if all[last].status in statuses then [rs[last].key] else [])
  {
    var last := |rs| - 1;
    if last > 0 {
      KeysWithSnoc(rs[1..], all[1..], statuses);
      assert rs[1..][..last - 1] == rs[..last][1..] && all[1..][..last - 1] == all[..last][1..];
    }
  }

  /** Strengths are the requirements met, unknowns those without data, gaps all others, each in request order. */
  lemma {:induction false} ListsAreByStatus(rs: seq<Requirement>, all: seq<Assessment>)
    requires |rs| == |all|
    ensures Judge(rs, all).strengths == KeysWith(rs, all, {Met})
    ensures Judge(rs, all).gaps == KeysWith(rs, all, {PartiallyMet, NotFound, NotMet})
    ensures Judge(rs, all).unknowns == KeysWith(rs, all, {Unknown})
  {
    if rs != [] {
      var last := |rs| - 1;
      ListsAreByStatus(rs[..last], all[..last]);
      KeysWithSnoc(rs, all, {Met});
      KeysWithSnoc(rs, all, {PartiallyMet, NotFound, NotMet});
      KeysWithSnoc(rs, all, {Unknown});
    }
  }

  predicate HardMissing(rs: seq<Requirement>, all: seq<Assessment>) {
    exists i | 0 <= i < |rs| && i < |all| :: rs[i].hard && all[i].status in {NotFound, NotMet}
  }

  predicate MustMissing(rs: seq<Requirement>, all: seq<Assessment>) {
    exists i | 0 <= i < |rs| && i < |all| :: rs[i].mustHave && all[i].status != Met
  }

  /** A result reports its candidate's assessments, their weighted average, their mean confidence, the three lists, and
      the eligibility: failed if a hard requirement was not found, else only potential if a must-have is not met. */
  lemma ResultIsOfItsAssessments(rs: seq<Requirement>, c: Candidate, power: real -> real)
    requires PositiveWeights(rs)
    ensures var result := ScoreOf(rs, c, power);
            var all := result.assessments;
            && result.id == c.id && |all| == |rs| && (forall i | 0 <= i < |rs| :: all[i] == Assess(rs[i], c, power))
            && result.score == FinalScore(rs, seq(|all|, i requires 0 <= i < |all| => all[i].score))
            && result.confidence == Confidence(all)
            && result.strengths == KeysWith(rs, all, {Met}) && result.unknowns == KeysWith(rs, all, {Unknown})
            && result.gaps == KeysWith(rs, all, {PartiallyMet, NotFound, NotMet})
            && result.eligibility == if HardMissing(rs, all) then ConstraintFailed
                                     else if MustMissing(rs, all) then PotentiallyEligible else Eligible
  {
    var all := Assessments(rs, c, power);
    ListsAreByStatus(rs, all);
    EligibilityMeaning(rs, all);
    assert Scores(all) == seq(|all|, i requires 0 <= i < |all| => all[i].score);
    assert HardMissing(rs, all) <==> Judge(rs, all).hardFailed;
    assert MustMissing(rs, all) <==> Judge(rs, all).mustGap;
    hide Judge, Assess, FinalScore, Confidence, HardMissing, MustMissing, KeysWith;
  }

  /** A candidate who lacks a hard skill, and every related one, fails the constraint; one who lists it with the years it
      asks for does not fail for it. */
  lemma HardSkillDecides(rs: seq<Requirement>, c: Candidate, power: real -> real, k: nat)
    requires PositiveWeights(rs) && ValidCandidate(c) && forall i | 0 <= i < |rs| :: ValidRequirement(rs[i])
    requires k < |rs| && rs[k].kind == Skill && rs[k].hard
    ensures !SkillListed(c.skills, rs[k].skill) && !RelatedListed(c.skills, rs[k].related) ==>
              ScoreOf(rs, c, power).eligibility == ConstraintFailed
    ensures (exists i: nat | i < |c.skills| :: FirstOfName(c.skills, rs[k].skill, i) && !FewerYears(c.skills[i], rs[k]))
            && (forall i | 0 <= i < |rs| && i != k :: !rs[i].hard) ==>
              ScoreOf(rs, c, power).eligibility != ConstraintFailed && rs[k].key in ScoreOf(rs, c, power).strengths
  {
    var all := ScoreOf(rs, c, power).assessments;
    ResultIsOfItsAssessments(rs, c, power);
    SkillIsAssessed(rs[k], c, power);
    assert all[k] == Assess(rs[k], c, power);
    if all[k].status == Met {
      KeyIsWith(rs, all, k, {Met});
    }
    hide ScoreOf, Assess, KeysWith, ValidRequirement, ValidCandidate;
  }

  lemma {:induction false} KeyIsWith(rs: seq<Requirement>, all: seq<Assessment>, k: nat, statuses: set<Status>)
    requires |rs| == |all| && k < |rs| && all[k].status in statuses
    ensures rs[k].key in KeysWith(rs, all, statuses)
  {
    if k > 0 {
      KeyIsWith(rs[1..], all[1..], k - 1, statuses);
    }
  }

  // ---------- the order ----------

  /** By code point: at the first difference, or as a prefix. */
  predicate TextBefore(a: string, b: string) {
    a <= b || exists k | 0 <= k < |a| && k < |b| :: a[..k] == b[..k] && a[k] < b[k]
  }

  lemma {:induction false} TextLeqIsTextBefore(a: string, b: string)
    requires TextLeq(a, b)
    ensures TextBefore(a, b)
  {
    if a != [] && a[0] == b[0] {
      TextLeqIsTextBefore(a[1..], b[1..]);
      assert a == [a[0]] + a[1..] && b == [b[0]] + b[1..];
      if !(a[1..] <= b[1..]) {
        var k :| 0 <= k < |a[1..]| && k < |b[1..]| && a[1..][..k] == b[1..][..k] && a[1..][k] < b[1..][k];
        assert a[..k + 1] == [a[0]] + a[1..][..k] && b[..k + 1] == [b[0]] + b[1..][..k];
      }
    } else if a != [] {
      assert a[..0] == b[..0];
    }
  }

  predicate ComesBefore(a: Ranked, b: Ranked) {
    if a.score != b.score then a.score > b.score
    else if a.confidence != b.confidence then a.confidence > b.confidence
    else TextBefore(a.id, b.id)
  }

  lemma KeyLeqComesBefore(a: Ranked, b: Ranked)
    requires KeyLeq(a, b)
    ensures ComesBefore(a, b)
  {
    if TextLeq(a.id, b.id) {
      TextLeqIsTextBefore(a.id, b.id);
    }
  }

  /** The result is some candidate's, with its rank filled in. */
  ghost predicate IsResult(result: Ranked, rs: seq<Requirement>, cs: seq<Candidate>, power: real -> real)
    requires PositiveWeights(rs)
  {
    exists k :: 0 <= k < |cs| && result == ScoreOf(rs, cs[k], power).(rank := result.rank)
  }

  ghost predicate HasResult(c: Candidate, results: seq<Ranked>, rs: seq<Requirement>, power: real -> real)
    requires PositiveWeights(rs)
  {
    exists i :: 0 <= i < |results| && results[i] == ScoreOf(rs, c, power).(rank := i + 1)
  }

  lemma ResultsArePermuted(rs: seq<Requirement>, cs: seq<Candidate>, sorted: seq<Ranked>, power: real -> real)
    requires PositiveWeights(rs) && multiset(sorted) == multiset(Scored(rs, cs, power))
    ensures forall i | 0 <= i < |sorted| :: IsResult(WithRanks(sorted)[i], rs, cs, power)
    ensures forall k | 0 <= k < |cs| :: HasResult(cs[k], WithRanks(sorted), rs, power)
  {
    hide ScoreOf, PositiveWeights;
    var scored, results := Scored(rs, cs, power), WithRanks(sorted);
    forall i | 0 <= i < |sorted| ensures IsResult(results[i], rs, cs, power) {
      assert sorted[i] in multiset(scored);
      var k :| 0 <= k < |scored| && scored[k] == sorted[i];
      assert results[i] == ScoreOf(rs, cs[k], power).(rank := results[i].rank);
    }
    forall k | 0 <= k < |cs| ensures HasResult(cs[k], results, rs, power) {
      assert scored[k] in multiset(sorted);
      var i :| 0 <= i < |sorted| && sorted[i] == scored[k];
      assert results[i] == ScoreOf(rs, cs[k], power).(rank := i + 1);
    }
  }

  /** The ranking: best score first, then most confident, then by id; rank and place agree; every result is that of a
      candidate of the request, and every candidate has one. */
  lemma BestComesFirst(rs: seq<Requirement>, cs: seq<Candidate>, power: real -> real)
    requires PositiveWeights(rs)
    ensures var results := RankingOf(rs, cs, power);
            && |results| == |cs|
            && (forall i, j | 0 <= i < j < |results| :: ComesBefore(results[i], results[j]))
            && (forall i | 0 <= i < |results| :: results[i].rank == i + 1 && IsResult(results[i], rs, cs, power))
            && (forall k | 0 <= k < |cs| :: HasResult(cs[k], results, rs, power))
  {
    var scored := Scored(rs, cs, power);
    var sorted := Sort(scored, KeyLeq);
    KeyIsTotal();
    SortSorts(scored, KeyLeq);
    hide ScoreOf, Sort, PositiveWeights, KeyLeq, ComesBefore, HasResult, IsResult;
    ResultsArePermuted(rs, cs, sorted, power);
    forall i, j | 0 <= i < j < |sorted| ensures ComesBefore(WithRanks(sorted)[i], WithRanks(sorted)[j]) {
      RanksDoNotMatter(sorted[i], sorted[j], i + 1, j + 1);
    }
    assert |sorted| == |multiset(scored)|;
  }

  lemma RanksDoNotMatter(a: Ranked, b: Ranked, i: nat, j: nat)
    requires KeyLeq(a, b)
    ensures ComesBefore(a.(rank := i), b.(rank := j))
  {
    KeyLeqComesBefore(a, b);
  }
}
