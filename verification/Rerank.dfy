// Merging an AI ranking payload into the baseline ranking.
module Rerank {
  import opened Wrappers
  import opened Tables
  import opened Basics
  import opened Rounding
  import opened Scoring
  import opened Ranking
  import opened StableSort

  // A field of the payload where a number is expected.
  datatype Field = Missing | Finite(value: real) | NotFinite | NotANumber

  datatype AiRequirement = AiRequirement(key: string, status: Option<Status>, score: Field, confidence: Field)

  // An entry of the payload; an unrecognised status or eligibility reads as None, no candidate_id as "".
  datatype AiResult = AiResult(id: string, score: Field, confidence: Field, eligibility: Option<Eligibility>,
                               strengths: seq<string>, gaps: seq<string>, unknowns: seq<string>,
                               requirements: seq<AiRequirement>)

  function ClampScore(field: Field, fallback: real): real {
    var number := if field.Finite? then field.value else fallback;
    MaxReal(0.0, MinReal(1.0, number))
  }

  /** The entry for a candidate: of several, the last one. */
  function EntryFor(payload: seq<AiResult>, id: string): Option<AiResult> {
    match FindLast(payload, (r: AiResult) => r.id != "" && r.id == id)
    case None => None
    case Some(i) => Some(payload[i])
  }

  function RequirementFor(entries: seq<AiRequirement>, key: string): Option<AiRequirement> {
    match FindLast(entries, (r: AiRequirement) => r.key != "" && r.key == key)
    case None => None
    case Some(i) => Some(entries[i])
  }

  function MergeAssessment(a: Assessment, ai: Option<AiRequirement>): Assessment {
    var score, confidence := if ai.Some? then ai.value.score else Missing, if ai.Some? then ai.value.confidence else Missing;
    a.(status := if ai.Some? && ai.value.status.Some? then ai.value.status.value else a.status,
    score := ToFixed(ClampScore(score, a.score), FOUR_DECIMALS),
    confidence := ToFixed(ClampScore(confidence, a.confidence), FOUR_DECIMALS))
  }

  function MergeAssessments(all: seq<Assessment>, entries: seq<AiRequirement>): seq<Assessment> {
    seq(|all|, i requires 0 <= i < |all| => MergeAssessment(all[i], RequirementFor(entries, all[i].key)))
  }

  function MergeResult(b: Ranked, ai: Option<AiResult>): Ranked {
    match ai
    case None =>
      b.(rank := 1,
      score := ToFixed(ClampScore(Missing, b.score), SIX_DECIMALS),
      confidence := ToFixed(ClampScore(Missing, b.confidence), SIX_DECIMALS),
      assessments := MergeAssessments(b.assessments, []))
    case Some(r) =>
      Ranked(b.id, 1,
             ToFixed(ClampScore(r.score, b.score), SIX_DECIMALS),
             ToFixed(ClampScore(r.confidence, b.confidence), SIX_DECIMALS),
             if r.eligibility.Some? then r.eligibility.value else b.eligibility,
             if r.strengths != [] then Take(r.strengths, 5) else b.strengths,
             if r.gaps != [] then Take(r.gaps, 5) else b.gaps,
             if r.unknowns != [] then Take(r.unknowns, 4) else b.unknowns,
             MergeAssessments(b.assessments, r.requirements))
  }

  function Merged(baseline: seq<Ranked>, payload: seq<AiResult>): (merged: seq<Ranked>)
    ensures |merged| == |baseline|
  {
    seq(|baseline|, i requires 0 <= i < |baseline| => MergeResult(baseline[i], EntryFor(payload, baseline[i].id)))
  }

  /** The rank a candidate had in the baseline. */
  function BaselineRank(baseline: seq<Ranked>, id: string): int {
    match FindLast(baseline, (b: Ranked) => b.id == id)
    case None => 0x1F_FFFF_FFFF_FFFF
    case Some(i) => baseline[i].rank
  }

  /** Score, then confidence, both descending, then the baseline rank. */
  predicate RerankLeq(baseline: seq<Ranked>, a: Ranked, b: Ranked) {
    a.score > b.score
    || (a.score == b.score
        && (a.confidence > b.confidence
            || (a.confidence == b.confidence && BaselineRank(baseline, a.id) <= BaselineRank(baseline, b.id))))
  }

  function Order(baseline: seq<Ranked>): (Ranked, Ranked) -> bool {
    (a, b) => RerankLeq(baseline, a, b)
  }

  lemma OrderIsTotal(baseline: seq<Ranked>)
    ensures TotalPreorder(Order(baseline))
  {
  }

  function Reranked(baseline: seq<Ranked>, payload: seq<AiResult>): seq<Ranked> {
    WithRanks(Sort(Merged(baseline, payload), Order(baseline)))
  }

  // ---------- for every payload ----------

  lemma ClampInUnit(field: Field, fallback: real, scale: int)
    requires scale > 0
    ensures Unit(ToFixed(ClampScore(field, fallback), scale))
  {
    RoundingKeepsUnit(ClampScore(field, fallback), scale);
  }

  ghost predicate AllShares(r: Ranked) {
    && Unit(r.score) && Unit(r.confidence)
    && forall i | 0 <= i < |r.assessments| :: Unit(r.assessments[i].score) && Unit(r.assessments[i].confidence)
  }

  lemma MergedAreShares(b: Ranked, ai: Option<AiResult>)
    ensures AllShares(MergeResult(b, ai))
  {
    var score, confidence := if ai.Some? then ai.value.score else Missing, if ai.Some? then ai.value.confidence else Missing;
    ClampInUnit(score, b.score, SIX_DECIMALS);
    ClampInUnit(confidence, b.confidence, SIX_DECIMALS);
    var entries := if ai.Some? then ai.value.requirements else [];
    var all := MergeAssessments(b.assessments, entries);
    forall i | 0 <= i < |all| ensures Unit(all[i].score) && Unit(all[i].confidence) {
      var entry := RequirementFor(entries, b.assessments[i].key);
      ClampInUnit(if entry.Some? then entry.value.score else Missing, b.assessments[i].score, FOUR_DECIMALS);
      ClampInUnit(if entry.Some? then entry.value.confidence else Missing, b.assessments[i].confidence, FOUR_DECIMALS);
    }
  }

  /** Whatever the payload says, every baseline result is merged exactly once and nothing else appears, every number
      is a share of one, and the ranks run from one. */
  lemma MergeIsConservative(baseline: seq<Ranked>, payload: seq<AiResult>)
    ensures var results := Reranked(baseline, payload);
            && |results| == |baseline|
            && multiset(Unranked(results)) == multiset(Merged(baseline, payload))
            && (forall i | 0 <= i < |baseline| :: Merged(baseline, payload)[i].id == baseline[i].id)
            && (forall i | 0 <= i < |results| :: results[i].rank == i + 1 && AllShares(results[i]))
            && (forall i, j | 0 <= i < j < |results| :: RerankLeq(baseline, results[i], results[j]))
  {
    var merged := Merged(baseline, payload);
    var sorted := Sort(merged, Order(baseline));
    var results := WithRanks(sorted);
    OrderIsTotal(baseline);
    SortSorts(merged, Order(baseline));
    forall i | 0 <= i < |sorted| ensures sorted[i].rank == 1 && AllShares(sorted[i]) {
      var k := Origin(merged, sorted, i);
      MergedAreShares(baseline[k], EntryFor(payload, baseline[k].id));
    }
    assert Unranked(results) == sorted;
    forall i, j | 0 <= i < j < |results| ensures RerankLeq(baseline, results[i], results[j]) {
      assert Order(baseline)(sorted[i], sorted[j]);
    }
  }

  lemma Origin(xs: seq<Ranked>, ys: seq<Ranked>, i: nat) returns (k: nat)
    requires multiset(xs) == multiset(ys) && i < |ys|
    ensures k < |xs| && xs[k] == ys[i]
  {
    assert ys[i] in multiset(xs);
    k :| 0 <= k < |xs| && xs[k] == ys[i];
  }

  // ---------- the merge as it runs ----------

  lemma EntryOfSnoc(payload: seq<AiResult>, r: AiResult, id: string)
    ensures EntryFor(payload + [r], id) == if r.id != "" && r.id == id then Some(r) else EntryFor(payload, id)
  {
    assert (payload + [r])[..|payload|] == payload;
  }

  /** new Map(...): the named entries of the payload by candidate, a later one replacing an earlier. */
  method IndexPayload(payload: seq<AiResult>) returns (byCandidate: map<string, AiResult>)
    ensures forall id :: EntryFor(payload, id) == if id in byCandidate then Some(byCandidate[id]) else None
  {
    byCandidate := map[];
    for i := 0 to |payload|
      invariant forall id :: EntryFor(payload[..i], id) == if id in byCandidate then Some(byCandidate[id]) else None
    {
      assert payload[..i + 1] == payload[..i] + [payload[i]];
      forall id {
        EntryOfSnoc(payload[..i], payload[i], id);
      }
      if payload[i].id != "" {
        byCandidate := byCandidate[payload[i].id := payload[i]];
      }
    }
    assert payload[..|payload|] == payload;
  }

  /** The merged, sorted and ranked results: as many as the baseline has, best first, ranked from one, all numbers shares. */
  method BuildAiRanking(baseline: seq<Ranked>, payload: seq<AiResult>) returns (results: seq<Ranked>)
    ensures results == Reranked(baseline, payload)
    ensures |results| == |baseline|
    ensures forall i | 0 <= i < |results| :: results[i].rank == i + 1 && AllShares(results[i])
    ensures forall i, j | 0 <= i < j < |results| :: RerankLeq(baseline, results[i], results[j])
  {
    hide MergeResult, Sort, RerankLeq, AllShares;
    var byCandidate := IndexPayload(payload);
    results := [];
    for i := 0 to |baseline|
      invariant results == Merged(baseline[..i], payload)
    {
      var b := baseline[i];
      var ai := if b.id in byCandidate then Some(byCandidate[b.id]) else None;
      results := results + [MergeResult(b, ai)];
    }
    assert baseline[..|baseline|] == baseline;
    results := Sort(results, Order(baseline));
    results := AssignRanks(results);
    MergeIsConservative(baseline, payload);
  }

  // ---------- what the payload decides ----------

  /** What a number of the payload stands for: itself, or the nearest end of the unit interval. */
  predicate Means(field: Field, share: real) {
    field.Finite? && Unit(share)
    && (field.value < 0.0 ==> share == 0.0) && (field.value > 1.0 ==> share == 1.0) && (Unit(field.value) ==> share == field.value)
  }

  lemma FiniteFieldIsTaken(field: Field, fallback: real, share: real, scale: int)
    requires scale > 0 && Means(field, share)
    ensures Near(ToFixed(ClampScore(field, fallback), scale), share, scale)
  {
    RoundingIsNearest(share, scale);
  }

  /** A finite score or confidence for a candidate replaces the baseline's, to six decimals; of several entries for
      the candidate the last one counts. */
  lemma PayloadNumbersAreTaken(baseline: seq<Ranked>, payload: seq<AiResult>, i: nat, e: nat, share: real)
    requires i < |baseline| && e < |payload| && payload[e].id == baseline[i].id != ""
    requires forall later | e < later < |payload| :: payload[later].id != baseline[i].id
    ensures Means(payload[e].score, share) ==> Near(Merged(baseline, payload)[i].score, share, SIX_DECIMALS)
    ensures Means(payload[e].confidence, share) ==> Near(Merged(baseline, payload)[i].confidence, share, SIX_DECIMALS)
  {
    assert EntryFor(payload, baseline[i].id) == Some(payload[e]);
    if Means(payload[e].score, share) {
      FiniteFieldIsTaken(payload[e].score, baseline[i].score, share, SIX_DECIMALS);
    }
    if Means(payload[e].confidence, share) {
      FiniteFieldIsTaken(payload[e].confidence, baseline[i].confidence, share, SIX_DECIMALS);
    }
  }

  /** The number in effect: the payload's if it is finite, the baseline's if not. */
  predicate InEffect(field: Field, fallback: real, share: real) {
    var x := if field.Finite? then field.value else fallback;
    if x < 0.0 then share == 0.0 else if x > 1.0 then share == 1.0 else share == x
  }

  lemma NumberInEffect(field: Field, fallback: real, share: real)
    requires InEffect(field, fallback, share)
    ensures ClampScore(field, fallback) == share
  {
  }

  /** The list in effect: the first few of the payload's, the baseline's if the payload has none. */
  predicate ListInEffect(merged: seq<string>, given: seq<string>, fallback: seq<string>, most: nat) {
    if given == [] then merged == fallback
    else if |given| <= most then merged == given
    else merged == given[..most]
  }

  /** Entry e is the last one for this requirement; ones without a key count for none. */
  predicate LastForKey(entries: seq<AiRequirement>, key: string, e: nat) {
    e < |entries| && key != "" && entries[e].key == key && forall k | e < k < |entries| :: entries[k].key != key
  }

  predicate Named(entries: seq<AiRequirement>, key: string) {
    key != "" && exists e | 0 <= e < |entries| :: entries[e].key == key
  }

  /** An assessment keeps its key and evidence; status, score and confidence are the payload's where it gives them. */
  lemma AssessmentIsMerged(a: Assessment, entries: seq<AiRequirement>)
    ensures var m := MergeAssessment(a, RequirementFor(entries, a.key));
            && m.key == a.key && m.evidences == a.evidences
            && (forall e: nat | LastForKey(entries, a.key, e) ::
                  && m.status == (match entries[e].status case Some(status) => status case None => a.status)
                  && (forall share | InEffect(entries[e].score, a.score, share) :: m.score == ToFixed(share, FOUR_DECIMALS))
                  && (forall share | InEffect(entries[e].confidence, a.confidence, share) :: m.confidence == ToFixed(share, FOUR_DECIMALS)))
            && (!Named(entries, a.key) ==>
                  && m.status == a.status
                  && (forall share | InEffect(Missing, a.score, share) :: m.score == ToFixed(share, FOUR_DECIMALS))
                  && (forall share | InEffect(Missing, a.confidence, share) :: m.confidence == ToFixed(share, FOUR_DECIMALS)))
  {
    var found := FindLast(entries, (r: AiRequirement) => r.key != "" && r.key == a.key);
    assert forall e: nat | LastForKey(entries, a.key, e) :: found == Some(e);
    assert found.Some? ==> Named(entries, a.key);
    var entry := RequirementFor(entries, a.key);
    var score, confidence := if entry.Some? then entry.value.score else Missing, if entry.Some? then entry.value.confidence else Missing;
    forall share | InEffect(score, a.score, share) ensures ClampScore(score, a.score) == share {
      NumberInEffect(score, a.score, share);
    }
    forall share | InEffect(confidence, a.confidence, share) ensures ClampScore(confidence, a.confidence) == share {
      NumberInEffect(confidence, a.confidence, share);
    }
    hide ToFixed, ClampScore, InEffect;
  }

  predicate LastForCandidate(payload: seq<AiResult>, id: string, e: nat) {
    e < |payload| && id != "" && payload[e].id == id && forall k | e < k < |payload| :: payload[k].id != id
  }

  /** A candidate the payload names gets eligibility, lists, numbers and assessments of its last entry, each where the entry
      gives it and the baseline's otherwise. */
  lemma EntryIsMerged(baseline: seq<Ranked>, payload: seq<AiResult>, i: nat, e: nat)
    requires i < |baseline| && LastForCandidate(payload, baseline[i].id, e)
    ensures var b, r, m := baseline[i], payload[e], Merged(baseline, payload)[i];
            && m.id == b.id
            && m.eligibility == (match r.eligibility case Some(verdict) => verdict case None => b.eligibility)
            && ListInEffect(m.strengths, r.strengths, b.strengths, 5) && ListInEffect(m.gaps, r.gaps, b.gaps, 5)
            && ListInEffect(m.unknowns, r.unknowns, b.unknowns, 4)
            && (forall share | InEffect(r.score, b.score, share) :: m.score == ToFixed(share, SIX_DECIMALS))
            && (forall share | InEffect(r.confidence, b.confidence, share) :: m.confidence == ToFixed(share, SIX_DECIMALS))
            && |m.assessments| == |b.assessments|
            && (forall k | 0 <= k < |b.assessments| ::
                  m.assessments[k] == MergeAssessment(b.assessments[k], RequirementFor(r.requirements, b.assessments[k].key)))
  {
    var b, r := baseline[i], payload[e];
    assert EntryFor(payload, b.id) == Some(r);
    forall share | InEffect(r.score, b.score, share) ensures ClampScore(r.score, b.score) == share {
      NumberInEffect(r.score, b.score, share);
    }
    forall share | InEffect(r.confidence, b.confidence, share) ensures ClampScore(r.confidence, b.confidence) == share {
      NumberInEffect(r.confidence, b.confidence, share);
    }
    hide ToFixed, ClampScore, InEffect, MergeAssessment, EntryFor;
  }

  predicate OutOrdered(a: Ranked, b: Ranked, rankA: nat, rankB: nat) {
    if a.score != b.score then a.score > b.score
    else if a.confidence != b.confidence then a.confidence > b.confidence
    else rankA <= rankB
  }

  /** The merged results come by score, then by confidence, both descending, then in the order of the baseline. */
  lemma MergedComeInOrder(baseline: seq<Ranked>, payload: seq<AiResult>, i: nat, j: nat, p: nat, q: nat)
    requires forall k, l | 0 <= k < l < |baseline| :: baseline[k].id != baseline[l].id
    requires i < j < |Reranked(baseline, payload)| && p < |baseline| && q < |baseline|
    requires Reranked(baseline, payload)[i].id == baseline[p].id && Reranked(baseline, payload)[j].id == baseline[q].id
    ensures OutOrdered(Reranked(baseline, payload)[i], Reranked(baseline, payload)[j], baseline[p].rank, baseline[q].rank)
  {
    MergeIsConservative(baseline, payload);
    RankOfPosition(baseline, p);
    RankOfPosition(baseline, q);
    hide Reranked;
  }

  lemma RankOfPosition(baseline: seq<Ranked>, p: nat)
    requires p < |baseline| && forall k, l | 0 <= k < l < |baseline| :: baseline[k].id != baseline[l].id
    ensures BaselineRank(baseline, baseline[p].id) == baseline[p].rank
  {
  }

  // ---------- what the payload leaves alone ----------

  /** What the baseline scorer sends: ordered, ranked from one, distinct, shares of one with six decimals. */
  ghost predicate BaselineOk(baseline: seq<Ranked>) {
    && (forall i | 0 <= i < |baseline| :: baseline[i].rank == i + 1)
    && (forall i, j | 0 <= i < j < |baseline| :: baseline[i].id != baseline[j].id && KeyLeq(baseline[i], baseline[j]))
    && (forall i | 0 <= i < |baseline| :: Settled(baseline[i].score, SIX_DECIMALS) && Settled(baseline[i].confidence, SIX_DECIMALS))
  }

  /** A share that clamping and printing leave as it is. */
  predicate Settled(x: real, scale: int)
    requires scale > 0
  {
    Unit(x) && ToFixed(x, scale) == x
  }

  lemma SettledIsKept(field: Field, x: real, scale: int)
    requires scale > 0 && Settled(x, scale) && !field.Finite?
    ensures ToFixed(ClampScore(field, x), scale) == x
  {
  }

  /** The payload gives the candidate neither a usable score nor a usable confidence. */
  predicate LeavesAlone(payload: seq<AiResult>, id: string) {
    var entry := EntryFor(payload, id);
    entry.Some? ==> !entry.value.score.Finite? && !entry.value.confidence.Finite?
  }

  lemma BaselineRankIsPosition(baseline: seq<Ranked>, i: nat)
    requires BaselineOk(baseline) && i < |baseline|
    ensures BaselineRank(baseline, baseline[i].id) == i + 1
  {
  }

  lemma LeftAloneKeepsNumbers(baseline: seq<Ranked>, payload: seq<AiResult>, i: nat)
    requires BaselineOk(baseline) && i < |baseline| && LeavesAlone(payload, baseline[i].id)
    ensures Merged(baseline, payload)[i].score == baseline[i].score
            && Merged(baseline, payload)[i].confidence == baseline[i].confidence
  {
    var entry := EntryFor(payload, baseline[i].id);
    SettledIsKept(if entry.Some? then entry.value.score else Missing, baseline[i].score, SIX_DECIMALS);
    SettledIsKept(if entry.Some? then entry.value.confidence else Missing, baseline[i].confidence, SIX_DECIMALS);
  }

  lemma IdsAreUnique(baseline: seq<Ranked>, payload: seq<AiResult>, p: nat, i: nat)
    requires BaselineOk(baseline) && i < |baseline| && p < |Reranked(baseline, payload)|
    requires Reranked(baseline, payload)[p].id == baseline[i].id
    ensures p < |Sort(Merged(baseline, payload), Order(baseline))|
            && Sort(Merged(baseline, payload), Order(baseline))[p] == Merged(baseline, payload)[i]
  {
    var merged := Merged(baseline, payload);
    OrderIsTotal(baseline);
    SortSorts(merged, Order(baseline));
    var k := Origin(merged, Sort(merged, Order(baseline)), p);
    assert merged[k].id == baseline[k].id;
    assert k == i;
  }

  /** Two candidates that the payload leaves alone keep their baseline order, whoever moves around them. */
  lemma LeftAloneKeepsOrder(baseline: seq<Ranked>, payload: seq<AiResult>, i: nat, j: nat, p: nat, q: nat)
    requires BaselineOk(baseline) && i < j < |baseline|
    requires LeavesAlone(payload, baseline[i].id) && LeavesAlone(payload, baseline[j].id)
    requires p < |Reranked(baseline, payload)| && Reranked(baseline, payload)[p].id == baseline[i].id
    requires q < |Reranked(baseline, payload)| && Reranked(baseline, payload)[q].id == baseline[j].id
    ensures p < q
  {
    hide Sort, MergeResult, LeavesAlone, Settled;
    var merged := Merged(baseline, payload);
    var sorted := Sort(merged, Order(baseline));
    IdsAreUnique(baseline, payload, p, i);
    IdsAreUnique(baseline, payload, q, j);
    LeftAloneKeepsNumbers(baseline, payload, i);
    LeftAloneKeepsNumbers(baseline, payload, j);
    BaselineRankIsPosition(baseline, i);
    BaselineRankIsPosition(baseline, j);
    assert KeyLeq(baseline[i], baseline[j]);
    assert merged[i].id == baseline[i].id && merged[j].id == baseline[j].id;
    assert !Order(baseline)(merged[j], merged[i]);
    OrderIsTotal(baseline);
    SortSorts(merged, Order(baseline));
    NotLaterFirst(sorted, q, p, Order(baseline));
  }

  lemma NotLaterFirst(sorted: seq<Ranked>, q: nat, p: nat, leq: (Ranked, Ranked) -> bool)
    requires Sorted(sorted, leq) && q < |sorted| && p < |sorted| && !leq(sorted[q], sorted[p])
    ensures p <= q
  {
  }

  // ---------- the scorer's output, merged with nothing ----------

  predicate Printed(x: real, scale: int)
    requires scale > 0
  {
    ToFixed(x, scale) == x
  }

  lemma ConstantsArePrinted()
    ensures forall x | x in {0.0, 0.3, 0.35, 0.4, 0.45, 0.5, 0.55, 0.65, 0.7, 0.75, 0.8, 0.82, 0.9, 0.95, 1.0} ::
              Printed(x, FOUR_DECIMALS)
  {
  }

  lemma SkillIsPrinted(r: Requirement, c: Candidate)
    ensures Printed(AssessSkill(r, c).score, FOUR_DECIMALS) && Printed(AssessSkill(r, c).confidence, FOUR_DECIMALS)
  {
    ConstantsArePrinted();
    var found := FindFirst(c.skills, (s: SkillEntry) => s.name == r.skill);
    if found.Some? && r.minimumYears.Some? && c.skills[found.value].years.Some? {
      var years, minimum := c.skills[found.value].years.value, r.minimumYears.value;
      ToFixedKeepsRounded(MaxReal(0.2, if minimum > 0.0 then years / minimum else 0.0), FOUR_DECIMALS);
    }
  }

  lemma ExperienceIsPrinted(r: Requirement, c: Candidate, power: real -> real)
    ensures Printed(AssessExperience(r, c, power).score, FOUR_DECIMALS)
    ensures Printed(AssessExperience(r, c, power).confidence, FOUR_DECIMALS)
  {
    ConstantsArePrinted();
    if c.years.Some? {
      ToFixedKeepsRounded(ExperienceScore(Ratio(r, c), power), FOUR_DECIMALS);
    }
  }

  lemma ListedIsPrinted(r: Requirement, entries: seq<Listed>)
    ensures Printed(AssessListed(r, entries).score, FOUR_DECIMALS) && Printed(AssessListed(r, entries).confidence, FOUR_DECIMALS)
  {
    ConstantsArePrinted();
    ToFixedKeepsRounded(BestMatch(r.nameTokens + r.descriptionTokens, entries).1, FOUR_DECIMALS);
  }

  lemma LanguageIsPrinted(r: Requirement, c: Candidate)
    ensures Printed(AssessLanguage(r, c).score, FOUR_DECIMALS) && Printed(AssessLanguage(r, c).confidence, FOUR_DECIMALS)
  {
    ConstantsArePrinted();
    var found := FindFirst(c.languages, (l: LanguageEntry) => l.tokens * r.nameTokens != {});
    if found.Some? {
      ToFixedKeepsRounded(LanguageScore(c.languages[found.value].proficiency), FOUR_DECIMALS);
    }
  }

  lemma TitleIsPrinted(r: Requirement, c: Candidate)
    ensures Printed(AssessTitle(r, c).score, FOUR_DECIMALS) && Printed(AssessTitle(r, c).confidence, FOUR_DECIMALS)
  {
    ConstantsArePrinted();
    if c.title.Some? {
      ToFixedKeepsRounded(Overlap(r.nameTokens, c.title.value), FOUR_DECIMALS);
    }
  }

  /** Every number of an assessment is a share that printing with four decimals leaves as it is. */
  lemma AssessmentsAreSettled(r: Requirement, c: Candidate, power: real -> real)
    requires ValidRequirement(r) && ValidCandidate(c) && IsPower(power)
    ensures Settled(Assess(r, c, power).score, FOUR_DECIMALS) && Settled(Assess(r, c, power).confidence, FOUR_DECIMALS)
  {
    AssessmentsAreShares(r, c, power);
    match r.kind
    case Skill => SkillIsPrinted(r, c);
    case Experience => ExperienceIsPrinted(r, c, power);
    case Education => ListedIsPrinted(r, c.educations);
    case Certification => ListedIsPrinted(r, c.certifications);
    case Language => LanguageIsPrinted(r, c);
    case _ => TitleIsPrinted(r, c);
  }

  predicate ValidRequest(rs: seq<Requirement>, cs: seq<Candidate>) {
    && rs != [] && DistinctIds(cs)
    && (forall i | 0 <= i < |rs| :: ValidRequirement(rs[i]))
    && (forall i | 0 <= i < |cs| :: ValidCandidate(cs[i]))
  }

  ghost predicate SettledAssessments(r: Ranked) {
    forall i | 0 <= i < |r.assessments| ::
      Settled(r.assessments[i].score, FOUR_DECIMALS) && Settled(r.assessments[i].confidence, FOUR_DECIMALS)
  }

  lemma ScoresAreSettled(rs: seq<Requirement>, c: Candidate, power: real -> real)
    requires PositiveWeights(rs) && ValidCandidate(c) && IsPower(power)
    requires forall i | 0 <= i < |rs| :: ValidRequirement(rs[i])
    ensures var r := ScoreOf(rs, c, power);
            Settled(r.score, SIX_DECIMALS) && Settled(r.confidence, SIX_DECIMALS) && SettledAssessments(r)
  {
    var all := Assessments(rs, c, power);
    ScoresAreShares(rs, c, power);
    ToFixedKeepsRounded(Average(rs, Scores(all)), SIX_DECIMALS);
    ToFixedKeepsRounded(Sum(Confidences(all)) / |all| as real, SIX_DECIMALS);
    forall i | 0 <= i < |rs|
      ensures Settled(all[i].score, FOUR_DECIMALS) && Settled(all[i].confidence, FOUR_DECIMALS)
    {
      AssessmentsAreSettled(rs[i], c, power);
    }
  }

  /** The ranking that the scorer returns for a valid request meets everything the merge relies on. */
  lemma ScorerOutputIsOk(rs: seq<Requirement>, cs: seq<Candidate>, power: real -> real)
    requires ValidRequest(rs, cs) && IsPower(power)
    ensures BaselineOk(RankingOf(rs, cs, power))
    ensures forall i | 0 <= i < |RankingOf(rs, cs, power)| :: SettledAssessments(RankingOf(rs, cs, power)[i])
  {
    var baseline := RankingOf(rs, cs, power);
    var sorted := Sort(Scored(rs, cs, power), KeyLeq);
    RankingIsAnOrder(rs, cs, power);
    KeyIsTotal();
    SortSorts(Scored(rs, cs, power), KeyLeq);
    forall i | 0 <= i < |baseline|
      ensures Settled(baseline[i].score, SIX_DECIMALS) && Settled(baseline[i].confidence, SIX_DECIMALS)
              && SettledAssessments(baseline[i])
    {
      var k := Origin(Scored(rs, cs, power), sorted, i);
      ScoresAreSettled(rs, cs[k], power);
    }
    forall i, j | 0 <= i < j < |baseline| ensures baseline[i].id != baseline[j].id {
      DistinctIdsStayDistinct(rs, cs, power, i, j);
    }
  }

  lemma UnmentionedIsCopied(b: Ranked)
    requires Settled(b.score, SIX_DECIMALS) && Settled(b.confidence, SIX_DECIMALS) && SettledAssessments(b)
    ensures MergeResult(b, None) == b.(rank := 1)
  {
    SettledIsKept(Missing, b.score, SIX_DECIMALS);
    SettledIsKept(Missing, b.confidence, SIX_DECIMALS);
    forall i | 0 <= i < |b.assessments| ensures MergeAssessment(b.assessments[i], None) == b.assessments[i] {
      SettledIsKept(Missing, b.assessments[i].score, FOUR_DECIMALS);
      SettledIsKept(Missing, b.assessments[i].confidence, FOUR_DECIMALS);
    }
    assert MergeAssessments(b.assessments, []) == b.assessments;
  }

  /** Across both services: a payload that mentions no candidate of the scorer's ranking gives that very ranking back. */
  lemma UnmentionedRankingIsUnchanged(rs: seq<Requirement>, cs: seq<Candidate>, power: real -> real, payload: seq<AiResult>)
    requires ValidRequest(rs, cs) && IsPower(power)
    requires forall i | 0 <= i < |cs| :: EntryFor(payload, cs[i].id).None?
    ensures Reranked(RankingOf(rs, cs, power), payload) == RankingOf(rs, cs, power)
  {
    var baseline := RankingOf(rs, cs, power);
    var scored := Scored(rs, cs, power);
    var merged := Merged(baseline, payload);
    ScorerOutputIsOk(rs, cs, power);
    forall i | 0 <= i < |baseline| ensures merged[i] == baseline[i].(rank := 1) {
      KeyIsTotal();
      SortSorts(scored, KeyLeq);
      var k := Origin(scored, Sort(scored, KeyLeq), i);
      assert baseline[i].id == cs[k].id;
      UnmentionedIsCopied(baseline[i]);
    }
    forall i, j | 0 <= i < j < |merged| ensures Order(baseline)(merged[i], merged[j]) {
      assert KeyLeq(baseline[i], baseline[j]);
      BaselineRankIsPosition(baseline, i);
      BaselineRankIsPosition(baseline, j);
    }
    SortedIsFixed(merged, Order(baseline));
    forall i | 0 <= i < |baseline| ensures WithRanks(merged)[i] == baseline[i] {
      assert baseline[i].rank == i + 1;
    }
  }
}
