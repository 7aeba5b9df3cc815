// How the baseline scorer assesses one requirement against one candidate, in exact arithmetic.
// Names are already normalised and texts already tokenised.
module Scoring {
  import opened Wrappers
  import opened Tables
  import opened Rounding

  datatype Kind = Skill | Experience | Education | Certification | Language | Location | Other

  datatype Status = Met | PartiallyMet | NotFound | NotMet | Unknown

  datatype Requirement = Requirement(key: string, kind: Kind, mustHave: bool, hard: bool, weight: real,
                                     minimumYears: Option<real>, skill: string, related: set<string>,
                                     nameTokens: set<string>, descriptionTokens: set<string>)

  datatype SkillEntry = SkillEntry(name: string, years: Option<real>, evidences: seq<string>)

  datatype Listed = Listed(tokens: set<string>, evidences: seq<string>)

  // What the proficiency text says: the score of the first table keyword in it, else an IELTS band, else a TOEIC score.
  datatype Proficiency = Keyword(score: real) | Ielts(band: real) | Toeic(points: nat) | FreeText | Blank

  datatype LanguageEntry = LanguageEntry(tokens: set<string>, proficiency: Proficiency, evidences: seq<string>)

  datatype Candidate = Candidate(id: string, title: Option<set<string>>, years: Option<real>, skills: seq<SkillEntry>,
                                 educations: seq<Listed>, certifications: seq<Listed>, languages: seq<LanguageEntry>)

  datatype Assessment = Assessment(key: string, status: Status, score: real, confidence: real, evidences: seq<string>)

  const FOUR_DECIMALS := 10000
  const SIX_DECIMALS := 1000000
  const RELATED_SKILL_CREDIT := 0.55

  /** What the request model validates. */
  predicate ValidRequirement(r: Requirement) {
    0.0 < r.weight <= 10.0 && (r.minimumYears.Some? ==> 0.0 <= r.minimumYears.value <= 80.0)
  }

  predicate ValidProficiency(p: Proficiency) {
    match p
    case Keyword(score) => 0.3 <= score <= 1.0
    case Ielts(band) => band >= 0.0
    case _ => true
  }

  predicate ValidCandidate(c: Candidate) {
    && (c.years.Some? ==> 0.0 <= c.years.value <= 80.0)
    && (forall i | 0 <= i < |c.skills| :: c.skills[i].years.Some? ==> 0.0 <= c.skills[i].years.value <= 80.0)
    && (forall i | 0 <= i < |c.languages| :: ValidProficiency(c.languages[i].proficiency))
  }

  // ---------- experience ----------

  function Cube(x: real): real {
    x * x * x
  }

  function Fifth(x: real): real {
    Cube(x) * x * x
  }

  /** The power 0.6 on [0, 1): the non-negative s with s^5 = r^3. */
  ghost predicate IsPower(power: real -> real) {
    forall r: real {:trigger power(r)} | 0.0 <= r < 1.0 :: power(r) >= 0.0 && Fifth(power(r)) == Cube(r)
  }

  function MinReal(a: real, b: real): real {
    if a <= b then a else b
  }

  function MaxReal(a: real, b: real): real {
    if a <= b then b else a
  }

  /** minimum_years or 1: a missing minimum and a minimum of zero both count as one year. */
  function MinimumYears(r: Requirement): real {
    if r.minimumYears.Some? && r.minimumYears.value != 0.0 then r.minimumYears.value else 1.0
  }

  function ExperienceScore(ratio: real, power: real -> real): real {
    if ratio >= 1.0 then MinReal(1.0, 0.92 + 0.08 * MinReal(1.0, ratio - 1.0)) else power(ratio)
  }

  lemma ProductMonotone(a: real, b: real, c: real, d: real)
    requires 0.0 <= a <= b && 0.0 <= c <= d
    ensures 0.0 <= a * c <= b * d
    ensures a < b && 0.0 < d ==> a * c < b * d
  {
    assert a * c <= b * c;
    assert b * c <= b * d;
    if a < b && 0.0 < d {
      if c > 0.0 {
        assert a * c < b * c;
      } else {
        assert a * c == 0.0 && 0.0 < b * d;
      }
    }
  }

  lemma PowersMonotone(a: real, b: real)
    requires 0.0 <= a <= b
    ensures 0.0 <= Cube(a) <= Cube(b) && 0.0 <= Fifth(a) <= Fifth(b)
    ensures a < b ==> Cube(a) < Cube(b) && Fifth(a) < Fifth(b)
  {
    ProductMonotone(a, b, a, b);
    ProductMonotone(a, b, a * a, b * b);
    ProductMonotone(a, b, Cube(a), Cube(b));
    ProductMonotone(a, b, Cube(a) * a, Cube(b) * b);
  }

  lemma ShrinksTwice(x: real, once: real, twice: real, factor: real)
    requires x >= 0.0 && 0.0 <= factor <= 1.0 && once == x * factor && twice == once * factor
    ensures twice <= x
  {
    ProductMonotone(x, x, factor, 1.0);
    ProductMonotone(once, x, factor, 1.0);
  }

  lemma FifthBelowCube(r: real)
    requires 0.0 <= r <= 1.0
    ensures Fifth(r) <= Cube(r)
  {
    PowersMonotone(0.0, r);
    ShrinksTwice(Cube(r), Cube(r) * r, Fifth(r), r);
  }

  /** Below the threshold the curve is concave: it gives at least the linear ratio and at most one. */
  lemma PartialExperienceIsWorthMore(r: real, s: real)
    requires 0.0 <= r < 1.0 && s >= 0.0 && Fifth(s) == Cube(r)
    ensures r <= s <= 1.0
  {
    FifthBelowCube(r);
    if s < r {
      PowersMonotone(s, r);
    }
    if s > 1.0 {
      PowersMonotone(1.0, s);
      PowersMonotone(r, 1.0);
    }
  }

  lemma CurveMonotoneOnEachSide(r: real, t: real, power: real -> real)
    requires IsPower(power) && 0.0 <= r <= t && (t < 1.0 || r >= 1.0)
    ensures ExperienceScore(r, power) <= ExperienceScore(t, power)
  {
    if t < 1.0 {
      var s, u := power(r), power(t);
      PowersMonotone(r, t);
      if u < s {
        PowersMonotone(u, s);
      }
    }
  }

  // ---------- token overlap ----------

  function Overlap(expected: set<string>, tokens: set<string>): (share: real)
    ensures 0.0 <= share <= 1.0
  {
    if expected == {} then 0.5
    else
      CommonAtMost(expected, tokens);
      |expected * tokens| as real / |expected| as real
  }

  lemma CommonAtMost(a: set<string>, b: set<string>)
    ensures |a * b| <= |a|
  {
    assert a == a * b + (a - b);
    assert |a * b + (a - b)| == |a * b| + |a - b|;
  }

  /** The first entry with the largest overlap, unless every overlap is zero. */
  function BestMatch(expected: set<string>, entries: seq<Listed>): (best: (Option<nat>, real))
    ensures 0.0 <= best.1 <= 1.0 && (best.0.None? <==> best.1 == 0.0)
    ensures forall i | 0 <= i < |entries| :: Overlap(expected, entries[i].tokens) <= best.1
    ensures best.0.Some? ==> best.0.value < |entries| && Overlap(expected, entries[best.0.value].tokens) == best.1
    ensures best.0.Some? ==> forall i | 0 <= i < best.0.value :: Overlap(expected, entries[i].tokens) < best.1
  {
    if entries == [] then (None, 0.0)
    else
      var last := |entries| - 1;
      var before := BestMatch(expected, entries[..last]);
      assert forall i | 0 <= i < last :: entries[..last][i] == entries[i];
      var share := Overlap(expected, entries[last].tokens);
      if share > before.1 then (Some(last), share) else before
  }

  method FindBestMatch(expected: set<string>, entries: seq<Listed>) returns (best: Option<nat>, bestScore: real)
    ensures (best, bestScore) == BestMatch(expected, entries)
  {
    best, bestScore := None, 0.0;
    for i := 0 to |entries|
      invariant (best, bestScore) == BestMatch(expected, entries[..i])
    {
      var share := Overlap(expected, entries[i].tokens);
      assert entries[..i + 1][..i] == entries[..i];
      if share > bestScore {
        bestScore := share;
        best := Some(i);
      }
    }
    assert entries[..|entries|] == entries;
  }

  // ---------- one requirement ----------

  function LanguageScore(p: Proficiency): real {
    match p
    case Keyword(score) => score
    case Ielts(band) => RoundEven(MinReal(1.0, band / 9.0), FOUR_DECIMALS)
    case Toeic(points) => RoundEven(MinReal(1.0, points as real / 990.0), FOUR_DECIMALS)
    case FreeText => 0.55
    case Blank => 0.5
  }

  function ShareStatus(share: real, enough: real): Status {
    if share >= enough then Met else if share > 0.0 then PartiallyMet else NotFound
  }

  function AssessSkill(r: Requirement, c: Candidate): Assessment {
    match FindFirst(c.skills, (s: SkillEntry) => s.name == r.skill)
    case Some(i) =>
      var s := c.skills[i];
      if r.minimumYears.Some? && s.years.Some? && s.years.value < r.minimumYears.value then
        // Negative years cannot pass validation; the guard keeps the division total.
        var share := if r.minimumYears.value > 0.0 then s.years.value / r.minimumYears.value else 0.0;
        Assessment(r.key, PartiallyMet, RoundEven(MaxReal(0.2, share), FOUR_DECIMALS), 0.9, s.evidences)
      else Assessment(r.key, Met, 1.0, if s.evidences != [] then 0.95 else 0.65, s.evidences)
    case None =>
      match FindFirst(c.skills, (s: SkillEntry) => s.name in r.related)
      case Some(i) => Assessment(r.key, PartiallyMet, RELATED_SKILL_CREDIT, 0.55, c.skills[i].evidences)
      case None => Assessment(r.key, NotFound, 0.0, 0.82, [])
  }

  /** A candidate's years as a multiple of the years required. */
  function Ratio(r: Requirement, c: Candidate): real
    requires c.years.Some?
  {
    c.years.value / MinimumYears(r)
  }

  function AssessExperience(r: Requirement, c: Candidate, power: real -> real): Assessment {
    if c.years.None? then Assessment(r.key, Unknown, 0.35, 0.45, [])
    else
      var ratio := Ratio(r, c);
      Assessment(r.key, if ratio >= 1.0 then Met else PartiallyMet,
                 RoundEven(ExperienceScore(ratio, power), FOUR_DECIMALS), 0.8, [])
  }

  function AssessListed(r: Requirement, entries: seq<Listed>): Assessment {
    if entries == [] then Assessment(r.key, Unknown, 0.3, 0.4, [])
    else
      var (best, share) := BestMatch(r.nameTokens + r.descriptionTokens, entries);
      Assessment(r.key, ShareStatus(share, 0.5), RoundEven(share, FOUR_DECIMALS),
                 if best.Some? then 0.75 else 0.5, if best.Some? then entries[best.value].evidences else [])
  }

  function AssessLanguage(r: Requirement, c: Candidate): Assessment {
    match FindFirst(c.languages, (l: LanguageEntry) => l.tokens * r.nameTokens != {})
    case None =>
      if c.languages == [] then Assessment(r.key, Unknown, 0.3, 0.4, []) else Assessment(r.key, NotFound, 0.0, 0.7, [])
    case Some(i) =>
      var score := LanguageScore(c.languages[i].proficiency);
      Assessment(r.key, ShareStatus(score, 0.6), RoundEven(score, FOUR_DECIMALS), 0.8, c.languages[i].evidences)
  }

  function AssessTitle(r: Requirement, c: Candidate): Assessment {
    if c.title.None? then Assessment(r.key, Unknown, 0.3, 0.4, [])
    else
      var share := Overlap(r.nameTokens, c.title.value);
      Assessment(r.key, ShareStatus(share, 0.5), RoundEven(share, FOUR_DECIMALS), 0.7, [])
  }

  function Assess(r: Requirement, c: Candidate, power: real -> real): Assessment {
    match r.kind
    case Skill => AssessSkill(r, c)
    case Experience => AssessExperience(r, c, power)
    case Education => AssessListed(r, c.educations)
    case Certification => AssessListed(r, c.certifications)
    case Language => AssessLanguage(r, c)
    case Location => AssessTitle(r, c)
    case Other => AssessTitle(r, c)
  }

  predicate Unit(x: real) {
    0.0 <= x <= 1.0
  }

  lemma QuotientInUnit(a: real, b: real)
    requires 0.0 <= a <= b && b > 0.0
    ensures Unit(a / b)
  {
  }

  lemma AssessSkillInUnit(r: Requirement, c: Candidate)
    requires ValidRequirement(r) && ValidCandidate(c)
    ensures Unit(AssessSkill(r, c).score) && Unit(AssessSkill(r, c).confidence)
  {
    var found := FindFirst(c.skills, (s: SkillEntry) => s.name == r.skill);
    if found.Some? {
      var s := c.skills[found.value];
      if r.minimumYears.Some? && s.years.Some? && s.years.value < r.minimumYears.value {
        QuotientInUnit(s.years.value, r.minimumYears.value);
        RoundingKeepsUnit(MaxReal(0.2, s.years.value / r.minimumYears.value), FOUR_DECIMALS);
      }
    }
  }

  lemma ExperienceInUnit(ratio: real, power: real -> real)
    requires ratio >= 0.0 && IsPower(power)
    ensures Unit(ExperienceScore(ratio, power)) && Unit(RoundEven(ExperienceScore(ratio, power), FOUR_DECIMALS))
  {
    if ratio < 1.0 {
      PartialExperienceIsWorthMore(ratio, power(ratio));
    }
    RoundingKeepsUnit(ExperienceScore(ratio, power), FOUR_DECIMALS);
  }

  /** Whatever the requirement and the candidate, the assessment is a share of one. */
  lemma AssessmentsAreShares(r: Requirement, c: Candidate, power: real -> real)
    requires ValidRequirement(r) && ValidCandidate(c) && IsPower(power)
    ensures Unit(Assess(r, c, power).score) && Unit(Assess(r, c, power).confidence)
    ensures Assess(r, c, power).key == r.key
    ensures Assess(r, c, power).status != NotMet
  {
    match r.kind
    case Skill => AssessSkillInUnit(r, c);
    case Experience => AssessExperienceInUnit(r, c, power);
    case Education => AssessListedInUnit(r, c.educations);
    case Certification => AssessListedInUnit(r, c.certifications);
    case Language => AssessLanguageInUnit(r, c);
    case Location => AssessTitleInUnit(r, c);
    case Other => AssessTitleInUnit(r, c);
  }

  lemma AssessExperienceInUnit(r: Requirement, c: Candidate, power: real -> real)
    requires ValidRequirement(r) && ValidCandidate(c) && IsPower(power)
    ensures Unit(AssessExperience(r, c, power).score) && Unit(AssessExperience(r, c, power).confidence)
  {
    if c.years.Some? {
      var ratio := Ratio(r, c);
      assert ratio >= 0.0;
      ExperienceInUnit(ratio, power);
    }
  }

  lemma AssessListedInUnit(r: Requirement, entries: seq<Listed>)
    ensures Unit(AssessListed(r, entries).score) && Unit(AssessListed(r, entries).confidence)
  {
    RoundingKeepsUnit(BestMatch(r.nameTokens + r.descriptionTokens, entries).1, FOUR_DECIMALS);
  }

  lemma AssessLanguageInUnit(r: Requirement, c: Candidate)
    requires ValidCandidate(c)
    ensures Unit(AssessLanguage(r, c).score) && Unit(AssessLanguage(r, c).confidence)
  {
    var found := FindFirst(c.languages, (l: LanguageEntry) => l.tokens * r.nameTokens != {});
    if found.Some? {
      LanguageScoreInUnit(c.languages[found.value].proficiency);
    }
  }

  lemma AssessTitleInUnit(r: Requirement, c: Candidate)
    ensures Unit(AssessTitle(r, c).score) && Unit(AssessTitle(r, c).confidence)
  {
    if c.title.Some? {
      RoundingKeepsUnit(Overlap(r.nameTokens, c.title.value), FOUR_DECIMALS);
    }
  }

  lemma LanguageScoreInUnit(p: Proficiency)
    requires ValidProficiency(p)
    ensures Unit(LanguageScore(p)) && Unit(RoundEven(LanguageScore(p), FOUR_DECIMALS))
  {
    match p {
      case Ielts(band) => RoundingKeepsUnit(MinReal(1.0, band / 9.0), FOUR_DECIMALS);
      case Toeic(points) => RoundingKeepsUnit(MinReal(1.0, points as real / 990.0), FOUR_DECIMALS);
      case _ =>
    }
    RoundingKeepsUnit(LanguageScore(p), FOUR_DECIMALS);
  }

  // ---------- experience, as assessed ----------

  predicate ComparesYears(r: Requirement, c: Candidate, d: Candidate) {
    && r.kind == Experience && ValidRequirement(r) && ValidCandidate(c) && ValidCandidate(d)
    && c.years.Some? && d.years.Some?
  }

  lemma RatioMonotone(r: Requirement, c: Candidate, d: Candidate)
    requires ComparesYears(r, c, d) && c.years.value <= d.years.value
    ensures 0.0 <= Ratio(r, c) <= Ratio(r, d)
  {
    QuotientsGrow(c.years.value, d.years.value, MinimumYears(r));
  }

  lemma QuotientsGrow(x: real, y: real, d: real)
    requires 0.0 <= x <= y && d > 0.0
    ensures 0.0 <= x / d <= y / d
  {
  }

  /** On either side of the threshold more years are never assessed lower. */
  lemma ExperienceMonotoneOnEachSide(r: Requirement, c: Candidate, d: Candidate, power: real -> real)
    requires ComparesYears(r, c, d) && IsPower(power) && c.years.value <= d.years.value
    requires Ratio(r, d) < 1.0 || Ratio(r, c) >= 1.0
    ensures Assess(r, c, power).score <= Assess(r, d, power).score
  {
    RatioMonotone(r, c, d);
    CurveMonotoneOnEachSide(Ratio(r, c), Ratio(r, d), power);
    RoundEvenMonotone(ExperienceScore(Ratio(r, c), power), ExperienceScore(Ratio(r, d), power), FOUR_DECIMALS);
  }

  /** The score, in ten-thousandths, of t >= 1 times the years required. */
  function FullCredit(t: real): int {
    HalfEven(Scaled(MinReal(1.0, 0.92 + 0.08 * MinReal(1.0, t - 1.0)), FOUR_DECIMALS))
  }

  /** Half a ten-thousandth above: from here on the power rounds to more, at the half itself only if n is odd. */
  function NextHalf(n: int): real {
    (n as real + 0.5) / FOUR_DECIMALS as real
  }

  predicate Outscores(r: real, t: real) {
    var n := FullCredit(t);
    Cube(r) > Fifth(NextHalf(n)) || (Cube(r) == Fifth(NextHalf(n)) && n % 2 == 1)
  }

  lemma HalfEvenExceeds(x: real, n: int)
    ensures HalfEven(x) > n <==> x > n as real + 0.5 || (x == n as real + 0.5 && n % 2 == 1)
  {
  }

  lemma RoundedExceeds(x: real, n: int)
    ensures RoundEven(x, FOUR_DECIMALS) > Unscaled(n, FOUR_DECIMALS) <==>
            x > NextHalf(n) || (x == NextHalf(n) && n % 2 == 1)
  {
    HalfEvenExceeds(Scaled(x, FOUR_DECIMALS), n);
  }

  lemma FullCreditIsPositive(t: real)
    requires t >= 1.0
    ensures 9200 <= FullCredit(t) && (t == 1.0 ==> FullCredit(t) == 9200)
  {
    WholeNumbersAreFixed(9200);
    HalfEvenMonotone(9200.0, Scaled(MinReal(1.0, 0.92 + 0.08 * MinReal(1.0, t - 1.0)), FOUR_DECIMALS));
  }

  lemma FifthsCompare(s: real, m: real)
    requires s >= 0.0 && m >= 0.0
    ensures (s > m <==> Fifth(s) > Fifth(m)) && (s == m <==> Fifth(s) == Fifth(m))
  {
    if s < m {
      PowersMonotone(s, m);
    } else if m < s {
      PowersMonotone(m, s);
    }
  }

  /** Across the threshold, a candidate short of the years required is assessed higher than one who has them exactly
      when the cube of the shorter ratio reaches the fifth power of the half step above the score of the longer. */
  lemma ExperienceCliff(r: Requirement, c: Candidate, d: Candidate, power: real -> real)
    requires ComparesYears(r, c, d) && IsPower(power) && Ratio(r, c) < 1.0 <= Ratio(r, d)
    ensures Assess(r, c, power).score > Assess(r, d, power).score <==> Outscores(Ratio(r, c), Ratio(r, d))
  {
    RatioMonotone(r, c, c);
    var s, n := power(Ratio(r, c)), FullCredit(Ratio(r, d));
    FullCreditIsPositive(Ratio(r, d));
    RoundedExceeds(s, n);
    FifthsCompare(s, NextHalf(n));
  }

  function WithYears(id: string, years: real): Candidate {
    Candidate(id, None, Some(years), [], [], [], [])
  }

  const TEN_YEARS := Requirement("R1", Experience, true, false, 1.0, Some(10.0), "", {}, {}, {})

  /** An inversion: of two candidates for ten years, the one with nine is assessed higher. */
  lemma ExperienceIsNotMonotone(power: real -> real)
    requires IsPower(power)
    ensures Assess(TEN_YEARS, WithYears("nine", 9.0), power).score > Assess(TEN_YEARS, WithYears("ten", 10.0), power).score
    ensures Assess(TEN_YEARS, WithYears("ten", 10.0), power).score == 0.92
  {
    var nine, ten := WithYears("nine", 9.0), WithYears("ten", 10.0);
    FullCreditIsPositive(1.0);
    assert Ratio(TEN_YEARS, nine) == 0.9 && Ratio(TEN_YEARS, ten) == 1.0;
    assert NextHalf(9200) == 0.92005;
    assert Cube(0.9) > Fifth(0.92005);
    ExperienceCliff(TEN_YEARS, nine, ten, power);
  }
}
