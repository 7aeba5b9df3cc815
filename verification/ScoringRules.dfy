// What the assessment of each kind of requirement says about the candidate, read off the candidate's own entries.
module ScoringRules {
  import opened Wrappers
  import opened Tables
  import opened Rounding
  import opened Scoring

  // ---------- skills ----------

  /** Entry i is the first one of that name. */
  predicate FirstOfName(skills: seq<SkillEntry>, name: string, i: nat) {
    i < |skills| && skills[i].name == name && forall k | 0 <= k < i :: skills[k].name != name
  }

  /** Entry i is the first one of a related name. */
  predicate FirstRelated(skills: seq<SkillEntry>, related: set<string>, i: nat) {
    i < |skills| && skills[i].name in related && forall k | 0 <= k < i :: skills[k].name !in related
  }

  predicate FewerYears(s: SkillEntry, r: Requirement) {
    r.minimumYears.Some? && s.years.Some? && s.years.value < r.minimumYears.value
  }

  predicate SkillListed(skills: seq<SkillEntry>, name: string) {
    exists i | 0 <= i < |skills| :: skills[i].name == name
  }

  predicate RelatedListed(skills: seq<SkillEntry>, related: set<string>) {
    exists i | 0 <= i < |skills| :: skills[i].name in related
  }

  /** A skill is met exactly if the first entry of its name has no fewer years than required; with fewer years it counts
      by their share, at least a fifth; a related skill counts for 0.55; without either it is not found. The evidence is
      that of the entry found. */
  lemma SkillIsAssessed(r: Requirement, c: Candidate, power: real -> real)
    requires r.kind == Skill && ValidRequirement(r) && ValidCandidate(c)
    ensures var a := Assess(r, c, power);
            && a.key == r.key
            && (forall i: nat | FirstOfName(c.skills, r.skill, i) && !FewerYears(c.skills[i], r) ::
                  && a.status == Met && a.score == 1.0 && a.evidences == c.skills[i].evidences
                  && a.confidence == if c.skills[i].evidences == [] then 0.65 else 0.95)
            && (forall i: nat | FirstOfName(c.skills, r.skill, i) && FewerYears(c.skills[i], r) ::
                  && a.status == PartiallyMet && a.confidence == 0.9 && a.evidences == c.skills[i].evidences
                  && a.score == RoundEven(if c.skills[i].years.value / r.minimumYears.value < 0.2 then 0.2
                                          else c.skills[i].years.value / r.minimumYears.value, 10000))
            && (forall i: nat | !SkillListed(c.skills, r.skill) && FirstRelated(c.skills, r.related, i) ::
                  && a.status == PartiallyMet && a.score == 0.55 && a.confidence == 0.55
                  && a.evidences == c.skills[i].evidences)
            && (!SkillListed(c.skills, r.skill) && !RelatedListed(c.skills, r.related) ==>
                  a.status == NotFound && a.score == 0.0 && a.confidence == 0.82 && a.evidences == [])
  {
    var named := FindFirst(c.skills, (s: SkillEntry) => s.name == r.skill);
    var related := FindFirst(c.skills, (s: SkillEntry) => s.name in r.related);
    assert forall i: nat | FirstOfName(c.skills, r.skill, i) :: named == Some(i);
    assert forall i: nat | FirstRelated(c.skills, r.related, i) :: related == Some(i);
    assert named.Some? ==> c.skills[named.value].name == r.skill;
    assert related.Some? ==> c.skills[related.value].name in r.related;
  }

  // ---------- experience ----------

  /** Years are compared with the minimum, one if none or zero is stated: met from there on, with 0.92 and up to 0.08 for
      at most as much again; below it the power 0.6 of the share; unknown without years. */
  lemma ExperienceIsAssessed(r: Requirement, c: Candidate, power: real -> real)
    requires r.kind == Experience && ValidRequirement(r) && ValidCandidate(c)
    ensures var a := Assess(r, c, power);
            var minimum := if r.minimumYears.Some? && r.minimumYears.value > 0.0 then r.minimumYears.value else 1.0;
            && a.key == r.key && a.evidences == []
            && (c.years.None? ==> a.status == Unknown && a.score == 0.35 && a.confidence == 0.45)
            && (c.years.Some? ==> a.confidence == 0.8 && a.status == if c.years.value >= minimum then Met else PartiallyMet)
            && (c.years.Some? && c.years.value >= 2.0 * minimum ==> a.score == RoundEven(1.0, 10000))
            && (c.years.Some? && minimum <= c.years.value < 2.0 * minimum ==>
                  a.score == RoundEven(0.92 + 0.08 * (c.years.value / minimum - 1.0), 10000))
            && (c.years.Some? && c.years.value < minimum ==> a.score == RoundEven(power(c.years.value / minimum), 10000))
  {
    if c.years.Some? {
      RatioCompares(c.years.value, MinimumYears(r));
    }
  }

  lemma RatioCompares(years: real, minimum: real)
    requires minimum > 0.0
    ensures years / minimum >= 1.0 <==> years >= minimum
    ensures years / minimum >= 2.0 <==> years >= 2.0 * minimum
  {
    QuotientCompares(years, minimum, years / minimum, 1.0);
    QuotientCompares(years, minimum, years / minimum, 2.0);
  }

  lemma QuotientCompares(a: real, b: real, quotient: real, bound: real)
    requires b > 0.0 && a == quotient * b
    ensures quotient >= bound <==> a >= bound * b
  {
    assert a - bound * b == (quotient - bound) * b;
    if quotient >= bound {
      assert (quotient - bound) * b >= 0.0;
    } else {
      assert (bound - quotient) * b > 0.0;
    }
  }

  // ---------- education and certificates ----------

  /** How much of the expected tokens the entry has; half if none are expected. */
  function Share(expected: set<string>, tokens: set<string>): real {
    if expected == {} then 0.5 else |expected * tokens| as real / |expected| as real
  }

  predicate HasShare(entries: seq<Listed>, expected: set<string>) {
    exists i | 0 <= i < |entries| :: Share(expected, entries[i].tokens) > 0.0
  }

  /** Entry i is the first one with the largest share. */
  predicate FirstBest(entries: seq<Listed>, expected: set<string>, i: nat) {
    && i < |entries| && Share(expected, entries[i].tokens) > 0.0
    && forall k | 0 <= k < |entries| ::
         Share(expected, entries[k].tokens) <= Share(expected, entries[i].tokens)
         && (k < i ==> Share(expected, entries[k].tokens) < Share(expected, entries[i].tokens))
  }

  predicate GradedByShare(a: Assessment, share: real, enough: real) {
    a.score == RoundEven(share, 10000) && a.status == if share >= enough then Met else PartiallyMet
  }

  /** Education is looked for among the educations, a certificate among the certificates: the first entry that shares
      most with name and description decides, met from half of it on; unknown without entries, not found without a share. */
  lemma ListedIsAssessed(r: Requirement, c: Candidate, power: real -> real)
    requires r.kind == Education || r.kind == Certification
    ensures var a := Assess(r, c, power);
            var entries := if r.kind == Education then c.educations else c.certifications;
            var expected := r.nameTokens + r.descriptionTokens;
            && a.key == r.key
            && (entries == [] ==> a.status == Unknown && a.score == 0.3 && a.confidence == 0.4 && a.evidences == [])
            && (forall i: nat | FirstBest(entries, expected, i) ::
                  && GradedByShare(a, Share(expected, entries[i].tokens), 0.5)
                  && a.confidence == 0.75 && a.evidences == entries[i].evidences)
            && (entries != [] && !HasShare(entries, expected) ==>
                  a.status == NotFound && a.score == RoundEven(0.0, 10000) && a.confidence == 0.5 && a.evidences == [])
  {
    var entries := if r.kind == Education then c.educations else c.certifications;
    var expected := r.nameTokens + r.descriptionTokens;
    assert forall tokens: set<string> :: Overlap(expected, tokens) == Share(expected, tokens);
    var (best, share) := BestMatch(expected, entries);
    assert best.Some? ==> FirstBest(entries, expected, best.value);
    assert forall i: nat | FirstBest(entries, expected, i) :: best == Some(i);
    hide Share;
  }

  // ---------- languages ----------

  predicate SameLanguage(l: LanguageEntry, r: Requirement) {
    exists token :: token in l.tokens && token in r.nameTokens
  }

  predicate FirstLanguage(c: Candidate, r: Requirement, i: nat) {
    i < |c.languages| && SameLanguage(c.languages[i], r) && forall k | 0 <= k < i :: !SameLanguage(c.languages[k], r)
  }

  /** What a proficiency is worth: the keyword's score, the band of nine, the points of 990, or a default. */
  function Worth(p: Proficiency): real {
    match p
    case Keyword(score) => score
    case Ielts(band) => if band >= 9.0 then RoundEven(1.0, 10000) else RoundEven(band / 9.0, 10000)
    case Toeic(points) => if points >= 990 then RoundEven(1.0, 10000) else RoundEven(points as real / 990.0, 10000)
    case FreeText => 0.55
    case Blank => 0.5
  }

  /** The first entry of that language decides by its proficiency, met from 0.6 on; unknown without languages. */
  lemma LanguageIsAssessed(r: Requirement, c: Candidate, power: real -> real)
    requires r.kind == Language
    ensures var a := Assess(r, c, power);
            && a.key == r.key
            && (c.languages == [] ==> a.status == Unknown && a.score == 0.3 && a.confidence == 0.4 && a.evidences == [])
            && (c.languages != [] && (forall i | 0 <= i < |c.languages| :: !SameLanguage(c.languages[i], r)) ==>
                  a.status == NotFound && a.score == 0.0 && a.confidence == 0.7 && a.evidences == [])
            && (forall i: nat | FirstLanguage(c, r, i) ::
                  var worth := Worth(c.languages[i].proficiency);
                  && a.confidence == 0.8 && a.evidences == c.languages[i].evidences
                  && a.score == RoundEven(worth, 10000)
                  && a.status == if worth >= 0.6 then Met else if worth > 0.0 then PartiallyMet else NotFound)
  {
    forall l: LanguageEntry ensures SameLanguage(l, r) <==> l.tokens * r.nameTokens != {} {
      LanguageIsShared(l, r);
    }
    forall p: Proficiency ensures LanguageScore(p) == Worth(p) {
      WorthIsScore(p);
    }
    var found := FindFirst(c.languages, (l: LanguageEntry) => l.tokens * r.nameTokens != {});
    assert forall i: nat | FirstLanguage(c, r, i) :: found == Some(i);
    hide SameLanguage, RoundEven, LanguageScore, Worth, ValidCandidate;
  }

  lemma LanguageIsShared(l: LanguageEntry, r: Requirement)
    ensures SameLanguage(l, r) <==> l.tokens * r.nameTokens != {}
  {
    if l.tokens * r.nameTokens != {} {
      var token :| token in l.tokens * r.nameTokens;
    }
    if SameLanguage(l, r) {
      var token :| token in l.tokens && token in r.nameTokens;
      assert token in l.tokens * r.nameTokens;
    }
  }

  lemma WorthIsScore(p: Proficiency)
    ensures LanguageScore(p) == Worth(p)
  {
  }

  // ---------- anything else ----------

  /** Any other requirement is compared with the title: met from half of its name on; unknown without a title. */
  lemma TitleIsAssessed(r: Requirement, c: Candidate, power: real -> real)
    requires r.kind == Location || r.kind == Other
    ensures var a := Assess(r, c, power);
            && a.key == r.key && a.evidences == []
            && (c.title.None? ==> a.status == Unknown && a.score == 0.3 && a.confidence == 0.4)
            && (c.title.Some? ==>
                  var share := Share(r.nameTokens, c.title.value);
                  && a.confidence == 0.7 && a.score == RoundEven(share, 10000)
                  && a.status == if share >= 0.5 then Met else if share > 0.0 then PartiallyMet else NotFound)
  {
  }
}
