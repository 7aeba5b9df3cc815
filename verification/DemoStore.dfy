// The demo's job store: bounded, most recently saved first, persisted without document data.
module DemoStore {
  import opened Wrappers
  import opened Tables
  import opened Basics
  import opened Decimal
  import Scoring
  import Ranking
  import RankingRules
  import Rerank

  // What the analysis of a file yields: a profile, of which title, years and skills are kept for scoring, and a name.
  datatype Analysis = Analysis(profile: Scoring.Candidate, fullName: string)

  datatype File = File(name: string, content: string)

  datatype Summary = Summary(id: string, resumeId: string, fullName: string, filename: string)

  // What a successfully parsed CV carries: its candidate id, scoring profile and summary.
  datatype Parsed = Parsed(candidateId: string, candidate: Scoring.Candidate, summary: Summary)

  datatype Cv = Cv(filename: string, resumeId: string, parsed: Option<Parsed>, dataUrl: string, hasPreview: bool)

  datatype RunEntry = RunEntry(summary: Summary, rank: nat, score: real, confidence: real, eligibility: Ranking.Eligibility,
                               strengths: seq<string>, gaps: seq<string>, unknowns: seq<string>,
                               assessments: seq<Scoring.Assessment>)

  datatype Job = Job(id: string, requirements: seq<Scoring.Requirement>, cvCount: nat, cvs: seq<Cv>,
                     latestRun: Option<seq<RunEntry>>)

  datatype Problem = NotFound | NoFiles | TooManyFiles | NoParsedCv | ScorerRefused

  const CAPACITY := 30
  const MAX_FILES := 50
  const MAX_CANDIDATES := 500

  // ---------- saving ----------

  function Without(jobs: seq<Job>, id: string): (rest: seq<Job>)
    ensures |rest| <= |jobs|
  {
    if jobs == [] then [] else (if jobs[0].id == id then [] else [jobs[0]]) + Without(jobs[1..], id)
  }

  function Saved(jobs: seq<Job>, job: Job): seq<Job> {
    Take([job] + Without(jobs, job.id), CAPACITY)
  }

  function AllSaved(saves: seq<Job>): seq<Job> {
    if saves == [] then [] else Saved(AllSaved(saves[..|saves| - 1]), saves[|saves| - 1])
  }

  predicate Mentions(jobs: seq<Job>, id: string) {
    exists i | 0 <= i < |jobs| :: jobs[i].id == id
  }

  /** The save history, newest first. */
  function Newest(saves: seq<Job>): seq<Job> {
    if saves == [] then [] else [saves[|saves| - 1]] + Newest(saves[..|saves| - 1])
  }

  /** Every entry whose id does not occur earlier in the list. */
  function FirstCopies(jobs: seq<Job>): seq<Job> {
    if jobs == [] then []
    else
      var last := |jobs| - 1;
      FirstCopies(jobs[..last]) + (if Mentions(jobs[..last], jobs[last].id) then [] else [jobs[last]])
  }

  lemma {:induction false} WithoutOfConcat(a: seq<Job>, b: seq<Job>, id: string)
    ensures Without(a + b, id) == Without(a, id) + Without(b, id)
  {
    if a == [] {
      assert a + b == b;
    } else {
      assert (a + b)[1..] == a[1..] + b;
      WithoutOfConcat(a[1..], b, id);
    }
  }

  function Unmentioned(jobs: seq<Job>, x: Job): seq<Job> {
    if Mentions(jobs, x.id) then [] else [x]
  }

  lemma FirstCopiesOfSnoc(jobs: seq<Job>, x: Job)
    ensures FirstCopies(jobs + [x]) == FirstCopies(jobs) + Unmentioned(jobs, x)
  {
    assert (jobs + [x])[..|jobs|] == jobs;
  }

  lemma WithoutOfOne(x: Job, id: string)
    ensures Without([x], id) == if x.id == id then [] else [x]
  {
    assert [x][1..] == [];
  }

  lemma FirstCopiesOfOne(job: Job)
    ensures FirstCopies([job]) == [job] + Without(FirstCopies([]), job.id)
  {
    assert FirstCopies([job][..0]) == [];
  }

  /** The step of the induction, on the pieces alone: an older entry x behind the copies of the front. */
  lemma ConsPastSnoc(job: Job, copies: seq<Job>, x: Job, mentioned: bool, added: seq<Job>, all: seq<Job>)
    requires all == [job] + Without(copies, job.id) + (if x.id == job.id || mentioned then [] else [x])
    requires added == if mentioned then [] else [x]
    ensures all == [job] + Without(copies + added, job.id)
  {
    WithoutOfConcat(copies, added, job.id);
    WithoutOfOne(x, job.id);
  }

  /** Putting a newer entry in front removes exactly the older copies of its id. */
  lemma {:induction false} FirstCopiesOfCons(job: Job, jobs: seq<Job>)
    ensures FirstCopies([job] + jobs) == [job] + Without(FirstCopies(jobs), job.id)
  {
    if jobs == [] {
      FirstCopiesOfOne(job);
      assert [job] + jobs == [job];
    } else {
      hide FirstCopies, Mentions, Without;
      var last := |jobs| - 1;
      var front, x := jobs[..last], jobs[last];
      var longer := [job] + front;
      assert jobs == front + [x] && [job] + jobs == longer + [x];
      FirstCopiesOfCons(job, front);
      FirstCopiesOfSnoc(front, x);
      FirstCopiesOfSnoc(longer, x);
      MentionsOfCons(job, front, x.id);
      ConsPastSnoc(job, FirstCopies(front), x, Mentions(front, x.id), Unmentioned(front, x), FirstCopies(longer + [x]));
    }
  }

  lemma MentionsOfCons(job: Job, jobs: seq<Job>, id: string)
    ensures Mentions([job] + jobs, id) <==> id == job.id || Mentions(jobs, id)
  {
    assert ([job] + jobs)[0] == job;
    assert forall i | 0 <= i < |jobs| :: ([job] + jobs)[i + 1] == jobs[i];
  }

  predicate Distinct(jobs: seq<Job>) {
    forall i, j | 0 <= i < j < |jobs| :: jobs[i].id != jobs[j].id
  }

  lemma {:induction false} WithoutMembers(jobs: seq<Job>, id: string)
    ensures forall j | 0 <= j < |Without(jobs, id)| ::
              Without(jobs, id)[j].id != id && Mentions(jobs, Without(jobs, id)[j].id)
  {
    if jobs != [] {
      WithoutMembers(jobs[1..], id);
      forall j | 0 <= j < |Without(jobs, id)|
        ensures Without(jobs, id)[j].id != id && Mentions(jobs, Without(jobs, id)[j].id)
      {
        var found := Without(jobs, id)[j].id;
        if jobs[0].id != found {
          assert Mentions(jobs[1..], found);
          var k :| 0 <= k < |jobs[1..]| && jobs[1..][k].id == found;
          assert jobs[k + 1].id == found;
        }
      }
    }
  }

  lemma {:induction false} FirstCopiesDistinct(jobs: seq<Job>)
    ensures Distinct(FirstCopies(jobs))
    ensures forall i | 0 <= i < |FirstCopies(jobs)| :: Mentions(jobs, FirstCopies(jobs)[i].id)
  {
    if jobs != [] {
      var last := |jobs| - 1;
      FirstCopiesDistinct(jobs[..last]);
      forall i | 0 <= i < |FirstCopies(jobs)| ensures Mentions(jobs, FirstCopies(jobs)[i].id) {
        if i < |FirstCopies(jobs[..last])| {
          var k :| 0 <= k < last && jobs[..last][k].id == FirstCopies(jobs)[i].id;
          assert jobs[k].id == FirstCopies(jobs)[i].id;
        }
      }
    }
  }

  /** Among distinct ids, filtering one id out of the first n + 1 entries leaves at least the first n of the rest. */
  lemma {:induction false} TakeCommutesWithWithout(jobs: seq<Job>, id: string, n: nat)
    requires Distinct(jobs)
    ensures Take(Without(Take(jobs, n + 1), id), n) == Take(Without(jobs, id), n)
  {
    if |jobs| > n + 1 {
      if jobs[0].id == id {
        AbsentIsUnchanged(jobs[1..], id);
        AbsentIsUnchanged(jobs[1..n + 1], id);
        TakeOfTail(jobs, n);
        assert Take(jobs[1..], n) == jobs[1..n + 1];
      } else if n > 0 {
        TakeCommutesWithWithout(jobs[1..], id, n - 1);
        TakeOfTail(jobs, n);
        TakeOfCons(jobs[0], Without(Take(jobs[1..], n), id), n);
        TakeOfCons(jobs[0], Without(jobs[1..], id), n);
      }
    }
  }

  lemma TakeOfTail(jobs: seq<Job>, n: nat)
    requires |jobs| > n + 1
    ensures Take(jobs, n + 1) != [] && Take(jobs, n + 1)[0] == jobs[0] && Take(jobs, n + 1)[1..] == Take(jobs[1..], n)
    ensures Take(jobs, n + 1)[1..] == jobs[1..n + 1]
  {
  }

  lemma TakeOfCons(job: Job, jobs: seq<Job>, n: nat)
    requires n > 0
    ensures Take([job] + jobs, n) == [job] + Take(jobs, n - 1)
  {
  }

  lemma {:induction false} AbsentIsUnchanged(jobs: seq<Job>, id: string)
    requires forall i | 0 <= i < |jobs| :: jobs[i].id != id
    ensures Without(jobs, id) == jobs
  {
    if jobs != [] {
      AbsentIsUnchanged(jobs[1..], id);
    }
  }

  /** Truncating at every save agrees with truncating the deduplicated history once. */
  lemma {:induction false} StoreIsTruncatedHistory(saves: seq<Job>)
    ensures AllSaved(saves) == Take(FirstCopies(Newest(saves)), CAPACITY)
  {
    if saves != [] {
      var last := |saves| - 1;
      var job, copies := saves[last], FirstCopies(Newest(saves[..last]));
      StoreIsTruncatedHistory(saves[..last]);
      FirstCopiesOfCons(job, Newest(saves[..last]));
      FirstCopiesDistinct(Newest(saves[..last]));
      TakeCommutesWithWithout(copies, job.id, CAPACITY - 1);
      TakeOfCons(job, Without(Take(copies, CAPACITY), job.id), CAPACITY);
      TakeOfCons(job, Without(copies, job.id), CAPACITY);
    }
  }

  // ---------- persistence ----------

  function StripCv(cv: Cv): Cv {
    cv.(dataUrl := "", hasPreview := cv.hasPreview || cv.dataUrl != "")
  }

  function StripJob(job: Job): Job {
    job.(cvs := seq(|job.cvs|, i requires 0 <= i < |job.cvs| => StripCv(job.cvs[i])))
  }

  /** The store without the base64 documents. */
  function Strip(jobs: seq<Job>): (stripped: seq<Job>)
    ensures |stripped| == |jobs|
  {
    seq(|jobs|, i requires 0 <= i < |jobs| => StripJob(jobs[i]))
  }

  lemma StripTwice(jobs: seq<Job>)
    ensures Strip(Strip(jobs)) == Strip(jobs)
  {
    forall i | 0 <= i < |jobs| ensures StripJob(StripJob(jobs[i])) == StripJob(jobs[i]) {
      var stripped := StripJob(jobs[i]);
      assert StripJob(stripped).cvs == stripped.cvs;
    }
  }

  lemma {:induction false} StripOfWithout(jobs: seq<Job>, id: string)
    ensures Strip(Without(jobs, id)) == Without(Strip(jobs), id)
  {
    if jobs != [] {
      StripOfWithout(jobs[1..], id);
      assert Strip(jobs)[1..] == Strip(jobs[1..]);
    }
  }

  lemma StripOfSaved(jobs: seq<Job>, job: Job)
    ensures Strip(Saved(jobs, job)) == Saved(Strip(jobs), StripJob(job))
  {
    StripOfWithout(jobs, job.id);
    assert Strip([job] + Without(jobs, job.id)) == [StripJob(job)] + Strip(Without(jobs, job.id));
  }

  datatype Event = Save(job: Job) | Reset | Restart

  /** The jobs in memory after the events, every write having reached the disk. */
  function Memory(events: seq<Event>): seq<Job> {
    if events == [] then []
    else
      var last := |events| - 1;
      var before := Memory(events[..last]);
      match events[last]
      case Save(job) => Saved(before, job)
      case Reset => []
      case Restart => Strip(before)
  }

  function NoRestarts(events: seq<Event>): seq<Event> {
    if events == [] then []
    else
      var last := |events| - 1;
      NoRestarts(events[..last]) + (if events[last].Restart? then [] else [events[last]])
  }

  /** Restarting the process, any number of times and anywhere, loses nothing but the documents themselves. */
  lemma {:induction false} RestartsLoseOnlyDocuments(events: seq<Event>)
    ensures Strip(Memory(events)) == Strip(Memory(NoRestarts(events)))
  {
    if events != [] {
      var last := |events| - 1;
      var before, kept := Memory(events[..last]), NoRestarts(events[..last]);
      RestartsLoseOnlyDocuments(events[..last]);
      match events[last] {
        case Save(job) =>
          StripOfSaved(before, job);
          StripOfSaved(Memory(kept), job);
          assert (kept + [events[last]])[..|kept|] == kept;
        case Reset =>
          assert (kept + [events[last]])[..|kept|] == kept;
        case Restart =>
          StripTwice(before);
          assert NoRestarts(events) == kept;
      }
    }
  }

  // ---------- uploading ----------

  function CandidateId(n: nat): string {
    "candidate-" + Print(n)
  }

  function ResumeId(n: nat): string {
    "resume-" + Print(n)
  }

  lemma CandidateIdsDiffer(m: nat, n: nat)
    requires CandidateId(m) == CandidateId(n)
    ensures m == n
  {
    assert CandidateId(m)[|"candidate-"|..] == Print(m) && CandidateId(n)[|"candidate-"|..] == Print(n);
    PrintInjective(m, n);
  }

  /** The stored form of the n-th CV of a job. Educations, certificates and languages are not kept for scoring. */
  function StoredCv(file: File, analysis: Option<Analysis>, dataUrl: string, n: nat): Cv {
    var parsed := match analysis
      case None => None
      case Some(a) =>
        var candidate := Scoring.Candidate(CandidateId(n), a.profile.title, a.profile.years, a.profile.skills, [], [], []);
        Some(Parsed(CandidateId(n), candidate, Summary(CandidateId(n), ResumeId(n), a.fullName, file.name)));
    Cv(file.name, ResumeId(n), parsed, dataUrl, false)
  }

  function StoredCvs(files: seq<File>, analyze: File -> Option<Analysis>, preview: File -> string, offset: nat): (cvs: seq<Cv>)
    ensures |cvs| == |files|
  {
    seq(|files|, i requires 0 <= i < |files| => StoredCv(files[i], analyze(files[i]), preview(files[i]), offset + i + 1))
  }

  function CountParsed(cvs: seq<Cv>): nat {
    if cvs == [] then 0 else (if cvs[0].parsed.Some? then 1 else 0) + CountParsed(cvs[1..])
  }

  function Uploaded(job: Job, files: seq<File>, analyze: File -> Option<Analysis>, preview: File -> string): Job {
    var stored := StoredCvs(files, analyze, preview, |job.cvs|);
    job.(cvs := stored + job.cvs, cvCount := CountParsed(job.cvs) + CountParsed(stored))
  }

  /** CV numbers run from one in upload order, each parsed CV is filed under its own number, and the count is right. */
  ghost predicate Numbered(job: Job) {
    && job.cvCount == CountParsed(job.cvs)
    && (exists numbers: seq<nat> :: Numbering(job.cvs, numbers))
  }

  ghost predicate AllNumbered(jobs: seq<Job>) {
    forall i | 0 <= i < |jobs| :: Numbered(jobs[i])
  }

  ghost predicate Numbering(cvs: seq<Cv>, numbers: seq<nat>) {
    && |numbers| == |cvs|
    && (forall i | 0 <= i < |cvs| :: 1 <= numbers[i] <= |cvs| && FiledUnder(cvs[i], numbers[i]))
    && (forall i, j | 0 <= i < j < |cvs| :: numbers[i] != numbers[j])
    && (forall n: nat | 1 <= n <= |cvs| :: n in numbers)
  }

  predicate FiledUnder(cv: Cv, n: nat) {
    && cv.resumeId == ResumeId(n)
    && (cv.parsed.Some? ==>
          var p := cv.parsed.value;
          p.candidateId == CandidateId(n) && p.candidate.id == CandidateId(n)
          && p.summary == Summary(CandidateId(n), ResumeId(n), p.summary.fullName, cv.filename))
  }

  lemma {:induction false} CountParsedOfConcat(a: seq<Cv>, b: seq<Cv>)
    ensures CountParsed(a + b) == CountParsed(a) + CountParsed(b)
  {
    if a == [] {
      assert a + b == b;
    } else {
      assert (a + b)[1..] == a[1..] + b;
      CountParsedOfConcat(a[1..], b);
    }
  }

  lemma StoredIsFiled(file: File, analysis: Option<Analysis>, dataUrl: string, n: nat)
    ensures FiledUnder(StoredCv(file, analysis, dataUrl, n), n)
  {
  }

  lemma UploadKeepsNumbering(job: Job, files: seq<File>, analyze: File -> Option<Analysis>, preview: File -> string)
    requires Numbered(job)
    ensures Numbered(Uploaded(job, files, analyze, preview))
  {
    var numbers :| Numbering(job.cvs, numbers);
    var offset := |job.cvs|;
    var added := seq(|files|, i requires 0 <= i < |files| => offset + i + 1);
    var stored := StoredCvs(files, analyze, preview, offset);
    CountParsedOfConcat(stored, job.cvs);
    forall i | 0 <= i < |files| ensures FiledUnder(stored[i], added[i]) {
      StoredIsFiled(files[i], analyze(files[i]), preview(files[i]), offset + i + 1);
    }
    hide StoredCv, FiledUnder, Numbering;
    BatchExtendsNumbering(job.cvs, numbers, stored, added);
  }

  lemma BatchExtendsNumbering(cvs: seq<Cv>, numbers: seq<nat>, stored: seq<Cv>, added: seq<nat>)
    requires Numbering(cvs, numbers) && |added| == |stored|
    requires forall i | 0 <= i < |stored| :: added[i] == |cvs| + i + 1 && FiledUnder(stored[i], added[i])
    ensures Numbering(stored + cvs, added + numbers)
  {
    var all, total := added + numbers, |stored| + |cvs|;
    forall i | 0 <= i < total ensures 1 <= all[i] <= total && FiledUnder((stored + cvs)[i], all[i]) {
      if i >= |stored| {
        assert all[i] == numbers[i - |stored|] && (stored + cvs)[i] == cvs[i - |stored|];
      }
    }
    forall i, j | 0 <= i < j < total ensures all[i] != all[j] {
      if i >= |stored| {
        assert all[i] == numbers[i - |stored|] && all[j] == numbers[j - |stored|];
      } else if j >= |stored| {
        assert all[j] == numbers[j - |stored|] <= |cvs|;
      }
    }
    forall n: nat | 1 <= n <= total ensures n in all {
      if n > |cvs| {
        assert added[n - |cvs| - 1] == n;
      } else {
        assert n in numbers;
      }
    }
  }

  datatype Batch = Batch(files: seq<File>, analyze: File -> Option<Analysis>, preview: File -> string)

  function AfterUploads(job: Job, batches: seq<Batch>): Job {
    if batches == [] then job
    else
      var last := |batches| - 1;
      var b := batches[last];
      Uploaded(AfterUploads(job, batches[..last]), b.files, b.analyze, b.preview)
  }

  /** Across any sequence of uploads to a new job, CV numbers are exactly 1..n and the count of parsed CVs is right. */
  lemma {:induction false} UploadsNumberEveryCv(job: Job, batches: seq<Batch>)
    requires job.cvs == [] && job.cvCount == 0
    ensures Numbered(AfterUploads(job, batches))
  {
    if batches == [] {
      assert Numbering(job.cvs, []);
    } else {
      var last := |batches| - 1;
      UploadsNumberEveryCv(job, batches[..last]);
      var b := batches[last];
      UploadKeepsNumbering(AfterUploads(job, batches[..last]), b.files, b.analyze, b.preview);
    }
  }

  // ---------- what an upload stores ----------

  /** The CV as its analysis has it: with title, years, skills and name, or as failed. */
  predicate StoredAs(cv: Cv, file: File, analysis: Option<Analysis>, dataUrl: string) {
    && cv.filename == file.name && cv.dataUrl == dataUrl && (cv.parsed.Some? <==> analysis.Some?)
    && (analysis.Some? && cv.parsed.Some? ==>
          var c, profile := cv.parsed.value.candidate, analysis.value.profile;
          && c.title == profile.title && c.years == profile.years && c.skills == profile.skills
          && c.educations == [] && c.certifications == [] && c.languages == []
          && cv.parsed.value.summary.fullName == analysis.value.fullName && cv.parsed.value.summary.filename == file.name)
  }

  /** An upload puts one CV for each file, in order and as analysed, in front of the earlier ones, which stay, as does
      everything else of the job; it counts the parsed ones. */
  lemma UploadStoresAnalyses(job: Job, files: seq<File>, analyze: File -> Option<Analysis>, preview: File -> string)
    ensures var job' := Uploaded(job, files, analyze, preview);
            && |job'.cvs| == |files| + |job.cvs|
            && (forall i | 0 <= i < |files| :: StoredAs(job'.cvs[i], files[i], analyze(files[i]), preview(files[i])))
            && (forall i | 0 <= i < |job.cvs| :: job'.cvs[|files| + i] == job.cvs[i])
            && job' == job.(cvs := job'.cvs, cvCount := CountParsed(job'.cvs))
  {
    CountParsedOfConcat(StoredCvs(files, analyze, preview, |job.cvs|), job.cvs);
  }

  /** The profiles sent to the scorer are those of the parsed CVs, each once and in order: that of a CV comes after as many
      as parsed CVs come before it. */
  lemma {:induction false} ParsedCvIsScored(cvs: seq<Cv>, i: nat)
    requires i < |cvs| && cvs[i].parsed.Some?
    ensures CountParsed(cvs[..i]) < |Candidates(cvs)|
            && Candidates(cvs)[CountParsed(cvs[..i])] == cvs[i].parsed.value.candidate
  {
    if i > 0 {
      ParsedCvIsScored(cvs[1..], i - 1);
      assert cvs[..i][1..] == cvs[1..][..i - 1];
    } else {
      assert cvs[..0] == [];
    }
  }

  /** After an upload the scorer gets the profiles of the files that were parsed, then those it got before. */
  lemma UploadAddsProfiles(job: Job, files: seq<File>, analyze: File -> Option<Analysis>, preview: File -> string)
    ensures var job' := Uploaded(job, files, analyze, preview);
            Candidates(job'.cvs) == Candidates(job'.cvs[..|files|]) + Candidates(job.cvs)
  {
    var stored := StoredCvs(files, analyze, preview, |job.cvs|);
    CandidatesOfConcat(stored, job.cvs);
    assert (stored + job.cvs)[..|files|] == stored;
  }

  lemma {:induction false} CandidatesOfConcat(a: seq<Cv>, b: seq<Cv>)
    ensures Candidates(a + b) == Candidates(a) + Candidates(b)
  {
    if a == [] {
      assert a + b == b;
    } else {
      assert (a + b)[1..] == a[1..] + b;
      CandidatesOfConcat(a[1..], b);
    }
  }

  /** A restart loses the documents alone: the preview flag remembers them, everything else stays. */
  lemma StripLosesOnlyDocuments(jobs: seq<Job>, j: nat, i: nat)
    requires j < |jobs| && i < |jobs[j].cvs|
    ensures |Strip(jobs)| == |jobs| && |Strip(jobs)[j].cvs| == |jobs[j].cvs|
    ensures var kept, cv := Strip(jobs)[j].cvs[i], jobs[j].cvs[i];
            && kept == cv.(dataUrl := "", hasPreview := kept.hasPreview)
            && (kept.hasPreview <==> cv.hasPreview || cv.dataUrl != "")
            && Strip(jobs)[j] == jobs[j].(cvs := Strip(jobs)[j].cvs)
  {
  }

  // ---------- ranking a job ----------

  /** The scoring profiles of the parsed CVs, in store order. */
  function Candidates(cvs: seq<Cv>): (cs: seq<Scoring.Candidate>)
    ensures |cs| == CountParsed(cvs)
  {
    if cvs == [] then []
    else (if cvs[0].parsed.Some? then [cvs[0].parsed.value.candidate] else []) + Candidates(cvs[1..])
  }

  /** The summary filed under a candidate id: of several, the last one. */
  function SummaryOf(cvs: seq<Cv>, id: string): Summary {
    match FindLast(cvs, (cv: Cv) => cv.parsed.Some? && cv.parsed.value.candidateId == id)
    case Some(i) => if cvs[i].parsed.Some? then cvs[i].parsed.value.summary else Summary(id, "", id, "")
    case None => Summary(id, "", id, "")
  }

  function BuildRun(cvs: seq<Cv>, scored: seq<Ranking.Ranked>): (run: seq<RunEntry>)
    ensures |run| == |scored|
  {
    seq(|scored|, i requires 0 <= i < |scored| =>
      var r := scored[i];
      RunEntry(SummaryOf(cvs, r.id), r.rank, r.score, r.confidence, r.eligibility, r.strengths, r.gaps, r.unknowns,
               r.assessments))
  }

  lemma {:induction false} CandidateComesFromCv(cvs: seq<Cv>, k: nat) returns (i: nat)
    requires k < |Candidates(cvs)|
    ensures i < |cvs| && cvs[i].parsed.Some? && cvs[i].parsed.value.candidate == Candidates(cvs)[k]
    ensures k < CountParsed(cvs) && i >= k && CountParsed(cvs[..i]) == k
  {
    if cvs[0].parsed.Some? && k == 0 {
      i := 0;
    } else {
      var j := CandidateComesFromCv(cvs[1..], if cvs[0].parsed.Some? then k - 1 else k);
      i := j + 1;
      assert cvs[..i][1..] == cvs[1..][..j];
    }
  }

  lemma CandidateIdsAreDistinct(cvs: seq<Cv>, numbers: seq<nat>)
    requires Numbering(cvs, numbers)
    ensures Ranking.DistinctIds(Candidates(cvs))
  {
    var cs := Candidates(cvs);
    forall k, l | 0 <= k < l < |cs| ensures cs[k].id != cs[l].id {
      var i := CandidateComesFromCv(cvs, k);
      var j := CandidateComesFromCv(cvs, l);
      assert i != j;
      assert FiledUnder(cvs[i], numbers[i]) && FiledUnder(cvs[j], numbers[j]);
      if cs[k].id == cs[l].id {
        CandidateIdsDiffer(numbers[i], numbers[j]);
      }
    }
  }

  /** In a numbered job, the summary found for a CV's candidate id is that very CV's. */
  lemma SummaryIsTheCvs(cvs: seq<Cv>, numbers: seq<nat>, i: nat)
    requires Numbering(cvs, numbers) && i < |cvs| && cvs[i].parsed.Some?
    ensures SummaryOf(cvs, cvs[i].parsed.value.candidateId) == cvs[i].parsed.value.summary
  {
    var id := cvs[i].parsed.value.candidateId;
    var found := FindLast(cvs, (cv: Cv) => cv.parsed.Some? && cv.parsed.value.candidateId == id);
    var j := found.value;
    assert FiledUnder(cvs[i], numbers[i]) && FiledUnder(cvs[j], numbers[j]);
    CandidateIdsDiffer(numbers[i], numbers[j]);
    assert i == j;
  }

  /** What the scorer's request model accepts; anything else comes back as an error. */
  predicate ScorerAccepts(rs: seq<Scoring.Requirement>, cs: seq<Scoring.Candidate>) {
    && rs != [] && 0 < |cs| <= MAX_CANDIDATES
    && (forall i | 0 <= i < |rs| :: Scoring.ValidRequirement(rs[i]))
    && (forall i | 0 <= i < |cs| :: cs[i].id != "" && Scoring.ValidCandidate(cs[i]))
  }

  /** The scored results of a job: the baseline, reranked when the AI answered. */
  function Score(job: Job, power: real -> real, payload: Option<seq<Rerank.AiResult>>): seq<Ranking.Ranked>
    requires Ranking.PositiveWeights(job.requirements)
  {
    var baseline := Ranking.RankingOf(job.requirements, Candidates(job.cvs), power);
    match payload
    case None => baseline
    case Some(ai) => Rerank.Reranked(baseline, ai)
  }

  lemma ResultIdsAreCandidates(rs: seq<Scoring.Requirement>, cs: seq<Scoring.Candidate>, power: real -> real,
                               payload: Option<seq<Rerank.AiResult>>, p: nat) returns (k: nat)
    requires Ranking.PositiveWeights(rs) && Ranking.DistinctIds(cs)
    requires var baseline := Ranking.RankingOf(rs, cs, power);
             p < |if payload.Some? then Rerank.Reranked(baseline, payload.value) else baseline|
    ensures var baseline := Ranking.RankingOf(rs, cs, power);
            k < |cs| && (if payload.Some? then Rerank.Reranked(baseline, payload.value) else baseline)[p].id == cs[k].id
  {
    var baseline := Ranking.RankingOf(rs, cs, power);
    var scored := Ranking.Scored(rs, cs, power);
    var at := p;
    if payload.Some? {
      var results := Rerank.Reranked(baseline, payload.value);
      Rerank.MergeIsConservative(baseline, payload.value);
      at := Rerank.Origin(Rerank.Merged(baseline, payload.value), Ranking.Unranked(results), p);
      assert results[p].id == Ranking.Unranked(results)[p].id;
    }
    Ranking.RankingIsAnOrder(rs, cs, power);
    k := Rerank.Origin(scored, Ranking.Unranked(baseline), at);
    assert Ranking.Unranked(baseline)[at].id == baseline[at].id;
  }

  /** The entry says of the candidate what its result says. */
  predicate EntryReports(entry: RunEntry, r: Ranking.Ranked) {
    && entry.rank == r.rank && entry.score == r.score && entry.confidence == r.confidence && entry.eligibility == r.eligibility
    && entry.strengths == r.strengths && entry.gaps == r.gaps && entry.unknowns == r.unknowns
    && entry.assessments == r.assessments
  }

  /** Every entry of a run shows the result that was scored, and the summary of the very CV that was scored for it, whatever
      the AI answered. */
  lemma RunShowsEachCvItsOwnSummary(job: Job, power: real -> real, payload: Option<seq<Rerank.AiResult>>, p: nat)
    requires Numbered(job) && Ranking.PositiveWeights(job.requirements)
    requires p < |Score(job, power, payload)|
    ensures exists i :: 0 <= i < |job.cvs| && job.cvs[i].parsed.Some?
                        && job.cvs[i].parsed.value.candidate.id == Score(job, power, payload)[p].id
                        && BuildRun(job.cvs, Score(job, power, payload))[p].summary == job.cvs[i].parsed.value.summary
    ensures EntryReports(BuildRun(job.cvs, Score(job, power, payload))[p], Score(job, power, payload)[p])
  {
    var numbers :| Numbering(job.cvs, numbers);
    var cs := Candidates(job.cvs);
    CandidateIdsAreDistinct(job.cvs, numbers);
    var k := ResultIdsAreCandidates(job.requirements, cs, power, payload, p);
    var i := CandidateComesFromCv(job.cvs, k);
    assert FiledUnder(job.cvs[i], numbers[i]);
    SummaryIsTheCvs(job.cvs, numbers, i);
  }

  /** Without an answer of the AI a run is the scorer's ranking of the parsed CVs; with one, every entry is the scorer's
      result for that candidate with the payload merged in. */
  lemma RunFollowsScorer(job: Job, power: real -> real, payload: seq<Rerank.AiResult>, p: nat)
    requires Ranking.PositiveWeights(job.requirements)
    ensures var baseline := Ranking.RankingOf(job.requirements, Candidates(job.cvs), power);
            && Score(job, power, None) == baseline && |Score(job, power, Some(payload))| == |baseline|
            && (p < |baseline| ==>
                  RankingRules.IsResult(baseline[p], job.requirements, Candidates(job.cvs), power)
                  && exists b :: 0 <= b < |baseline| &&
                       Score(job, power, Some(payload))[p] == Rerank.Merged(baseline, payload)[b].(rank := p + 1))
  {
    var baseline := Ranking.RankingOf(job.requirements, Candidates(job.cvs), power);
    var results := Rerank.Reranked(baseline, payload);
    RankingRules.BestComesFirst(job.requirements, Candidates(job.cvs), power);
    Rerank.MergeIsConservative(baseline, payload);
    if p < |baseline| {
      var b := Rerank.Origin(Rerank.Merged(baseline, payload), Ranking.Unranked(results), p);
      MergedIsUnranked(baseline, payload, b);
      assert results[p] == Ranking.Unranked(results)[p].(rank := p + 1);
    }
  }

  lemma MergedIsUnranked(baseline: seq<Ranking.Ranked>, payload: seq<Rerank.AiResult>, b: nat)
    requires b < |baseline|
    ensures Rerank.Merged(baseline, payload)[b].rank == 1
  {
  }

  // ---------- any run of the store's actions ----------

  datatype Action =
    | Create(id: string, requirements: seq<Scoring.Requirement>)
    | Upload(jobId: string, batch: Batch)
    | Rank(jobId: string, power: real -> real, payload: Option<seq<Rerank.AiResult>>)
    | Clear
    | Reload

  function FindJob(jobs: seq<Job>, id: string): Option<nat> {
    FindFirst(jobs, (job: Job) => job.id == id)
  }

  predicate UploadAccepted(jobs: seq<Job>, jobId: string, files: seq<File>) {
    FindJob(jobs, jobId).Some? && 0 < |files| <= MAX_FILES
  }

  predicate RankAccepted(jobs: seq<Job>, jobId: string) {
    var found := FindJob(jobs, jobId);
    found.Some? && ScorerAccepts(jobs[found.value].requirements, Candidates(jobs[found.value].cvs))
  }

  /** The jobs in memory after an action; a refused one changes nothing. */
  function Act(jobs: seq<Job>, action: Action): seq<Job> {
    match action
    case Create(id, requirements) => Saved(jobs, Job(id, requirements, 0, [], None))
    case Upload(jobId, b) =>
      if UploadAccepted(jobs, jobId, b.files)
      then Saved(jobs, Uploaded(jobs[FindJob(jobs, jobId).value], b.files, b.analyze, b.preview)) else jobs
    case Rank(jobId, power, payload) =>
      if RankAccepted(jobs, jobId) then
        var job := jobs[FindJob(jobs, jobId).value];
        Saved(jobs, job.(latestRun := Some(BuildRun(job.cvs, Score(job, power, payload)))))
      else jobs
    case Clear => []
    case Reload => Strip(jobs)
  }

  function ActAll(actions: seq<Action>): seq<Job> {
    if actions == [] then [] else Act(ActAll(actions[..|actions| - 1]), actions[|actions| - 1])
  }

  lemma {:induction false} WithoutIsSubset(jobs: seq<Job>, id: string)
    ensures forall i | 0 <= i < |Without(jobs, id)| :: Without(jobs, id)[i] in jobs
  {
    if jobs != [] {
      WithoutIsSubset(jobs[1..], id);
      assert forall job | job in jobs[1..] :: job in jobs;
    }
  }

  lemma SavedKeepsNumbered(jobs: seq<Job>, job: Job)
    ensures AllNumbered(jobs) && Numbered(job) ==> AllNumbered(Saved(jobs, job))
  {
    WithoutIsSubset(jobs, job.id);
  }

  /** Dropping the documents changes nothing of what a CV is filed under. */
  lemma {:induction false} CountParsedOfStripped(cvs: seq<Cv>, stripped: seq<Cv>)
    requires |stripped| == |cvs| && forall i | 0 <= i < |cvs| :: stripped[i] == StripCv(cvs[i])
    ensures CountParsed(stripped) == CountParsed(cvs)
  {
    if cvs != [] {
      CountParsedOfStripped(cvs[1..], stripped[1..]);
    }
  }

  lemma StripKeepsNumbered(jobs: seq<Job>)
    requires AllNumbered(jobs)
    ensures AllNumbered(Strip(jobs))
  {
    forall i | 0 <= i < |jobs| ensures Numbered(Strip(jobs)[i]) {
      var job := jobs[i];
      assert Numbered(job);
      var numbers :| Numbering(job.cvs, numbers);
      CountParsedOfStripped(job.cvs, StripJob(job).cvs);
      assert forall k | 0 <= k < |job.cvs| :: FiledUnder(job.cvs[k], numbers[k]) ==> FiledUnder(StripCv(job.cvs[k]), numbers[k]);
      assert Numbering(StripJob(job).cvs, numbers);
    }
  }

  lemma ActKeepsNumbered(jobs: seq<Job>, action: Action)
    requires AllNumbered(jobs)
    ensures AllNumbered(Act(jobs, action))
  {
    match action {
      case Create(id, requirements) =>
        assert Numbering([], []);
        SavedKeepsNumbered(jobs, Job(id, requirements, 0, [], None));
      case Upload(jobId, b) =>
        if UploadAccepted(jobs, jobId, b.files) {
          var job := jobs[FindJob(jobs, jobId).value];
          UploadKeepsNumbering(job, b.files, b.analyze, b.preview);
          SavedKeepsNumbered(jobs, Uploaded(job, b.files, b.analyze, b.preview));
        }
      case Rank(jobId, power, payload) =>
        if RankAccepted(jobs, jobId) {
          var job := jobs[FindJob(jobs, jobId).value];
          SavedKeepsNumbered(jobs, job.(latestRun := Some(BuildRun(job.cvs, Score(job, power, payload)))));
        }
      case Clear =>
      case Reload => StripKeepsNumbered(jobs);
    }
  }

  /** After any run of creations, uploads, rankings, resets and restarts, every job in the store has its CVs numbered 1..n
      and counted right. */
  lemma {:induction false} EveryJobStaysNumbered(actions: seq<Action>)
    ensures AllNumbered(ActAll(actions))
  {
    if actions != [] {
      EveryJobStaysNumbered(actions[..|actions| - 1]);
      ActKeepsNumbered(ActAll(actions[..|actions| - 1]), actions[|actions| - 1]);
    }
  }

  // ---------- the store itself ----------

  method AnalyzeFiles(files: seq<File>, analyze: File -> Option<Analysis>, preview: File -> string, job: Job)
    returns (stored: seq<Cv>, accepted: nat, failed: nat)
    ensures stored == StoredCvs(files, analyze, preview, |job.cvs|)
    ensures accepted == CountParsed(stored) && accepted + failed == |files|
  {
    stored, accepted, failed := [], 0, 0;
    for index := 0 to |files|
      invariant stored == StoredCvs(files[..index], analyze, preview, |job.cvs|)
      invariant accepted == CountParsed(stored) && accepted + failed == index
    {
      var cvIndex := |job.cvs| + index + 1;
      var analysis := analyze(files[index]);
      var cv := StoredCv(files[index], analysis, preview(files[index]), cvIndex);
      CountParsedOfConcat(stored, [cv]);
      assert CountParsed([cv]) == if cv.parsed.Some? then 1 else 0;
      stored := stored + [cv];
      if analysis.Some? {
        accepted := accepted + 1;
      } else {
        failed := failed + 1;
      }
    }
    assert files[..|files|] == files;
  }

  class Store {
    var jobs: seq<Job>
    var disk: seq<Job>

    ghost predicate Valid()
      reads this
    {
      disk == Strip(jobs)
    }

    constructor ()
      ensures Valid() && jobs == []
    {
      jobs, disk := [], [];
    }

    method SaveJob(job: Job)
      modifies this
      ensures Valid() && jobs == Saved(old(jobs), job)
      ensures AllNumbered(old(jobs)) && Numbered(job) ==> AllNumbered(jobs)
    {
      SavedKeepsNumbered(jobs, job);
      var rest := Without(jobs, job.id);
      jobs := Take([job] + rest, CAPACITY);
      disk := Strip(jobs);
    }

    method Reset()
      modifies this
      ensures Valid() && jobs == [] == Act(old(jobs), Clear)
    {
      jobs := [];
      disk := [];
    }

    /** The process starts again and reads the store back from the disk. */
    method Restart()
      requires Valid()
      modifies `jobs
      ensures Valid() && jobs == Strip(old(jobs)) == Act(old(jobs), Reload)
      ensures AllNumbered(old(jobs)) ==> AllNumbered(jobs)
    {
      StripTwice(jobs);
      if AllNumbered(jobs) {
        StripKeepsNumbered(jobs);
      }
      jobs := disk;
    }

    method UploadCvs(jobId: string, files: seq<File>, analyze: File -> Option<Analysis>, preview: File -> string)
      returns (problem: Option<Problem>)
      requires Valid()
      modifies this
      ensures Valid()
      ensures var found := FindJob(old(jobs), jobId);
              if found.None? then problem == Some(NotFound) && jobs == old(jobs)
              else if files == [] then problem == Some(NoFiles) && jobs == old(jobs)
              else if |files| > MAX_FILES then problem == Some(TooManyFiles) && jobs == old(jobs)
              else problem == None && jobs == Saved(old(jobs), Uploaded(old(jobs)[found.value], files, analyze, preview))
      ensures jobs == Act(old(jobs), Upload(jobId, Batch(files, analyze, preview)))
      ensures AllNumbered(old(jobs)) ==> AllNumbered(jobs)
    {
      var found := FindJob(jobs, jobId);
      if found.None? {
        return Some(NotFound);
      }
      if files == [] {
        return Some(NoFiles);
      }
      if |files| > MAX_FILES {
        return Some(TooManyFiles);
      }
      var job := jobs[found.value];
      var stored, accepted, failed := AnalyzeFiles(files, analyze, preview, job);
      var updated := job.(cvs := stored + job.cvs, cvCount := CountParsed(job.cvs) + accepted);
      if Numbered(job) {
        UploadKeepsNumbering(job, files, analyze, preview);
      }
      SaveJob(updated);
      problem := None;
    }

    method RankJob(jobId: string, power: real -> real, payload: Option<seq<Rerank.AiResult>>)
      returns (problem: Option<Problem>)
      requires Valid()
      modifies this
      ensures Valid()
      ensures var found := FindJob(old(jobs), jobId);
              if found.None? then problem == Some(NotFound) && jobs == old(jobs)
              else
                var job := old(jobs)[found.value];
                if CountParsed(job.cvs) == 0 then problem == Some(NoParsedCv) && jobs == old(jobs)
                else if !ScorerAccepts(job.requirements, Candidates(job.cvs)) then
                  problem == Some(ScorerRefused) && jobs == old(jobs)
                else problem == None
                     && jobs == Saved(old(jobs), job.(latestRun := Some(BuildRun(job.cvs, Score(job, power, payload)))))
      ensures jobs == Act(old(jobs), Rank(jobId, power, payload))
      ensures AllNumbered(old(jobs)) ==> AllNumbered(jobs)
    {
      var found := FindJob(jobs, jobId);
      if found.None? {
        return Some(NotFound);
      }
      var job := jobs[found.value];
      var candidates := Candidates(job.cvs);
      if |candidates| == 0 {
        return Some(NoParsedCv);
      }
      if !ScorerAccepts(job.requirements, candidates) {
        return Some(ScorerRefused);
      }
      var scored := Ranking.RankCandidates(job.requirements, candidates, power);
      if payload.Some? {
        scored := Rerank.BuildAiRanking(scored, payload.value);
      }
      SaveJob(job.(latestRun := Some(BuildRun(job.cvs, scored))));
      problem := None;
    }
  }
}
