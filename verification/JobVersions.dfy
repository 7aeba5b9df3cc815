// Job versions, their requirements, and the snapshots that ranking runs take of them.
// A row's index stands for its uuid. Ranking a job is three separate steps, interleaved with anything:
// read the current version, read its requirements, and, once scored, insert the run.
module JobVersions {
  import opened Wrappers
  import opened Tables
  import opened Texts
  import Decimal
  import Ranking
  import StableSort

  datatype Requirement = Requirement(key: string, name: string, typeValid: bool, priorityValid: bool, weight: real)

  datatype Job = Job(currentVersion: nat, deleted: bool)

  datatype Version = Version(job: nat, number: nat, description: string, parser: string)

  datatype RequirementRow = RequirementRow(version: nat, requirement: Requirement)

  datatype Run = Run(job: nat, version: nat, snapshot: seq<Requirement>, weights: map<string, real>)

  // A ranking request under way: it has read the version row, or also the requirements.
  datatype Pending = Reading(job: nat, version: nat) | Scoring(job: nat, version: nat, requirements: seq<Requirement>) | Finished

  datatype State = State(jobs: seq<Job>, versions: seq<Version>, requirements: seq<RequirementRow>, runs: seq<Run>,
                         pending: seq<Pending>)

  const INIT := State([], [], [], [], [])

  datatype Reply = Done | ValidationError | NotFound | NoRequirements | InternalError

  const MAX_REQUIREMENTS := 100

  /** strings.TrimSpace leaves nothing. */
  predicate Blank(text: string) {
    forall i | 0 <= i < |text| :: IsWhiteSpace(text[i])
  }

  predicate ValidRequirement(r: Requirement) {
    !Blank(r.key) && !Blank(r.name) && r.typeValid && r.priorityValid && 0.0 < r.weight <= 10.0
  }

  /** The rows that insertRequirements adds: the valid requirements, in order. */
  function RowsFor(version: nat, inputs: seq<Requirement>): seq<RequirementRow> {
    if inputs == [] then []
    else
      var last := |inputs| - 1;
      RowsFor(version, inputs[..last])
      + (if ValidRequirement(inputs[last]) then [RequirementRow(version, inputs[last])] else [])
  }

  function Rekeyed(inputs: seq<Requirement>): (keyed: seq<Requirement>)
    ensures |keyed| == |inputs|
  {
    seq(|inputs|, i requires 0 <= i < |inputs| => inputs[i].(key := "R" + Decimal.Print(i + 1)))
  }

  function RowsOf(rows: seq<RequirementRow>, version: nat): seq<Requirement> {
    if rows == [] then []
    else
      var last := |rows| - 1;
      RowsOf(rows[..last], version) + (if rows[last].version == version then [rows[last].requirement] else [])
  }

  /** No two requirements of one version share a key: a constraint of the table. */
  predicate UniqueKeys(rows: seq<RequirementRow>) {
    forall i, j | 0 <= i < j < |rows| && rows[i].version == rows[j].version :: rows[i].requirement.key != rows[j].requirement.key
  }

  predicate RequirementLeq(a: Requirement, b: Requirement) {
    Ranking.TextLeq(a.key, b.key)
  }

  /** SELECT ... WHERE job_version_id = version ORDER BY requirement_key */
  function RequirementsOf(rows: seq<RequirementRow>, version: nat): seq<Requirement> {
    StableSort.Sort(RowsOf(rows, version), RequirementLeq)
  }

  function WeightsOf(requirements: seq<Requirement>): map<string, real> {
    if requirements == [] then map[]
    else
      var last := |requirements| - 1;
      WeightsOf(requirements[..last])[requirements[last].key := requirements[last].weight]
  }

  /** The row of the job's current version. */
  function CurrentRow(s: State, job: nat): Option<nat> {
    if job < |s.jobs| && !s.jobs[job].deleted then
      FindFirst(s.versions, (v: Version) => v.job == job && v.number == s.jobs[job].currentVersion)
    else None
  }

  function DoCreate(s: State, description: string, parsed: seq<Requirement>): (State, Reply) {
    var job, version := |s.jobs|, |s.versions|;
    var requirements := s.requirements + RowsFor(version, parsed);
    if !UniqueKeys(requirements) then (s, InternalError)
    else
      (s.(jobs := s.jobs + [Job(1, false)],
       versions := s.versions + [Version(job, 1, description, "parsed")],
       requirements := requirements), Done)
  }

  function DoReplace(s: State, job: nat, inputs: seq<Requirement>): (State, Reply) {
    var keyed := Rekeyed(inputs);
    if inputs == [] || |inputs| > MAX_REQUIREMENTS || exists i | 0 <= i < |keyed| :: !ValidRequirement(keyed[i]) then
      (s, ValidationError)
    else
      match CurrentRow(s, job)
      case None => (s, NotFound)
      case Some(row) =>
        var next := s.jobs[job].currentVersion + 1;
        var requirements := s.requirements + RowsFor(|s.versions|, keyed);
        if !UniqueKeys(requirements) then (s, InternalError)
        else
          (s.(versions := s.versions + [Version(job, next, s.versions[row].description, "manual-v1")],
           requirements := requirements,
           jobs := s.jobs[job := s.jobs[job].(currentVersion := next)]), Done)
  }

  function DoReadVersion(s: State, job: nat): (State, Reply) {
    match CurrentRow(s, job)
    case None => (s, NotFound)
    case Some(row) => (s.(pending := s.pending + [Reading(job, row)]), Done)
  }

  function DoReadRequirements(s: State, request: nat): (State, Reply) {
    if request < |s.pending| && s.pending[request].Reading? then
      var p := s.pending[request];
      var requirements := RequirementsOf(s.requirements, p.version);
      if requirements == [] then (s.(pending := s.pending[request := Finished]), NoRequirements)
      else (s.(pending := s.pending[request := Scoring(p.job, p.version, requirements)]), Done)
    else (s, NotFound)
  }

  function DoPersist(s: State, request: nat): (State, Reply) {
    if request < |s.pending| && s.pending[request].Scoring? then
      var p := s.pending[request];
      (s.(runs := s.runs + [Run(p.job, p.version, p.requirements, WeightsOf(p.requirements))],
       pending := s.pending[request := Finished]), Done)
    else (s, NotFound)
  }

  datatype Request =
    | Create(description: string, parsed: seq<Requirement>)
    | Replace(job: nat, inputs: seq<Requirement>)
    | ReadVersion(job: nat)
    | ReadRequirements(request: nat)
    | Persist(request: nat)
    // An edit of jobs.deleted_at, which the handlers read but never write.
    | DeleteJob(job: nat)

  function Step(s: State, r: Request): (State, Reply) {
    match r
    case Create(description, parsed) => DoCreate(s, description, parsed)
    case Replace(job, inputs) => DoReplace(s, job, inputs)
    case ReadVersion(job) => DoReadVersion(s, job)
    case ReadRequirements(request) => DoReadRequirements(s, request)
    case Persist(request) => DoPersist(s, request)
    case DeleteJob(job) =>
      if job < |s.jobs| then (s.(jobs := s.jobs[job := s.jobs[job].(deleted := true)]), Done) else (s, NotFound)
  }

  function RunAll(s: State, requests: seq<Request>): State {
    if requests == [] then s
    else
      var last := |requests| - 1;
      Step(RunAll(s, requests[..last]), requests[last]).0
  }

  // ---------- invariants ----------

  function NumbersOf(versions: seq<Version>, job: nat): seq<nat> {
    if versions == [] then []
    else
      var last := |versions| - 1;
      NumbersOf(versions[..last], job) + (if versions[last].job == job then [versions[last].number] else [])
  }

  function UpTo(n: nat): (numbers: seq<nat>)
    ensures |numbers| == n && forall i | 0 <= i < n :: numbers[i] == i + 1
  {
    if n == 0 then [] else UpTo(n - 1) + [n]
  }

  predicate RunOk(s: State, run: Run) {
    && run.version < |s.versions| && s.versions[run.version].job == run.job
    && run.snapshot == RequirementsOf(s.requirements, run.version)
    && run.snapshot != [] && run.weights == WeightsOf(run.snapshot)
  }

  predicate PendingOk(s: State, p: Pending) {
    match p
    case Reading(job, version) => version < |s.versions| && s.versions[version].job == job
    case Scoring(job, version, requirements) =>
      && version < |s.versions| && s.versions[version].job == job
      && requirements == RequirementsOf(s.requirements, version) && requirements != []
    case Finished => true
  }

  ghost predicate Inv(s: State) {
    && (forall j | 0 <= j < |s.jobs| ::
          s.jobs[j].currentVersion >= 1 && NumbersOf(s.versions, j) == UpTo(s.jobs[j].currentVersion))
    && (forall v | 0 <= v < |s.versions| :: s.versions[v].job < |s.jobs|)
    && (forall r | 0 <= r < |s.requirements| :: s.requirements[r].version < |s.versions|)
    && UniqueKeys(s.requirements)
    && (forall k | 0 <= k < |s.runs| :: RunOk(s, s.runs[k]))
    && (forall k | 0 <= k < |s.pending| :: PendingOk(s, s.pending[k]))
  }

  /** Runs and versions are only ever added, and the requirements of a version never change. */
  ghost predicate Later(s: State, s': State) {
    && |s.versions| <= |s'.versions| && s.versions == s'.versions[..|s.versions|]
    && |s.runs| <= |s'.runs| && s.runs == s'.runs[..|s.runs|]
    && |s.jobs| <= |s'.jobs|
    && (forall v: nat | v < |s.versions| :: RequirementsOf(s'.requirements, v) == RequirementsOf(s.requirements, v))
    && (forall j | 0 <= j < |s.jobs| :: s.jobs[j].currentVersion <= s'.jobs[j].currentVersion)
  }

  lemma {:induction false} RowsOfConcat(a: seq<RequirementRow>, b: seq<RequirementRow>, version: nat)
    ensures RowsOf(a + b, version) == RowsOf(a, version) + RowsOf(b, version)
  {
    if b == [] {
      assert a + b == a;
    } else {
      assert (a + b)[..|a + b| - 1] == a + b[..|b| - 1];
      RowsOfConcat(a, b[..|b| - 1], version);
    }
  }

  lemma {:induction false} RowsForOtherVersions(version: nat, inputs: seq<Requirement>, other: nat)
    requires other != version
    ensures RowsOf(RowsFor(version, inputs), other) == []
    ensures forall i | 0 <= i < |RowsFor(version, inputs)| :: RowsFor(version, inputs)[i].version == version
  {
    if inputs != [] {
      var last := |inputs| - 1;
      RowsForOtherVersions(version, inputs[..last], other);
      var before := RowsFor(version, inputs[..last]);
      RowsOfConcat(before, if ValidRequirement(inputs[last]) then [RequirementRow(version, inputs[last])] else [], other);
      assert RowsOf([RequirementRow(version, inputs[last])], other) == [];
    }
  }

  lemma {:induction false} NoVersionsYet(versions: seq<Version>, job: nat)
    requires forall v | 0 <= v < |versions| :: versions[v].job != job
    ensures NumbersOf(versions, job) == []
  {
    if versions != [] {
      NoVersionsYet(versions[..|versions| - 1], job);
    }
  }

  /** A transaction that adds one version with its requirements. */
  lemma AddVersionIsSound(s: State, s': State, v: Version, inputs: seq<Requirement>)
    requires Inv(s) && v.job < |s'.jobs|
    requires s' == s.(jobs := s'.jobs, versions := s.versions + [v], requirements := s.requirements + RowsFor(|s.versions|, inputs))
    requires UniqueKeys(s'.requirements)
    requires |s'.jobs| == if v.job < |s.jobs| then |s.jobs| else v.job + 1
    requires v.job <= |s.jobs|
    requires forall j | 0 <= j < |s.jobs| && j != v.job :: s'.jobs[j].currentVersion == s.jobs[j].currentVersion
    requires s'.jobs[v.job].currentVersion == v.number
    requires v.number == (if v.job < |s.jobs| then s.jobs[v.job].currentVersion else 0) + 1
    ensures Inv(s') && Later(s, s')
  {
    forall other: nat | other < |s.versions|
      ensures RequirementsOf(s'.requirements, other) == RequirementsOf(s.requirements, other)
    {
      RowsOfConcat(s.requirements, RowsFor(|s.versions|, inputs), other);
      RowsForOtherVersions(|s.versions|, inputs, other);
      assert RowsOf(s.requirements, other) + [] == RowsOf(s.requirements, other);
    }
    forall j: nat | j < |s'.jobs| ensures NumbersOf(s'.versions, j) == UpTo(s'.jobs[j].currentVersion) {
      assert s'.versions[..|s.versions|] == s.versions;
      assert NumbersOf(s'.versions, j) == NumbersOf(s.versions, j) + if j == v.job then [v.number] else [];
      if j == |s.jobs| {
        NoVersionsYet(s.versions, j);
        assert UpTo(1) == UpTo(0) + [1];
      } else {
        assert NumbersOf(s.versions, j) == UpTo(s.jobs[j].currentVersion);
      }
    }
    RowsForOtherVersions(|s.versions|, inputs, |s.versions| + 1);
    forall k | 0 <= k < |s'.runs| ensures RunOk(s', s'.runs[k]) {
      assert RunOk(s, s.runs[k]);
    }
    forall k | 0 <= k < |s'.pending| ensures PendingOk(s', s'.pending[k]) {
      assert PendingOk(s, s.pending[k]);
    }
  }

  lemma CreateIsSound(s: State, description: string, parsed: seq<Requirement>)
    requires Inv(s)
    ensures Inv(DoCreate(s, description, parsed).0) && Later(s, DoCreate(s, description, parsed).0)
  {
    var (s', reply) := DoCreate(s, description, parsed);
    if reply.Done? {
      AddVersionIsSound(s, s', Version(|s.jobs|, 1, description, "parsed"), parsed);
    } else {
      PendingOnlyIsSound(s, s);
    }
  }

  lemma ReplaceIsSound(s: State, job: nat, inputs: seq<Requirement>)
    requires Inv(s)
    ensures Inv(DoReplace(s, job, inputs).0) && Later(s, DoReplace(s, job, inputs).0)
  {
    var (s', reply) := DoReplace(s, job, inputs);
    if reply.Done? {
      AddVersionIsSound(s, s', s'.versions[|s.versions|], Rekeyed(inputs));
    } else {
      PendingOnlyIsSound(s, s);
    }
  }

  lemma {:induction false} RowsKeepKeys(version: nat, inputs: seq<Requirement>)
    requires forall i, j | 0 <= i < j < |inputs| :: inputs[i].key != inputs[j].key
    ensures UniqueKeys(RowsFor(version, inputs))
    ensures forall r | 0 <= r < |RowsFor(version, inputs)| ::
              RowsFor(version, inputs)[r].version == version && RowsFor(version, inputs)[r].requirement in inputs
  {
    if inputs != [] {
      var last := |inputs| - 1;
      var front, r := inputs[..last], inputs[last];
      assert inputs == front + [r];
      RowsKeepKeys(version, front);
      assert r !in front;
      AppendedKeyIsNew(RowsFor(version, front), version, front, r);
    }
  }

  lemma AppendedKeyIsNew(rows: seq<RequirementRow>, version: nat, front: seq<Requirement>, r: Requirement)
    requires UniqueKeys(rows) && forall f | f in front :: f.key != r.key
    requires forall i | 0 <= i < |rows| :: rows[i].requirement in front
    ensures UniqueKeys(rows + [RequirementRow(version, r)])
  {
  }

  /** Renumbered keys never violate the constraint: a replacement is not refused for that. */
  lemma ReplacementsNeverClash(s: State, job: nat, inputs: seq<Requirement>)
    requires Inv(s)
    ensures DoReplace(s, job, inputs).1 != InternalError
  {
    var keyed := Rekeyed(inputs);
    forall i, j | 0 <= i < j < |keyed| ensures keyed[i].key != keyed[j].key {
      assert keyed[i].key[1..] == Decimal.Print(i + 1) && keyed[j].key[1..] == Decimal.Print(j + 1);
      if keyed[i].key == keyed[j].key {
        Decimal.PrintInjective(i + 1, j + 1);
      }
    }
    RowsKeepKeys(|s.versions|, keyed);
  }

  lemma ReadRequirementsIsSound(s: State, request: nat)
    requires Inv(s)
    ensures Inv(DoReadRequirements(s, request).0) && Later(s, DoReadRequirements(s, request).0)
  {
    if request < |s.pending| {
      assert PendingOk(s, s.pending[request]);
    }
    PendingOnlyIsSound(s, DoReadRequirements(s, request).0);
  }

  lemma DeleteIsSound(s: State, job: nat)
    requires Inv(s)
    ensures Inv(Step(s, DeleteJob(job)).0) && Later(s, Step(s, DeleteJob(job)).0)
  {
    var s' := Step(s, DeleteJob(job)).0;
    forall k | 0 <= k < |s'.runs| ensures RunOk(s', s'.runs[k]) {
      assert RunOk(s, s.runs[k]);
    }
    forall k | 0 <= k < |s'.pending| ensures PendingOk(s', s'.pending[k]) {
      assert PendingOk(s, s.pending[k]);
    }
  }

  lemma StepIsSound(s: State, r: Request)
    requires Inv(s)
    ensures Inv(Step(s, r).0) && Later(s, Step(s, r).0)
  {
    match r
    case Create(description, parsed) => CreateIsSound(s, description, parsed);
    case Replace(job, inputs) => ReplaceIsSound(s, job, inputs);
    case ReadVersion(job) => PendingOnlyIsSound(s, DoReadVersion(s, job).0);
    case ReadRequirements(request) => ReadRequirementsIsSound(s, request);
    case Persist(request) => PersistIsSound(s, request);
    case DeleteJob(job) => DeleteIsSound(s, job);
  }

  lemma PendingOnlyIsSound(s: State, s': State)
    requires Inv(s) && s' == s.(pending := s'.pending)
    requires forall k | 0 <= k < |s'.pending| :: (k < |s.pending| && s'.pending[k] == s.pending[k]) || PendingOk(s, s'.pending[k])
    ensures Inv(s') && Later(s, s')
  {
    forall k | 0 <= k < |s'.runs| ensures RunOk(s', s'.runs[k]) {
      assert RunOk(s, s.runs[k]);
    }
    forall k | 0 <= k < |s'.pending| ensures PendingOk(s', s'.pending[k]) {
      assert k < |s.pending| ==> PendingOk(s, s.pending[k]);
    }
  }

  lemma PersistIsSound(s: State, request: nat)
    requires Inv(s)
    ensures Inv(DoPersist(s, request).0) && Later(s, DoPersist(s, request).0)
  {
    var s' := DoPersist(s, request).0;
    forall k | 0 <= k < |s'.runs| ensures RunOk(s', s'.runs[k]) {
      if k < |s.runs| {
        assert RunOk(s, s.runs[k]);
      } else {
        assert PendingOk(s, s.pending[request]);
      }
    }
    forall k | 0 <= k < |s'.pending| ensures PendingOk(s', s'.pending[k]) {
      assert PendingOk(s, s.pending[k]);
    }
  }

  lemma LaterIsTransitive(a: State, b: State, c: State)
    requires Later(a, b) && Later(b, c)
    ensures Later(a, c)
  {
    assert a.versions == b.versions[..|a.versions|] == c.versions[..|a.versions|];
    assert a.runs == b.runs[..|a.runs|] == c.runs[..|a.runs|];
  }

  lemma {:induction false} RunAllIsSound(s: State, requests: seq<Request>)
    requires Inv(s)
    ensures Inv(RunAll(s, requests)) && Later(s, RunAll(s, requests))
  {
    if requests != [] {
      var last := |requests| - 1;
      var before := RunAll(s, requests[..last]);
      RunAllIsSound(s, requests[..last]);
      StepIsSound(before, requests[last]);
      LaterIsTransitive(s, before, RunAll(s, requests));
    }
  }

  // ---------- over every interleaving ----------

  ghost predicate Reachable(s: State) {
    exists requests :: s == RunAll(INIT, requests)
  }

  lemma ReachableIsSound(s: State)
    requires Reachable(s)
    ensures Inv(s)
  {
    var requests :| s == RunAll(INIT, requests);
    RunAllIsSound(INIT, requests);
  }

  /** A run, once inserted, never changes, and its snapshot is for ever what its job version requires,
      however replacements are interleaved with the reads and the scoring. */
  lemma SnapshotsStayTrue(s: State, k: nat, after: seq<Request>)
    requires Reachable(s) && k < |s.runs|
    ensures var s' := RunAll(s, after);
            && k < |s'.runs| && s'.runs[k] == s.runs[k]
            && s.runs[k].version < |s'.versions| && s'.versions[s.runs[k].version].job == s.runs[k].job
            && s.runs[k].snapshot == RequirementsOf(s'.requirements, s.runs[k].version)
            && s.runs[k].weights == WeightsOf(s.runs[k].snapshot)
  {
    ReachableIsSound(s);
    RunAllIsSound(s, after);
    assert RunOk(s, s.runs[k]);
    assert RunAll(s, after).runs[..|s.runs|][k] == s.runs[k];
    assert RunAll(s, after).versions[..|s.versions|][s.runs[k].version] == s.versions[s.runs[k].version];
  }

  lemma {:induction false} RowsOfAreUnique(rows: seq<RequirementRow>, version: nat)
    requires UniqueKeys(rows)
    ensures StableSort.DistinctBy(RowsOf(rows, version), (r: Requirement) => r.key)
    ensures forall r :: r in RowsOf(rows, version) <==> RequirementRow(version, r) in rows
  {
    if rows != [] {
      var last := |rows| - 1;
      RowsOfAreUnique(rows[..last], version);
      assert rows == rows[..last] + [rows[last]];
      var before := RowsOf(rows[..last], version);
      forall i | 0 <= i < |before| && rows[last].version == version ensures before[i].key != rows[last].requirement.key {
        assert before[i] in before;
        var r :| 0 <= r < last && rows[..last][r] == RequirementRow(version, before[i]);
        assert rows[r] == RequirementRow(version, before[i]);
      }
    }
  }

  lemma {:induction false} WeightsAreFound(requirements: seq<Requirement>)
    requires StableSort.DistinctBy(requirements, (r: Requirement) => r.key)
    ensures forall i | 0 <= i < |requirements| ::
              requirements[i].key in WeightsOf(requirements) && WeightsOf(requirements)[requirements[i].key] == requirements[i].weight
  {
    if requirements != [] {
      var last := |requirements| - 1;
      var key := (r: Requirement) => r.key;
      WeightsAreFound(requirements[..last]);
      forall i | 0 <= i < last ensures requirements[i].key != requirements[last].key {
        assert key(requirements[i]) != key(requirements[last]);
      }
      assert forall i | 0 <= i < last :: requirements[..last][i] == requirements[i];
    }
  }

  lemma RequirementOrderIsTotal()
    ensures StableSort.TotalPreorder(RequirementLeq)
  {
    forall a: Requirement, b: Requirement ensures RequirementLeq(a, b) || RequirementLeq(b, a) {
      Ranking.TextTotal(a.key, b.key);
    }
    forall a: Requirement, b: Requirement, c: Requirement | RequirementLeq(a, b) && RequirementLeq(b, c) ensures RequirementLeq(a, c) {
      Ranking.TextTransitive(a.key, b.key, c.key);
    }
  }

  /** In the snapshot of a run every requirement has a key of its own, so the weight snapshot gives each its weight. */
  lemma WeightsMatchSnapshot(s: State, k: nat)
    requires Reachable(s) && k < |s.runs|
    ensures var run := s.runs[k];
            && (forall i, j | 0 <= i < j < |run.snapshot| :: run.snapshot[i].key != run.snapshot[j].key)
            && (forall i | 0 <= i < |run.snapshot| ::
                  run.snapshot[i].key in run.weights && run.weights[run.snapshot[i].key] == run.snapshot[i].weight)
  {
    ReachableIsSound(s);
    var run, key := s.runs[k], (r: Requirement) => r.key;
    assert RunOk(s, run);
    var rows := RowsOf(s.requirements, run.version);
    RowsOfAreUnique(s.requirements, run.version);
    RequirementOrderIsTotal();
    StableSort.SortSorts(rows, RequirementLeq);
    StableSort.PermutationKeepsDistinct(rows, run.snapshot, key);
    forall i, j | 0 <= i < j < |run.snapshot| ensures run.snapshot[i].key != run.snapshot[j].key {
      assert key(run.snapshot[i]) != key(run.snapshot[j]);
    }
    WeightsAreFound(run.snapshot);
  }

  /** The versions of a job are 1, 2, ... up to its current version, each once and in order. */
  lemma VersionsAreConsecutive(s: State, job: nat)
    requires Reachable(s) && job < |s.jobs|
    ensures NumbersOf(s.versions, job) == UpTo(s.jobs[job].currentVersion)
    ensures !s.jobs[job].deleted ==> CurrentRow(s, job).Some?
  {
    ReachableIsSound(s);
    var n := s.jobs[job].currentVersion;
    assert UpTo(n)[n - 1] == n;
    var row := NumberHasRow(s.versions, job, n);
  }

  lemma {:induction false} NumberHasRow(versions: seq<Version>, job: nat, n: nat) returns (row: nat)
    requires n in NumbersOf(versions, job)
    ensures row < |versions| && versions[row].job == job && versions[row].number == n
  {
    var last := |versions| - 1;
    if versions[last].job == job && versions[last].number == n {
      row := last;
    } else {
      row := NumberHasRow(versions[..last], job, n);
    }
  }

  /** The row holds the highest version number of the job. */
  predicate IsNewest(versions: seq<Version>, job: nat, row: nat) {
    && row < |versions| && versions[row].job == job
    && forall v | 0 <= v < |versions| && versions[v].job == job :: versions[v].number <= versions[row].number
  }

  lemma {:induction false} NumberIsListed(versions: seq<Version>, row: nat)
    requires row < |versions|
    ensures versions[row].number in NumbersOf(versions, versions[row].job)
  {
    var last := |versions| - 1;
    if row < last {
      NumberIsListed(versions[..last], row);
    }
  }

  lemma NewestIsFound(s: State, job: nat)
    requires Inv(s) && job < |s.jobs| && !s.jobs[job].deleted
    ensures CurrentRow(s, job).Some? && IsNewest(s.versions, job, CurrentRow(s, job).value)
  {
    var n := s.jobs[job].currentVersion;
    assert UpTo(n)[n - 1] == n;
    var row := NumberHasRow(s.versions, job, n);
    forall v | 0 <= v < |s.versions| && s.versions[v].job == job ensures s.versions[v].number <= n {
      NumberIsListed(s.versions, v);
      assert s.versions[v].number in UpTo(n);
    }
  }

  // ---------- what a version holds ----------

  /** The rows are those of the valid inputs, for the version, in order; at says which input each row is. */
  predicate RowsAt(rows: seq<RequirementRow>, version: nat, inputs: seq<Requirement>, at: seq<nat>) {
    && |at| == |rows|
    && (forall k | 0 <= k < |rows| ::
          at[k] < |inputs| && ValidRequirement(inputs[at[k]]) && rows[k] == RequirementRow(version, inputs[at[k]]))
    && (forall j, k | 0 <= j < k < |at| :: at[j] < at[k])
    && (forall i | 0 <= i < |inputs| && ValidRequirement(inputs[i]) :: i in at)
  }

  ghost predicate HoldsValid(rows: seq<RequirementRow>, version: nat, inputs: seq<Requirement>) {
    exists at :: RowsAt(rows, version, inputs, at)
  }

  lemma {:induction false} RowsForHoldsValid(version: nat, inputs: seq<Requirement>) returns (at: seq<nat>)
    ensures RowsAt(RowsFor(version, inputs), version, inputs, at)
  {
    at := [];
    if inputs != [] {
      var last := |inputs| - 1;
      at := RowsForHoldsValid(version, inputs[..last]);
      at := RowsAtSnoc(RowsFor(version, inputs[..last]), version, inputs, at);
    }
  }

  lemma RowsAtSnoc(rows: seq<RequirementRow>, version: nat, inputs: seq<Requirement>, at: seq<nat>) returns (more: seq<nat>)
    requires inputs != [] && RowsAt(rows, version, inputs[..|inputs| - 1], at)
    ensures var last := |inputs| - 1;
            var rows' := rows + (if ValidRequirement(inputs[last]) then [RequirementRow(version, inputs[last])] else []);
            RowsAt(rows', version, inputs, more)
  {
    hide ValidRequirement;
    var last := |inputs| - 1;
    more := at + (if ValidRequirement(inputs[last]) then [last] else []);
    forall i | 0 <= i < |inputs| && ValidRequirement(inputs[i]) ensures i in more {
      if i < last {
        assert inputs[..last][i] == inputs[i] && i in at;
      } else {
        assert more[|at|] == last;
      }
    }
  }

  /** No two valid inputs share a key. */
  predicate ValidKeysDiffer(inputs: seq<Requirement>) {
    forall i, j | 0 <= i < j < |inputs| && ValidRequirement(inputs[i]) && ValidRequirement(inputs[j]) :: inputs[i].key != inputs[j].key
  }

  lemma RowOfInput(added: seq<RequirementRow>, version: nat, inputs: seq<Requirement>, at: seq<nat>, i: nat) returns (k: nat)
    requires RowsAt(added, version, inputs, at) && i < |inputs| && ValidRequirement(inputs[i])
    ensures k < |at| && at[k] == i && k < |added| && added[k] == RequirementRow(version, inputs[i])
  {
    hide ValidRequirement;
    assert i in at;
    k :| 0 <= k < |at| && at[k] == i;
  }

  lemma UniqueRowsHaveOwnKeys(added: seq<RequirementRow>, version: nat, inputs: seq<Requirement>, at: seq<nat>)
    requires RowsAt(added, version, inputs, at) && UniqueKeys(added)
    ensures ValidKeysDiffer(inputs)
  {
    hide ValidRequirement;
    forall i, j | 0 <= i < j < |inputs| && ValidRequirement(inputs[i]) && ValidRequirement(inputs[j])
      ensures inputs[i].key != inputs[j].key
    {
      var k := RowOfInput(added, version, inputs, at, i);
      var l := RowOfInput(added, version, inputs, at, j);
      assert k < l;
    }
  }

  lemma OwnKeysMakeRowsUnique(added: seq<RequirementRow>, version: nat, inputs: seq<Requirement>, at: seq<nat>)
    requires RowsAt(added, version, inputs, at) && ValidKeysDiffer(inputs)
    ensures UniqueKeys(added)
  {
    hide ValidRequirement;
    forall j, k | 0 <= j < k < |added| ensures added[j].requirement.key != added[k].requirement.key {
      assert at[j] < at[k];
    }
  }

  lemma UniqueApart(rows: seq<RequirementRow>, added: seq<RequirementRow>, version: nat)
    requires UniqueKeys(rows) && forall r | 0 <= r < |rows| :: rows[r].version < version
    requires forall r | 0 <= r < |added| :: added[r].version == version
    ensures UniqueKeys(rows + added) <==> UniqueKeys(added)
  {
    var all := rows + added;
    if UniqueKeys(all) {
      forall j, k | 0 <= j < k < |added| ensures added[j].requirement.key != added[k].requirement.key {
        assert all[|rows| + j] == added[j] && all[|rows| + k] == added[k];
      }
    }
  }

  /** Appended to rows of earlier versions, the rows are unique exactly if no two valid inputs share a key. */
  lemma UniqueIffKeysDiffer(rows: seq<RequirementRow>, version: nat, inputs: seq<Requirement>)
    requires UniqueKeys(rows) && forall r | 0 <= r < |rows| :: rows[r].version < version
    ensures UniqueKeys(rows + RowsFor(version, inputs)) <==> ValidKeysDiffer(inputs)
  {
    var at := RowsForHoldsValid(version, inputs);
    var added := RowsFor(version, inputs);
    assert forall r | 0 <= r < |added| :: added[r].version == version;
    UniqueApart(rows, added, version);
    if UniqueKeys(added) {
      UniqueRowsHaveOwnKeys(added, version, inputs, at);
    }
    hide UniqueKeys, RowsFor, ValidRequirement;
    if ValidKeysDiffer(inputs) {
      OwnKeysMakeRowsUnique(added, version, inputs, at);
    }
  }

  /** The rows of the new version follow the earlier ones, and are those of the valid inputs. */
  ghost predicate VersionAdded(s: State, s': State, inputs: seq<Requirement>) {
    && |s.requirements| <= |s'.requirements| && s'.requirements[..|s.requirements|] == s.requirements
    && HoldsValid(s'.requirements[|s.requirements|..], |s.versions|, inputs)
  }

  lemma AddedRowsAreValid(s: State, s': State, inputs: seq<Requirement>)
    requires s'.requirements == s.requirements + RowsFor(|s.versions|, inputs)
    ensures VersionAdded(s, s', inputs)
  {
    var at := RowsForHoldsValid(|s.versions|, inputs);
    assert s'.requirements[|s.requirements|..] == RowsFor(|s.versions|, inputs);
  }

  /** A job is created exactly if no two of its valid requirements share a key; then with a first version of these. */
  ghost predicate CreateAnswer(s: State, description: string, parsed: seq<Requirement>, s': State, reply: Reply) {
    && (reply == Done <==> ValidKeysDiffer(parsed)) && (reply != Done ==> reply == InternalError && s' == s)
    && (reply == Done ==>
          && s' == s.(jobs := s.jobs + [Job(1, false)], requirements := s'.requirements,
                      versions := s.versions + [Version(|s.jobs|, 1, description, "parsed")])
          && VersionAdded(s, s', parsed))
  }

  lemma CreateAnswers(s: State, description: string, parsed: seq<Requirement>)
    requires Inv(s)
    ensures CreateAnswer(s, description, parsed, DoCreate(s, description, parsed).0, DoCreate(s, description, parsed).1)
  {
    UniqueIffKeysDiffer(s.requirements, |s.versions|, parsed);
    if DoCreate(s, description, parsed).1.Done? {
      AddedRowsAreValid(s, DoCreate(s, description, parsed).0, parsed);
    }
    hide RowsFor, UniqueKeys, ValidKeysDiffer, VersionAdded;
  }

  /** Input i under the key R(i + 1). */
  predicate IsRenumbered(row: RequirementRow, version: nat, input: Requirement, i: nat) {
    row == RequirementRow(version, input.(key := "R" + Decimal.Print(i + 1)))
  }

  /** What an input must be, its key being replaced: named, of a known type and priority, and weighed above 0 up to 10. */
  predicate Replaceable(r: Requirement) {
    !Blank(r.name) && r.typeValid && r.priorityValid && 0.0 < r.weight <= 10.0
  }

  /** The job's newest version, whose description the next one keeps, and the rows of that next version. */
  predicate NextVersion(s: State, job: nat, newest: nat, inputs: seq<Requirement>, s': State) {
    && job < |s.jobs| && IsNewest(s.versions, job, newest)
    && |s'.requirements| == |s.requirements| + |inputs| && s'.requirements[..|s.requirements|] == s.requirements
    && (forall i | 0 <= i < |inputs| :: IsRenumbered(s'.requirements[|s.requirements| + i], |s.versions|, inputs[i], i))
    && var last := s.versions[newest];
       s' == s.(jobs := s.jobs[job := s.jobs[job].(currentVersion := last.number + 1)], requirements := s'.requirements,
                versions := s.versions + [Version(job, last.number + 1, last.description, "manual-v1")])
  }

  /** The requirements of a live job are replaced exactly by one to a hundred valid ones: the next version has each of them
      in order under its number and keeps the description. */
  ghost predicate ReplaceAnswer(s: State, job: nat, inputs: seq<Requirement>, s': State, reply: Reply) {
    var valid := 1 <= |inputs| <= 100 && forall i | 0 <= i < |inputs| :: Replaceable(inputs[i]);
    var live := job < |s.jobs| && !s.jobs[job].deleted;
    && reply == (if !valid then ValidationError else if !live then NotFound else Done)
    && (reply != Done ==> s' == s)
    && (reply == Done ==> exists newest: nat :: NextVersion(s, job, newest, inputs, s'))
  }

  lemma KeyedIsValidIff(inputs: seq<Requirement>, i: nat)
    requires i < |inputs|
    ensures ValidRequirement(Rekeyed(inputs)[i]) <==> Replaceable(inputs[i])
  {
    assert !IsWhiteSpace(Rekeyed(inputs)[i].key[0]);
  }

  /** When all inputs are valid, row k is that of input k. */
  lemma {:induction false} AllValidRows(version: nat, inputs: seq<Requirement>)
    requires forall i | 0 <= i < |inputs| :: ValidRequirement(inputs[i])
    ensures |RowsFor(version, inputs)| == |inputs|
    ensures forall i | 0 <= i < |inputs| :: RowsFor(version, inputs)[i] == RequirementRow(version, inputs[i])
  {
    if inputs != [] {
      AllValidRows(version, inputs[..|inputs| - 1]);
    }
  }

  lemma RowsAreRenumbered(version: nat, inputs: seq<Requirement>)
    requires forall i | 0 <= i < |inputs| :: ValidRequirement(Rekeyed(inputs)[i])
    ensures |RowsFor(version, Rekeyed(inputs))| == |inputs|
    ensures forall i | 0 <= i < |inputs| :: IsRenumbered(RowsFor(version, Rekeyed(inputs))[i], version, inputs[i], i)
  {
    hide ValidRequirement, RowsFor, Decimal.Print;
    AllValidRows(version, Rekeyed(inputs));
  }

  lemma AppendedStand<T>(front: seq<T>, added: seq<T>)
    ensures (front + added)[..|front|] == front
    ensures forall i | 0 <= i < |added| :: (front + added)[|front| + i] == added[i]
  {
  }

  lemma RenumberedRows(s: State, s': State, inputs: seq<Requirement>)
    requires s'.requirements == s.requirements + RowsFor(|s.versions|, Rekeyed(inputs))
    requires forall i | 0 <= i < |inputs| :: ValidRequirement(Rekeyed(inputs)[i])
    ensures |s'.requirements| == |s.requirements| + |inputs| && s'.requirements[..|s.requirements|] == s.requirements
    ensures forall i | 0 <= i < |inputs| :: IsRenumbered(s'.requirements[|s.requirements| + i], |s.versions|, inputs[i], i)
  {
    RowsAreRenumbered(|s.versions|, inputs);
    AppendedStand(s.requirements, RowsFor(|s.versions|, Rekeyed(inputs)));
    hide ValidRequirement, RowsFor, IsRenumbered, Rekeyed;
  }

  lemma ReplaceChanges(s: State, job: nat, inputs: seq<Requirement>)
    requires Inv(s) && DoReplace(s, job, inputs).1.Done?
    ensures CurrentRow(s, job).Some? && NextVersion(s, job, CurrentRow(s, job).value, inputs, DoReplace(s, job, inputs).0)
  {
    NewestIsFound(s, job);
    NewestIsCurrent(s, job, CurrentRow(s, job).value);
    hide ValidRequirement, RowsFor, UniqueKeys, Inv, CurrentRow, IsNewest, IsRenumbered;
    RenumberedRows(s, DoReplace(s, job, inputs).0, inputs);
  }

  lemma AllKeyedAreValidIff(inputs: seq<Requirement>)
    ensures (forall i | 0 <= i < |inputs| :: ValidRequirement(Rekeyed(inputs)[i])) <==> forall i | 0 <= i < |inputs| :: Replaceable(inputs[i])
  {
    forall i: nat | i < |inputs| ensures ValidRequirement(Rekeyed(inputs)[i]) <==> Replaceable(inputs[i]) {
      KeyedIsValidIff(inputs, i);
    }
    hide ValidRequirement, Replaceable, Rekeyed;
  }

  lemma ReplaceAnswers(s: State, job: nat, inputs: seq<Requirement>)
    requires Inv(s)
    ensures ReplaceAnswer(s, job, inputs, DoReplace(s, job, inputs).0, DoReplace(s, job, inputs).1)
  {
    AllKeyedAreValidIff(inputs);
    ReplacementsNeverClash(s, job, inputs);
    if job < |s.jobs| && !s.jobs[job].deleted {
      NewestIsFound(s, job);
    }
    if DoReplace(s, job, inputs).1.Done? {
      ReplaceChanges(s, job, inputs);
    }
    hide ValidRequirement, Replaceable, RowsFor, UniqueKeys, Inv, NextVersion, Rekeyed, IsNewest;
  }

  lemma NewestIsCurrent(s: State, job: nat, row: nat)
    requires CurrentRow(s, job) == Some(row)
    ensures job < |s.jobs| && row < |s.versions| && s.versions[row].number == s.jobs[job].currentVersion
  {
  }

  /** The requirements are those of the version's rows, and no others. */
  ghost predicate AreRowsOf(loaded: seq<Requirement>, rows: seq<RequirementRow>, version: nat) {
    forall r :: r in loaded <==> RequirementRow(version, r) in rows
  }

  lemma LoadedAreRows(rows: seq<RequirementRow>, version: nat, loaded: seq<Requirement>)
    requires UniqueKeys(rows) && multiset(loaded) == multiset(RowsOf(rows, version))
    ensures AreRowsOf(loaded, rows, version)
  {
    RowsOfAreUnique(rows, version);
    forall r ensures r in loaded <==> RequirementRow(version, r) in rows {
      assert r in loaded <==> r in multiset(loaded);
      assert r in RowsOf(rows, version) <==> r in multiset(RowsOf(rows, version));
    }
  }

  lemma NothingLoaded(rows: seq<RequirementRow>, version: nat, loaded: seq<Requirement>)
    requires AreRowsOf(loaded, rows, version) && loaded == []
    ensures forall r | r in rows :: r.version != version
  {
    forall r | r in rows ensures r.version != version {
      assert r.version == version ==> r == RequirementRow(version, r.requirement) && r.requirement in loaded;
    }
  }

  // ---------- the handlers as they run ----------

  lemma {:induction false} RowsForPrefix(version: nat, inputs: seq<Requirement>, n: nat)
    requires n <= |inputs|
    ensures RowsFor(version, inputs[..n]) <= RowsFor(version, inputs)
  {
    if n < |inputs| {
      var last := |inputs| - 1;
      assert inputs[..last][..n] == inputs[..n];
      RowsForPrefix(version, inputs[..last], n);
    } else {
      assert inputs[..n] == inputs;
    }
  }

  lemma ClashStays(rows: seq<RequirementRow>, version: nat, inputs: seq<Requirement>, n: nat)
    requires n <= |inputs| && !UniqueKeys(rows + RowsFor(version, inputs[..n]))
    ensures !UniqueKeys(rows + RowsFor(version, inputs))
  {
    RowsForPrefix(version, inputs, n);
    var part, all := rows + RowsFor(version, inputs[..n]), rows + RowsFor(version, inputs);
    assert forall i | 0 <= i < |part| :: all[i] == part[i];
  }

  /** SELECT ... WHERE job_version_id = version ORDER BY requirement_key: collect the rows, then sort them. */
  method SelectRequirements(table: seq<RequirementRow>, version: nat) returns (loaded: seq<Requirement>)
    requires UniqueKeys(table)
    ensures loaded == RequirementsOf(table, version) && AreRowsOf(loaded, table, version)
    ensures StableSort.Sorted(loaded, RequirementLeq) && multiset(loaded) == multiset(RowsOf(table, version))
  {
    hide AreRowsOf, UniqueKeys, RequirementLeq;
    var rows: seq<Requirement> := [];
    for i := 0 to |table|
      invariant rows == RowsOf(table[..i], version)
    {
      assert table[..i + 1][..i] == table[..i];
      if table[i].version == version {
        rows := rows + [table[i].requirement];
      }
    }
    assert table[..|table|] == table;
    RequirementOrderIsTotal();
    StableSort.SortSorts(rows, RequirementLeq);
    loaded := StableSort.Sort(rows, RequirementLeq);
    LoadedAreRows(table, version, loaded);
  }

  class JobStore {
    var jobs: seq<Job>
    var versions: seq<Version>
    var requirements: seq<RequirementRow>
    var runs: seq<Run>
    var pending: seq<Pending>

    function Snapshot(): State
      reads this
    {
      State(jobs, versions, requirements, runs, pending)
    }

    constructor ()
      ensures Snapshot() == INIT && Inv(Snapshot())
    {
      jobs, versions, requirements, runs, pending := [], [], [], [], [];
    }

    /** Insert the valid requirements one by one; a key that the version already has fails the statement. */
    method InsertRequirements(version: nat, inputs: seq<Requirement>) returns (ok: bool)
      requires UniqueKeys(requirements)
      modifies `requirements
      ensures ok <==> UniqueKeys(old(requirements) + RowsFor(version, inputs))
      ensures ok ==> requirements == old(requirements) + RowsFor(version, inputs)
      ensures ok ==> |old(requirements)| <= |requirements| && HoldsValid(requirements[|old(requirements)|..], version, inputs)
    {
      ghost var at := RowsForHoldsValid(version, inputs);
      for i := 0 to |inputs|
        invariant requirements == old(requirements) + RowsFor(version, inputs[..i])
        invariant UniqueKeys(requirements)
      {
        assert inputs[..i + 1][..i] == inputs[..i];
        if !ValidRequirement(inputs[i]) {
          continue;
        }
        var row := RequirementRow(version, inputs[i]);
        if exists r | 0 <= r < |requirements| :: requirements[r].version == version && requirements[r].requirement.key == inputs[i].key {
          ghost var r :| 0 <= r < |requirements| && requirements[r].version == version
                         && requirements[r].requirement.key == inputs[i].key;
          ghost var more := old(requirements) + RowsFor(version, inputs[..i + 1]);
          assert more == requirements + [row];
          assert more[r] == requirements[r] && more[|requirements|] == row;
          ClashStays(old(requirements), version, inputs, i + 1);
          return false;
        }
        requirements := requirements + [row];
      }
      assert inputs[..|inputs|] == inputs;
      assert requirements[|old(requirements)|..] == RowsFor(version, inputs);
      ok := true;
    }

    /** A failed statement rolls the whole transaction back. */
    method Create(description: string, parsed: seq<Requirement>) returns (reply: Reply)
      requires Inv(Snapshot())
      modifies this
      ensures (Snapshot(), reply) == Step(old(Snapshot()), Request.Create(description, parsed))
      ensures Inv(Snapshot()) && CreateAnswer(old(Snapshot()), description, parsed, Snapshot(), reply)
    {
      hide CreateAnswer;
      CreateIsSound(Snapshot(), description, parsed);
      CreateAnswers(Snapshot(), description, parsed);
      var before := Snapshot();
      var job, version := |jobs|, |versions|;
      jobs := jobs + [Job(1, false)];
      versions := versions + [Version(job, 1, description, "parsed")];
      var ok := InsertRequirements(version, parsed);
      if !ok {
        jobs, versions, requirements := before.jobs, before.versions, before.requirements;
        return InternalError;
      }
      reply := Done;
    }

    method Renumber(inputs: seq<Requirement>) returns (valid: bool, keyed: seq<Requirement>)
      ensures valid <==> forall i | 0 <= i < |inputs| :: ValidRequirement(Rekeyed(inputs)[i])
      ensures valid ==> keyed == Rekeyed(inputs)
    {
      keyed := [];
      for index := 0 to |inputs|
        invariant keyed == Rekeyed(inputs)[..index]
        invariant forall i | 0 <= i < index :: ValidRequirement(Rekeyed(inputs)[i])
      {
        var requirement := inputs[index].(key := "R" + Decimal.Print(index + 1));
        assert requirement == Rekeyed(inputs)[index];
        if !ValidRequirement(requirement) {
          return false, [];
        }
        keyed := keyed + [requirement];
      }
      valid := true;
    }

    method Replace(job: nat, inputs: seq<Requirement>) returns (reply: Reply)
      requires Inv(Snapshot())
      modifies this
      ensures (Snapshot(), reply) == Step(old(Snapshot()), Request.Replace(job, inputs))
      ensures Inv(Snapshot()) && reply != InternalError
      ensures ReplaceAnswer(old(Snapshot()), job, inputs, Snapshot(), reply)
    {
      hide ReplaceAnswer, UniqueKeys, RowsFor, ValidRequirement, HoldsValid, Later;
      ReplaceIsSound(Snapshot(), job, inputs);
      ReplaceAnswers(Snapshot(), job, inputs);
      ReplacementsNeverClash(Snapshot(), job, inputs);
      if inputs == [] || |inputs| > MAX_REQUIREMENTS {
        return ValidationError;
      }
      var valid, keyed := Renumber(inputs);
      if !valid {
        return ValidationError;
      }
      var found := CurrentRow(Snapshot(), job);
      if found.None? {
        return NotFound;
      }
      var next := jobs[job].currentVersion + 1;
      var version := |versions|;
      versions := versions + [Version(job, next, versions[found.value].description, "manual-v1")];
      var ok := InsertRequirements(version, keyed);
      assert ok;
      jobs := jobs[job := jobs[job].(currentVersion := next)];
      reply := Done;
    }

    /** Reads the row of the job's current version, which is the newest there is at that moment. */
    method ReadVersion(job: nat) returns (reply: Reply)
      requires Inv(Snapshot())
      modifies `pending
      ensures (Snapshot(), reply) == Step(old(Snapshot()), Request.ReadVersion(job))
      ensures Inv(Snapshot()) && reply.Done? == (job < |jobs| && !jobs[job].deleted)
      ensures reply.Done? ==>
                && |pending| == |old(pending)| + 1 && pending[..|old(pending)|] == old(pending)
                && pending[|old(pending)|].Reading? && pending[|old(pending)|].job == job
                && IsNewest(versions, job, pending[|old(pending)|].version)
      ensures !reply.Done? ==> reply == NotFound && pending == old(pending)
    {
      if job >= |jobs| || jobs[job].deleted {
        return NotFound;
      }
      NewestIsFound(Snapshot(), job);
      PendingOnlyIsSound(Snapshot(), DoReadVersion(Snapshot(), job).0);
      var current := jobs[job].currentVersion;
      var found := SelectFirst(versions, (v: Version) => v.job == job && v.number == current);
      pending := pending + [Reading(job, found.value)];
      reply := Done;
    }

    /** Reads the requirements of the version that was read before: each row of it once, in key order, whatever has
        been added since. */
    method ReadRequirements(request: nat) returns (reply: Reply)
      requires Inv(Snapshot())
      modifies `pending
      ensures (Snapshot(), reply) == Step(old(Snapshot()), Request.ReadRequirements(request))
      ensures Inv(Snapshot())
      ensures reply.Done? ==>
                && request < |pending| && pending[request].Scoring?
                && pending == old(pending)[request := pending[request]]
                && old(pending)[request] == Reading(pending[request].job, pending[request].version)
                && var loaded := pending[request].requirements;
                   && StableSort.Sorted(loaded, RequirementLeq) && loaded != []
                   && multiset(loaded) == multiset(RowsOf(requirements, pending[request].version))
                   && AreRowsOf(loaded, requirements, pending[request].version)
      ensures reply.NoRequirements? ==>
                && request < |old(pending)| && old(pending)[request].Reading? && pending == old(pending)[request := Finished]
                && forall r | r in requirements :: r.version != old(pending)[request].version
      ensures !reply.Done? && !reply.NoRequirements? ==>
                reply == NotFound && pending == old(pending) && !(request < |pending| && pending[request].Reading?)
    {
      if request >= |pending| || !pending[request].Reading? {
        return NotFound;
      }
      ReadRequirementsIsSound(Snapshot(), request);
      hide AreRowsOf, ValidRequirement, RunOk, PendingOk, UniqueKeys, Later, RequirementsOf, RowsOf;
      var p := pending[request];
      var loaded := SelectRequirements(requirements, p.version);
      if |loaded| == 0 {
        NothingLoaded(requirements, p.version, loaded);
        pending := pending[request := Finished];
        return NoRequirements;
      }
      pending := pending[request := Scoring(p.job, p.version, loaded)];
      reply := Done;
    }

    /** One run with the requirements that were read is added, and the request is done. */
    method Persist(request: nat) returns (reply: Reply)
      modifies `runs, `pending
      ensures (Snapshot(), reply) == Step(old(Snapshot()), Request.Persist(request))
      ensures reply.Done? <==> request < |old(pending)| && old(pending)[request].Scoring?
      ensures !reply.Done? ==> runs == old(runs) && pending == old(pending)
      ensures reply.Done? ==>
                && pending == old(pending)[request := Finished] && |runs| == |old(runs)| + 1 && runs[..|old(runs)|] == old(runs)
                && var run, p := runs[|old(runs)|], old(pending)[request];
                   run.job == p.job && run.version == p.version && run.snapshot == p.requirements
    {
      if request >= |pending| || !pending[request].Scoring? {
        return NotFound;
      }
      var p := pending[request];
      var weights: map<string, real> := map[];
      for i := 0 to |p.requirements|
        invariant weights == WeightsOf(p.requirements[..i])
      {
        assert p.requirements[..i + 1][..i] == p.requirements[..i];
        weights := weights[p.requirements[i].key := p.requirements[i].weight];
      }
      assert p.requirements[..|p.requirements|] == p.requirements;
      runs := runs + [Run(p.job, p.version, p.requirements, weights)];
      pending := pending[request := Finished];
      reply := Done;
    }
  }
}
