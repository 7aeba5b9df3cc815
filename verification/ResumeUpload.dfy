// Bulk CV upload: one candidate per distinct file content of a workspace, linked to the job.
// A row's index stands for its uuid; a file's content stands for its checksum.
module ResumeUpload {
  import opened Wrappers
  import opened Tables

  datatype File = File(name: string, supported: bool, content: string)

  datatype Profile = Profile(fullName: string, skills: seq<string>)

  datatype Candidate = Candidate(workspace: nat, profile: Profile)

  datatype Resume = Resume(workspace: nat, candidate: nat)

  datatype FileRow = FileRow(workspace: nat, resume: nat, name: string, content: string)

  datatype Link = Link(workspace: nat, job: nat, candidate: nat, resume: nat)

  datatype State = State(jobs: seq<nat>, candidates: seq<Candidate>, resumes: seq<Resume>, files: seq<FileRow>, links: seq<Link>)

  datatype Item = Ready(candidate: nat) | Duplicate(candidate: nat) | Failed

  datatype Problem = Forbidden | NotFound | BadFileCount

  const MAX_FILE_SIZE := 10 * 1024 * 1024
  const MAX_FILES := 50

  /** The analysis service, as a function of file name and bytes. */
  type Analyzer = (string, string) -> Option<Profile>

  predicate Acceptable(f: File) {
    f.supported && 0 < |f.content| <= MAX_FILE_SIZE
  }

  /** The newest stored file of the workspace with this content. */
  function FindCopy(s: State, workspace: nat, content: string): Option<nat> {
    FindLast(s.files, (row: FileRow) => row.workspace == workspace && row.content == content
                                        && row.resume < |s.resumes| && s.resumes[row.resume].workspace == workspace
                                        && s.resumes[row.resume].candidate < |s.candidates|)
  }

  predicate Linked(links: seq<Link>, workspace: nat, job: nat, candidate: nat) {
    exists i | 0 <= i < |links| :: links[i].workspace == workspace && links[i].job == job && links[i].candidate == candidate
  }

  /** INSERT ... ON CONFLICT (workspace_id, job_id, candidate_id) DO NOTHING */
  function AddLink(links: seq<Link>, link: Link): seq<Link> {
    if Linked(links, link.workspace, link.job, link.candidate) then links else links + [link]
  }

  function Process(s: State, workspace: nat, job: nat, f: File, analyze: Analyzer): (State, Item) {
    if !Acceptable(f) then (s, Failed)
    else
      match FindCopy(s, workspace, f.content)
      case Some(row) =>
        var resume := s.files[row].resume;
        var candidate := if resume < |s.resumes| then s.resumes[resume].candidate else 0;
        (s.(links := AddLink(s.links, Link(workspace, job, candidate, resume))), Duplicate(candidate))
      case None =>
        match analyze(f.name, f.content)
        case None => (s, Failed)
        case Some(profile) =>
          var candidate, resume := |s.candidates|, |s.resumes|;
          (s.(candidates := s.candidates + [Candidate(workspace, profile)],
           resumes := s.resumes + [Resume(workspace, candidate)],
           files := s.files + [FileRow(workspace, resume, f.name, f.content)],
           links := s.links + [Link(workspace, job, candidate, resume)]), Ready(candidate))
  }

  function ProcessAll(s: State, workspace: nat, job: nat, batch: seq<File>, analyze: Analyzer): (State, seq<Item>) {
    if batch == [] then (s, [])
    else
      var last := |batch| - 1;
      var (before, items) := ProcessAll(s, workspace, job, batch[..last], analyze);
      var (after, item) := Process(before, workspace, job, batch[last], analyze);
      (after, items + [item])
  }

  // ---------- invariants ----------

  /** Candidate, resume and file rows come in threes, and no content is stored twice in a workspace. */
  ghost predicate Inv(s: State) {
    && |s.files| == |s.resumes| == |s.candidates|
    && (forall i | 0 <= i < |s.files| ::
          && s.files[i].resume == i && s.resumes[i].candidate == i
          && s.files[i].workspace == s.resumes[i].workspace == s.candidates[i].workspace)
    && (forall i, j | 0 <= i < j < |s.files| && s.files[i].workspace == s.files[j].workspace ::
          s.files[i].content != s.files[j].content)
    && (forall l | 0 <= l < |s.links| ::
          && s.links[l].candidate < |s.candidates| && s.links[l].resume == s.links[l].candidate
          && s.links[l].workspace == s.candidates[s.links[l].candidate].workspace)
    && (forall l, k | 0 <= l < k < |s.links| && s.links[l].workspace == s.links[k].workspace && s.links[l].job == s.links[k].job ::
          s.links[l].candidate != s.links[k].candidate)
  }

  /** Nothing that is stored is ever changed or removed. */
  predicate Extends(s: State, s': State) {
    s.jobs == s'.jobs && s.candidates <= s'.candidates && s.resumes <= s'.resumes && s.files <= s'.files && s.links <= s'.links
  }

  lemma ProcessIsSound(s: State, workspace: nat, job: nat, f: File, analyze: Analyzer)
    requires Inv(s)
    ensures Inv(Process(s, workspace, job, f, analyze).0) && Extends(s, Process(s, workspace, job, f, analyze).0)
  {
    if Acceptable(f) {
      var copy := FindCopy(s, workspace, f.content);
      if copy.Some? {
        LinkIsSound(s, workspace, job, copy.value);
      } else if analyze(f.name, f.content).Some? {
        StoreIsSound(s, workspace, job, f.name, f.content, analyze(f.name, f.content).value);
      }
    }
  }

  /** Linking the candidate of a stored file to a job. */
  lemma LinkIsSound(s: State, workspace: nat, job: nat, row: nat)
    requires Inv(s) && row < |s.files| && s.files[row].workspace == workspace
    ensures var s' := s.(links := AddLink(s.links, Link(workspace, job, row, row))); Inv(s') && Extends(s, s')
  {
  }

  /** Storing a content that the workspace does not have, with its candidate and link. */
  lemma StoreIsSound(s: State, workspace: nat, job: nat, name: string, content: string, profile: Profile)
    requires Inv(s) && FindCopy(s, workspace, content).None?
    ensures var n := |s.candidates|;
            var s' := s.(candidates := s.candidates + [Candidate(workspace, profile)],
                         resumes := s.resumes + [Resume(workspace, n)],
                         files := s.files + [FileRow(workspace, |s.resumes|, name, content)],
                         links := s.links + [Link(workspace, job, n, |s.resumes|)]);
            Inv(s') && Extends(s, s')
  {
  }

  lemma {:induction false} ProcessAllIsSound(s: State, workspace: nat, job: nat, batch: seq<File>, analyze: Analyzer)
    requires Inv(s)
    ensures Inv(ProcessAll(s, workspace, job, batch, analyze).0) && Extends(s, ProcessAll(s, workspace, job, batch, analyze).0)
    ensures |ProcessAll(s, workspace, job, batch, analyze).1| == |batch|
  {
    if batch != [] {
      var last := |batch| - 1;
      ProcessAllIsSound(s, workspace, job, batch[..last], analyze);
      ProcessIsSound(ProcessAll(s, workspace, job, batch[..last], analyze).0, workspace, job, batch[last], analyze);
    }
  }

  // ---------- sending a batch again ----------

  /** Uploading the file once more would store nothing. */
  ghost predicate AlreadyUploaded(s: State, workspace: nat, job: nat, f: File, analyze: Analyzer) {
    !Acceptable(f)
    || match FindCopy(s, workspace, f.content)
       case Some(row) => Linked(s.links, workspace, job, row)
       case None => analyze(f.name, f.content).None?
  }

  lemma SettledStoresNothing(s: State, workspace: nat, job: nat, f: File, analyze: Analyzer)
    requires Inv(s) && AlreadyUploaded(s, workspace, job, f, analyze)
    ensures Process(s, workspace, job, f, analyze).0 == s
  {
  }

  lemma LinkedStays(links: seq<Link>, links': seq<Link>, workspace: nat, job: nat, candidate: nat)
    requires links <= links' && Linked(links, workspace, job, candidate)
    ensures Linked(links', workspace, job, candidate)
  {
    var i :| 0 <= i < |links| && links[i].workspace == workspace && links[i].job == job && links[i].candidate == candidate;
    assert links'[i] == links[i];
  }

  lemma CopyStays(s: State, s': State, workspace: nat, content: string)
    requires Inv(s) && Inv(s') && Extends(s, s') && FindCopy(s, workspace, content).Some?
    ensures FindCopy(s', workspace, content) == FindCopy(s, workspace, content)
  {
    var row := FindCopy(s, workspace, content).value;
    assert s'.files[row] == s.files[row] && s'.resumes[row] == s.resumes[row];
  }

  /** A file that has been processed is settled. */
  lemma ProcessedIsSettled(s: State, workspace: nat, job: nat, f: File, analyze: Analyzer)
    requires Inv(s)
    ensures AlreadyUploaded(Process(s, workspace, job, f, analyze).0, workspace, job, f, analyze)
  {
    var s' := Process(s, workspace, job, f, analyze).0;
    ProcessIsSound(s, workspace, job, f, analyze);
    if Acceptable(f) {
      if FindCopy(s, workspace, f.content).Some? {
        CopyStays(s, s', workspace, f.content);
        AddedIsLinked(s.links, Link(workspace, job, FindCopy(s, workspace, f.content).value, FindCopy(s, workspace, f.content).value));
      } else if analyze(f.name, f.content).Some? {
        NewCopyIsFound(s', workspace, |s.files|);
        assert s'.links[|s.links|].candidate == |s.files|;
      }
    }
  }

  lemma AddedIsLinked(links: seq<Link>, link: Link)
    ensures Linked(AddLink(links, link), link.workspace, link.job, link.candidate)
  {
    if !Linked(links, link.workspace, link.job, link.candidate) {
      assert (links + [link])[|links|] == link;
    }
  }

  lemma NewCopyIsFound(s: State, workspace: nat, row: nat)
    requires Inv(s) && row < |s.files| && s.files[row].workspace == workspace
    ensures FindCopy(s, workspace, s.files[row].content) == Some(row)
  {
  }

  lemma LinkedCopyStaysSettled(s: State, s': State, workspace: nat, job: nat, f: File, analyze: Analyzer)
    requires Inv(s) && Inv(s') && Extends(s, s') && AlreadyUploaded(s, workspace, job, f, analyze)
    requires FindCopy(s, workspace, f.content).Some?
    ensures AlreadyUploaded(s', workspace, job, f, analyze)
  {
    CopyStays(s, s', workspace, f.content);
    if Acceptable(f) {
      LinkedStays(s.links, s'.links, workspace, job, FindCopy(s, workspace, f.content).value);
    }
  }

  lemma OtherContentAddsNoCopy(s: State, workspace: nat, job: nat, g: File, content: string, analyze: Analyzer)
    requires Inv(s) && g.content != content && FindCopy(s, workspace, content).None?
    ensures FindCopy(Process(s, workspace, job, g, analyze).0, workspace, content).None?
  {
    ProcessIsSound(s, workspace, job, g, analyze);
  }

  /** Processing any other file for the same job keeps a settled file settled. */
  lemma ProcessKeepsSettled(s: State, workspace: nat, job: nat, g: File, f: File, analyze: Analyzer)
    requires Inv(s) && AlreadyUploaded(s, workspace, job, f, analyze)
    ensures AlreadyUploaded(Process(s, workspace, job, g, analyze).0, workspace, job, f, analyze)
  {
    if Acceptable(f) {
      if FindCopy(s, workspace, f.content).Some? {
        ProcessIsSound(s, workspace, job, g, analyze);
        LinkedCopyStaysSettled(s, Process(s, workspace, job, g, analyze).0, workspace, job, f, analyze);
      } else if f.content == g.content {
        ProcessedIsSettled(s, workspace, job, g, analyze);
      } else {
        OtherContentAddsNoCopy(s, workspace, job, g, f.content, analyze);
      }
    }
  }

  lemma {:induction false} BatchIsSettled(s: State, workspace: nat, job: nat, batch: seq<File>, analyze: Analyzer)
    requires Inv(s)
    ensures forall i | 0 <= i < |batch| :: AlreadyUploaded(ProcessAll(s, workspace, job, batch, analyze).0, workspace, job, batch[i], analyze)
  {
    if batch != [] {
      var last := |batch| - 1;
      var before := ProcessAll(s, workspace, job, batch[..last], analyze).0;
      ProcessAllIsSound(s, workspace, job, batch[..last], analyze);
      BatchIsSettled(s, workspace, job, batch[..last], analyze);
      ProcessedIsSettled(before, workspace, job, batch[last], analyze);
      forall i | 0 <= i < last ensures AlreadyUploaded(ProcessAll(s, workspace, job, batch, analyze).0, workspace, job, batch[i], analyze) {
        assert batch[..last][i] == batch[i];
        ProcessKeepsSettled(before, workspace, job, batch[last], batch[i], analyze);
      }
    }
  }

  lemma {:induction false} SettledBatchStoresNothing(s: State, workspace: nat, job: nat, again: seq<File>, analyze: Analyzer)
    requires Inv(s) && forall i | 0 <= i < |again| :: AlreadyUploaded(s, workspace, job, again[i], analyze)
    ensures ProcessAll(s, workspace, job, again, analyze).0 == s
  {
    if again != [] {
      var last := |again| - 1;
      SettledBatchStoresNothing(s, workspace, job, again[..last], analyze);
      SettledStoresNothing(s, workspace, job, again[last], analyze);
    }
  }

  /** Sending a batch again to the same job, or any selection of its files in any order and number, stores nothing. */
  lemma ResendingStoresNothing(s: State, workspace: nat, job: nat, batch: seq<File>, again: seq<File>, analyze: Analyzer)
    requires Inv(s) && forall f | f in again :: f in batch
    ensures var once := ProcessAll(s, workspace, job, batch, analyze).0;
            ProcessAll(once, workspace, job, again, analyze).0 == once
  {
    var once := ProcessAll(s, workspace, job, batch, analyze).0;
    ProcessAllIsSound(s, workspace, job, batch, analyze);
    BatchIsSettled(s, workspace, job, batch, analyze);
    forall i | 0 <= i < |again| ensures AlreadyUploaded(once, workspace, job, again[i], analyze) {
      assert again[i] in batch;
      var k :| 0 <= k < |batch| && batch[k] == again[i];
    }
    SettledBatchStoresNothing(once, workspace, job, again, analyze);
  }

  /** An accepted file ends up as exactly one stored content of the workspace, whose candidate is linked to the job;
      if the content is new, under its name and with the profile of its analysis. */
  lemma AcceptedContentIsStoredOnce(s: State, workspace: nat, job: nat, f: File, analyze: Analyzer)
    requires Inv(s) && !Process(s, workspace, job, f, analyze).1.Failed?
    ensures var (s', item) := Process(s, workspace, job, f, analyze);
            && Linked(s'.links, workspace, job, item.candidate)
            && item.candidate < |s'.files| && s'.files[item.candidate].content == f.content
            && s'.files[item.candidate].workspace == workspace
            && (forall i | 0 <= i < |s'.files| && s'.files[i].workspace == workspace && s'.files[i].content == f.content ::
                  i == item.candidate)
            && (item.Ready? <==> FindCopy(s, workspace, f.content).None?)
            && (item.Ready? ==>
                  && s'.files[item.candidate].name == f.name && item.candidate < |s'.candidates|
                  && analyze(f.name, f.content) == Some(s'.candidates[item.candidate].profile))
  {
    ProcessIsSound(s, workspace, job, f, analyze);
    ProcessedIsSettled(s, workspace, job, f, analyze);
    var (s', item) := Process(s, workspace, job, f, analyze);
    NewCopyIsFound(s', workspace, item.candidate);
  }

  predicate StoredIn(s: State, workspace: nat, content: string) {
    exists i | 0 <= i < |s.files| :: s.files[i].workspace == workspace && s.files[i].content == content
  }

  /** A file fails exactly if its kind is not supported, it is empty or over 10 MiB, or its content is new to the workspace and
      its analysis fails; then nothing changes. It is a duplicate exactly if it may be read and the workspace has its content. */
  lemma FileFailsIff(s: State, workspace: nat, job: nat, f: File, analyze: Analyzer)
    requires Inv(s)
    ensures var (s', item) := Process(s, workspace, job, f, analyze);
            var readable := f.supported && 0 < |f.content| <= 10485760;
            && (item.Failed? <==> !readable || (!StoredIn(s, workspace, f.content) && analyze(f.name, f.content).None?))
            && (item.Duplicate? <==> readable && StoredIn(s, workspace, f.content))
            && (item.Failed? ==> s' == s)
            && (item.Duplicate? ==> s' == s.(links := s'.links))
  {
    var found := FindCopy(s, workspace, f.content);
    assert found.Some? ==> s.files[found.value].content == f.content;
    if StoredIn(s, workspace, f.content) {
      var i :| 0 <= i < |s.files| && s.files[i].workspace == workspace && s.files[i].content == f.content;
      NewCopyIsFound(s, workspace, i);
    }
  }

  // ---------- any run of uploads ----------

  // One request that passed the checks: its workspace, its job and the files sent.
  datatype Upload = Upload(workspace: nat, job: nat, batch: seq<File>)

  function RunUploads(s: State, uploads: seq<Upload>, analyze: Analyzer): State {
    if uploads == [] then s
    else
      var last := |uploads| - 1;
      var u := uploads[last];
      ProcessAll(RunUploads(s, uploads[..last], analyze), u.workspace, u.job, u.batch, analyze).0
  }

  /** The contents of the files whose item is not a failure. */
  function AcceptedOf(batch: seq<File>, items: seq<Item>): set<string> {
    set i | 0 <= i < |batch| && i < |items| && !items[i].Failed? :: batch[i].content
  }

  /** The contents that the uploads to one workspace had accepted, each as its request answered. */
  function AcceptedFor(s: State, uploads: seq<Upload>, analyze: Analyzer, workspace: nat): set<string> {
    if uploads == [] then {}
    else
      var last := |uploads| - 1;
      var u := uploads[last];
      var items := ProcessAll(RunUploads(s, uploads[..last], analyze), u.workspace, u.job, u.batch, analyze).1;
      AcceptedFor(s, uploads[..last], analyze, workspace) + (if u.workspace == workspace then AcceptedOf(u.batch, items) else {})
  }

  /** The contents stored for a workspace. */
  function Contents(files: seq<FileRow>, workspace: nat): set<string> {
    set i | 0 <= i < |files| && files[i].workspace == workspace :: files[i].content
  }

  function CountCandidates(candidates: seq<Candidate>, workspace: nat): nat {
    if candidates == [] then 0
    else
      var last := |candidates| - 1;
      CountCandidates(candidates[..last], workspace) + (if candidates[last].workspace == workspace then 1 else 0)
  }

  lemma ContentsOfSnoc(files: seq<FileRow>, row: FileRow, workspace: nat)
    ensures Contents(files + [row], workspace)
            == Contents(files, workspace) + (if row.workspace == workspace then {row.content} else {})
  {
    var more := files + [row];
    assert more[|files|] == row;
    assert forall i | 0 <= i < |files| :: more[i] == files[i];
  }

  lemma ProcessAddsContent(s: State, workspace: nat, job: nat, f: File, analyze: Analyzer, observed: nat)
    requires Inv(s)
    ensures var (s', item) := Process(s, workspace, job, f, analyze);
            Contents(s'.files, observed)
            == Contents(s.files, observed) + (if workspace == observed && !item.Failed? then {f.content} else {})
  {
    var (s', item) := Process(s, workspace, job, f, analyze);
    if item.Ready? {
      ContentsOfSnoc(s.files, s'.files[|s.files|], observed);
    } else if item.Duplicate? {
      assert s.files[FindCopy(s, workspace, f.content).value].content == f.content;
    }
  }

  lemma AcceptedOfSnoc(batch: seq<File>, f: File, items: seq<Item>, item: Item)
    requires |items| == |batch|
    ensures AcceptedOf(batch + [f], items + [item]) == AcceptedOf(batch, items) + (if item.Failed? then {} else {f.content})
  {
    var files, all := batch + [f], items + [item];
    assert files[|batch|] == f && all[|batch|] == item;
    assert forall i | 0 <= i < |batch| :: files[i] == batch[i] && all[i] == items[i];
  }

  lemma {:induction false} BatchAddsContents(s: State, workspace: nat, job: nat, batch: seq<File>, analyze: Analyzer, observed: nat)
    requires Inv(s)
    ensures var (s', items) := ProcessAll(s, workspace, job, batch, analyze);
            Contents(s'.files, observed)
            == Contents(s.files, observed) + (if workspace == observed then AcceptedOf(batch, items) else {})
  {
    if batch != [] {
      var last := |batch| - 1;
      var (before, items) := ProcessAll(s, workspace, job, batch[..last], analyze);
      ProcessAllIsSound(s, workspace, job, batch[..last], analyze);
      BatchAddsContents(s, workspace, job, batch[..last], analyze, observed);
      ProcessAddsContent(before, workspace, job, batch[last], analyze, observed);
      assert batch == batch[..last] + [batch[last]];
      AcceptedOfSnoc(batch[..last], batch[last], items, Process(before, workspace, job, batch[last], analyze).1);
    }
  }

  lemma {:induction false} CandidatesAreContents(files: seq<FileRow>, candidates: seq<Candidate>, workspace: nat)
    requires |files| == |candidates| && forall i | 0 <= i < |files| :: files[i].workspace == candidates[i].workspace
    requires forall i, j | 0 <= i < j < |files| && files[i].workspace == files[j].workspace :: files[i].content != files[j].content
    ensures CountCandidates(candidates, workspace) == |Contents(files, workspace)|
  {
    if files != [] {
      var last := |files| - 1;
      CandidatesAreContents(files[..last], candidates[..last], workspace);
      assert files == files[..last] + [files[last]];
      ContentsOfSnoc(files[..last], files[last], workspace);
      assert files[last].workspace == workspace ==> files[last].content !in Contents(files[..last], workspace);
    }
  }

  lemma {:induction false} RunUploadsIsSound(s: State, uploads: seq<Upload>, analyze: Analyzer)
    requires Inv(s)
    ensures Inv(RunUploads(s, uploads, analyze)) && Extends(s, RunUploads(s, uploads, analyze))
  {
    if uploads != [] {
      var last := |uploads| - 1;
      RunUploadsIsSound(s, uploads[..last], analyze);
      ProcessAllIsSound(RunUploads(s, uploads[..last], analyze), uploads[last].workspace, uploads[last].job, uploads[last].batch, analyze);
    }
  }

  lemma {:induction false} ContentsAreAccepted(s: State, uploads: seq<Upload>, analyze: Analyzer, workspace: nat)
    requires Inv(s)
    ensures Contents(RunUploads(s, uploads, analyze).files, workspace)
            == Contents(s.files, workspace) + AcceptedFor(s, uploads, analyze, workspace)
  {
    hide Inv, Contents, ProcessAll, AcceptedOf;
    if uploads != [] {
      var last := |uploads| - 1;
      var u := uploads[last];
      RunUploadsIsSound(s, uploads[..last], analyze);
      ContentsAreAccepted(s, uploads[..last], analyze, workspace);
      BatchAddsContents(RunUploads(s, uploads[..last], analyze), u.workspace, u.job, u.batch, analyze, workspace);
    }
  }

  /** After any run of uploads to any jobs and workspaces, the contents stored for a workspace are those it had and
      those accepted for it, no others, and it has exactly one candidate for each. */
  lemma WorkspaceStoresWhatItAccepted(s: State, uploads: seq<Upload>, analyze: Analyzer, workspace: nat)
    requires Inv(s)
    ensures var s' := RunUploads(s, uploads, analyze);
            && Contents(s'.files, workspace) == Contents(s.files, workspace) + AcceptedFor(s, uploads, analyze, workspace)
            && CountCandidates(s'.candidates, workspace) == |Contents(s'.files, workspace)|
  {
    ContentsAreAccepted(s, uploads, analyze, workspace);
    RunUploadsIsSound(s, uploads, analyze);
    var s' := RunUploads(s, uploads, analyze);
    CandidatesAreContents(s'.files, s'.candidates, workspace);
  }

  /** The batch held the file, and its item was not a failure. */
  ghost predicate WasAccepted(batch: seq<File>, items: seq<Item>, f: File) {
    exists i | 0 <= i < |batch| && i < |items| :: batch[i] == f && !items[i].Failed?
  }

  lemma AcceptedHasCopy(s: State, workspace: nat, job: nat, batch: seq<File>, f: File, analyze: Analyzer)
    requires Inv(s) && WasAccepted(batch, ProcessAll(s, workspace, job, batch, analyze).1, f)
    ensures var once := ProcessAll(s, workspace, job, batch, analyze).0;
            FindCopy(once, workspace, f.content).Some? && AlreadyUploaded(once, workspace, job, f, analyze)
  {
    var (once, items) := ProcessAll(s, workspace, job, batch, analyze);
    ProcessAllIsSound(s, workspace, job, batch, analyze);
    BatchIsSettled(s, workspace, job, batch, analyze);
    BatchAddsContents(s, workspace, job, batch, analyze, workspace);
    assert f.content in AcceptedOf(batch, items);
    assert f.content in Contents(once.files, workspace);
    var row :| 0 <= row < |once.files| && once.files[row].workspace == workspace && once.files[row].content == f.content;
    NewCopyIsFound(once, workspace, row);
  }

  /** Files of a batch that were accepted, or are refused unread, store nothing when they are sent to the job again, in
      any order and number, whatever uploads to whichever jobs and workspaces come in between. */
  lemma AcceptedIsNeverStoredAgain(s: State, workspace: nat, job: nat, batch: seq<File>, between: seq<Upload>, again: seq<File>,
                                   analyze: Analyzer)
    requires Inv(s)
    requires forall f | f in again :: !Acceptable(f) || WasAccepted(batch, ProcessAll(s, workspace, job, batch, analyze).1, f)
    ensures var later := RunUploads(ProcessAll(s, workspace, job, batch, analyze).0, between, analyze);
            ProcessAll(later, workspace, job, again, analyze).0 == later
  {
    hide Inv, Extends, FindCopy, Process, ProcessAll, RunUploads;
    var once := ProcessAll(s, workspace, job, batch, analyze).0;
    var later := RunUploads(once, between, analyze);
    ProcessAllIsSound(s, workspace, job, batch, analyze);
    RunUploadsIsSound(once, between, analyze);
    forall i | 0 <= i < |again| ensures AlreadyUploaded(later, workspace, job, again[i], analyze) {
      assert again[i] in again;
      if Acceptable(again[i]) {
        AcceptedHasCopy(s, workspace, job, batch, again[i], analyze);
        LinkedCopyStaysSettled(once, later, workspace, job, again[i], analyze);
      }
    }
    SettledBatchStoresNothing(later, workspace, job, again, analyze);
  }

  // ---------- loading the candidates to score ----------

  datatype Row = Row(candidate: nat, resume: nat, filename: string)

  function FilesOf(l: Link, files: seq<FileRow>): seq<Row> {
    if files == [] then []
    else
      var last := |files| - 1;
      FilesOf(l, files[..last])
      + (if files[last].resume == l.resume && files[last].workspace == l.workspace
         then [Row(l.candidate, l.resume, files[last].name)] else [])
  }

  function RowsOfLink(s: State, l: Link, workspace: nat, job: nat): seq<Row> {
    if l.workspace == workspace && l.job == job && l.candidate < |s.candidates| && l.resume < |s.resumes|
       && s.candidates[l.candidate].workspace == workspace && s.resumes[l.resume].workspace == workspace
    then FilesOf(l, s.files) else []
  }

  /** job_candidates JOIN candidates JOIN resumes JOIN resume_files, in link order. */
  function Join(s: State, workspace: nat, job: nat, n: nat): seq<Row>
    requires n <= |s.links|
  {
    if n == 0 then [] else Join(s, workspace, job, n - 1) + RowsOfLink(s, s.links[n - 1], workspace, job)
  }

  lemma {:induction false} FilesOfPrefix(l: Link, files: seq<FileRow>)
    requires forall i | 0 <= i < |files| :: files[i].resume == i
    ensures FilesOf(l, files)
            == if l.resume < |files| && files[l.resume].workspace == l.workspace
               then [Row(l.candidate, l.resume, files[l.resume].name)] else []
  {
    if files != [] {
      FilesOfPrefix(l, files[..|files| - 1]);
    }
  }

  /** The candidates linked to a job, in link order. */
  function LinkedTo(links: seq<Link>, workspace: nat, job: nat): seq<nat> {
    if links == [] then []
    else
      var last := |links| - 1;
      LinkedTo(links[..last], workspace, job)
      + (if links[last].workspace == workspace && links[last].job == job then [links[last].candidate] else [])
  }

  function RowFor(s: State, candidate: nat): Row {
    Row(candidate, candidate, if candidate < |s.files| then s.files[candidate].name else "")
  }

  /** What one link adds to the join: a row if it belongs to the job, nothing otherwise. */
  lemma LinkIsJoinedOnce(s: State, l: Link, workspace: nat, job: nat)
    requires Inv(s) && l in s.links
    ensures l.candidate < |s.files|
    ensures RowsOfLink(s, l, workspace, job)
            == if l.workspace == workspace && l.job == job then [RowFor(s, l.candidate)] else []
  {
    FilesOfPrefix(l, s.files);
  }

  /** The join yields one row per link: the linked candidate with its own resume and file. */
  lemma {:induction false} JoinIsOneRowPerLink(s: State, workspace: nat, job: nat, n: nat)
    requires Inv(s) && n <= |s.links|
    ensures var rows, linked := Join(s, workspace, job, n), LinkedTo(s.links[..n], workspace, job);
            |rows| == |linked| && forall i | 0 <= i < |rows| :: linked[i] < |s.files| && rows[i] == RowFor(s, linked[i])
  {
    hide Inv, RowsOfLink;
    if n > 0 {
      var front, l := s.links[..n - 1], s.links[n - 1];
      JoinIsOneRowPerLink(s, workspace, job, n - 1);
      assert s.links[..n] == front + [l] && (front + [l])[..n - 1] == front;
      LinkIsJoinedOnce(s, l, workspace, job);
    }
  }

  /** No candidate is linked to a job twice, and exactly the candidates with a link are listed. */
  lemma {:induction false} LinkedCandidatesAreDistinct(links: seq<Link>, workspace: nat, job: nat)
    requires forall l, k | 0 <= l < k < |links| && links[l].workspace == links[k].workspace && links[l].job == links[k].job ::
               links[l].candidate != links[k].candidate
    ensures var linked := LinkedTo(links, workspace, job);
            && (forall c :: c in linked <==> Linked(links, workspace, job, c))
            && (forall i, j | 0 <= i < j < |linked| :: linked[i] != linked[j])
  {
    if links != [] {
      var last := |links| - 1;
      var before, linked := LinkedTo(links[..last], workspace, job), LinkedTo(links, workspace, job);
      LinkedCandidatesAreDistinct(links[..last], workspace, job);
      forall c ensures c in linked <==> Linked(links, workspace, job, c) {
        LinkedSplits(links, workspace, job, c);
      }
      forall i, j | 0 <= i < j < |linked| ensures linked[i] != linked[j] {
        assert linked[i] == before[i] && before[i] in before;
        assert Linked(links[..last], workspace, job, before[i]);
      }
    }
  }

  lemma LinkedSplits(links: seq<Link>, workspace: nat, job: nat, c: nat)
    requires links != []
    ensures var last := |links| - 1;
            Linked(links, workspace, job, c)
            <==> Linked(links[..last], workspace, job, c)
                 || (links[last].workspace == workspace && links[last].job == job && links[last].candidate == c)
  {
    var last := |links| - 1;
    assert forall i | 0 <= i < last :: links[..last][i] == links[i];
  }

  /** Scoring sees every candidate linked to the job exactly once. */
  lemma EveryLinkedCandidateIsScoredOnce(s: State, workspace: nat, job: nat)
    requires Inv(s)
    ensures var rows := Join(s, workspace, job, |s.links|);
            && (forall i, j | 0 <= i < j < |rows| :: rows[i].candidate != rows[j].candidate)
            && (forall i | 0 <= i < |rows| :: Linked(s.links, workspace, job, rows[i].candidate))
            && (forall c: nat | Linked(s.links, workspace, job, c) :: c < |s.files| && RowFor(s, c) in rows)
  {
    JoinIsOneRowPerLink(s, workspace, job, |s.links|);
    assert s.links[..|s.links|] == s.links;
    LinkedCandidatesAreDistinct(s.links, workspace, job);
    var rows, linked := Join(s, workspace, job, |s.links|), LinkedTo(s.links, workspace, job);
    forall i | 0 <= i < |rows| ensures Linked(s.links, workspace, job, rows[i].candidate) {
      assert linked[i] in linked;
    }
    forall c: nat | Linked(s.links, workspace, job, c) ensures c < |s.files| && RowFor(s, c) in rows {
      assert c in linked;
      var i :| 0 <= i < |linked| && linked[i] == c;
      assert rows[i] == RowFor(s, c);
    }
  }

  /** The loop over the joined rows: the position recorded for a candidate is where that candidate is. */
  method LoadCandidates(rows: seq<Row>) returns (candidates: seq<nat>, indexById: map<nat, nat>)
    ensures |candidates| == |rows| && forall i | 0 <= i < |rows| :: candidates[i] == rows[i].candidate
    ensures forall id | id in indexById :: indexById[id] < |candidates| && candidates[indexById[id]] == id
    ensures forall i | 0 <= i < |rows| :: candidates[i] in indexById && i <= indexById[candidates[i]]
  {
    candidates, indexById := [], map[];
    for k := 0 to |rows|
      invariant |candidates| == k && forall i | 0 <= i < k :: candidates[i] == rows[i].candidate
      invariant forall id | id in indexById :: indexById[id] < k && candidates[indexById[id]] == id
      invariant forall i | 0 <= i < k :: candidates[i] in indexById && i <= indexById[candidates[i]]
    {
      candidates := candidates + [rows[k].candidate];
      indexById := indexById[rows[k].candidate := |candidates| - 1];
    }
  }

  // ---------- the handler as it runs ----------

  class ResumeStore {
    var jobs: seq<nat>
    var candidates: seq<Candidate>
    var resumes: seq<Resume>
    var files: seq<FileRow>
    var links: seq<Link>

    function Snapshot(): State
      reads this
    {
      State(jobs, candidates, resumes, files, links)
    }

    constructor (jobs: seq<nat>)
      ensures Inv(Snapshot()) && Snapshot() == State(jobs, [], [], [], [])
    {
      this.jobs := jobs;
      candidates, resumes, files, links := [], [], [], [];
    }

    method ProcessFile(workspace: nat, job: nat, f: File, analyze: Analyzer) returns (item: Item)
      requires Inv(Snapshot())
      modifies this
      ensures (Snapshot(), item) == Process(old(Snapshot()), workspace, job, f, analyze)
      ensures Inv(Snapshot())
    {
      ProcessIsSound(Snapshot(), workspace, job, f, analyze);
      if !f.supported {
        return Failed;
      }
      if |f.content| <= 0 || |f.content| > MAX_FILE_SIZE {
        return Failed;
      }
      var copy := FindCopy(Snapshot(), workspace, f.content);
      if copy.Some? {
        var resume := files[copy.value].resume;
        var candidate := resumes[resume].candidate;
        if !Linked(links, workspace, job, candidate) {
          links := links + [Link(workspace, job, candidate, resume)];
        }
        return Duplicate(candidate);
      }
      var analysis := analyze(f.name, f.content);
      if analysis.None? {
        return Failed;
      }
      var candidate, resume := |candidates|, |resumes|;
      candidates := candidates + [Candidate(workspace, analysis.value)];
      resumes := resumes + [Resume(workspace, candidate)];
      files := files + [FileRow(workspace, resume, f.name, f.content)];
      links := links + [Link(workspace, job, candidate, resume)];
      item := Ready(candidate);
    }

    /** jobs[j] is the workspace of job j. */
    method BulkUpload(canUpload: bool, workspace: nat, job: nat, batch: seq<File>, analyze: Analyzer)
      returns (problem: Option<Problem>, items: seq<Item>, accepted: nat, failed: nat)
      requires Inv(Snapshot())
      modifies this
      ensures Inv(Snapshot())
      ensures !canUpload ==> problem == Some(Forbidden)
      ensures canUpload && !(job < |old(jobs)| && old(jobs)[job] == workspace) ==> problem == Some(NotFound)
      ensures canUpload && job < |old(jobs)| && old(jobs)[job] == workspace ==>
                if 0 < |batch| <= MAX_FILES then problem == None else problem == Some(BadFileCount)
      ensures problem.Some? ==> Snapshot() == old(Snapshot()) && items == []
      ensures problem.None? ==>
                (Snapshot(), items) == ProcessAll(old(Snapshot()), workspace, job, batch, analyze) && accepted + failed == |batch|
      ensures problem.None? ==> failed == |Failures(items)|
    {
      hide Inv, Process;
      items, accepted, failed := [], 0, 0;
      if !canUpload {
        return Some(Forbidden), items, accepted, failed;
      }
      if job >= |jobs| || jobs[job] != workspace {
        return Some(NotFound), items, accepted, failed;
      }
      if |batch| == 0 || |batch| > MAX_FILES {
        return Some(BadFileCount), items, accepted, failed;
      }
      for i := 0 to |batch|
        invariant Inv(Snapshot())
        invariant (Snapshot(), items) == ProcessAll(old(Snapshot()), workspace, job, batch[..i], analyze)
        invariant accepted + failed == i && failed == |Failures(items)|
      {
        assert batch[..i + 1][..i] == batch[..i];
        var item := ProcessFile(workspace, job, batch[i], analyze);
        assert (items + [item])[..|items|] == items;
        items := items + [item];
        if item.Failed? {
          failed := failed + 1;
        } else {
          accepted := accepted + 1;
        }
      }
      assert batch[..|batch|] == batch;
      problem := None;
    }
  }

  function Failures(items: seq<Item>): seq<Item> {
    if items == [] then []
    else
      var last := |items| - 1;
      Failures(items[..last]) + (if items[last].Failed? then [items[last]] else [])
  }
}
