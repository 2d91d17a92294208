/** Publishing a reference file: generators that may die at any step, machines that may lose power,
    and readers that take no lock. */
module Publication {
  import opened Bytes

  type Process = nat

  type Inode = nat

  /** A name in the cache directory, if it exists: the file it stands for. */
  datatype Name = Absent | Present(inode: Inode)

  /** The two names of a reference and the bytes of every file; files from `unused` on do not exist yet.  `synced` says
      that the temporary file's bytes are on disk, `durable` that the rename is. */
  datatype Disk = Disk(temporary: Name, synced: bool, published: Name, durable: bool, bytes: Inode -> Text, unused: Inode)

  datatype Phase =
    | Idle
    | Locked
    | Reusing
    | Building
    | Writing(done: nat)
    | Synced
    | Renamed
    | Done(content: Text)
    | Reading(file: Inode, got: Text)

  datatype State = State(disk: Disk, holder: Process -> bool, phase: Process -> Phase)

  datatype Step =
    | Lock(p: Process)
    | FindExisting(p: Process)
    | FindMissing(p: Process)
    | OpenTemporary(p: Process)
    | Write(p: Process, count: nat)
    | Sync(p: Process)
    | Rename(p: Process)
    | SyncDirectory(p: Process)
    | ReadExisting(p: Process)
    | Release(p: Process)
    | OpenReader(p: Process)
    | ReadPiece(p: Process, count: nat)
    | Die(p: Process)
    | LosePower(left: Name, leftBytes: Text, renameKept: bool)

  ghost function Set<T>(f: nat -> T, p: nat, value: T): nat -> T {
    (q: nat) => if q == p then value else f(q)
  }

  ghost predicate Free(s: State) {
    forall q :: !s.holder(q)
  }

  /** Locks are exclusive and not waited for, and readers take none; a power cut keeps synced bytes, and a rename it
      may undo unless the directory was synced. */
  ghost predicate Enabled(text: Text, s: State, step: Step) {
    match step
    case Lock(p) => s.phase(p).Idle? && Free(s)
    case FindExisting(p) => s.phase(p).Locked? && s.disk.published.Present?
    case FindMissing(p) => s.phase(p).Locked? && s.disk.published.Absent?
    case OpenTemporary(p) => s.phase(p).Building?
    case Write(p, count) => s.phase(p).Writing? && 0 < count && s.phase(p).done + count <= |text| && s.disk.temporary.Present?
    case Sync(p) => s.phase(p).Writing? && s.phase(p).done == |text|
    case Rename(p) => s.phase(p).Synced? && s.disk.temporary.Present?
    case SyncDirectory(p) => s.phase(p).Renamed? && s.disk.published.Present?
    case ReadExisting(p) => s.phase(p).Reusing? && s.disk.published.Present?
    case Release(p) => s.phase(p).Done?
    case OpenReader(p) => s.phase(p).Idle? && s.disk.published.Present?
    case ReadPiece(p, count) => s.phase(p).Reading? && |s.phase(p).got| + count <= |s.disk.bytes(s.phase(p).file)|
    case Die(p) => !s.phase(p).Idle?
    case LosePower(left, leftBytes, renameKept) =>
      && (s.disk.synced ==> left == s.disk.temporary && left.Present? && leftBytes == s.disk.bytes(left.inode))
      && (left.Present? ==> left == s.disk.temporary) && (s.disk.durable ==> renameKept)
  }

  ghost function Move(s: State, p: Process, phase: Phase, disk: Disk): State {
    State(disk, s.holder, Set(s.phase, p, phase))
  }

  /** fopen for writing: the existing file is truncated, or a new one made. */
  ghost function Truncated(d: Disk): Disk {
    if d.temporary.Present? then d.(bytes := Set(d.bytes, d.temporary.inode, []), synced := false)
    else d.(temporary := Present(d.unused), bytes := Set(d.bytes, d.unused, []), unused := d.unused + 1, synced := false)
  }

  /** What is left of the published name, and of the temporary one, after a power cut. */
  ghost function Remains(d: Disk, left: Name, leftBytes: Text, renameKept: bool): Disk {
    if renameKept || d.published.Absent? then
      d.(temporary := left, bytes := if left.Present? then Set(d.bytes, left.inode, leftBytes) else d.bytes)
    else d.(temporary := d.published, synced := true, published := Absent, durable := false)
  }

  ghost function Apply(text: Text, s: State, step: Step): State
    requires Enabled(text, s, step)
  {
    var d := s.disk;
    match step
    case Lock(p) => State(d, Set(s.holder, p, true), Set(s.phase, p, Locked))
    case FindExisting(p) => Move(s, p, Reusing, d)
    case FindMissing(p) => Move(s, p, Building, d)
    case OpenTemporary(p) => Move(s, p, Writing(0), Truncated(d))
    case Write(p, count) =>
      var done, file := s.phase(p).done, d.temporary.inode;
      Move(s, p, Writing(done + count), d.(bytes := Set(d.bytes, file, d.bytes(file) + text[done..done + count])))
    case Sync(p) => Move(s, p, Synced, d.(synced := true))
    case Rename(p) => Move(s, p, Renamed, d.(temporary := Absent, synced := false, published := d.temporary, durable := false))
    case SyncDirectory(p) => Move(s, p, Done(d.bytes(d.published.inode)), d.(durable := true))
    case ReadExisting(p) => Move(s, p, Done(d.bytes(d.published.inode)), d)
    case Release(p) => State(d, Set(s.holder, p, false), Set(s.phase, p, Idle))
    case OpenReader(p) => Move(s, p, Reading(d.published.inode, []), d)
    case ReadPiece(p, count) =>
      var file, got := s.phase(p).file, s.phase(p).got;
      Move(s, p, Reading(file, got + d.bytes(file)[|got|..|got| + count]), d)
    case Die(p) => State(d, Set(s.holder, p, false), Set(s.phase, p, Idle))
    case LosePower(left, leftBytes, renameKept) => State(Remains(d, left, leftBytes, renameKept), _ => false, _ => Idle)
  }

  ghost predicate Init(s: State) {
    && s.disk.temporary.Absent? && s.disk.published.Absent? && !s.disk.synced && !s.disk.durable
    && Free(s) && forall p :: s.phase(p).Idle?
  }

  ghost predicate Possible(text: Text, s: State, steps: seq<Step>)
    decreases |steps|
  {
    steps == [] || (Enabled(text, s, steps[0]) && Possible(text, Apply(text, s, steps[0]), steps[1..]))
  }

  ghost function After(text: Text, s: State, steps: seq<Step>): State
    requires Possible(text, s, steps)
    decreases |steps|
  {
    if steps == [] then s else After(text, Apply(text, s, steps[0]), steps[1..])
  }

  // ----- the invariant

  /** The file behind the published name is complete, and no writer can reach it. */
  ghost predicate DiskOk(text: Text, d: Disk) {
    && (d.published.Present? ==> d.bytes(d.published.inode) == text && d.published.inode < d.unused)
    && (d.temporary.Present? ==> d.temporary.inode < d.unused)
    && (d.published.Present? && d.temporary.Present? ==> d.published.inode != d.temporary.inode)
    && (d.durable ==> d.published.Present?)
    && (d.synced ==> d.temporary.Present? && d.bytes(d.temporary.inode) == text)
  }

  ghost predicate WithLock(phase: Phase) {
    !phase.Idle? && !phase.Reading?
  }

  /** A process past the lock holds it, and the files are as far as its phase says; what a reader has got is the
      beginning of the published file. */
  ghost predicate ProcessOk(text: Text, s: State, p: Process) {
    && (s.holder(p) <==> WithLock(s.phase(p)))
    && match s.phase(p)
       case Reusing => s.disk.published.Present?
       case Building => s.disk.published.Absent?
       case Writing(done) =>
         && s.disk.published.Absent? && done <= |text| && !s.disk.synced
         && s.disk.temporary.Present? && s.disk.bytes(s.disk.temporary.inode) == text[..done]
       case Synced => s.disk.published.Absent? && s.disk.synced
       case Renamed => s.disk.published.Present?
       case Done(content) => content == text && s.disk.published.Present?
       case Reading(file, got) => s.disk.published == Present(file) && got <= text
       case _ => true
  }

  ghost predicate OneHolder(s: State) {
    forall p, q :: s.holder(p) && s.holder(q) ==> p == q
  }

  ghost predicate Inv(text: Text, s: State) {
    DiskOk(text, s.disk) && OneHolder(s) && forall p :: ProcessOk(text, s, p)
  }

  lemma InitHolds(text: Text, s: State)
    requires Init(s)
    ensures Inv(text, s)
  {
  }

  ghost predicate Local(step: Step) {
    !step.LosePower?
  }

  lemma StepKeepsDisk(text: Text, s: State, step: Step)
    requires Inv(text, s) && Enabled(text, s, step)
    ensures DiskOk(text, Apply(text, s, step).disk)
  {
    if Local(step) {
      assert ProcessOk(text, s, step.p);
      if step.Sync? {
        assert text[..|text|] == text;
      }
    }
  }

  lemma StepKeepsHolder(text: Text, s: State, step: Step)
    requires Inv(text, s) && Enabled(text, s, step)
    ensures OneHolder(Apply(text, s, step))
  {
    if Local(step) {
      assert ProcessOk(text, s, step.p);
    }
  }

  lemma OwnStepKeeps(text: Text, s: State, step: Step)
    requires Inv(text, s) && Enabled(text, s, step) && Local(step)
    ensures ProcessOk(text, Apply(text, s, step), step.p)
  {
    var x := s.phase(step.p);
    assert ProcessOk(text, s, step.p);
    if step.Write? {
      assert text[..x.done] + text[x.done..x.done + step.count] == text[..x.done + step.count];
    } else if step.ReadPiece? {
      assert x.got + text[|x.got|..|x.got| + step.count] == text[..|x.got| + step.count];
    }
  }

  /** A step that changes files is a lock holder's, so only readers are there to notice, and not the file they read. */
  lemma OtherStepKeeps(text: Text, s: State, step: Step, q: Process)
    requires Inv(text, s) && Enabled(text, s, step) && Local(step) && q != step.p
    ensures ProcessOk(text, Apply(text, s, step), q)
  {
    assert ProcessOk(text, s, q) && ProcessOk(text, s, step.p);
  }

  lemma StepKeepsProcess(text: Text, s: State, step: Step, q: Process)
    requires Inv(text, s) && Enabled(text, s, step)
    ensures ProcessOk(text, Apply(text, s, step), q)
  {
    if Local(step) {
      if q == step.p {
        OwnStepKeeps(text, s, step);
      } else {
        OtherStepKeeps(text, s, step, q);
      }
    }
  }

  lemma StepKeepsInv(text: Text, s: State, step: Step)
    requires Inv(text, s) && Enabled(text, s, step)
    ensures Inv(text, Apply(text, s, step))
  {
    hide Apply, Enabled, ProcessOk, DiskOk;
    StepKeepsDisk(text, s, step);
    StepKeepsHolder(text, s, step);
    forall q ensures ProcessOk(text, Apply(text, s, step), q) {
      StepKeepsProcess(text, s, step, q);
    }
  }

  lemma {:induction false} RunsKeepInv(text: Text, s: State, steps: seq<Step>)
    requires Inv(text, s) && Possible(text, s, steps)
    ensures Inv(text, After(text, s, steps))
    decreases |steps|
  {
    hide Inv, Apply, Enabled;
    if steps != [] {
      StepKeepsInv(text, s, steps[0]);
      RunsKeepInv(text, Apply(text, s, steps[0]), steps[1..]);
    }
  }

  // ----- what every run keeps

  /** Deaths and power cuts included, the published name is absent or holds the complete file. */
  lemma PublishedIsComplete(text: Text, s: State, steps: seq<Step>)
    requires Init(s) && Possible(text, s, steps)
    ensures var d := After(text, s, steps).disk; d.published.Absent? || d.bytes(d.published.inode) == text
  {
    InitHolds(text, s);
    RunsKeepInv(text, s, steps);
  }

  ghost predicate Generating(phase: Phase) {
    phase.Writing? || phase.Synced? || phase.Renamed?
  }

  /** At most one process is between opening the temporary file and finishing. */
  lemma OneGeneratorWrites(text: Text, s: State, steps: seq<Step>, p: Process, q: Process)
    requires Init(s) && Possible(text, s, steps)
    requires var t := After(text, s, steps); Generating(t.phase(p)) && Generating(t.phase(q))
    ensures p == q
  {
    InitHolds(text, s);
    RunsKeepInv(text, s, steps);
    var t := After(text, s, steps);
    assert ProcessOk(text, t, p) && ProcessOk(text, t, q);
  }

  /** A process that finishes, by generating or by reusing, has the complete file. */
  lemma FinishedHasTheFile(text: Text, s: State, steps: seq<Step>, p: Process)
    requires Init(s) && Possible(text, s, steps) && After(text, s, steps).phase(p).Done?
    ensures After(text, s, steps).phase(p).content == text
    ensures PublishedIs(text, After(text, s, steps).disk)
  {
    InitHolds(text, s);
    RunsKeepInv(text, s, steps);
    assert ProcessOk(text, After(text, s, steps), p);
  }

  ghost predicate PublishedIs(text: Text, d: Disk) {
    d.published.Present? && d.bytes(d.published.inode) == text
  }

  /** A reader without the lock, reading in pieces of any size, has at every moment the beginning of the complete file,
      and at the end of what it opened, all of it. */
  lemma ReadersGetTheFile(text: Text, s: State, steps: seq<Step>, p: Process)
    requires Init(s) && Possible(text, s, steps) && After(text, s, steps).phase(p).Reading?
    ensures var t := After(text, s, steps);
            && t.phase(p).got <= text
            && (|t.phase(p).got| == |t.disk.bytes(t.phase(p).file)| ==> t.phase(p).got == text)
  {
    InitHolds(text, s);
    RunsKeepInv(text, s, steps);
    assert ProcessOk(text, After(text, s, steps), p);
  }

  lemma StepKeepsPublished(text: Text, s: State, step: Step)
    requires Inv(text, s) && Enabled(text, s, step) && s.disk.durable
    ensures Apply(text, s, step).disk.durable
  {
    if Local(step) {
      assert ProcessOk(text, s, step.p);
    }
  }

  /** Once the directory is synced the file stays, whatever happens. */
  lemma {:induction false} DurableForever(text: Text, s: State, steps: seq<Step>)
    requires Inv(text, s) && Possible(text, s, steps) && s.disk.durable
    ensures After(text, s, steps).disk.durable && PublishedIs(text, After(text, s, steps).disk)
    decreases |steps|
  {
    hide Apply, Enabled;
    if steps != [] {
      StepKeepsPublished(text, s, steps[0]);
      StepKeepsInv(text, s, steps[0]);
      DurableForever(text, Apply(text, s, steps[0]), steps[1..]);
    }
  }

  // ----- a retry after any crash

  /** The steps of a generator that meets no published file. */
  ghost function Generation(text: Text, p: Process): seq<Step> {
    [Lock(p), FindMissing(p), OpenTemporary(p)] + (if text == [] then [] else [Write(p, |text|)])
    + [Sync(p), Rename(p), SyncDirectory(p), Release(p)]
  }

  /** The steps of one that does. */
  ghost function Reuse(p: Process): seq<Step> {
    [Lock(p), FindExisting(p), ReadExisting(p), Release(p)]
  }

  lemma RunStep(text: Text, s: State, step: Step, rest: seq<Step>)
    requires Enabled(text, s, step) && Possible(text, Apply(text, s, step), rest)
    ensures Possible(text, s, [step] + rest) && After(text, s, [step] + rest) == After(text, Apply(text, s, step), rest)
  {
    assert ([step] + rest)[1..] == rest;
  }

  /** From the moment the temporary file is open. */
  lemma WriteRuns(text: Text, s: State, p: Process)
    requires s.phase(p) == Writing(0) && s.disk.temporary.Present? && s.disk.bytes(s.disk.temporary.inode) == []
    ensures var steps := (if text == [] then [] else [Write(p, |text|)]) + [Sync(p), Rename(p), SyncDirectory(p), Release(p)];
            Possible(text, s, steps) && PublishedIs(text, After(text, s, steps).disk)
  {
    if text == [] {
      FinishRuns(text, s, p);
      assert [] + [Sync(p), Rename(p), SyncDirectory(p), Release(p)] == [Sync(p), Rename(p), SyncDirectory(p), Release(p)];
    } else {
      assert [] + text[0..|text|] == text;
      FinishRuns(text, Apply(text, s, Write(p, |text|)), p);
      RunStep(text, s, Write(p, |text|), [Sync(p), Rename(p), SyncDirectory(p), Release(p)]);
    }
  }

  lemma FinishRuns(text: Text, s: State, p: Process)
    requires s.phase(p) == Writing(|text|) && s.disk.temporary.Present? && s.disk.bytes(s.disk.temporary.inode) == text
    ensures var steps := [Sync(p), Rename(p), SyncDirectory(p), Release(p)];
            Possible(text, s, steps) && PublishedIs(text, After(text, s, steps).disk)
  {
    var s1 := Apply(text, s, Sync(p));
    var s2 := Apply(text, s1, Rename(p));
    var s3 := Apply(text, s2, SyncDirectory(p));
    RunStep(text, s3, Release(p), []);
    RunStep(text, s2, SyncDirectory(p), [Release(p)]);
    RunStep(text, s1, Rename(p), [SyncDirectory(p)] + [Release(p)]);
    RunStep(text, s, Sync(p), [Rename(p)] + ([SyncDirectory(p)] + [Release(p)]));
    assert [Sync(p)] + ([Rename(p)] + ([SyncDirectory(p)] + [Release(p)])) == [Sync(p), Rename(p), SyncDirectory(p), Release(p)];
  }

  /** After any run, deaths and power cuts included, a process that gets the lock can finish, and the
      published file is the same complete file as if nothing had happened. */
  lemma RetryPublishesTheSame(text: Text, s: State, steps: seq<Step>, p: Process)
    requires Init(s) && Possible(text, s, steps) && Free(After(text, s, steps)) && After(text, s, steps).phase(p).Idle?
    ensures var t := After(text, s, steps);
            var retry := if t.disk.published.Absent? then Generation(text, p) else Reuse(p);
            Possible(text, t, retry) && PublishedIs(text, After(text, t, retry).disk)
  {
    InitHolds(text, s);
    RunsKeepInv(text, s, steps);
    RetryRuns(text, After(text, s, steps), p);
  }

  lemma RetryRuns(text: Text, s: State, p: Process)
    requires Inv(text, s) && Free(s) && s.phase(p).Idle?
    ensures var retry := if s.disk.published.Absent? then Generation(text, p) else Reuse(p);
            Possible(text, s, retry) && PublishedIs(text, After(text, s, retry).disk)
  {
    if s.disk.published.Absent? {
      GenerationRuns(text, s, p);
    } else {
      ReuseRuns(text, s, p);
    }
  }

  lemma GenerationRuns(text: Text, s: State, p: Process)
    requires Free(s) && s.phase(p).Idle? && s.disk.published.Absent?
    ensures Possible(text, s, Generation(text, p)) && PublishedIs(text, After(text, s, Generation(text, p)).disk)
  {
    hide Possible, After, PublishedIs;
    var locked := Apply(text, s, Lock(p));
    var building := Apply(text, locked, FindMissing(p));
    var writing := Apply(text, building, OpenTemporary(p));
    var rest := (if text == [] then [] else [Write(p, |text|)]) + [Sync(p), Rename(p), SyncDirectory(p), Release(p)];
    WriteRuns(text, writing, p);
    RunStep(text, building, OpenTemporary(p), rest);
    RunStep(text, locked, FindMissing(p), [OpenTemporary(p)] + rest);
    RunStep(text, s, Lock(p), [FindMissing(p)] + ([OpenTemporary(p)] + rest));
    assert [Lock(p)] + ([FindMissing(p)] + ([OpenTemporary(p)] + rest)) == Generation(text, p);
  }

  lemma ReuseRuns(text: Text, s: State, p: Process)
    requires Free(s) && s.phase(p).Idle? && PublishedIs(text, s.disk)
    ensures Possible(text, s, Reuse(p)) && PublishedIs(text, After(text, s, Reuse(p)).disk)
  {
    var locked := Apply(text, s, Lock(p));
    var reusing := Apply(text, locked, FindExisting(p));
    var done := Apply(text, reusing, ReadExisting(p));
    RunStep(text, done, Release(p), []);
    RunStep(text, reusing, ReadExisting(p), [Release(p)]);
    RunStep(text, locked, FindExisting(p), [ReadExisting(p)] + [Release(p)]);
    RunStep(text, s, Lock(p), [FindExisting(p)] + ([ReadExisting(p)] + [Release(p)]));
    assert [Lock(p)] + ([FindExisting(p)] + ([ReadExisting(p)] + [Release(p)])) == Reuse(p);
  }
}
