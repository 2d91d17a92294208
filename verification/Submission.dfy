/** The job submitter: receipts on disk, jobs at the scheduler, and a submitter that may die between
    any two of its steps. */
module Submission {
  import opened Csr

  type Key = nat

  type JobId = nat

  /** A receipt announces a submission before it records the job the scheduler returned. */
  datatype Receipt = Submitting(history: seq<JobId>) | Submitted(job: JobId, history: seq<JobId>) {
    function Ids(): seq<JobId> {
      if Submitted? then history + [job] else history
    }
  }

  datatype Job = Job(key: Key, terminal: bool)

  datatype Stage = Ready | Announced | Accepted(job: JobId)

  /** A running call: the receipts it read, the jobs accounting reported as terminal, and its place in the plan. */
  datatype Call = Call(plan: seq<Key>, retry: bool, records: map<Key, Receipt>, ended: set<JobId>, index: nat, stage: Stage) {
    ghost predicate Active(key: Key) {
      key in records && records[key].Submitted? && records[key].job !in ended
    }

    /** The history a new receipt begins with: the earlier one and the job it recorded. */
    ghost function Earlier(key: Key): seq<JobId> {
      if key in records then records[key].Ids() else []
    }
  }

  datatype Submitter = NoCall | Running(call: Call)

  /** `orphans`: keys whose sbatch outlived the submitter that started it and has not reached the scheduler yet. */
  datatype State = State(receipts: map<Key, Receipt>, jobs: map<JobId, Job>, submitter: Submitter, orphans: set<Key>)

  datatype Step =
    | Begin(plan: seq<Key>, retry: bool, ended: set<JobId>)
    | Pass(done: bool)
    | Announce
    | Accept(job: JobId)
    | Record
    | Return
    | Crash(launched: bool)
    | LateAccept(key: Key, job: JobId)
    | Finish(job: JobId)

  ghost predicate Ended(s: State, job: JobId) {
    job in s.jobs && s.jobs[job].terminal
  }

  ghost predicate Midway(s: State, stage: Stage) {
    s.submitter.Running? && s.submitter.call.index < |s.submitter.call.plan| && s.submitter.call.stage == stage
  }

  /** A crash between the announcement and the reply may leave an sbatch behind that still submits.  A job that
      has ended stays so: the scheduler does not run it again.
      The lock admits one call; a receipt without a job id stops a call before it does anything. */
  ghost predicate Enabled(s: State, step: Step) {
    match step
    case Begin(plan, retry, ended) =>
      && s.submitter.NoCall? && Distinct(plan)
      && (forall i :: 0 <= i < |plan| && plan[i] in s.receipts ==> s.receipts[plan[i]].Submitted?)
      && (forall job :: job in ended ==> Ended(s, job))
    case Pass(done) =>
      Midway(s, Ready) && (var c := s.submitter.call; c.Active(c.plan[c.index]) || done || (c.plan[c.index] in c.records && !c.retry))
    case Announce =>
      Midway(s, Ready) && (var c := s.submitter.call; !c.Active(c.plan[c.index]) && (c.plan[c.index] in c.records ==> c.retry))
    case Accept(job) => Midway(s, Announced) && job !in s.jobs
    case Record => s.submitter.Running? && s.submitter.call.stage.Accepted? && Midway(s, s.submitter.call.stage)
    case Return => s.submitter.Running? && s.submitter.call.index == |s.submitter.call.plan|
    case Crash(launched) => s.submitter.Running? && (launched ==> Midway(s, Announced))
    case LateAccept(key, job) => key in s.orphans && job !in s.jobs
    case Finish(job) => job in s.jobs
  }

  ghost function Apply(s: State, step: Step): State
    requires Enabled(s, step)
  {
    match step
    case Begin(plan, retry, ended) =>
      s.(submitter := Running(Call(plan, retry, s.receipts, ended, 0, Ready)))
    case Pass(_) => s.(submitter := Running(s.submitter.call.(index := s.submitter.call.index + 1)))
    case Announce =>
      var c := s.submitter.call;
      var key := c.plan[c.index];
      s.(receipts := s.receipts[key := Submitting(c.Earlier(key))], submitter := Running(c.(stage := Announced)))
    case Accept(job) =>
      var c := s.submitter.call;
      s.(jobs := s.jobs[job := Job(c.plan[c.index], false)], submitter := Running(c.(stage := Accepted(job))))
    case Record =>
      var c := s.submitter.call;
      var key := c.plan[c.index];
      s.(receipts := s.receipts[key := Submitted(c.stage.job, c.Earlier(key))],
         submitter := Running(c.(index := c.index + 1, stage := Ready)))
    case Return => s.(submitter := NoCall)
    case Crash(launched) =>
      s.(submitter := NoCall,
         orphans := if launched then s.orphans + {s.submitter.call.plan[s.submitter.call.index]} else s.orphans)
    case LateAccept(key, job) => s.(jobs := s.jobs[job := Job(key, false)], orphans := s.orphans - {key})
    case Finish(job) => s.(jobs := s.jobs[job := s.jobs[job].(terminal := true)])
  }

  ghost predicate Init(s: State) {
    s.receipts == map[] && s.jobs == map[] && s.submitter.NoCall? && s.orphans == {}
  }

  ghost predicate Possible(s: State, steps: seq<Step>)
    decreases |steps|
  {
    steps == [] || (Enabled(s, steps[0]) && Possible(Apply(s, steps[0]), steps[1..]))
  }

  ghost function After(s: State, steps: seq<Step>): State
    requires Possible(s, steps)
    decreases |steps|
  {
    if steps == [] then s else After(Apply(s, steps[0]), steps[1..])
  }

  // ----- the invariant

  ghost predicate OfKey(s: State, job: JobId, key: Key) {
    job in s.jobs && s.jobs[job].key == key
  }

  ghost function IdsOf(s: State, key: Key): seq<JobId> {
    if key in s.receipts then s.receipts[key].Ids() else []
  }

  /** The job the scheduler holds for a key whose receipt does not name it, if any. */
  ghost predicate AtMostOneUnrecorded(s: State, key: Key) {
    forall i, j :: OfKey(s, i, key) && OfKey(s, j, key) && i !in IdsOf(s, key) && j !in IdsOf(s, key) ==> i == j
  }

  ghost predicate HistoryEnded(s: State, key: Key) {
    key in s.receipts ==> forall job :: job in s.receipts[key].history ==> Ended(s, job)
  }

  ghost predicate AllRecorded(s: State, key: Key) {
    forall job :: OfKey(s, job, key) ==> job in IdsOf(s, key)
  }

  /** A receipt that names a job names them all; an announced one may miss the last. */
  ghost predicate KeyOk(s: State, key: Key) {
    && AtMostOneUnrecorded(s, key) && HistoryEnded(s, key)
    && (!(key in s.receipts && s.receipts[key].Submitting?) ==> AllRecorded(s, key))
    && (key in s.receipts && s.receipts[key].Submitted? ==> OfKey(s, s.receipts[key].job, key))
    && (key in s.orphans ==> key in s.receipts && s.receipts[key].Submitting? && AllRecorded(s, key))
  }

  /** What a running call relies on: it read the receipts of the keys it has not handled yet. */
  ghost predicate CallOk(s: State, c: Call) {
    && Distinct(c.plan) && c.index <= |c.plan| && (forall job :: job in c.ended ==> Ended(s, job))
    && (forall i :: c.index <= i < |c.plan| && (i > c.index || c.stage.Ready?) ==> Unchanged(s, c, c.plan[i]))
    && (c.stage.Ready? || (c.index < |c.plan| && Underway(s, c, c.plan[c.index])))
  }

  ghost predicate Unchanged(s: State, c: Call, key: Key) {
    && (key in c.records <==> key in s.receipts)
    && (key in s.receipts ==> c.records[key] == s.receipts[key] && s.receipts[key].Submitted?)
  }

  /** The key being submitted: announced, with nothing unrecorded except the job just accepted. */
  ghost predicate Underway(s: State, c: Call, key: Key) {
    && key in s.receipts && s.receipts[key] == Submitting(c.Earlier(key)) && key !in s.orphans
    && (forall job :: OfKey(s, job, key) && job !in c.Earlier(key) ==> c.stage == Accepted(job))
    && (c.stage.Accepted? ==> OfKey(s, c.stage.job, key))
  }

  ghost predicate Inv(s: State) {
    && (forall key :: KeyOk(s, key))
    && (s.submitter.Running? ==> CallOk(s, s.submitter.call))
  }

  lemma InitHolds(s: State)
    requires Init(s)
    ensures Inv(s)
  {
  }

  /** Nothing changes for a key that the step does not touch. */
  lemma KeyKept(s: State, t: State, key: Key)
    requires KeyOk(s, key) && (key in s.receipts <==> key in t.receipts)
    requires key in s.receipts ==> t.receipts[key] == s.receipts[key]
    requires forall job :: OfKey(t, job, key) <==> OfKey(s, job, key)
    requires forall job :: Ended(s, job) ==> Ended(t, job)
    requires key in t.orphans ==> key in s.orphans
    ensures KeyOk(t, key)
  {
  }

  lemma AnnounceKeeps(s: State, key: Key)
    requires Inv(s) && Enabled(s, Announce)
    ensures KeyOk(Apply(s, Announce), key)
  {
    var t, c := Apply(s, Announce), s.submitter.call;
    assert KeyOk(s, key);
    if c.plan[c.index] == key {
      assert Unchanged(s, c, key);
      assert IdsOf(t, key) == IdsOf(s, key) == c.Earlier(key);
      forall job | job in c.Earlier(key) ensures Ended(t, job) {
        assert job in s.receipts[key].history || (job == s.receipts[key].job && job in c.ended);
      }
    } else {
      KeyKept(s, t, key);
    }
  }

  lemma AcceptKeeps(s: State, step: Step, key: Key)
    requires Inv(s) && Enabled(s, step) && step.Accept?
    ensures KeyOk(Apply(s, step), key)
  {
    var t, c := Apply(s, step), s.submitter.call;
    assert KeyOk(s, key);
    forall job ensures OfKey(t, job, key) <==> OfKey(s, job, key) || (job == step.job && c.plan[c.index] == key) {
    }
    if c.plan[c.index] == key {
      assert Underway(s, c, key);
    } else {
      KeyKept(s, t, key);
    }
  }

  lemma RecordKeeps(s: State, key: Key)
    requires Inv(s) && Enabled(s, Record)
    ensures KeyOk(Apply(s, Record), key)
  {
    var t, c := Apply(s, Record), s.submitter.call;
    assert KeyOk(s, key);
    if c.plan[c.index] == key {
      assert Underway(s, c, key);
      assert IdsOf(t, key) == c.Earlier(key) + [c.stage.job];
      forall job | OfKey(t, job, key) ensures job in IdsOf(t, key) {
        assert OfKey(s, job, key);
      }
    } else {
      KeyKept(s, t, key);
    }
  }

  lemma FinishKeeps(s: State, step: Step, key: Key)
    requires Inv(s) && Enabled(s, step) && step.Finish?
    ensures KeyOk(Apply(s, step), key)
  {
    assert KeyOk(s, key);
    KeyKept(s, Apply(s, step), key);
  }

  lemma CrashKeeps(s: State, step: Step, key: Key)
    requires Inv(s) && Enabled(s, step) && step.Crash?
    ensures KeyOk(Apply(s, step), key)
  {
    var t, c := Apply(s, step), s.submitter.call;
    assert KeyOk(s, key);
    if step.launched && c.plan[c.index] == key {
      assert Underway(s, c, key);
      assert IdsOf(t, key) == IdsOf(s, key) == c.Earlier(key);
      forall job | OfKey(t, job, key) ensures job in IdsOf(t, key) {
        assert OfKey(s, job, key);
      }
    } else {
      KeyKept(s, t, key);
    }
  }

  lemma LateAcceptKeeps(s: State, step: Step, key: Key)
    requires Inv(s) && Enabled(s, step) && step.LateAccept?
    ensures KeyOk(Apply(s, step), key)
  {
    var t := Apply(s, step);
    assert KeyOk(s, key);
    forall job ensures OfKey(t, job, key) <==> OfKey(s, job, key) || (job == step.job && step.key == key) {
    }
    if step.key != key {
      KeyKept(s, t, key);
    }
  }

  lemma StepKeepsKey(s: State, step: Step, key: Key)
    requires Inv(s) && Enabled(s, step)
    ensures KeyOk(Apply(s, step), key)
  {
    hide KeyOk;
    match step
    case Announce => AnnounceKeeps(s, key);
    case Accept(_) => AcceptKeeps(s, step, key);
    case Record => RecordKeeps(s, key);
    case Finish(_) => FinishKeeps(s, step, key);
    case Crash(_) => CrashKeeps(s, step, key);
    case LateAccept(_, _) => LateAcceptKeeps(s, step, key);
    case _ => OnlyTheCallMoves(s, step, key);
  }

  lemma OnlyTheCallMoves(s: State, step: Step, key: Key)
    requires Inv(s) && Enabled(s, step) && (step.Begin? || step.Pass? || step.Return?)
    ensures KeyOk(Apply(s, step), key)
  {
    assert KeyOk(s, key);
    KeyKept(s, Apply(s, step), key);
  }

  lemma UnderwayAfter(s: State, step: Step)
    requires Inv(s) && Enabled(s, step) && (step.Announce? || step.Accept?)
    ensures var c := Apply(s, step).submitter.call; Underway(Apply(s, step), c, c.plan[c.index])
  {
    var t, c := Apply(s, step), s.submitter.call;
    var key := c.plan[c.index];
    assert KeyOk(s, key);
    if step.Announce? {
      assert Unchanged(s, c, key);
      assert IdsOf(s, key) == c.Earlier(key);
      forall job | OfKey(t, job, key) ensures job in c.Earlier(key) {
        assert OfKey(s, job, key);
      }
    } else {
      assert Underway(s, c, key);
      assert OfKey(t, step.job, key);
    }
  }

  lemma StepKeepsCall(s: State, step: Step)
    requires Inv(s) && Enabled(s, step)
    ensures Apply(s, step).submitter.Running? ==> CallOk(Apply(s, step), Apply(s, step).submitter.call)
  {
    var t := Apply(s, step);
    if t.submitter.Running? {
      var c := t.submitter.call;
      forall job | job in c.ended ensures Ended(t, job) {
      }
      forall i | c.index <= i < |c.plan| && (i > c.index || c.stage.Ready?) ensures Unchanged(t, c, c.plan[i]) {
        if !step.Begin? {
          var b := s.submitter.call;
          assert Unchanged(s, b, b.plan[i]);
        }
      }
      if step.Announce? || step.Accept? {
        UnderwayAfter(s, step);
      } else if (step.Finish? || step.LateAccept?) && !c.stage.Ready? {
        StillUnderway(s, step, c);
      }
    }
  }

  lemma StillUnderway(s: State, step: Step, c: Call)
    requires Enabled(s, step) && (step.Finish? || step.LateAccept?) && c.index < |c.plan| && Underway(s, c, c.plan[c.index])
    ensures Underway(Apply(s, step), c, c.plan[c.index])
  {
  }

  lemma StepKeepsInv(s: State, step: Step)
    requires Inv(s) && Enabled(s, step)
    ensures Inv(Apply(s, step))
  {
    hide KeyOk, CallOk, Enabled, Apply;
    StepKeepsCall(s, step);
    forall key ensures KeyOk(Apply(s, step), key) {
      StepKeepsKey(s, step, key);
    }
  }

  lemma {:induction false} RunsKeepInv(s: State, steps: seq<Step>)
    requires Inv(s) && Possible(s, steps)
    ensures Inv(After(s, steps))
    decreases |steps|
  {
    hide Inv, Enabled, Apply;
    if steps != [] {
      StepKeepsInv(s, steps[0]);
      RunsKeepInv(Apply(s, steps[0]), steps[1..]);
    }
  }

  // ----- what every run keeps

  /** However calls, retries, crashes, late submissions and the scheduler interleave, no key has two jobs that have not ended. */
  lemma NoKeyHasTwoActiveJobs(s: State, steps: seq<Step>, i: JobId, j: JobId)
    requires Init(s) && Possible(s, steps)
    requires var t := After(s, steps); i in t.jobs && j in t.jobs && t.jobs[i].key == t.jobs[j].key
    requires var t := After(s, steps); !t.jobs[i].terminal && !t.jobs[j].terminal
    ensures i == j
  {
    InitHolds(s);
    RunsKeepInv(s, steps);
    var t := After(s, steps);
    var key := t.jobs[i].key;
    assert KeyOk(t, key);
    assert OfKey(t, i, key) && OfKey(t, j, key);
  }

  /** A receipt that names a job leaves no job of its key out; only an announced receipt can. */
  lemma RecordedReceiptNamesAllJobs(s: State, steps: seq<Step>, key: Key, job: JobId)
    requires Init(s) && Possible(s, steps)
    requires var t := After(s, steps); OfKey(t, job, key) && !(key in t.receipts && t.receipts[key].Submitting?)
    ensures job in IdsOf(After(s, steps), key)
  {
    InitHolds(s);
    RunsKeepInv(s, steps);
    assert KeyOk(After(s, steps), key);
  }

  lemma StepKeepsIds(s: State, step: Step, key: Key)
    requires Inv(s) && Enabled(s, step)
    ensures IdsOf(s, key) <= IdsOf(Apply(s, step), key)
  {
    if step.Announce? || step.Record? {
      var c := s.submitter.call;
      if c.plan[c.index] == key {
        assert step.Announce? ==> Unchanged(s, c, key);
        assert step.Record? ==> Underway(s, c, key);
      }
    }
  }

  /** Job ids once recorded for a key stay in its receipt or its history, in the same order. */
  lemma {:induction false} IdsAreNeverForgotten(s: State, steps: seq<Step>, key: Key)
    requires Inv(s) && Possible(s, steps)
    ensures IdsOf(s, key) <= IdsOf(After(s, steps), key)
    decreases |steps|
  {
    hide Inv, Enabled, Apply, IdsOf;
    if steps != [] {
      StepKeepsInv(s, steps[0]);
      StepKeepsIds(s, steps[0], key);
      IdsAreNeverForgotten(Apply(s, steps[0]), steps[1..], key);
    }
  }

  /** After a crash that left an announced receipt, no call that covers the key can begin. */
  lemma AmbiguityStopsSubmission(s: State, key: Key, plan: seq<Key>, retry: bool, ended: set<JobId>)
    requires key in s.receipts && s.receipts[key].Submitting? && key in plan
    ensures !Enabled(s, Begin(plan, retry, ended))
  {
    var i :| 0 <= i < |plan| && plan[i] == key;
  }
}
