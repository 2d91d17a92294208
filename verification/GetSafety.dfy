/** What every interleaving of the GET transports keeps. */
module GetSafety {
  import opened Grid
  import opened Ranks
  import opened Buffers
  import opened Get

  ghost predicate PhaseOk(u: Setup, x: Local) {
    && |x.history| <= u.cfg.products && x.stage <= u.cfg.side
    && (x.history == [] ==> x.stage == 0)
    && match x.phase
       case Idle => !x.active && !x.pending && (x.history == [] || x.stage == u.cfg.side)
       case AtReady => !x.active && !x.pending && x.history != [] && x.stage == 0 && u.cfg.side > 1
       case Ready => x.active && x.history != [] && (x.pending <==> u.pipelined && x.stage < u.cfg.side)
       case Fetching => x.active && x.history != [] && x.pending && x.stage < u.cfg.side
       case AtDone => x.active && x.history != [] && !x.pending && x.stage == u.cfg.side && u.cfg.side > 1
  }

  /** Barriers fence products: an idle rank has left two for each of its products. */
  ghost predicate BarriersOk(u: Setup, x: Local) {
    u.cfg.side > 1 ==>
      && x.entered == 2 * |x.history| - (if x.phase == Idle || x.phase == AtDone then 0 else 1)
      && x.left == 2 * |x.history| - (if x.phase == Idle then 0 else if x.phase == AtReady then 2 else 1)
  }

  ghost predicate DataOk(u: Setup, r: Rank, x: Local) {
    && (forall g :: 0 <= g < |x.history| ==> Fit(u.lengths, r, x.history[g]))
    && (x.phase != Idle ==> x.history != [] && x.inputs == x.history[|x.history| - 1])
  }

  /** A pending read goes to the storage nobody uses, and comes from the planned sources. */
  ghost predicate PendingOk(u: Setup, r: Rank, x: Local)
    requires InGrid(u.cfg, r)
  {
    && (!x.pending ==> x.inFlight == {})
    && (x.pending ==>
          && x.dest == (if u.pipelined then !x.workspaceAt else x.workspaceAt)
          && x.aSource == Source(u.cfg, r, true, x.stage) && x.bSource == Source(u.cfg, r, false, x.stage)
          && forall a :: a in x.inFlight ==> Source(u.cfg, r, a.forA, x.stage) != r)
  }

  ghost predicate RankOk(u: Setup, r: Rank, x: Local)
    requires InGrid(u.cfg, r)
  {
    PhaseOk(u, x) && BarriersOk(u, x) && DataOk(u, r, x) && PendingOk(u, r, x)
  }

  ghost predicate IsOwned(data: seq<int>, o: Local, product: nat, a: Array) {
    0 < product <= |o.history| && data == o.history[product - 1](a)
  }

  /** The pair being read: sized for its stage, and the owner's wherever no read is under way. */
  ghost predicate IncomingOk(u: Setup, x: Local, source: Rank, o: Local, a: Array) {
    && |x.store(x.dest)(a)| == u.lengths(source, a)
    && (a !in x.inFlight ==> IsOwned(x.store(x.dest)(a), o, |x.history|, a))
  }

  ghost predicate InUse(u: Setup, x: Local) {
    x.stage > 0 && (x.phase == Fetching ==> u.pipelined)
  }

  ghost predicate ArrayOk(u: Setup, s: State, r: Rank, a: Array)
    requires InGrid(u.cfg, r)
  {
    var x := s(r);
    && (x.pending ==>
          var source := Source(u.cfg, r, a.forA, x.stage);
          IncomingOk(u, x, source, s(source), a))
    && (InUse(u, x) ==>
          IsOwned(x.store(x.workspaceAt)(a), s(Source(u.cfg, r, a.forA, x.stage - 1)), |x.history|, a))
  }

  ghost predicate BarriersHold(u: Setup, s: State) {
    forall x: Rank, y: Rank :: InGrid(u.cfg, x) && InGrid(u.cfg, y) ==> s(x).entered >= s(y).left
  }

  ghost predicate Inv(u: Setup, s: State) {
    && (forall r :: InGrid(u.cfg, r) ==> RankOk(u, r, s(r)))
    && BarriersHold(u, s)
    && (forall r, a :: InGrid(u.cfg, r) ==> ArrayOk(u, s, r, a))
  }

  lemma RankOf(u: Setup, s: State, r: Rank)
    requires Inv(u, s) && InGrid(u.cfg, r)
    ensures RankOk(u, r, s(r)) && forall a :: ArrayOk(u, s, r, a)
  {
    hide RankOk, ArrayOk, BarriersHold;
  }

  // ----- what the barriers separate

  lemma SeveralRanks(cfg: Config, r: Rank, o: Rank)
    requires InGrid(cfg, r) && InGrid(cfg, o) && r != o && r.k == o.k
    ensures cfg.side > 1
  {
  }

  /** A rank inside a product finds every source it may read inside the same product. */
  lemma SourceIsInside(u: Setup, s: State, r: Rank, o: Rank)
    requires Inv(u, s) && InGrid(u.cfg, r) && InGrid(u.cfg, o) && r != o && r.k == o.k
    requires s(r).phase == Ready || s(r).phase == Fetching
    ensures |s(o).history| == |s(r).history| && s(o).phase != Idle
    ensures s(o).inputs == s(o).history[|s(r).history| - 1]
  {
    SeveralRanks(u.cfg, r, o);
    assert RankOk(u, r, s(r)) && RankOk(u, o, s(o));
    assert s(o).entered >= s(r).left && s(r).entered >= s(o).left;
  }

  // ----- starting a fetch

  /** Every source has begun product n. */
  ghost predicate SourcesBegun(u: Setup, s: State, r: Rank, n: nat)
    requires InGrid(u.cfg, r)
  {
    forall o: Rank :: InGrid(u.cfg, o) && o.k == r.k && o != r ==>
      0 < n <= |s(o).history| && Fit(u.lengths, o, s(o).history[n - 1])
  }

  lemma SourceShape(u: Setup, r: Rank, forA: bool, stage: nat)
    requires InGrid(u.cfg, r)
    ensures InGrid(u.cfg, Source(u.cfg, r, forA, stage)) && Source(u.cfg, r, forA, stage).k == r.k
  {
    TargetInvertsSource(u.cfg, r, r, forA, stage);
  }

  /** What startFetch leaves: own and empty arrays are complete, the others are requested. */
  lemma StartedArrayOk(u: Setup, s: State, r: Rank, x: Local, stage: nat, a: Array)
    requires Planned(u.cfg, u.lengths) && InGrid(u.cfg, r) && DataOk(u, r, x) && x.phase != Idle
    requires |x.history| > 0 && SourcesBegun(u, s, r, |x.history|)
    ensures var y := Started(u, r, x, stage);
            var source := Source(u.cfg, r, a.forA, stage);
            IncomingOk(u, y, source, if source == r then y else s(source), a)
  {
    EveryArray(a);
    SourceShape(u, r, a.forA, stage);
    var y, source := Started(u, r, x, stage), Source(u.cfg, r, a.forA, stage);
    assert a in y.inFlight <==> Requested(u, r, stage, a);
    assert Fit(u.lengths, r, x.history[|x.history| - 1]);
    if source != r {
      var owned := s(source).history[|x.history| - 1];
      assert |owned(a)| == u.lengths(source, a);
      NotRequestedIsEmpty(u, r, stage, a);
    }
  }

  lemma NotRequestedIsEmpty(u: Setup, r: Rank, stage: nat, a: Array)
    requires Planned(u.cfg, u.lengths) && InGrid(u.cfg, r) && Source(u.cfg, r, a.forA, stage) != r
    ensures !Requested(u, r, stage, a) ==> u.lengths(Source(u.cfg, r, a.forA, stage), a) == 0
  {
    SourceShape(u, r, a.forA, stage);
    var o := Source(u.cfg, r, a.forA, stage);
    assert u.lengths(o, Array(a.forA, Columns)) == u.lengths(o, Array(a.forA, Values));
    assert a == Array(a.forA, a.part);
  }

  lemma StartedPending(u: Setup, r: Rank, x: Local, stage: nat)
    requires InGrid(u.cfg, r) && x.stage == stage
    ensures PendingOk(u, r, Started(u, r, x, stage))
  {
  }

  // ----- the stepping rank

  lemma BeginRank(u: Setup, r: Rank, x: Local)
    requires InGrid(u.cfg, r) && RankOk(u, r, x) && x.phase == Idle && |x.history| < u.cfg.products && Fit(u.lengths, r, x.inputs)
    ensures RankOk(u, r, BeginLocal(u, r, x))
  {
    StartedPending(u, r, x.(stage := 0, history := x.history + [x.inputs], phase := Ready, active := true), 0);
  }

  lemma LeaveReadyRank(u: Setup, r: Rank, x: Local)
    requires InGrid(u.cfg, r) && RankOk(u, r, x) && x.phase == AtReady
    ensures RankOk(u, r, Opened(u, r, x.(left := x.left + 1)))
  {
    StartedPending(u, r, x.(left := x.left + 1, phase := Ready, active := true), 0);
  }

  lemma FetchRank(u: Setup, r: Rank, x: Local)
    requires InGrid(u.cfg, r) && RankOk(u, r, x) && x.phase == Ready && x.stage < u.cfg.side
    ensures RankOk(u, r, (if u.pipelined then x else Started(u, r, x, x.stage)).(phase := Fetching))
  {
    StartedPending(u, r, x, x.stage);
  }

  lemma CompleteRank(u: Setup, r: Rank, x: Local)
    requires InGrid(u.cfg, r) && RankOk(u, r, x) && x.phase == Fetching && x.inFlight == {}
    ensures RankOk(u, r, Completed(u, r, x))
  {
    StartedPending(u, r, x.(phase := Ready, pending := false, stage := x.stage + 1, workspaceAt := !x.workspaceAt), x.stage + 1);
  }

  lemma StepKeepsRank(u: Setup, s: State, step: Step)
    requires Inv(u, s) && Enabled(u, s, step)
    ensures RankOk(u, step.r, NextLocal(u, s, step))
  {
    var r, x := step.r, s(step.r);
    assert RankOk(u, r, x);
    match step
    case ChangeInputs(_, _) =>
    case Begin(_) => BeginRank(u, r, x);
    case LeaveReady(_) => LeaveReadyRank(u, r, x);
    case Fetch(_) => FetchRank(u, r, x);
    case Land(_, _) =>
    case Complete(_) => CompleteRank(u, r, x);
    case Finish(_) =>
    case LeaveDone(_) =>
  }

  /** A step enters barriers freely but leaves one only when it is open. */
  lemma BarrierStep(u: Setup, s: State, step: Step)
    requires Enabled(u, s, step) && RankOk(u, step.r, s(step.r))
    ensures NextLocal(u, s, step).entered >= s(step.r).entered
    ensures NextLocal(u, s, step).left == s(step.r).left ||
            (BarrierOpen(u.cfg, Entered(s), step.r) && NextLocal(u, s, step).left == s(step.r).entered) || u.cfg.side == 1
    ensures u.cfg.side == 1 ==> NextLocal(u, s, step).left == s(step.r).left
  {
  }

  lemma StepKeepsBarriers(u: Setup, s: State, step: Step, x: Rank, y: Rank)
    requires Inv(u, s) && Enabled(u, s, step) && InGrid(u.cfg, x) && InGrid(u.cfg, y)
    ensures Apply(u, s, step)(x).entered >= Apply(u, s, step)(y).left
  {
    hide RankOk, ArrayOk;
    assert s(x).entered >= s(y).left && s(x).entered >= s(step.r).left;
    RankOf(u, s, step.r);
    BarrierStep(u, s, step);
  }

  /** Histories only grow. */
  lemma HistoryGrows(u: Setup, s: State, step: Step)
    requires Enabled(u, s, step)
    ensures s(step.r).history <= NextLocal(u, s, step).history
  {
  }

  // ----- the arrays

  /** Once the readiness barrier opens, every rank has begun the product. */
  lemma AllBegun(u: Setup, s: State, r: Rank)
    requires Inv(u, s) && InGrid(u.cfg, r) && s(r).phase == AtReady && BarrierOpen(u.cfg, Entered(s), r)
    ensures |s(r).history| > 0 && SourcesBegun(u, s, r, |s(r).history|)
  {
    assert RankOk(u, r, s(r));
    forall o: Rank | InGrid(u.cfg, o) && o.k == r.k && o != r
      ensures |s(r).history| <= |s(o).history| && Fit(u.lengths, o, s(o).history[|s(r).history| - 1])
    {
      SeveralRanks(u.cfg, r, o);
      assert RankOk(u, o, s(o)) && s(o).entered >= s(r).entered;
    }
  }

  lemma AllInside(u: Setup, s: State, r: Rank)
    requires Inv(u, s) && InGrid(u.cfg, r) && (s(r).phase == Ready || s(r).phase == Fetching)
    ensures |s(r).history| > 0 && SourcesBegun(u, s, r, |s(r).history|)
  {
    assert RankOk(u, r, s(r));
    forall o: Rank | InGrid(u.cfg, o) && o.k == r.k && o != r
      ensures |s(r).history| <= |s(o).history| && Fit(u.lengths, o, s(o).history[|s(r).history| - 1])
    {
      SourceIsInside(u, s, r, o);
      assert RankOk(u, o, s(o));
    }
  }

  lemma NoSourcesAlone(u: Setup, s: State, r: Rank, n: nat)
    requires InGrid(u.cfg, r) && u.cfg.side == 1
    ensures SourcesBegun(u, s, r, n)
  {
  }

  /** Steps that start a fetch. */
  lemma StartKeeps(u: Setup, s: State, step: Step, a: Array, x: Local, stage: nat)
    requires Planned(u.cfg, u.lengths) && Inv(u, s) && Enabled(u, s, step)
    requires DataOk(u, step.r, x) && x.phase != Idle && |x.history| > 0 && SourcesBegun(u, s, step.r, |x.history|)
    requires NextLocal(u, s, step).(phase := x.phase) == Started(u, step.r, x, stage) && NextLocal(u, s, step).stage == stage
    ensures var t := Apply(u, s, step);
            var source := Source(u.cfg, step.r, a.forA, stage);
            IncomingOk(u, t(step.r), source, t(source), a)
  {
    StartedArrayOk(u, s, step.r, x, stage, a);
  }

  lemma BeginKeeps(u: Setup, s: State, step: Step, a: Array)
    requires Planned(u.cfg, u.lengths) && Inv(u, s) && Enabled(u, s, step) && step.Begin?
    ensures ArrayOk(u, Apply(u, s, step), step.r, a)
  {
    var x := s(step.r);
    assert RankOk(u, step.r, x);
    if u.cfg.side == 1 && u.pipelined {
      var y := x.(stage := 0, history := x.history + [x.inputs], phase := Ready, active := true);
      NoSourcesAlone(u, s, step.r, |y.history|);
      StartKeeps(u, s, step, a, y, 0);
    }
  }

  lemma LeaveReadyKeeps(u: Setup, s: State, step: Step, a: Array)
    requires Planned(u.cfg, u.lengths) && Inv(u, s) && Enabled(u, s, step) && step.LeaveReady?
    ensures ArrayOk(u, Apply(u, s, step), step.r, a)
  {
    var x := s(step.r);
    assert RankOk(u, step.r, x);
    if u.pipelined {
      AllBegun(u, s, step.r);
      StartKeeps(u, s, step, a, x.(left := x.left + 1, phase := Ready, active := true), 0);
    }
  }

  lemma FetchKeeps(u: Setup, s: State, step: Step, a: Array)
    requires Planned(u.cfg, u.lengths) && Inv(u, s) && Enabled(u, s, step) && step.Fetch?
    ensures ArrayOk(u, Apply(u, s, step), step.r, a)
  {
    hide Planned, InGrid, BarriersHold, PhaseOk;
    var x := s(step.r);
    assert RankOk(u, step.r, x) && ArrayOk(u, s, step.r, a);
    if !u.pipelined {
      AllInside(u, s, step.r);
      StartKeeps(u, s, step, a, x, x.stage);
    }
  }

  /** The stepping rank's arrays in terms of its next local state. */
  lemma ReadAfter(u: Setup, s: State, step: Step, a: Array, y: Local, incoming: Rank, used: Rank)
    requires Enabled(u, s, step) && y == NextLocal(u, s, step)
    requires incoming == Source(u.cfg, step.r, a.forA, y.stage)
    requires y.stage > 0 ==> used == Source(u.cfg, step.r, a.forA, y.stage - 1)
    requires y.pending ==> IncomingOk(u, y, incoming, if incoming == step.r then y else s(incoming), a)
    requires InUse(u, y) ==> IsOwned(y.store(y.workspaceAt)(a), if used == step.r then y else s(used), |y.history|, a)
    ensures ArrayOk(u, Apply(u, s, step), step.r, a)
  {
  }

  /** A completed pair becomes the workspace, and what is requested next goes elsewhere. */
  lemma CompletedUse(u: Setup, r: Rank, x: Local, source: Rank, o: Local, a: Array)
    requires InGrid(u.cfg, r) && x.inFlight == {} && IncomingOk(u, x, source, o, a)
    requires (x.dest == if u.pipelined then !x.workspaceAt else x.workspaceAt) && (source == r ==> o == x)
    ensures var y := Completed(u, r, x);
            && IsOwned(y.store(y.workspaceAt)(a), if source == r then y else o, |y.history|, a)
            && y.stage == x.stage + 1 && (y.pending ==> u.pipelined && y.stage < u.cfg.side)
  {
  }

  /** The pair requested next, if any. */
  lemma CompletedIncoming(u: Setup, s: State, r: Rank, a: Array)
    requires Planned(u.cfg, u.lengths) && Inv(u, s) && InGrid(u.cfg, r)
    requires s(r).phase == Fetching && s(r).inFlight == {} && u.pipelined && s(r).stage + 1 < u.cfg.side
    ensures var y := Completed(u, r, s(r));
            var next := Source(u.cfg, r, a.forA, y.stage);
            IncomingOk(u, y, next, if next == r then y else s(next), a)
  {
    hide Planned, InGrid, Source, IncomingOk, PhaseOk, PendingOk;
    var x := s(r);
    assert RankOk(u, r, x);
    AllInside(u, s, r);
    StartedArrayOk(u, s, r, x.(phase := Ready, pending := false, stage := x.stage + 1, workspaceAt := !x.workspaceAt),
                   x.stage + 1, a);
  }

  lemma CompleteKeeps(u: Setup, s: State, step: Step, a: Array)
    requires Planned(u.cfg, u.lengths) && Inv(u, s) && Enabled(u, s, step) && step.Complete?
    ensures ArrayOk(u, Apply(u, s, step), step.r, a)
  {
    var r, x := step.r, s(step.r);
    assert RankOk(u, r, x) && ArrayOk(u, s, r, a);
    var source, next := Source(u.cfg, r, a.forA, x.stage), Source(u.cfg, r, a.forA, x.stage + 1);
    CompletedUse(u, r, x, source, s(source), a);
    if Completed(u, r, x).pending {
      CompletedIncoming(u, s, r, a);
    }
    ReadAfter(u, s, step, a, Completed(u, r, x), next, source);
  }

  /** A landed array is the source's, the others stay. */
  lemma LandedOk(u: Setup, x: Local, source: Rank, o: Local, b: Array, data: seq<int>, a: Array)
    requires IncomingOk(u, x, source, o, a)
    requires a == b ==> |data| == u.lengths(source, a) && IsOwned(data, o, |x.history|, a)
    ensures IncomingOk(u, LandLocal(x, b, data), source, o, a)
    ensures x.dest != x.workspaceAt ==> LandLocal(x, b, data).store(x.workspaceAt)(a) == x.store(x.workspaceAt)(a)
  {
  }

  /** A landing read delivers the source's array of the current product. */
  lemma LandKeeps(u: Setup, s: State, step: Step, a: Array)
    requires Inv(u, s) && Enabled(u, s, step) && step.Land?
    ensures ArrayOk(u, Apply(u, s, step), step.r, a)
  {
    hide Inv, Apply, BarriersOk;
    var r, x, b := step.r, s(step.r), step.buffer;
    RankOf(u, s, r);
    assert ArrayOk(u, s, r, a);
    var source, owner := Source(u.cfg, r, a.forA, x.stage), if b.forA then x.aSource else x.bSource;
    SourceShape(u, r, b.forA, x.stage);
    SourceIsInside(u, s, r, owner);
    RankOf(u, s, owner);
    LandedOk(u, x, source, s(source), b, s(owner).inputs(b), a);
    ReadAfter(u, s, step, a, LandLocal(x, b, s(owner).inputs(b)), source,
              Source(u.cfg, r, a.forA, if x.stage > 0 then x.stage - 1 else 0));
  }

  lemma RestKeeps(u: Setup, s: State, step: Step, a: Array)
    requires Inv(u, s) && Enabled(u, s, step) && (step.ChangeInputs? || step.Finish? || step.LeaveDone?)
    ensures ArrayOk(u, Apply(u, s, step), step.r, a)
  {
    hide RankOk, BarriersHold, Source;
    assert RankOk(u, step.r, s(step.r)) && ArrayOk(u, s, step.r, a);
  }

  lemma OwnedGrows(data: seq<int>, o: Local, o': Local, product: nat, a: Array)
    requires o.history <= o'.history
    ensures IsOwned(data, o, product, a) ==> IsOwned(data, o', product, a)
  {
  }

  lemma OthersKeep(u: Setup, s: State, step: Step, r: Rank, a: Array)
    requires Inv(u, s) && Enabled(u, s, step) && InGrid(u.cfg, r) && r != step.r
    ensures ArrayOk(u, Apply(u, s, step), r, a)
  {
    hide Enabled, NextLocal, Inner;
    var x, t := s(r), Apply(u, s, step);
    assert ArrayOk(u, s, r, a) && t(r) == x;
    HistoryGrows(u, s, step);
    forall o: Rank ensures s(o).history <= t(o).history {
    }
    if x.pending {
      OwnedGrows(x.store(x.dest)(a), s(Source(u.cfg, r, a.forA, x.stage)), t(Source(u.cfg, r, a.forA, x.stage)), |x.history|, a);
    }
    if InUse(u, x) {
      var source := Source(u.cfg, r, a.forA, x.stage - 1);
      OwnedGrows(x.store(x.workspaceAt)(a), s(source), t(source), |x.history|, a);
    }
  }

  lemma StepKeepsInv(u: Setup, s: State, step: Step)
    requires Planned(u.cfg, u.lengths) && Inv(u, s) && Enabled(u, s, step)
    ensures Inv(u, Apply(u, s, step))
  {
    var t := Apply(u, s, step);
    StepKeepsRank(u, s, step);
    forall r | InGrid(u.cfg, r) ensures RankOk(u, r, t(r)) {
      assert RankOk(u, r, s(r));
    }
    forall x, y | InGrid(u.cfg, x) && InGrid(u.cfg, y) ensures t(x).entered >= t(y).left {
      StepKeepsBarriers(u, s, step, x, y);
    }
    forall r, a | InGrid(u.cfg, r) ensures ArrayOk(u, t, r, a) {
      StepKeepsArray(u, s, step, r, a);
    }
  }

  lemma StepKeepsArray(u: Setup, s: State, step: Step, r: Rank, a: Array)
    requires Planned(u.cfg, u.lengths) && Inv(u, s) && Enabled(u, s, step) && InGrid(u.cfg, r)
    ensures ArrayOk(u, Apply(u, s, step), r, a)
  {
    if r != step.r {
      OthersKeep(u, s, step, r, a);
    } else {
      match step
      case Begin(_) => BeginKeeps(u, s, step, a);
      case LeaveReady(_) => LeaveReadyKeeps(u, s, step, a);
      case Fetch(_) => FetchKeeps(u, s, step, a);
      case Land(_, _) => LandKeeps(u, s, step, a);
      case Complete(_) => CompleteKeeps(u, s, step, a);
      case _ => RestKeeps(u, s, step, a);
    }
  }

  lemma InitHolds(u: Setup, s: State)
    requires Init(u, s)
    ensures Inv(u, s)
  {
  }

  lemma {:induction false} RunsKeepInv(u: Setup, s: State, steps: seq<Step>)
    requires Planned(u.cfg, u.lengths) && Inv(u, s) && Possible(u, s, steps)
    ensures Inv(u, After(u, s, steps))
    decreases |steps|
  {
    if steps != [] {
      StepKeepsInv(u, s, steps[0]);
      RunsKeepInv(u, Apply(u, s, steps[0]), steps[1..]);
    }
  }
}
