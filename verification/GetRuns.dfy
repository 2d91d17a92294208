/** The guarantees of the GET transports, over every run of any number of products. */
module GetRuns {
  import opened Ranks
  import opened Buffers
  import opened Get
  import opened GetSafety

  lemma Reached(u: Setup, s: State, steps: seq<Step>)
    requires Planned(u.cfg, u.lengths) && Init(u, s) && Possible(u, s, steps)
    ensures Inv(u, After(u, s, steps))
  {
    InitHolds(u, s);
    RunsKeepInv(u, s, steps);
  }

  /** After fetch of a stage the workspace holds exactly the planned owners' tiles of the current
      product; with the pipeline it still does while the next stage is being fetched. */
  lemma WorkspaceIsExact(u: Setup, s: State, steps: seq<Step>, r: Rank, a: Array)
    requires Planned(u.cfg, u.lengths) && Init(u, s) && Possible(u, s, steps) && InGrid(u.cfg, r)
    requires InUse(u, After(u, s, steps)(r))
    ensures var t := After(u, s, steps);
            var x := t(r);
            var o := t(Source(u.cfg, r, a.forA, x.stage - 1));
            0 < |x.history| <= |o.history| && x.store(x.workspaceAt)(a) == o.history[|x.history| - 1](a)
  {
    Reached(u, s, steps);
    assert ArrayOk(u, After(u, s, steps), r, a);
  }

  /** In two runs o exposed the same array for product g. */
  ghost predicate SameInput(s: State, t: State, o: Rank, g: int, a: Array) {
    0 <= g < |s(o).history| && g < |t(o).history| ==> s(o).history[g](a) == t(o).history[g](a)
  }

  /** Stage by stage the pipelined transport leaves the same arrays as the simple one, provided only that
      the stage's owner exposed the same input for the product at hand. */
  lemma PipelineAgreesWithSimple(u: Setup, v: Setup, s: State, steps: seq<Step>, s': State, steps': seq<Step>, r: Rank, a: Array)
    requires v == u.(pipelined := true) && !u.pipelined && Planned(u.cfg, u.lengths) && InGrid(u.cfg, r)
    requires Init(u, s) && Possible(u, s, steps) && Init(v, s') && Possible(v, s', steps')
    requires var x, y := After(u, s, steps)(r), After(v, s', steps')(r);
             && InUse(u, x) && InUse(v, y) && |x.history| == |y.history| && x.stage == y.stage
             && SameInput(After(u, s, steps), After(v, s', steps'), Source(u.cfg, r, a.forA, x.stage - 1), |x.history| - 1, a)
    ensures var x, y := After(u, s, steps)(r), After(v, s', steps')(r);
            x.store(x.workspaceAt)(a) == y.store(y.workspaceAt)(a)
  {
    hide Possible, After, Init;
    WorkspaceIsExact(u, s, steps, r, a);
    WorkspaceIsExact(v, s', steps', r, a);
  }

  /** Reads under way never go to the storage the caller may be using. */
  lemma PendingAvoidsWorkspace(u: Setup, s: State, steps: seq<Step>, r: Rank)
    requires Planned(u.cfg, u.lengths) && Init(u, s) && Possible(u, s, steps) && InGrid(u.cfg, r)
    ensures var x := After(u, s, steps)(r);
            x.inFlight != {} && (x.phase != Fetching || u.pipelined) ==> x.dest != x.workspaceAt
  {
    Reached(u, s, steps);
    assert RankOk(u, r, After(u, s, steps)(r));
  }

  /** The lifecycle errors cannot happen: a fetch is never started over a pending one, never
      completed without one, and no product finishes with one.  So at most one pair is outstanding. */
  lemma LifecycleErrorsUnreachable(u: Setup, s: State, steps: seq<Step>, step: Step)
    requires Planned(u.cfg, u.lengths) && Init(u, s) && Possible(u, s, steps) && Enabled(u, After(u, s, steps), step)
    ensures var x := After(u, s, steps)(step.r);
            && (step.Begin? || step.LeaveReady? ==> !x.active && !x.pending)
            && (step.Fetch? ==> x.active && (x.pending <==> u.pipelined))
            && (step.Complete? ==> x.active && x.pending)
            && (step.Finish? ==> x.active && !x.pending)
  {
    Reached(u, s, steps);
    assert RankOk(u, step.r, After(u, s, steps)(step.r));
  }

  /** While inputs of o may change, no rank that could read them is inside a product: it has no
      read of them pending and none to come. */
  lemma InputsChangeUnread(u: Setup, s: State, steps: seq<Step>, o: Rank, r: Rank, forA: bool, stage: nat)
    requires Planned(u.cfg, u.lengths) && Init(u, s) && Possible(u, s, steps) && InGrid(u.cfg, o) && InGrid(u.cfg, r)
    requires After(u, s, steps)(o).phase == Idle && r != o && Source(u.cfg, r, forA, stage) == o
    ensures var x := After(u, s, steps)(r);
            x.phase != Ready && x.phase != Fetching && x.inFlight == {}
  {
    Reached(u, s, steps);
    var t := After(u, s, steps);
    assert RankOk(u, r, t(r));
    SourceShape(u, r, forA, stage);
    if t(r).phase == Ready || t(r).phase == Fetching {
      SourceIsInside(u, t, r, o);
    }
  }

  // ----- progress

  ghost function PlaceOf(x: Local): Place {
    Place(x.entered, 0, 0)
  }

  ghost predicate Unfinished(u: Setup, x: Local) {
    x.phase != Idle || |x.history| < u.cfg.products
  }

  /** A rank's own next step, unless it waits at a barrier for others or has finished. */
  lemma OwnStep(u: Setup, s: State, c: Rank) returns (step: Step)
    requires Inv(u, s) && InGrid(u.cfg, c) && Unfinished(u, s(c)) && Fit(u.lengths, c, s(c).inputs)
    requires s(c).phase == AtReady || s(c).phase == AtDone ==> BarrierOpen(u.cfg, Entered(s), c)
    ensures Enabled(u, s, step) && !step.ChangeInputs?
  {
    var x := s(c);
    assert RankOk(u, c, x);
    match x.phase
    case Idle => step := Begin(c);
    case AtReady => step := LeaveReady(c);
    case Ready => step := if x.stage < u.cfg.side then Fetch(c) else Finish(c);
    case Fetching =>
      if x.inFlight == {} {
        step := Complete(c);
      } else {
        var a :| a in x.inFlight;
        step := Land(c, a);
      }
    case AtDone => step := LeaveDone(c);
  }

  /** GET never deadlocks, as long as the caller keeps the planned shapes: while any rank has a
      product to finish, some step other than a change of inputs is possible. */
  lemma Progress(u: Setup, s: State, steps: seq<Step>, unfinished: Rank) returns (step: Step)
    requires Planned(u.cfg, u.lengths) && Init(u, s) && Possible(u, s, steps) && InGrid(u.cfg, unfinished)
    requires var t := After(u, s, steps);
             Unfinished(u, t(unfinished)) && forall r :: InGrid(u.cfg, r) ==> Fit(u.lengths, r, t(r).inputs)
    ensures Enabled(u, After(u, s, steps), step) && !step.ChangeInputs?
  {
    Reached(u, s, steps);
    var t := After(u, s, steps);
    var c := Laggard(u.cfg, r => PlaceOf(t(r)), unfinished);
    assert RankOk(u, c, t(c)) && RankOk(u, unfinished, t(unfinished));
    if Unfinished(u, t(c)) {
      step := OwnStep(u, t, c);
    } else {
      forall y: Rank | InGrid(u.cfg, y) ensures u.cfg.side > 1 ==> t(y).entered == 2 * u.cfg.products {
        assert RankOk(u, y, t(y)) && NotAhead(PlaceOf(t(c)), PlaceOf(t(y)));
      }
      step := OwnStep(u, t, unfinished);
    }
  }
}
