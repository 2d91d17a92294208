/** The guarantees of the PUT transport, over every run of any number of products. */
module PutRuns {
  import opened Ranks
  import opened Buffers
  import opened Put
  import opened PutSafety

  lemma Reached(cfg: Config, lengths: Lengths, s: State, steps: seq<Step>)
    requires Planned(cfg, lengths) && Init(cfg, s) && Possible(cfg, lengths, s, steps)
    ensures Inv(cfg, lengths, After(cfg, lengths, s, steps))
  {
    InitHolds(cfg, lengths, s);
    RunsKeepInv(cfg, lengths, s, steps);
  }

  /** From the return of fetch until the next readiness barrier no put can reach a rank's workspace. */
  lemma WorkspaceIsExclusive(cfg: Config, lengths: Lengths, s: State, steps: seq<Step>, r: Rank, w: Rank, a: Array)
    requires Planned(cfg, lengths) && Init(cfg, s) && Possible(cfg, lengths, s, steps) && InGrid(cfg, r) && InGrid(cfg, w)
    requires After(cfg, lengths, s, steps)(r).phase in {Outside, Prepared}
    ensures a !in After(cfg, lengths, s, steps)(w).inFlight
  {
    Reached(cfg, lengths, s, steps);
    var t := After(cfg, lengths, s, steps);
    assert RankOk(cfg, lengths, w, t(w));
    if t(w).phase == Flushing {
      FlightsAreInside(cfg, lengths, t, w, r);
    }
  }

  /** Between stages the workspace holds exactly the planned owners' tiles of the current product. */
  lemma WorkspaceIsExact(cfg: Config, lengths: Lengths, s: State, steps: seq<Step>, r: Rank, a: Array)
    requires Planned(cfg, lengths) && Init(cfg, s) && Possible(cfg, lengths, s, steps) && InGrid(cfg, r)
    requires var x := After(cfg, lengths, s, steps)(r); x.phase == Outside && x.stage > 0
    ensures var t := After(cfg, lengths, s, steps);
            var o := t(Source(cfg, r, a.forA, t(r).stage - 1));
            && 0 < |t(r).history| <= |o.history|
            && t(r).workspace(a) == o.history[|t(r).history| - 1](a)
  {
    Reached(cfg, lengths, s, steps);
    assert ArrayOk(cfg, lengths, After(cfg, lengths, s, steps), r, a);
  }

  /** In every stage each receive array has exactly one writer: its planned source. */
  lemma OneWriterPerArray(cfg: Config, lengths: Lengths, s: State, steps: seq<Step>, r: Rank, w: Rank, a: Array)
    requires Planned(cfg, lengths) && Init(cfg, s) && Possible(cfg, lengths, s, steps) && InGrid(cfg, r) && InGrid(cfg, w)
    requires var t := After(cfg, lengths, s, steps);
             a in t(w).inFlight && Target(cfg, w, a.forA, t(w).stage) == r
    ensures var t := After(cfg, lengths, s, steps);
            w == Source(cfg, r, a.forA, t(r).stage) && w != r && |t(w).history| == |t(r).history|
  {
    Reached(cfg, lengths, s, steps);
    var t := After(cfg, lengths, s, steps);
    assert RankOk(cfg, lengths, w, t(w));
    OneWriter(cfg, lengths, t, w, r, a.forA);
  }

  // ----- progress

  ghost function PhaseIndex(p: Phase): nat {
    match p
    case Outside => 0
    case Prepared => 1
    case AtReady => 2
    case Putting => 3
    case Flushing => 4
    case AtDone => 5
  }

  ghost function PlaceOf(x: Local): Place {
    Place(x.round, PhaseIndex(x.phase), 0)
  }

  ghost predicate Unfinished(cfg: Config, x: Local) {
    x.active || |x.history| < cfg.products
  }

  lemma BarrierOpens(cfg: Config, lengths: Lengths, s: State, c: Rank)
    requires Inv(cfg, lengths, s) && InGrid(cfg, c) && s(c).phase in {AtReady, AtDone}
    requires forall r :: InGrid(cfg, r) ==> NotAhead(PlaceOf(s(c)), PlaceOf(s(r)))
    ensures BarrierOpen(cfg, Entered(s), c)
  {
    assert RankOk(cfg, lengths, c, s(c));
    forall y: Rank | InGrid(cfg, y) ensures s(y).entered >= s(c).entered {
      assert NotAhead(PlaceOf(s(c)), PlaceOf(s(y))) && RankOk(cfg, lengths, y, s(y));
    }
  }

  lemma LastProduct(cfg: Config, lengths: Lengths, c: Rank, x: Local, u: Rank, y: Local)
    requires InGrid(cfg, c) && InGrid(cfg, u) && RankOk(cfg, lengths, c, x) && RankOk(cfg, lengths, u, y)
    requires !x.active && |x.history| == cfg.products && NotAhead(PlaceOf(x), PlaceOf(y)) && Unfinished(cfg, y)
    ensures y.active && y.phase == Outside && y.stage == cfg.side
  {
    RoundOrder(cfg.side, |y.history|, 0, cfg.products, 0);
  }

  /** PUT never deadlocks, as long as the caller keeps the planned shapes: while any rank has a
      product to finish, some step other than a change of inputs is possible. */
  lemma Progress(cfg: Config, lengths: Lengths, s: State, steps: seq<Step>, unfinished: Rank) returns (step: Step)
    requires Planned(cfg, lengths) && Init(cfg, s) && Possible(cfg, lengths, s, steps) && InGrid(cfg, unfinished)
    requires var t := After(cfg, lengths, s, steps);
             Unfinished(cfg, t(unfinished)) && forall r :: InGrid(cfg, r) ==> Fit(lengths, r, t(r).inputs)
    ensures Enabled(cfg, lengths, After(cfg, lengths, s, steps), step) && !step.ChangeInputs?
  {
    Reached(cfg, lengths, s, steps);
    var t := After(cfg, lengths, s, steps);
    var c := Laggard(cfg, r => PlaceOf(t(r)), unfinished);
    var x := t(c);
    assert RankOk(cfg, lengths, c, x) && RankOk(cfg, lengths, unfinished, t(unfinished));
    match x.phase
    case Outside =>
      if x.active {
        step := if x.stage < cfg.side then Prepare(c) else Finish(c);
      } else if |x.history| < cfg.products {
        step := Begin(c);
      } else {
        LastProduct(cfg, lengths, c, x, unfinished, t(unfinished));
        step := Finish(unfinished);
      }
    case Prepared => step := if cfg.side > 1 then EnterReady(c) else SingleNode(c);
    case AtReady => BarrierOpens(cfg, lengths, t, c); step := LeaveReady(c);
    case Putting => step := Issue(c);
    case Flushing =>
      if x.inFlight == {} {
        step := Flushed(c);
      } else {
        var a :| a in x.inFlight;
        step := Land(c, a);
      }
    case AtDone => BarrierOpens(cfg, lengths, t, c); step := LeaveDone(c);
  }
}
