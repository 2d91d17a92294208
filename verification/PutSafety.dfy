/** What every interleaving of the PUT transport keeps. */
module PutSafety {
  import opened Ranks
  import opened Buffers
  import opened Put

  ghost function EnteredIn(p: Phase): nat {
    match p
    case Outside => 0
    case Prepared => 0
    case AtReady => 1
    case Putting => 1
    case Flushing => 1
    case AtDone => 2
  }

  ghost function LeftIn(p: Phase): nat {
    if p == Putting || p == Flushing || p == AtDone then 1 else 0
  }

  /** Lifecycle: a fetch runs inside a product, and the round number follows product and stage. */
  ghost predicate LifecycleOk(cfg: Config, x: Local) {
    && |x.history| <= cfg.products && x.stage <= cfg.side
    && (x.active ==> |x.history| > 0 && x.round == Rounds(cfg.side, |x.history| - 1) + x.stage)
    && (!x.active ==> x.round == Rounds(cfg.side, |x.history|) && (x.history == [] || x.stage == cfg.side))
    && (x.history == [] ==> x.stage == 0)
    && (x.phase != Outside ==> x.active && x.stage < cfg.side)
  }

  ghost predicate BarriersOk(cfg: Config, x: Local) {
    && (cfg.side > 1 ==> x.entered == 2 * x.round + EnteredIn(x.phase) && x.left == 2 * x.round + LeftIn(x.phase))
    && (cfg.side == 1 ==> x.phase == Outside || x.phase == Prepared)
  }

  ghost predicate DataOk(lengths: Lengths, r: Rank, x: Local) {
    && (forall g :: 0 <= g < |x.history| ==> Fit(lengths, r, x.history[g]))
    && (x.active ==> |x.history| > 0 && x.inputs == x.history[|x.history| - 1])
  }

  ghost predicate FlightsOk(cfg: Config, r: Rank, x: Local)
    requires InGrid(cfg, r)
  {
    && (x.phase != Flushing ==> x.inFlight == {})
    && x.inFlight <= Issued(cfg, r, x)
  }

  ghost predicate RankOk(cfg: Config, lengths: Lengths, r: Rank, x: Local)
    requires InGrid(cfg, r)
  {
    LifecycleOk(cfg, x) && BarriersOk(cfg, x) && DataOk(lengths, r, x) && FlightsOk(cfg, r, x)
  }

  /** The owner's put of an array in a round has reached its target. */
  ghost predicate Delivered(o: Local, round: nat, a: Array) {
    o.round > round || (o.round == round && (o.phase == AtDone || (o.phase == Flushing && a !in o.inFlight)))
  }

  /** What the owner exposed for a product. */
  ghost predicate IsOwned(data: seq<int>, o: Local, product: nat, a: Array) {
    0 < product <= |o.history| && data == o.history[product - 1](a)
  }

  /** Inside a fetch: sized for the stage, own arrays copied, delivered arrays the owner's. */
  ghost predicate FetchingOk(lengths: Lengths, r: Rank, x: Local, source: Rank, o: Local, a: Array) {
    && |x.workspace(a)| == lengths(source, a)
    && (source == r ==> x.workspace(a) == x.inputs(a))
    && (source != r && Delivered(o, x.round, a) ==> IsOwned(x.workspace(a), o, |x.history|, a))
  }

  ghost predicate ArrayOk(cfg: Config, lengths: Lengths, s: State, r: Rank, a: Array)
    requires InGrid(cfg, r)
  {
    var x := s(r);
    var source := Source(cfg, r, a.forA, if x.phase == Outside && x.stage > 0 then x.stage - 1 else x.stage);
    if x.phase != Outside then FetchingOk(lengths, r, x, source, s(source), a)
    else x.stage > 0 ==> IsOwned(x.workspace(a), s(source), |x.history|, a)
  }

  /** Nobody has left a barrier that someone has not entered. */
  ghost predicate BarriersHold(cfg: Config, s: State) {
    forall x: Rank, y: Rank :: InGrid(cfg, x) && InGrid(cfg, y) ==> s(x).entered >= s(y).left
  }

  ghost predicate Inv(cfg: Config, lengths: Lengths, s: State) {
    && (forall r :: InGrid(cfg, r) ==> RankOk(cfg, lengths, r, s(r)))
    && BarriersHold(cfg, s)
    && (forall r, a :: InGrid(cfg, r) ==> ArrayOk(cfg, lengths, s, r, a))
  }

  lemma RankOf(cfg: Config, lengths: Lengths, s: State, r: Rank)
    requires Inv(cfg, lengths, s) && InGrid(cfg, r)
    ensures RankOk(cfg, lengths, r, s(r)) && forall a :: ArrayOk(cfg, lengths, s, r, a)
  {
    hide RankOk, ArrayOk, BarriersHold;
  }

  // ----- what the barriers separate

  lemma SideOfFlight(cfg: Config, lengths: Lengths, w: Rank, y: Local)
    requires InGrid(cfg, w) && RankOk(cfg, lengths, w, y) && y.phase == Flushing
    ensures cfg.side > 1
  {
  }

  /** While any put can be in flight every rank is inside the same round, past the readiness
      barrier and before the next one. */
  lemma FlightsAreInside(cfg: Config, lengths: Lengths, s: State, w: Rank, r: Rank)
    requires Inv(cfg, lengths, s) && InGrid(cfg, w) && InGrid(cfg, r) && s(w).phase == Flushing
    ensures s(r).round == s(w).round && s(r).phase != Outside && s(r).phase != Prepared
  {
    assert RankOk(cfg, lengths, w, s(w)) && RankOk(cfg, lengths, r, s(r));
    SideOfFlight(cfg, lengths, w, s(w));
    assert s(r).entered >= s(w).left && s(w).entered >= s(r).left;
  }

  /** Ranks fetching in the same round fetch the same stage of the same product. */
  lemma SameRoundSameStage(cfg: Config, x: Local, y: Local)
    requires LifecycleOk(cfg, x) && LifecycleOk(cfg, y) && x.phase != Outside && y.phase != Outside && x.round == y.round
    ensures x.stage == y.stage && |x.history| == |y.history|
  {
    RoundDigits(cfg.side, |x.history| - 1, x.stage, |y.history| - 1, y.stage);
  }

  /** A rank in flight writes only to the rank whose planned source it is. */
  lemma OneWriter(cfg: Config, lengths: Lengths, s: State, w: Rank, r: Rank, forA: bool)
    requires Inv(cfg, lengths, s) && InGrid(cfg, w) && InGrid(cfg, r) && s(w).phase == Flushing
    ensures s(r).stage == s(w).stage && |s(r).history| == |s(w).history| && s(r).round == s(w).round
    ensures Target(cfg, w, forA, s(w).stage) == r <==> Source(cfg, r, forA, s(r).stage) == w
  {
    FlightsAreInside(cfg, lengths, s, w, r);
    assert RankOk(cfg, lengths, w, s(w)) && RankOk(cfg, lengths, r, s(r));
    SameRoundSameStage(cfg, s(r), s(w));
    TargetInvertsSource(cfg, r, w, forA, s(w).stage);
  }

  // ----- the stepping rank

  lemma RankKeeps(cfg: Config, lengths: Lengths, x: Local, step: Step, s: State)
    requires Enabled(cfg, lengths, s, step) && x == s(step.r) && RankOk(cfg, lengths, step.r, x)
    ensures RankOk(cfg, lengths, step.r, NextLocal(cfg, lengths, x, step))
  {
  }

  lemma LandsElsewhere(cfg: Config, lengths: Lengths, s: State, step: Step)
    requires Enabled(cfg, lengths, s, step) && step.Land? && RankOk(cfg, lengths, step.r, s(step.r))
    ensures s(step.r).phase == Flushing && step.buffer in Issued(cfg, step.r, s(step.r))
    ensures Target(cfg, step.r, step.buffer.forA, s(step.r).stage) != step.r
    ensures s(step.r).active && s(step.r).history != [] && |s(step.r).inputs(step.buffer)| == lengths(step.r, step.buffer)
  {
    var x := s(step.r);
    assert Fit(lengths, step.r, x.history[|x.history| - 1]);
  }

  lemma LandedRank(cfg: Config, lengths: Lengths, r: Rank, y: Local, a: Array, data: seq<int>)
    requires InGrid(cfg, r) && RankOk(cfg, lengths, r, y)
    ensures RankOk(cfg, lengths, r, Landed(y, a, data))
  {
    assert Issued(cfg, r, Landed(y, a, data)) == Issued(cfg, r, y);
  }

  lemma StepKeepsRanks(cfg: Config, lengths: Lengths, s: State, step: Step, r: Rank)
    requires Inv(cfg, lengths, s) && Enabled(cfg, lengths, s, step) && InGrid(cfg, r)
    ensures RankOk(cfg, lengths, r, Apply(cfg, lengths, s, step)(r))
  {
    hide Inv, RankOk, NextLocal, Issued, Landed;
    RankOf(cfg, lengths, s, step.r);
    RankOf(cfg, lengths, s, r);
    RankKeeps(cfg, lengths, s(step.r), step, s);
    if step.Land? {
      LandsElsewhere(cfg, lengths, s, step);
      LandedRank(cfg, lengths, r, s(r), step.buffer, s(step.r).inputs(step.buffer));
    }
  }

  lemma StepKeepsBarriers(cfg: Config, lengths: Lengths, s: State, step: Step, x: Rank, y: Rank)
    requires Inv(cfg, lengths, s) && Enabled(cfg, lengths, s, step) && InGrid(cfg, x) && InGrid(cfg, y)
    ensures Apply(cfg, lengths, s, step)(x).entered >= Apply(cfg, lengths, s, step)(y).left
  {
    hide LifecycleOk, FlightsOk;
    assert s(x).entered >= s(y).left && s(x).entered >= s(step.r).left;
    assert RankOk(cfg, lengths, step.r, s(step.r));
  }

  // ----- the arrays

  /** Preparing: nothing of this round can have been delivered, since the owner cannot have left a
      barrier this rank has not entered. */
  lemma PrepareKeeps(cfg: Config, lengths: Lengths, s: State, r: Rank, a: Array)
    requires Inv(cfg, lengths, s) && Enabled(cfg, lengths, s, Prepare(r))
    ensures ArrayOk(cfg, lengths, Apply(cfg, lengths, s, Prepare(r)), r, a)
  {
    var x := s(r);
    var source := Source(cfg, r, a.forA, x.stage);
    assert RankOk(cfg, lengths, r, x);
    assert Fit(lengths, r, x.history[|x.history| - 1]);
    TargetInvertsSource(cfg, r, source, a.forA, x.stage);
    if source != r {
      assert RankOk(cfg, lengths, source, s(source));
      assert s(r).entered >= s(source).left;
      SeveralRanks(cfg, r, source);
    }
  }

  lemma SeveralRanks(cfg: Config, r: Rank, o: Rank)
    requires InGrid(cfg, r) && InGrid(cfg, o) && r != o && r.k == o.k
    ensures cfg.side > 1
  {
  }

  lemma FlushedByNow(cfg: Config, o: Local, round: nat, a: Array)
    requires BarriersOk(cfg, o) && cfg.side > 1 && o.entered >= 2 * round + 2
    ensures Delivered(o, round, a)
  {
  }

  /** Behind the second barrier of a stage the source's put has arrived. */
  lemma ArrivedBehindBarrier(cfg: Config, lengths: Lengths, s: State, r: Rank, source: Rank, a: Array)
    requires InGrid(cfg, r) && InGrid(cfg, source) && cfg.side > 1 && BarriersOk(cfg, s(r)) && BarriersOk(cfg, s(source))
    requires s(r).phase == AtDone && BarrierOpen(cfg, Entered(s), r)
    ensures Delivered(s(source), s(r).round, a)
  {
    hide Delivered;
    assert Entered(s)(source) >= Entered(s)(r);
    FlushedByNow(cfg, s(source), s(r).round, a);
  }

  lemma OwnIsOwned(cfg: Config, lengths: Lengths, r: Rank, x: Local, a: Array)
    requires LifecycleOk(cfg, x) && DataOk(lengths, r, x) && x.phase != Outside && x.workspace(a) == x.inputs(a)
    ensures IsOwned(x.workspace(a), x, |x.history|, a)
  {
  }

  /** Leaving the writers-done barrier: the owner has entered it, so its puts have been flushed. */
  lemma ReturnOwned(cfg: Config, lengths: Lengths, s: State, step: Step, a: Array, source: Rank)
    requires Inv(cfg, lengths, s) && Enabled(cfg, lengths, s, step) && (step.LeaveDone? || step.SingleNode?)
    requires source == Source(cfg, step.r, a.forA, s(step.r).stage)
    ensures IsOwned(s(step.r).workspace(a), s(source), |s(step.r).history|, a)
  {
    hide Inv, LifecycleOk, DataOk, FlightsOk, BarriersOk, Delivered, IsOwned, BarrierOpen, Target, Source;
    var r, x := step.r, s(step.r);
    RankOf(cfg, lengths, s, r);
    assert ArrayOk(cfg, lengths, s, r, a);
    SourceInRow(cfg, r, a.forA, x.stage);
    if source == r {
      OwnIsOwned(cfg, lengths, r, x, a);
    } else {
      SeveralRanks(cfg, r, source);
      RankOf(cfg, lengths, s, source);
      ArrivedBehindBarrier(cfg, lengths, s, r, source, a);
    }
  }

  lemma SourceInRow(cfg: Config, r: Rank, forA: bool, stage: nat)
    requires InGrid(cfg, r)
    ensures InGrid(cfg, Source(cfg, r, forA, stage)) && Source(cfg, r, forA, stage).k == r.k
  {
    TargetInvertsSource(cfg, r, r, forA, stage);
  }

  lemma ReturnKeeps(cfg: Config, lengths: Lengths, s: State, step: Step, a: Array)
    requires Inv(cfg, lengths, s) && Enabled(cfg, lengths, s, step) && (step.LeaveDone? || step.SingleNode?)
    ensures ArrayOk(cfg, lengths, Apply(cfg, lengths, s, step), step.r, a)
  {
    hide Inv, BarriersHold;
    ReturnOwned(cfg, lengths, s, step, a, Source(cfg, step.r, a.forA, s(step.r).stage));
  }

  lemma OwnKeeps(cfg: Config, lengths: Lengths, s: State, step: Step, a: Array)
    requires Inv(cfg, lengths, s) && Enabled(cfg, lengths, s, step)
    requires !step.Land? && !step.Prepare? && !step.LeaveDone? && !step.SingleNode?
    ensures ArrayOk(cfg, lengths, Apply(cfg, lengths, s, step), step.r, a)
  {
    assert RankOk(cfg, lengths, step.r, s(step.r)) && ArrayOk(cfg, lengths, s, step.r, a);
  }

  /** An array that is not put although its target is another rank is empty. */
  lemma NotPutIsEmpty(cfg: Config, lengths: Lengths, w: Rank, o: Local, a: Array)
    requires InGrid(cfg, w) && Fit(lengths, w, o.inputs) && a !in Issued(cfg, w, o)
    requires lengths(w, Array(a.forA, Columns)) == lengths(w, Array(a.forA, Values))
    requires Target(cfg, w, a.forA, o.stage) != w
    ensures o.inputs(a) == [] && lengths(w, a) == 0
  {
    EveryArray(a);
    assert !Puts(cfg, w, o, a);
    var values := Array(a.forA, Values);
    assert |o.inputs(a)| == lengths(w, a) && |o.inputs(values)| == lengths(w, values);
    assert a == Array(a.forA, a.part);
  }

  /** Issuing puts delivers nothing but empty arrays. */
  lemma IssueKeeps(cfg: Config, lengths: Lengths, w: Rank, o: Local, r: Rank, x: Local, a: Array)
    requires Planned(cfg, lengths) && InGrid(cfg, w) && InGrid(cfg, r) && r != w && o.phase == Putting && x.phase != Outside
    requires RankOk(cfg, lengths, w, o) && RankOk(cfg, lengths, r, x)
    requires w == Source(cfg, r, a.forA, x.stage) && FetchingOk(lengths, r, x, w, o, a)
    ensures FetchingOk(lengths, r, x, w, o.(phase := Flushing, inFlight := Issued(cfg, w, o)), a)
  {
    if o.round == x.round && a !in Issued(cfg, w, o) {
      SameRoundSameStage(cfg, x, o);
      TargetInvertsSource(cfg, r, w, a.forA, x.stage);
      assert Fit(lengths, w, o.history[|o.history| - 1]);
      NotPutIsEmpty(cfg, lengths, w, o, a);
    }
  }

  /** The owner's other steps but landing neither deliver an array nor change what it owned. */
  lemma AsideKeeps(cfg: Config, lengths: Lengths, w: Rank, o: Local, r: Rank, x: Local, step: Step, a: Array, s: State)
    requires Enabled(cfg, lengths, s, step) && o == s(step.r) && w == step.r && !step.Land? && !step.Issue? && !step.SingleNode?
    requires RankOk(cfg, lengths, w, o)
    requires FetchingOk(lengths, r, x, w, o, a) && r != w
    ensures FetchingOk(lengths, r, x, w, NextLocal(cfg, lengths, o, step), a)
  {
  }

  lemma OwnerStep(cfg: Config, lengths: Lengths, s: State, step: Step, r: Rank, x: Local, a: Array)
    requires Planned(cfg, lengths) && Enabled(cfg, lengths, s, step) && InGrid(cfg, r) && r != step.r && x.phase != Outside
    requires !step.Land? && !step.SingleNode? && RankOk(cfg, lengths, step.r, s(step.r)) && RankOk(cfg, lengths, r, x)
    requires step.r == Source(cfg, r, a.forA, x.stage) && FetchingOk(lengths, r, x, step.r, s(step.r), a)
    ensures FetchingOk(lengths, r, x, step.r, NextLocal(cfg, lengths, s(step.r), step), a)
  {
    hide RankOk, Source, FetchingOk, PrepareLocal;
    if step.Issue? {
      IssueKeeps(cfg, lengths, step.r, s(step.r), r, x, a);
    } else {
      AsideKeeps(cfg, lengths, step.r, s(step.r), r, x, step, a, s);
    }
  }

  lemma HistoryGrows(cfg: Config, lengths: Lengths, x: Local, step: Step)
    requires InGrid(cfg, step.r)
    ensures x.history <= NextLocal(cfg, lengths, x, step).history
  {
    hide Issued;
  }

  lemma OwnedGrows(data: seq<int>, o: Local, o': Local, product: nat, a: Array)
    requires o.history <= o'.history
    ensures IsOwned(data, o, product, a) ==> IsOwned(data, o', product, a)
  {
  }

  lemma OwnerKeeps(cfg: Config, lengths: Lengths, s: State, step: Step, r: Rank, a: Array)
    requires Planned(cfg, lengths) && Inv(cfg, lengths, s) && Enabled(cfg, lengths, s, step) && InGrid(cfg, r) && r != step.r
    requires !step.Land?
    ensures ArrayOk(cfg, lengths, Apply(cfg, lengths, s, step), r, a)
  {
    hide NextLocal, FetchingOk, IsOwned, RankOk, BarriersHold;
    var x, o, t := s(r), s(step.r), Apply(cfg, lengths, s, step);
    assert RankOk(cfg, lengths, step.r, o) && RankOk(cfg, lengths, r, x) && ArrayOk(cfg, lengths, s, r, a);
    HistoryGrows(cfg, lengths, o, step);
    if x.phase == Outside {
      if x.stage > 0 {
        var source := Source(cfg, r, a.forA, x.stage - 1);
        OwnedGrows(x.workspace(a), s(source), t(source), |x.history|, a);
      }
    } else if step.r == Source(cfg, r, a.forA, x.stage) {
      SeveralRanks(cfg, r, step.r);
      OwnerStep(cfg, lengths, s, step, r, x, a);
    }
  }

  /** A landed array is the owner's. */
  lemma LandedIsOwned(cfg: Config, lengths: Lengths, w: Rank, o: Local, r: Rank, x: Local, a: Array)
    requires InGrid(cfg, w) && RankOk(cfg, lengths, w, o) && FetchingOk(lengths, r, x, w, o, a) && r != w && o.active
    requires |o.history| == |x.history|
    ensures FetchingOk(lengths, r, Landed(x, a, o.inputs(a)), w, o.(inFlight := o.inFlight - {a}), a)
  {
    assert Fit(lengths, w, o.history[|o.history| - 1]);
  }

  /** A landing put writes its own target's array of the same name, and nothing else. */
  lemma LandKeeps(cfg: Config, lengths: Lengths, s: State, step: Step, r: Rank, a: Array)
    requires Inv(cfg, lengths, s) && Enabled(cfg, lengths, s, step) && step.Land? && InGrid(cfg, r)
    ensures ArrayOk(cfg, lengths, Apply(cfg, lengths, s, step), r, a)
  {
    var w, x := step.r, s(r);
    assert RankOk(cfg, lengths, w, s(w)) && RankOk(cfg, lengths, r, x) && ArrayOk(cfg, lengths, s, r, a);
    LandsElsewhere(cfg, lengths, s, step);
    FlightsAreInside(cfg, lengths, s, w, r);
    OneWriter(cfg, lengths, s, w, r, a.forA);
    if a == step.buffer && r == Target(cfg, w, a.forA, s(w).stage) {
      LandedIsOwned(cfg, lengths, w, s(w), r, x, a);
    } else {
      LandElsewhereKeeps(cfg, lengths, s, step, r, a);
    }
  }

  lemma LandElsewhereKeeps(cfg: Config, lengths: Lengths, s: State, step: Step, r: Rank, a: Array)
    requires Enabled(cfg, lengths, s, step) && step.Land? && InGrid(cfg, r) && ArrayOk(cfg, lengths, s, r, a)
    requires s(r).phase != Outside
    requires Target(cfg, step.r, step.buffer.forA, s(step.r).stage) != step.r
    requires a != step.buffer || r != Target(cfg, step.r, a.forA, s(step.r).stage)
    requires a == step.buffer ==> Source(cfg, r, a.forA, s(r).stage) != step.r
    ensures ArrayOk(cfg, lengths, Apply(cfg, lengths, s, step), r, a)
  {
    hide Enabled, InGrid, Target, Source;
  }

  lemma StepKeepsArray(cfg: Config, lengths: Lengths, s: State, step: Step, r: Rank, a: Array)
    requires Planned(cfg, lengths) && Inv(cfg, lengths, s) && Enabled(cfg, lengths, s, step) && InGrid(cfg, r)
    ensures ArrayOk(cfg, lengths, Apply(cfg, lengths, s, step), r, a)
  {
    if step.Land? {
      LandKeeps(cfg, lengths, s, step, r, a);
    } else if r != step.r {
      OwnerKeeps(cfg, lengths, s, step, r, a);
    } else if step.Prepare? {
      PrepareKeeps(cfg, lengths, s, r, a);
    } else if step.LeaveDone? || step.SingleNode? {
      ReturnKeeps(cfg, lengths, s, step, a);
    } else {
      OwnKeeps(cfg, lengths, s, step, a);
    }
  }

  lemma StepKeepsInv(cfg: Config, lengths: Lengths, s: State, step: Step)
    requires Planned(cfg, lengths) && Inv(cfg, lengths, s) && Enabled(cfg, lengths, s, step)
    ensures Inv(cfg, lengths, Apply(cfg, lengths, s, step))
  {
    var t := Apply(cfg, lengths, s, step);
    forall r | InGrid(cfg, r) ensures RankOk(cfg, lengths, r, t(r)) {
      StepKeepsRanks(cfg, lengths, s, step, r);
    }
    forall x, y | InGrid(cfg, x) && InGrid(cfg, y) ensures t(x).entered >= t(y).left {
      StepKeepsBarriers(cfg, lengths, s, step, x, y);
    }
    forall r, a | InGrid(cfg, r) ensures ArrayOk(cfg, lengths, t, r, a) {
      StepKeepsArray(cfg, lengths, s, step, r, a);
    }
  }

  lemma InitHolds(cfg: Config, lengths: Lengths, s: State)
    requires Init(cfg, s)
    ensures Inv(cfg, lengths, s)
  {
  }

  lemma {:induction false} RunsKeepInv(cfg: Config, lengths: Lengths, s: State, steps: seq<Step>)
    requires Planned(cfg, lengths) && Inv(cfg, lengths, s) && Possible(cfg, lengths, s, steps)
    ensures Inv(cfg, lengths, After(cfg, lengths, s, steps))
    decreases |steps|
  {
    if steps != [] {
      StepKeepsInv(cfg, lengths, s, steps[0]);
      RunsKeepInv(cfg, lengths, Apply(cfg, lengths, s, steps[0]), steps[1..]);
    }
  }
}
