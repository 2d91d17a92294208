/** The guarantees of the Hybrid transport, over every run of any number of products. */
module HybridRuns {
  import opened Csr
  import opened Grid
  import opened Ranks
  import opened Hybrid
  import opened HybridSafety

  lemma Reached(cfg: Config, s: State, steps: seq<Step>)
    requires Init(cfg, s) && Possible(cfg, s, steps)
    ensures Inv(cfg, After(cfg, s, steps))
  {
    InitHolds(cfg, s);
    RunsKeepInv(cfg, s, steps);
  }

  /** No service thread ever reports a generation mismatch. */
  lemma NoGenerationMismatch(cfg: Config, s: State, steps: seq<Step>, r: Rank)
    requires Init(cfg, s) && Possible(cfg, s, steps) && InGrid(cfg, r)
    ensures After(cfg, s, steps).ranks(r).service != Mismatch
  {
    Reached(cfg, s, steps);
  }

  /** A slot is at most one product ahead of its owner, and only once the owner has answered it. */
  lemma SlotAheadOnlyIfAnswered(cfg: Config, s: State, steps: seq<Step>, l: Link)
    requires Init(cfg, s) && Possible(cfg, s, steps) && Joins(cfg, l)
    ensures var t := After(cfg, s, steps);
            t.slots(l) > t.ranks(l.owner).generation ==>
            t.slots(l) == t.ranks(l.owner).generation + 1 && l.slot in t.ranks(l.owner).consumed
  {
    Reached(cfg, s, steps);
    LinkOf(cfg, After(cfg, s, steps), l);
  }

  /** What rank r assembles and multiplies in product g is what the planned owners exposed for product g. */
  lemma DeliveredTiles(cfg: Config, s: State, steps: seq<Step>, r: Rank)
    requires Init(cfg, s) && Possible(cfg, s, steps) && InGrid(cfg, r)
    requires After(cfg, s, steps).ranks(r).phase == Assemble
    ensures var t := After(cfg, s, steps);
            var x := t.ranks(r);
            var aOwner, bOwner := ALink(cfg, r, x.stage).owner, BLink(cfg, r, x.stage).owner;
            && 0 < x.generation <= |t.ranks(aOwner).history| && x.generation <= |t.ranks(bOwner).history|
            && x.workspace.a == t.ranks(aOwner).history[x.generation - 1].a
            && x.workspace.b == t.ranks(bOwner).history[x.generation - 1].b
  {
    hide Inv, Init, Possible, After, OwnOk, ServiceOk, CountsOk;
    Reached(cfg, s, steps);
    var t := After(cfg, s, steps);
    var x := t.ranks(r);
    RankOf(cfg, t, r);
    Delivered(cfg, t, r, ALink(cfg, r, x.stage));
    Delivered(cfg, t, r, BLink(cfg, r, x.stage));
  }

  lemma Delivered(cfg: Config, t: State, r: Rank, l: Link)
    requires Inv(cfg, t) && InGrid(cfg, r) && t.ranks(r).phase == Assemble && t.ranks(r).stage < cfg.side
    requires l == ALink(cfg, r, t.ranks(r).stage) || l == BLink(cfg, r, t.ranks(r).stage)
    ensures 0 < t.ranks(r).generation <= |t.ranks(l.owner).history|
    ensures Slice(cfg, l, t.ranks(r)) == Owned(cfg, t.ranks(l.owner).history[t.ranks(r).generation - 1], l.slot)
  {
    hide Inv, InGrid, LinkHolds, ServiceOk, CountsOk;
    RankOf(cfg, t, r);
    LinkOfStage(cfg, r, t.ranks(r).stage);
    if l.owner != r {
      ReceivedTile(cfg, t, r, l);
    }
  }

  lemma ReceivedTile(cfg: Config, t: State, r: Rank, l: Link)
    requires Inv(cfg, t) && Joins(cfg, l) && Consumer(cfg, l) == r
    requires t.ranks(r).phase == Assemble && RoundOf(cfg, l) == t.ranks(r).stage && t.ranks(r).generation > 0
    ensures t.ranks(r).generation <= |t.ranks(l.owner).history|
    ensures Slice(cfg, l, t.ranks(r)) == Owned(cfg, t.ranks(l.owner).history[t.ranks(r).generation - 1], l.slot)
  {
    hide Inv, ServiceOk, OwnOk, CountsOk;
    LinkOf(cfg, t, l);
    RankOf(cfg, t, l.owner);
  }

  /** After g products a rank has published and served 2 (side - 1) g requests. */
  lemma RequestsPerProduct(cfg: Config, s: State, steps: seq<Step>, r: Rank)
    requires Init(cfg, s) && Possible(cfg, s, steps) && InGrid(cfg, r)
    requires After(cfg, s, steps).ranks(r).phase == Idle
    ensures var x := After(cfg, s, steps).ranks(r);
            x.published == x.served == Quota(cfg) * x.generation
  {
    Reached(cfg, s, steps);
    IdleCounts(cfg, r, After(cfg, s, steps).ranks(r));
  }

  lemma IdleCounts(cfg: Config, r: Rank, x: Local)
    requires InGrid(cfg, r) && RankOk(cfg, r, x) && x.phase == Idle
    ensures x.published == x.served == Quota(cfg) * x.generation
  {
    OwnRounds(cfg, r);
  }

  // ----- answers

  ghost predicate Answers(cfg: Config, s: State, step: Step, l: Link) {
    step.Send? && s.ranks(step.r).service == Sending(l.slot) && step.r == l.owner
  }

  /** How often a run answers the consumer of a link. */
  ghost function AnswerCount(cfg: Config, s: State, steps: seq<Step>, l: Link): nat
    requires Possible(cfg, s, steps)
    decreases |steps|
  {
    if steps == [] then 0
    else (if Answers(cfg, s, steps[0], l) then 1 else 0) + AnswerCount(cfg, Apply(cfg, s, steps[0]), steps[1..], l)
  }

  lemma AnswerLocal(cfg: Config, step: Step, l: Link, o: Local, slot: nat, wire: seq<CsrMatrix>)
    requires Joins(cfg, l) && RankOk(cfg, l.owner, o) && step.r == l.owner && LocallyEnabled(cfg, o, step, wire)
    ensures LastServed(l, NextLocal(cfg, o, step, slot, wire)) ==
            LastServed(l, o) + if step.Send? && o.service == Sending(l.slot) then 1 else 0
  {
    if step.Begin? {
      OwnSlot(cfg, l);
      AllConsumed(cfg, l.owner, o);
    }
  }

  lemma AnswerStep(cfg: Config, s: State, step: Step, l: Link)
    requires Inv(cfg, s) && Enabled(cfg, s, step) && Joins(cfg, l)
    ensures LastServed(l, Apply(cfg, s, step).ranks(l.owner)) ==
            LastServed(l, s.ranks(l.owner)) + if Answers(cfg, s, step, l) then 1 else 0
  {
    hide Inv, PhaseOk, ServiceOk, OwnOk, CountsOk, LocallyEnabled, NextLocal, LastServed;
    var o := s.ranks(l.owner);
    RankOf(cfg, s, l.owner);
    if step.r == l.owner {
      var m := Touched(cfg, o, step);
      AnswerLocal(cfg, step, l, o, s.slots(m), s.wires(m));
    }
  }

  lemma {:induction false} AnswersOfRun(cfg: Config, s: State, steps: seq<Step>, l: Link)
    requires Inv(cfg, s) && Possible(cfg, s, steps) && Joins(cfg, l)
    ensures LastServed(l, After(cfg, s, steps).ranks(l.owner)) == LastServed(l, s.ranks(l.owner)) + AnswerCount(cfg, s, steps, l)
    decreases |steps|
  {
    if steps != [] {
      StepKeepsInv(cfg, s, steps[0]);
      AnswerStep(cfg, s, steps[0], l);
      AnswersOfRun(cfg, Apply(cfg, s, steps[0]), steps[1..], l);
    }
  }

  /** Every consumer is answered exactly once per product: outside its products an owner has
      answered each of them as often as it has run products. */
  lemma AnsweredOncePerProduct(cfg: Config, s: State, steps: seq<Step>, l: Link)
    requires Init(cfg, s) && Possible(cfg, s, steps) && Joins(cfg, l)
    ensures var o := After(cfg, s, steps).ranks(l.owner);
            && AnswerCount(cfg, s, steps, l) == (if l.slot in o.consumed then o.generation else o.generation - 1)
            && (o.phase == Idle ==> AnswerCount(cfg, s, steps, l) == o.generation)
  {
    InitHolds(cfg, s);
    BelowMembers(2 * cfg.side);
    AnswersOfRun(cfg, s, steps, l);
    Reached(cfg, s, steps);
    var o := After(cfg, s, steps).ranks(l.owner);
    RankOf(cfg, After(cfg, s, steps), l.owner);
    if o.phase == Idle {
      AllConsumed(cfg, l.owner, o);
    }
  }

  // ----- progress

  /** The receive a send must match is posted, whatever the send's size. */
  ghost predicate ReceivePosted(cfg: Config, s: State, l: Link)
    requires cfg.side > 0
  {
    var c := s.ranks(Consumer(cfg, l));
    InFetch(c.phase) && c.stage == RoundOf(cfg, l) && Awaits(cfg, l, c) && s.wires(l) == []
  }

  /** A service thread sends only what its consumer is already waiting for. */
  lemma SendFindsReceive(cfg: Config, s: State, r: Rank)
    requires Inv(cfg, s) && InGrid(cfg, r) && s.ranks(r).service.Sending?
    ensures var l := Link(r, s.ranks(r).service.slot);
            IsLink(cfg, l) && Remote(cfg, l) && ReceivePosted(cfg, s, l) && Enabled(cfg, s, Send(r))
  {
    hide Inv, OwnOk, CountsOk;
    var l := Link(r, s.ranks(r).service.slot);
    RankOf(cfg, s, r);
    OwnSlot(cfg, l);
    StageOfLink(cfg, l);
    LinkOf(cfg, s, l);
    RankOf(cfg, s, Consumer(cfg, l));
  }

  /** Steps that move a product on: a poll counts when it finds its request, a send when it finds
      its receive posted. */
  ghost predicate Moves(cfg: Config, s: State, step: Step) {
    && Enabled(cfg, s, step) && !step.ChangeInputs?
    && (step.Poll? ==> s.slots(Link(step.r, step.slot)) == s.ranks(step.r).generation)
    && (step.Send? ==> ReceivePosted(cfg, s, Link(step.r, s.ranks(step.r).service.slot)))
  }

  ghost predicate Unfinished(cfg: Config, x: Local) {
    x.phase != Idle || x.generation < cfg.products
  }

  /** The owner of an awaited tile is not behind, so its service thread is at work on it. */
  lemma OwnerAnswers(cfg: Config, s: State, l: Link) returns (step: Step)
    requires Inv(cfg, s) && Joins(cfg, l)
    requires var c := s.ranks(Consumer(cfg, l));
             c.phase == Wait && c.stage == RoundOf(cfg, l) && Awaits(cfg, l, c)
    requires s.wires(l) == []
    requires NotAhead(PlaceOf(s.ranks(Consumer(cfg, l))), PlaceOf(s.ranks(l.owner)))
    ensures Moves(cfg, s, step)
  {
    hide Inv, OwnOk, CountsOk;
    var o := s.ranks(l.owner);
    LinkOf(cfg, s, l);
    RankOf(cfg, s, l.owner);
    assert l.slot !in o.consumed && s.slots(l) == o.generation;
    AnswerPending(cfg, s, l);
    if o.service.Sending? {
      SendFindsReceive(cfg, s, l.owner);
      step := Send(l.owner);
    } else {
      step := Poll(l.owner, l.slot);
    }
  }

  lemma AnswerPending(cfg: Config, s: State, l: Link)
    requires Inv(cfg, s) && Joins(cfg, l) && l.slot !in s.ranks(l.owner).consumed
    ensures s.ranks(l.owner).service.Sending? || s.ranks(l.owner).service == Polling
  {
    hide Inv, OwnOk;
    var o := s.ranks(l.owner);
    RankOf(cfg, s, l.owner);
    if o.remaining == 0 {
      AllConsumed(cfg, l.owner, o);
    }
  }

  lemma WaitMoves(cfg: Config, s: State, c: Rank) returns (step: Step)
    requires Inv(cfg, s) && InGrid(cfg, c) && s.ranks(c).phase == Wait
    requires forall r :: InGrid(cfg, r) ==> NotAhead(PlaceOf(s.ranks(c)), PlaceOf(s.ranks(r)))
    ensures Moves(cfg, s, step)
  {
    hide Inv, LinkHolds, ServiceOk, CountsOk;
    var x := s.ranks(c);
    RankOf(cfg, s, c);
    LinkOfStage(cfg, c, x.stage);
    var a, b := ALink(cfg, c, x.stage), BLink(cfg, c, x.stage);
    if x.awaitA {
      if s.wires(a) != [] {
        step := ArriveA(c);
      } else {
        step := OwnerAnswers(cfg, s, a);
      }
    } else if x.awaitB {
      if s.wires(b) != [] {
        step := ArriveB(c);
      } else {
        step := OwnerAnswers(cfg, s, b);
      }
    } else {
      step := EndWait(c);
    }
  }

  /** A finishing rank that nobody is behind has answered every consumer. */
  lemma AllAnswered(cfg: Config, s: State, c: Rank, slot: nat)
    requires Inv(cfg, s) && InGrid(cfg, c) && s.ranks(c).phase == Finish && slot < 2 * cfg.side
    requires forall r :: InGrid(cfg, r) ==> NotAhead(PlaceOf(s.ranks(c)), PlaceOf(s.ranks(r)))
    ensures slot in s.ranks(c).consumed
  {
    hide Inv, CountsOk;
    var l := Link(c, slot);
    RankOf(cfg, s, c);
    OwnSlot(cfg, l);
    StageOfLink(cfg, l);
    if Remote(cfg, l) {
      LinkOf(cfg, s, l);
      RankOf(cfg, s, Consumer(cfg, l));
    }
  }

  lemma FinishMoves(cfg: Config, s: State, c: Rank) returns (step: Step)
    requires Inv(cfg, s) && InGrid(cfg, c) && s.ranks(c).phase == Finish
    requires forall r :: InGrid(cfg, r) ==> NotAhead(PlaceOf(s.ranks(c)), PlaceOf(s.ranks(r)))
    ensures Moves(cfg, s, step)
  {
    hide Inv, OwnOk, CountsOk;
    var x := s.ranks(c);
    RankOf(cfg, s, c);
    BelowMembers(2 * cfg.side);
    forall slot | slot in Slots(2 * cfg.side) ensures slot in x.consumed {
      AllAnswered(cfg, s, c, slot);
    }
    assert x.consumed == Slots(2 * cfg.side);
    step := Finished(c);
  }

  /** Hybrid never deadlocks: while any rank has a product to finish, some step moves. */
  lemma Progress(cfg: Config, s: State, steps: seq<Step>, unfinished: Rank) returns (step: Step)
    requires Init(cfg, s) && Possible(cfg, s, steps) && InGrid(cfg, unfinished)
    requires Unfinished(cfg, After(cfg, s, steps).ranks(unfinished))
    ensures Moves(cfg, After(cfg, s, steps), step)
  {
    Reached(cfg, s, steps);
    step := SomeoneMoves(cfg, After(cfg, s, steps), unfinished);
  }

  lemma SomeoneMoves(cfg: Config, s: State, unfinished: Rank) returns (step: Step)
    requires Inv(cfg, s) && InGrid(cfg, unfinished) && Unfinished(cfg, s.ranks(unfinished))
    ensures Moves(cfg, s, step)
  {
    hide Inv, ServiceOk, OwnOk, CountsOk;
    var place := (r: Rank) => PlaceOf(s.ranks(r));
    var c := Laggard(cfg, place, unfinished);
    forall r | InGrid(cfg, r) ensures NotAhead(PlaceOf(s.ranks(c)), PlaceOf(s.ranks(r))) {
      assert NotAhead(place(c), place(r));
    }
    var x := s.ranks(c);
    RankOf(cfg, s, c);
    RankOf(cfg, s, unfinished);
    assert NotAhead(PlaceOf(x), PlaceOf(s.ranks(unfinished)));
    match x.phase
    case Fetch => step := Post(c);
    case PublishA => step := NotifyA(c);
    case PublishB => step := NotifyB(c);
    case Wait => step := WaitMoves(cfg, s, c);
    case Assemble => step := Assembled(c);
    case Finish => step := FinishMoves(cfg, s, c);
    case Idle => step := Begin(c);
  }
}
