/** What every interleaving of the Hybrid transport keeps. */
module HybridSafety {
  import opened Arithmetic
  import opened Csr
  import opened Grid
  import opened Ranks
  import opened Hybrid

  /** The round in which the consumer of a link takes from its owner. */
  ghost function RoundOf(cfg: Config, l: Link): int
    requires cfg.side > 0
  {
    var c := Consumer(cfg, l);
    Wrap((if l.slot < cfg.side then l.owner.j else l.owner.i) - (c.i + c.j), cfg.side)
  }

  /** Links and stages correspond: rank r consumes ALink and BLink of a stage, and no other link in it. */
  lemma LinkOfStage(cfg: Config, r: Rank, stage: nat)
    requires InGrid(cfg, r) && stage < cfg.side
    ensures IsLink(cfg, ALink(cfg, r, stage)) && Consumer(cfg, ALink(cfg, r, stage)) == r
    ensures IsLink(cfg, BLink(cfg, r, stage)) && Consumer(cfg, BLink(cfg, r, stage)) == r
    ensures RoundOf(cfg, ALink(cfg, r, stage)) == stage && RoundOf(cfg, BLink(cfg, r, stage)) == stage
  {
    var h := Inner(r.i, r.j, stage, cfg.side);
    DivModIdentity(r.i + r.j + stage, cfg.side);
    SolveInner(r.i + r.j, stage, h, cfg.side);
  }

  lemma StageOfLink(cfg: Config, l: Link)
    requires IsLink(cfg, l)
    ensures InGrid(cfg, Consumer(cfg, l)) && 0 <= RoundOf(cfg, l) < cfg.side
    ensures l == if l.slot < cfg.side then ALink(cfg, Consumer(cfg, l), RoundOf(cfg, l))
                 else BLink(cfg, Consumer(cfg, l), RoundOf(cfg, l))
  {
    var c := Consumer(cfg, l);
    var h := if l.slot < cfg.side then l.owner.j else l.owner.i;
    WrapIsModulo(h - (c.i + c.j), cfg.side);
    SolveInner(c.i + c.j, RoundOf(cfg, l), h, cfg.side);
  }

  // ----- one link

  ghost predicate ForA(cfg: Config, l: Link) {
    l.slot < cfg.side
  }

  /** The consumer has asked in its current product. */
  ghost predicate Asked(cfg: Config, l: Link, round: int, c: Local) {
    c.stage > round || (c.stage == round && PhaseIndex(c.phase) >= if ForA(cfg, l) then 2 else 3)
  }

  ghost predicate Awaits(cfg: Config, l: Link, c: Local) {
    if ForA(cfg, l) then c.awaitA else c.awaitB
  }

  ghost predicate Got(cfg: Config, l: Link, round: int, c: Local) {
    c.stage > round ||
    (c.stage == round && (PhaseIndex(c.phase) >= 4 || (PhaseIndex(c.phase) >= 1 && !Awaits(cfg, l, c))))
  }

  /** The last products asked for, answered and received. */
  ghost function LastAsked(cfg: Config, l: Link, round: int, c: Local): int {
    if Asked(cfg, l, round, c) then c.generation else c.generation - 1
  }

  ghost function LastGot(cfg: Config, l: Link, round: int, c: Local): int {
    if Got(cfg, l, round, c) then c.generation else c.generation - 1
  }

  ghost function LastServed(l: Link, o: Local): int {
    if l.slot in o.consumed then o.generation else o.generation - 1
  }

  /** What o owned for this link in product g. */
  ghost function OwnedIn(cfg: Config, o: Local, slot: nat, g: int): CsrMatrix {
    if 1 <= g <= |o.history| then Owned(cfg, o.history[g - 1], slot) else CsrMatrix(0, 0, [], [], [])
  }

  ghost function Slice(cfg: Config, l: Link, c: Local): CsrMatrix {
    Owned(cfg, c.workspace, l.slot)
  }

  /** One generation slot and its stream: the slot is asked, answered and received in turn, the
      stream holds exactly the one answer not yet received, and a received tile is the owner's. */
  ghost predicate LinkOk(cfg: Config, l: Link, round: int, o: Local, c: Local, slot: nat, wire: seq<CsrMatrix>) {
    var asked, got, served := LastAsked(cfg, l, round, c), LastGot(cfg, l, round, c), LastServed(l, o);
    && slot == asked
    && got <= served <= asked <= got + 1
    && (served == got ==> wire == [])
    && (served == got + 1 ==> wire == [OwnedIn(cfg, o, l.slot, served)])
    && (o.service == Sending(l.slot) ==> slot == o.generation && l.slot !in o.consumed)
    && (c.stage == round && Got(cfg, l, round, c) ==> Slice(cfg, l, c) == OwnedIn(cfg, o, l.slot, c.generation))
  }

  // ----- one rank

  ghost function Minus(n: int, own: int): int {
    if n > own then n - 1 else n
  }

  /** Remote requests a rank has published in its current product. */
  ghost function PublishedNow(cfg: Config, r: Rank, x: Local): int
    requires cfg.side > 0
  {
    Minus(x.stage + (if 2 <= PhaseIndex(x.phase) <= 4 then 1 else 0), RoundOf(cfg, Link(r, r.j))) +
    Minus(x.stage + (if 3 <= PhaseIndex(x.phase) <= 4 then 1 else 0), RoundOf(cfg, Link(r, cfg.side + r.i)))
  }

  ghost function Quota(cfg: Config): int {
    2 * (cfg.side - 1)
  }

  ghost predicate PhaseOk(cfg: Config, x: Local) {
    && (x.stage < cfg.side <==> PhaseIndex(x.phase) <= 4) && x.stage <= cfg.side
    && |x.history| == x.generation <= cfg.products
    && (x.phase != Idle ==> x.generation > 0 && x.history[x.generation - 1] == x.inputs)
    && (x.phase == Idle ==> x.remaining == 0)
    && (x.phase == Assemble ==> !x.awaitA && !x.awaitB)
  }

  ghost predicate ServiceOk(cfg: Config, r: Rank, x: Local) {
    && x.consumed <= Slots(2 * cfg.side)
    && r.j in x.consumed && cfg.side + r.i in x.consumed
    && x.remaining + |x.consumed| == 2 * cfg.side
    && (x.service == Stopped <==> x.remaining == 0)
    && (x.service.Sending? ==> x.service.slot < 2 * cfg.side && x.service.slot !in x.consumed)
    && x.service != Mismatch
  }

  ghost predicate OwnOk(cfg: Config, r: Rank, x: Local)
    requires InGrid(cfg, r)
  {
    && (InFetch(x.phase) && ALink(cfg, r, x.stage).owner == r ==> !x.awaitA)
    && (InFetch(x.phase) && BLink(cfg, r, x.stage).owner == r ==> !x.awaitB)
    && (1 <= PhaseIndex(x.phase) <= 4 && ALink(cfg, r, x.stage).owner == r ==> x.workspace.a == x.inputs.a)
    && (1 <= PhaseIndex(x.phase) <= 4 && BLink(cfg, r, x.stage).owner == r ==> x.workspace.b == x.inputs.b)
  }

  ghost predicate CountsOk(cfg: Config, r: Rank, x: Local)
    requires cfg.side > 0
  {
    && x.served + x.remaining == Quota(cfg) * x.generation
    && x.published == Quota(cfg) * x.generation - Quota(cfg) + PublishedNow(cfg, r, x)
  }

  ghost predicate RankOk(cfg: Config, r: Rank, x: Local)
    requires InGrid(cfg, r)
  {
    PhaseOk(cfg, x) && ServiceOk(cfg, r, x) && OwnOk(cfg, r, x) && CountsOk(cfg, r, x)
  }

  /** A link between two different ranks. */
  ghost predicate Joins(cfg: Config, l: Link) {
    IsLink(cfg, l) && InGrid(cfg, Consumer(cfg, l)) && Remote(cfg, l)
  }

  ghost predicate LinkHolds(cfg: Config, s: State, l: Link)
    requires Joins(cfg, l)
  {
    LinkOk(cfg, l, RoundOf(cfg, l), s.ranks(l.owner), s.ranks(Consumer(cfg, l)), s.slots(l), s.wires(l))
  }

  ghost predicate Inv(cfg: Config, s: State) {
    && (forall r :: InGrid(cfg, r) ==> RankOk(cfg, r, s.ranks(r)))
    && (forall l :: Joins(cfg, l) ==> LinkHolds(cfg, s, l))
  }

  lemma RankOf(cfg: Config, s: State, r: Rank)
    requires Inv(cfg, s) && InGrid(cfg, r)
    ensures RankOk(cfg, r, s.ranks(r))
  {
    hide RankOk, LinkHolds;
  }

  lemma LinkOf(cfg: Config, s: State, l: Link)
    requires Inv(cfg, s) && Joins(cfg, l)
    ensures LinkHolds(cfg, s, l)
  {
    hide RankOk, LinkHolds, Joins;
  }

  // ----- what a step does to one link

  lemma OwnSlot(cfg: Config, l: Link)
    requires IsLink(cfg, l)
    ensures Remote(cfg, l) <==> l.slot != l.owner.j && l.slot != cfg.side + l.owner.i
  {
  }

  lemma {:induction false} AllConsumed(cfg: Config, r: Rank, x: Local)
    requires InGrid(cfg, r) && ServiceOk(cfg, r, x) && x.remaining == 0
    ensures forall slot: nat :: slot < 2 * cfg.side ==> slot in x.consumed
  {
    BelowMembers(2 * cfg.side);
    SubsetOfSameSize(x.consumed, Slots(2 * cfg.side));
  }

  lemma BeginOwner(cfg: Config, l: Link, round: int, o: Local, c: Local, slot: nat, wire: seq<CsrMatrix>)
    requires IsLink(cfg, l) && Remote(cfg, l) && LinkOk(cfg, l, round, o, c, slot, wire)
    requires RankOk(cfg, l.owner, o) && o.phase == Idle
    ensures LinkOk(cfg, l, round, BeginLocal(cfg, l.owner, o), c, slot, wire)
  {
    OwnSlot(cfg, l);
    AllConsumed(cfg, l.owner, o);
  }

  lemma BeginConsumer(cfg: Config, l: Link, round: nat, o: Local, c: Local, slot: nat, wire: seq<CsrMatrix>)
    requires IsLink(cfg, l) && round < cfg.side && LinkOk(cfg, l, round, o, c, slot, wire)
    requires InGrid(cfg, Consumer(cfg, l)) && RankOk(cfg, Consumer(cfg, l), c) && c.phase == Idle
    ensures LinkOk(cfg, l, round, o, BeginLocal(cfg, Consumer(cfg, l), c), slot, wire)
  {
  }

  lemma PostConsumer(cfg: Config, l: Link, round: nat, o: Local, c: Local, slot: nat, wire: seq<CsrMatrix>)
    requires IsLink(cfg, l) && Remote(cfg, l) && round == RoundOf(cfg, l) && LinkOk(cfg, l, round, o, c, slot, wire)
    requires InGrid(cfg, Consumer(cfg, l)) && RankOk(cfg, Consumer(cfg, l), c) && c.phase == Fetch
    ensures LinkOk(cfg, l, round, o, PostLocal(cfg, Consumer(cfg, l), c), slot, wire)
  {
    StageOfLink(cfg, l);
  }

  /** Publishing in the link's own round asks for the next product. */
  lemma NotifyConsumer(cfg: Config, l: Link, round: nat, o: Local, c: Local, slot: nat, wire: seq<CsrMatrix>)
    requires IsLink(cfg, l) && round < cfg.side && LinkOk(cfg, l, round, o, c, slot, wire)
    requires c.stage == round && c.phase == (if ForA(cfg, l) then PublishA else PublishB)
    ensures LinkOk(cfg, l, round, o, NotifyLocal(c, if ForA(cfg, l) then PublishB else Wait, false), c.generation, wire)
  {
  }

  /** Publishing for another link leaves a link alone. */
  lemma NotifyOther(cfg: Config, l: Link, round: nat, o: Local, c: Local, own: bool, slot: nat, wire: seq<CsrMatrix>)
    requires IsLink(cfg, l) && round < cfg.side && LinkOk(cfg, l, round, o, c, slot, wire)
    requires c.phase == PublishA || c.phase == PublishB
    requires c.stage != round || ForA(cfg, l) != (c.phase == PublishA)
    ensures LinkOk(cfg, l, round, o, NotifyLocal(c, if c.phase == PublishA then PublishB else Wait, own), slot, wire)
  {
  }

  lemma ArriveConsumer(cfg: Config, l: Link, round: nat, o: Local, c: Local, slot: nat, wire: seq<CsrMatrix>)
    requires IsLink(cfg, l) && round < cfg.side && LinkOk(cfg, l, round, o, c, slot, wire)
    requires c.stage == round && InFetch(c.phase) && Awaits(cfg, l, c) && wire != []
    ensures LinkOk(cfg, l, round, o, ArriveLocal(c, ForA(cfg, l), wire[0]), slot, wire[1..])
  {
  }

  lemma ArriveOther(cfg: Config, l: Link, round: nat, o: Local, c: Local, slot: nat, wire: seq<CsrMatrix>,
                    forA: bool, tile: CsrMatrix)
    requires IsLink(cfg, l) && round < cfg.side && LinkOk(cfg, l, round, o, c, slot, wire)
    requires c.stage != round || ForA(cfg, l) != forA
    ensures LinkOk(cfg, l, round, o, ArriveLocal(c, forA, tile), slot, wire)
  {
  }

  lemma LaterConsumer(cfg: Config, l: Link, round: nat, o: Local, c: Local, c': Local, slot: nat, wire: seq<CsrMatrix>)
    requires IsLink(cfg, l) && round < cfg.side && LinkOk(cfg, l, round, o, c, slot, wire)
    requires PhaseOk(cfg, c) && cfg.side > 0
    requires (c.phase == Wait && !c.awaitA && !c.awaitB && c' == c.(phase := Assemble))
          || (c.phase == Assemble && c' == AssembledLocal(cfg, c))
          || (c.phase == Finish && c' == c.(phase := Idle))
    ensures LinkOk(cfg, l, round, o, c', slot, wire)
  {
  }

  /** A slot not yet answered never holds more than the current generation. */
  lemma PollOwner(cfg: Config, l: Link, polled: nat, round: nat, o: Local, c: Local, slot: nat, observed: nat, wire: seq<CsrMatrix>)
    requires IsLink(cfg, l) && LinkOk(cfg, l, round, o, c, slot, wire)
    requires o.service == Polling && polled !in o.consumed && observed <= o.generation
    requires polled == l.slot ==> observed == slot
    ensures LinkOk(cfg, l, round, PollLocal(o, polled, observed), c, slot, wire)
  {
  }

  lemma NoMismatch(cfg: Config, l: Link, round: nat, o: Local, c: Local, slot: nat, wire: seq<CsrMatrix>)
    requires LinkOk(cfg, l, round, o, c, slot, wire) && l.slot !in o.consumed
    ensures slot <= o.generation
  {
  }

  lemma SendOwner(cfg: Config, l: Link, round: nat, o: Local, c: Local, slot: nat, wire: seq<CsrMatrix>)
    requires IsLink(cfg, l) && LinkOk(cfg, l, round, o, c, slot, wire)
    requires RankOk(cfg, l.owner, o) && o.service == Sending(l.slot) && o.remaining > 0
    ensures LinkOk(cfg, l, round, SendLocal(o), c, slot, wire + [Owned(cfg, o.inputs, l.slot)])
  {
  }

  lemma SendOther(cfg: Config, l: Link, round: nat, o: Local, c: Local, slot: nat, wire: seq<CsrMatrix>)
    requires IsLink(cfg, l) && LinkOk(cfg, l, round, o, c, slot, wire)
    requires o.service.Sending? && o.service.slot != l.slot && o.remaining > 0
    ensures LinkOk(cfg, l, round, SendLocal(o), c, slot, wire)
  {
  }

  // ----- what a step does to its rank

  lemma OwnRounds(cfg: Config, r: Rank)
    requires InGrid(cfg, r)
    ensures 0 <= RoundOf(cfg, Link(r, r.j)) < cfg.side && 0 <= RoundOf(cfg, Link(r, cfg.side + r.i)) < cfg.side
    ensures forall stage: nat :: stage < cfg.side ==>
      (ALink(cfg, r, stage).owner == r <==> stage == RoundOf(cfg, Link(r, r.j)))
    ensures forall stage: nat :: stage < cfg.side ==>
      (BLink(cfg, r, stage).owner == r <==> stage == RoundOf(cfg, Link(r, cfg.side + r.i)))
  {
    StageOfLink(cfg, Link(r, r.j));
    StageOfLink(cfg, Link(r, cfg.side + r.i));
    forall stage: nat | stage < cfg.side
      ensures ALink(cfg, r, stage).owner == r ==> stage == RoundOf(cfg, Link(r, r.j))
      ensures BLink(cfg, r, stage).owner == r ==> stage == RoundOf(cfg, Link(r, cfg.side + r.i))
    {
      LinkOfStage(cfg, r, stage);
    }
  }

  lemma BeginRank(cfg: Config, r: Rank, x: Local)
    requires InGrid(cfg, r) && RankOk(cfg, r, x) && x.phase == Idle && x.generation < cfg.products
    ensures RankOk(cfg, r, BeginLocal(cfg, r, x))
  {
    OwnRounds(cfg, r);
    BelowMembers(2 * cfg.side);
    MulDistributes(x.generation, 1, Quota(cfg));
    MulCommutes(x.generation, Quota(cfg));
    MulCommutes(x.generation + 1, Quota(cfg));
    assert |{r.j, cfg.side + r.i}| == 2;
  }

  lemma PostRank(cfg: Config, r: Rank, x: Local)
    requires InGrid(cfg, r) && RankOk(cfg, r, x) && x.phase == Fetch
    ensures RankOk(cfg, r, PostLocal(cfg, r, x))
  {
  }

  lemma NotifyRank(cfg: Config, r: Rank, x: Local)
    requires InGrid(cfg, r) && RankOk(cfg, r, x)
    ensures x.phase == PublishA ==> RankOk(cfg, r, NotifyLocal(x, PublishB, ALink(cfg, r, x.stage).owner == r))
    ensures x.phase == PublishB ==> RankOk(cfg, r, NotifyLocal(x, Wait, BLink(cfg, r, x.stage).owner == r))
  {
    hide InGrid, ALink, BLink;
    OwnRounds(cfg, r);
  }

  lemma ArriveRank(cfg: Config, r: Rank, x: Local, forA: bool, tile: CsrMatrix)
    requires InGrid(cfg, r) && RankOk(cfg, r, x) && InFetch(x.phase) && (if forA then x.awaitA else x.awaitB)
    ensures RankOk(cfg, r, ArriveLocal(x, forA, tile))
  {
  }

  lemma LaterRank(cfg: Config, r: Rank, x: Local, x': Local)
    requires InGrid(cfg, r) && RankOk(cfg, r, x)
    requires (x.phase == Wait && !x.awaitA && !x.awaitB && x' == x.(phase := Assemble))
          || (x.phase == Assemble && x' == AssembledLocal(cfg, x))
          || (x.phase == Finish && x.service == Stopped && x' == x.(phase := Idle))
    ensures RankOk(cfg, r, x')
  {
  }

  lemma PollRank(cfg: Config, r: Rank, x: Local, slot: nat, observed: nat)
    requires InGrid(cfg, r) && RankOk(cfg, r, x) && x.service == Polling
    requires slot < 2 * cfg.side && slot !in x.consumed && observed <= x.generation
    ensures RankOk(cfg, r, PollLocal(x, slot, observed))
  {
  }

  lemma ChangeRank(cfg: Config, r: Rank, x: Local, inputs: Inputs)
    requires InGrid(cfg, r) && RankOk(cfg, r, x) && x.phase == Idle
    ensures RankOk(cfg, r, x.(inputs := inputs))
  {
  }

  lemma SendRank(cfg: Config, r: Rank, x: Local)
    requires InGrid(cfg, r) && RankOk(cfg, r, x) && x.service.Sending?
    ensures x.remaining > 0 && RankOk(cfg, r, SendLocal(x))
  {
    BelowMembers(2 * cfg.side);
  }

  // ----- every step keeps the invariant

  /** The state of a link and its two ranks, before and after a step of rank r. */
  ghost predicate Around(cfg: Config, s: State, step: Step, l: Link) {
    Enabled(cfg, s, step) && Joins(cfg, l) && LinkHolds(cfg, s, l) && RankOk(cfg, step.r, s.ranks(step.r))
  }

  ghost function NextOf(cfg: Config, s: State, step: Step, r: Rank): Local
    requires Enabled(cfg, s, step)
  {
    var l := Touched(cfg, s.ranks(step.r), step);
    if r == step.r then NextLocal(cfg, s.ranks(r), step, s.slots(l), s.wires(l)) else s.ranks(r)
  }

  /** The other rank of a link the step does not touch looks the same from the link. */
  lemma OwnerAside(cfg: Config, l: Link, round: int, o: Local, o': Local, c: Local, slot: nat, wire: seq<CsrMatrix>)
    requires LinkOk(cfg, l, round, o, c, slot, wire)
    requires o'.generation == o.generation && o'.consumed == o.consumed && o'.service == o.service && o'.history == o.history
    ensures LinkOk(cfg, l, round, o', c, slot, wire)
  {
  }

  /** Reading a link after a step: only the stepping rank and the touched link have changed. */
  lemma ReadAfter(cfg: Config, s: State, step: Step, l: Link)
    requires Enabled(cfg, s, step) && Joins(cfg, l)
    requires var m := Touched(cfg, s.ranks(step.r), step);
             LinkOk(cfg, l, RoundOf(cfg, l), NextOf(cfg, s, step, l.owner), NextOf(cfg, s, step, Consumer(cfg, l)),
                    if l == m then NextSlot(cfg, s.ranks(step.r), step, m, s.slots(m)) else s.slots(l),
                    if l == m then NextWire(cfg, s.ranks(step.r), step, s.wires(m)) else s.wires(l))
    ensures LinkHolds(cfg, Apply(cfg, s, step), l)
  {
  }

  lemma ChangeKeeps(cfg: Config, s: State, step: Step, l: Link)
    requires Around(cfg, s, step, l) && step.ChangeInputs?
    ensures LinkHolds(cfg, Apply(cfg, s, step), l)
  {
    hide Apply, RankOk, RoundOf, Touched;
    ReadAfter(cfg, s, step, l);
  }

  lemma BeginKeeps(cfg: Config, s: State, step: Step, l: Link)
    requires Around(cfg, s, step, l) && step.Begin?
    ensures LinkHolds(cfg, Apply(cfg, s, step), l)
  {
    var o, c := s.ranks(l.owner), s.ranks(Consumer(cfg, l));
    if step.r == l.owner {
      BeginOwner(cfg, l, RoundOf(cfg, l), o, c, s.slots(l), s.wires(l));
    } else if step.r == Consumer(cfg, l) {
      StageOfLink(cfg, l);
      BeginConsumer(cfg, l, RoundOf(cfg, l), o, c, s.slots(l), s.wires(l));
    }
    ReadAfter(cfg, s, step, l);
  }

  lemma PostKeeps(cfg: Config, s: State, step: Step, l: Link)
    requires Around(cfg, s, step, l) && step.Post?
    ensures LinkHolds(cfg, Apply(cfg, s, step), l)
  {
    var o, c := s.ranks(l.owner), s.ranks(Consumer(cfg, l));
    if step.r == Consumer(cfg, l) {
      StageOfLink(cfg, l);
      PostConsumer(cfg, l, RoundOf(cfg, l), o, c, s.slots(l), s.wires(l));
    } else {
      OwnerAside(cfg, l, RoundOf(cfg, l), o, NextOf(cfg, s, step, l.owner), c, s.slots(l), s.wires(l));
    }
    ReadAfter(cfg, s, step, l);
  }

  lemma AskKeeps(cfg: Config, s: State, step: Step, l: Link)
    requires Around(cfg, s, step, l) && (step.NotifyA? || step.NotifyB?) && l == Touched(cfg, s.ranks(step.r), step)
    ensures LinkHolds(cfg, Apply(cfg, s, step), l)
  {
    var x := s.ranks(step.r);
    LinkOfStage(cfg, step.r, x.stage);
    NotifyConsumer(cfg, l, RoundOf(cfg, l), s.ranks(l.owner), x, s.slots(l), s.wires(l));
    ReadAfter(cfg, s, step, l);
  }

  lemma NotifyKeeps(cfg: Config, s: State, step: Step, l: Link)
    requires Around(cfg, s, step, l) && (step.NotifyA? || step.NotifyB?)
    ensures LinkHolds(cfg, Apply(cfg, s, step), l)
  {
    hide Apply, RankOk, LinkOk, InGrid, ALink, BLink;
    var r, x := step.r, s.ranks(step.r);
    var m, o, c := Touched(cfg, x, step), s.ranks(l.owner), s.ranks(Consumer(cfg, l));
    if l == m {
      AskKeeps(cfg, s, step, l);
    } else {
      if r == Consumer(cfg, l) {
        StageOfLink(cfg, l);
        NotifyOther(cfg, l, RoundOf(cfg, l), o, x, m.owner == r, s.slots(l), s.wires(l));
      } else {
        OwnerAside(cfg, l, RoundOf(cfg, l), o, NextOf(cfg, s, step, l.owner), c, s.slots(l), s.wires(l));
      }
      ReadAfter(cfg, s, step, l);
    }
  }

  lemma ArriveKeeps(cfg: Config, s: State, step: Step, l: Link)
    requires Around(cfg, s, step, l) && (step.ArriveA? || step.ArriveB?)
    ensures LinkHolds(cfg, Apply(cfg, s, step), l)
  {
    hide Apply, Consumer, RoundOf, LinkOk;
    var r, x := step.r, s.ranks(step.r);
    var m, o, c := Touched(cfg, x, step), s.ranks(l.owner), s.ranks(Consumer(cfg, l));
    LinkOfStage(cfg, r, x.stage);
    if l == m {
      ArriveConsumer(cfg, l, RoundOf(cfg, l), o, x, s.slots(l), s.wires(l));
    } else if r == Consumer(cfg, l) {
      StageOfLink(cfg, l);
      ArriveOther(cfg, l, RoundOf(cfg, l), o, x, s.slots(l), s.wires(l), step.ArriveA?, s.wires(m)[0]);
    } else {
      OwnerAside(cfg, l, RoundOf(cfg, l), o, NextOf(cfg, s, step, l.owner), c, s.slots(l), s.wires(l));
    }
    ReadAfter(cfg, s, step, l);
  }

  lemma LaterKeeps(cfg: Config, s: State, step: Step, l: Link)
    requires Around(cfg, s, step, l) && (step.EndWait? || step.Assembled? || step.Finished?)
    ensures LinkHolds(cfg, Apply(cfg, s, step), l)
  {
    hide Consumer, RoundOf, LinkOk, Touched;
    var o, c := s.ranks(l.owner), s.ranks(Consumer(cfg, l));
    if step.r == Consumer(cfg, l) {
      StageOfLink(cfg, l);
      LaterConsumer(cfg, l, RoundOf(cfg, l), o, c, NextOf(cfg, s, step, step.r), s.slots(l), s.wires(l));
    } else {
      OwnerAside(cfg, l, RoundOf(cfg, l), o, NextOf(cfg, s, step, l.owner), c, s.slots(l), s.wires(l));
    }
    ReadAfter(cfg, s, step, l);
  }

  lemma ConsumerAside(cfg: Config, l: Link, round: int, o: Local, c: Local, c': Local, slot: nat, wire: seq<CsrMatrix>)
    requires LinkOk(cfg, l, round, o, c, slot, wire)
    requires c'.generation == c.generation && c'.phase == c.phase && c'.stage == c.stage && c'.workspace == c.workspace
    requires c'.awaitA == c.awaitA && c'.awaitB == c.awaitB
    ensures LinkOk(cfg, l, round, o, c', slot, wire)
  {
  }

  lemma PollKeeps(cfg: Config, s: State, step: Step, l: Link)
    requires Around(cfg, s, step, l) && step.Poll? && s.slots(Link(step.r, step.slot)) <= s.ranks(step.r).generation
    ensures LinkHolds(cfg, Apply(cfg, s, step), l)
  {
    var o, c := s.ranks(l.owner), s.ranks(Consumer(cfg, l));
    if step.r == l.owner {
      StageOfLink(cfg, l);
      PollOwner(cfg, l, step.slot, RoundOf(cfg, l), o, c, s.slots(l), s.slots(Link(step.r, step.slot)), s.wires(l));
    } else {
      ConsumerAside(cfg, l, RoundOf(cfg, l), o, c, NextOf(cfg, s, step, Consumer(cfg, l)), s.slots(l), s.wires(l));
    }
    ReadAfter(cfg, s, step, l);
  }

  lemma SendKeeps(cfg: Config, s: State, step: Step, l: Link)
    requires Around(cfg, s, step, l) && step.Send?
    ensures LinkHolds(cfg, Apply(cfg, s, step), l)
  {
    var o, c := s.ranks(l.owner), s.ranks(Consumer(cfg, l));
    if step.r == l.owner {
      StageOfLink(cfg, l);
      if o.service.slot == l.slot {
        SendOwner(cfg, l, RoundOf(cfg, l), o, c, s.slots(l), s.wires(l));
      } else {
        SendOther(cfg, l, RoundOf(cfg, l), o, c, s.slots(l), s.wires(l));
      }
    } else {
      ConsumerAside(cfg, l, RoundOf(cfg, l), o, c, NextOf(cfg, s, step, Consumer(cfg, l)), s.slots(l), s.wires(l));
    }
    ReadAfter(cfg, s, step, l);
  }

  /** The slot a service thread polls holds at most its current generation. */
  lemma PolledSlot(cfg: Config, s: State, r: Rank, slot: nat)
    requires Inv(cfg, s) && Enabled(cfg, s, Poll(r, slot))
    ensures s.slots(Link(r, slot)) <= s.ranks(r).generation
  {
    hide Inv, RoundOf, Consumer, NodeArrived, PhaseOk, OwnOk, CountsOk, Remote;
    var l := Link(r, slot);
    RankOf(cfg, s, r);
    OwnSlot(cfg, l);
    StageOfLink(cfg, l);
    LinkOf(cfg, s, l);
    NoMismatch(cfg, l, RoundOf(cfg, l), s.ranks(r), s.ranks(Consumer(cfg, l)), s.slots(l), s.wires(l));
  }

  lemma StepKeepsLink(cfg: Config, s: State, step: Step, l: Link)
    requires Inv(cfg, s) && Enabled(cfg, s, step) && Joins(cfg, l)
    ensures LinkHolds(cfg, Apply(cfg, s, step), l)
  {
    assert Around(cfg, s, step, l);
    match step
    case ChangeInputs(_, _) => ChangeKeeps(cfg, s, step, l);
    case Begin(_) => BeginKeeps(cfg, s, step, l);
    case Post(_) => PostKeeps(cfg, s, step, l);
    case NotifyA(_) => NotifyKeeps(cfg, s, step, l);
    case NotifyB(_) => NotifyKeeps(cfg, s, step, l);
    case ArriveA(_) => ArriveKeeps(cfg, s, step, l);
    case ArriveB(_) => ArriveKeeps(cfg, s, step, l);
    case EndWait(_) => LaterKeeps(cfg, s, step, l);
    case Assembled(_) => LaterKeeps(cfg, s, step, l);
    case Finished(_) => LaterKeeps(cfg, s, step, l);
    case Poll(r, slot) => PolledSlot(cfg, s, r, slot); PollKeeps(cfg, s, step, l);
    case Send(_) => SendKeeps(cfg, s, step, l);
  }

  lemma StepKeepsRank(cfg: Config, s: State, step: Step)
    requires Inv(cfg, s) && Enabled(cfg, s, step)
    ensures RankOk(cfg, step.r, Apply(cfg, s, step).ranks(step.r))
  {
    hide Inv, PhaseOk, ServiceOk, OwnOk, CountsOk, AssembledLocal, InGrid;
    var r, x := step.r, s.ranks(step.r);
    RankOf(cfg, s, r);
    var l := Touched(cfg, x, step);
    match step
    case ChangeInputs(_, inputs) => ChangeRank(cfg, r, x, inputs);
    case Begin(_) => BeginRank(cfg, r, x);
    case Post(_) => PostRank(cfg, r, x);
    case NotifyA(_) => NotifyRank(cfg, r, x);
    case NotifyB(_) => NotifyRank(cfg, r, x);
    case ArriveA(_) => ArriveRank(cfg, r, x, true, s.wires(l)[0]);
    case ArriveB(_) => ArriveRank(cfg, r, x, false, s.wires(l)[0]);
    case EndWait(_) => LaterRank(cfg, r, x, x.(phase := Assemble));
    case Assembled(_) => LaterRank(cfg, r, x, AssembledLocal(cfg, x));
    case Finished(_) => LaterRank(cfg, r, x, x.(phase := Idle));
    case Poll(_, slot) => PolledSlot(cfg, s, r, slot); PollRank(cfg, r, x, slot, s.slots(Link(r, slot)));
    case Send(_) => SendRank(cfg, r, x);
  }

  lemma StepKeepsInv(cfg: Config, s: State, step: Step)
    requires Inv(cfg, s) && Enabled(cfg, s, step)
    ensures Inv(cfg, Apply(cfg, s, step))
  {
    var t := Apply(cfg, s, step);
    forall l | Joins(cfg, l) ensures LinkHolds(cfg, t, l) {
      StepKeepsLink(cfg, s, step, l);
    }
    StepKeepsRank(cfg, s, step);
    forall r | InGrid(cfg, r) ensures RankOk(cfg, r, t.ranks(r)) {
      assert r != step.r ==> t.ranks(r) == s.ranks(r);
    }
  }

  lemma InitHolds(cfg: Config, s: State)
    requires Init(cfg, s)
    ensures Inv(cfg, s)
  {
    BelowMembers(2 * cfg.side);
    forall r | InGrid(cfg, r) ensures RankOk(cfg, r, s.ranks(r)) {
      OwnRounds(cfg, r);
    }
    forall l | Joins(cfg, l) ensures LinkHolds(cfg, s, l) {
      StageOfLink(cfg, l);
    }
  }

  lemma {:induction false} RunsKeepInv(cfg: Config, s: State, steps: seq<Step>)
    requires Inv(cfg, s) && Possible(cfg, s, steps)
    ensures Inv(cfg, After(cfg, s, steps))
    decreases |steps|
  {
    if steps != [] {
      StepKeepsInv(cfg, s, steps[0]);
      RunsKeepInv(cfg, Apply(cfg, s, steps[0]), steps[1..]);
    }
  }
}
