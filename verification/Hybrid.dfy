/** The Hybrid transport as a step system over all ranks: main threads that fetch, and service
    threads that answer requests, with one generation slot per consumer and input matrix. */
module Hybrid {
  import opened Csr
  import opened Grid
  import opened Ranks

  /** A generation slot in the owner's window, which is also the ordered stream of payload from the
      owner to the consumer of that slot (one tag per matrix). */
  datatype Link = Link(owner: Rank, slot: nat)

  datatype Inputs = Inputs(a: CsrMatrix, b: CsrMatrix)

  /** Where the main thread is: within `fetch` of a stage, in `assemble`, in `finish`, or outside a product. */
  datatype Phase = Fetch | PublishA | PublishB | Wait | Assemble | Finish | Idle

  datatype Service = Stopped | Polling | Sending(slot: nat) | Mismatch

  datatype Local = Local(
    generation: nat, phase: Phase, stage: nat, inputs: Inputs, workspace: Inputs, awaitA: bool, awaitB: bool,
    consumed: set<nat>, remaining: nat, service: Service, published: nat, served: nat,
    history: seq<Inputs>)

  /** Everything there is: the ranks, the generation slots and the payload under way. */
  datatype State = State(ranks: Rank -> Local, slots: Link -> nat, wires: Link -> seq<CsrMatrix>)

  datatype Step =
    | ChangeInputs(r: Rank, inputs: Inputs) | Begin(r: Rank) | Post(r: Rank) | NotifyA(r: Rank) | NotifyB(r: Rank)
    | ArriveA(r: Rank) | ArriveB(r: Rank) | EndWait(r: Rank) | Assembled(r: Rank) | Finished(r: Rank)
    | Poll(r: Rank, slot: nat) | Send(r: Rank)

  // ----- addresses

  predicate IsLink(cfg: Config, l: Link) {
    InGrid(cfg, l.owner) && l.slot < 2 * cfg.side
  }

  /** Stage `stage` of rank r takes A from here, and asks in slot `column of r`. */
  function ALink(cfg: Config, r: Rank, stage: nat): Link
    requires InGrid(cfg, r)
  {
    Link(Source(cfg, r, true, stage), r.j)
  }

  function BLink(cfg: Config, r: Rank, stage: nat): Link
    requires InGrid(cfg, r)
  {
    Link(Source(cfg, r, false, stage), cfg.side + r.i)
  }

  /** The rank the service thread answers for a slot. */
  function Consumer(cfg: Config, l: Link): Rank {
    if l.slot < cfg.side then Rank(l.owner.i, l.slot, l.owner.k) else Rank(l.slot - cfg.side, l.owner.j, l.owner.k)
  }

  predicate Remote(cfg: Config, l: Link) {
    Consumer(cfg, l) != l.owner
  }

  // ----- steps

  ghost function Slots(n: nat): set<nat> {
    Below(n)
  }

  /** Before the first product every slot holds 0 and counts as answered. */
  ghost predicate InitialLocal(cfg: Config, x: Local) {
    && x.generation == 0 && x.phase == Idle && x.stage == cfg.side && !x.awaitA && !x.awaitB
    && x.consumed == Slots(2 * cfg.side) && x.remaining == 0 && x.service == Stopped
    && x.published == x.served == 0 && x.history == []
  }

  ghost predicate Init(cfg: Config, s: State) {
    && (forall r :: InGrid(cfg, r) ==> InitialLocal(cfg, s.ranks(r)))
    && (forall l :: IsLink(cfg, l) ==> s.slots(l) == 0 && s.wires(l) == [])
  }

  function PhaseIndex(p: Phase): nat {
    match p
    case Fetch => 0
    case PublishA => 1
    case PublishB => 2
    case Wait => 3
    case Assemble => 4
    case Finish => 5
    case Idle => 6
  }

  /** Products first, then stages, then the place within a stage. */
  function PlaceOf(x: Local): Place {
    Place(x.generation, x.stage, PhaseIndex(x.phase))
  }

  /** The node-local exchange of a stage ends once every rank of the node has entered it. */
  ghost predicate NodeArrived(cfg: Config, s: State, r: Rank) {
    forall k: nat | k < cfg.nodeSize :: NotAhead(PlaceOf(s.ranks(r)), PlaceOf(s.ranks(Rank(r.i, r.j, k))))
  }

  predicate InFetch(p: Phase) {
    p == PublishA || p == PublishB || p == Wait
  }

  /** The only slot or stream a step reads or writes. */
  function Touched(cfg: Config, x: Local, step: Step): Link
    requires InGrid(cfg, step.r)
  {
    match step
    case Poll(r, slot) => Link(r, slot)
    case Send(r) => Link(r, if x.service.Sending? then x.service.slot else 0)
    case _ => if step.NotifyA? || step.ArriveA? then ALink(cfg, step.r, x.stage) else BLink(cfg, step.r, x.stage)
  }

  ghost predicate LocallyEnabled(cfg: Config, x: Local, step: Step, wire: seq<CsrMatrix>) {
    match step
    case ChangeInputs(_, _) => x.phase == Idle
    case Begin(_) => x.phase == Idle && x.generation < cfg.products
    case Post(_) => x.phase == Fetch
    case NotifyA(_) => x.phase == PublishA
    case NotifyB(_) => x.phase == PublishB
    case ArriveA(_) => InFetch(x.phase) && x.awaitA && wire != []
    case ArriveB(_) => InFetch(x.phase) && x.awaitB && wire != []
    case EndWait(_) => x.phase == Wait && !x.awaitA && !x.awaitB
    case Assembled(_) => x.phase == Assemble
    case Finished(_) => x.phase == Finish && x.service == Stopped
    case Poll(_, slot) => x.service == Polling && slot < 2 * cfg.side && slot !in x.consumed
    case Send(_) => x.service.Sending? && x.remaining > 0
  }

  ghost predicate Enabled(cfg: Config, s: State, step: Step) {
    && InGrid(cfg, step.r)
    && LocallyEnabled(cfg, s.ranks(step.r), step, s.wires(Touched(cfg, s.ranks(step.r), step)))
    && (step.Assembled? ==> NodeArrived(cfg, s, step.r))
  }

  function BeginLocal(cfg: Config, r: Rank, x: Local): Local
    requires InGrid(cfg, r)
  {
    x.(generation := x.generation + 1, phase := Fetch, stage := 0,
       consumed := {r.j, cfg.side + r.i}, remaining := 2 * (cfg.side - 1),
       service := if cfg.side > 1 then Polling else Stopped,
       history := x.history + [x.inputs])
  }

  /** Own tiles are copied; for others a receive is posted. */
  function PostLocal(cfg: Config, r: Rank, x: Local): Local
    requires InGrid(cfg, r)
  {
    var ownA, ownB := ALink(cfg, r, x.stage).owner == r, BLink(cfg, r, x.stage).owner == r;
    x.(phase := PublishA, awaitA := !ownA, awaitB := !ownB,
       workspace := Inputs(if ownA then x.inputs.a else x.workspace.a, if ownB then x.inputs.b else x.workspace.b))
  }

  /** Asking for a remote tile counts as a published request. */
  function NotifyLocal(x: Local, next: Phase, own: bool): Local {
    x.(phase := next, published := if own then x.published else x.published + 1)
  }

  function ArriveLocal(x: Local, forA: bool, tile: CsrMatrix): Local {
    if forA then x.(awaitA := false, workspace := x.workspace.(a := tile))
    else x.(awaitB := false, workspace := x.workspace.(b := tile))
  }

  function AssembledLocal(cfg: Config, x: Local): Local {
    x.(phase := if x.stage + 1 < cfg.side then Fetch else Finish, stage := x.stage + 1)
  }

  function PollLocal(x: Local, slot: nat, observed: nat): Local {
    if observed < x.generation then x
    else if observed != x.generation then x.(service := Mismatch)
    else x.(service := Sending(slot))
  }

  function SendLocal(x: Local): Local
    requires x.service.Sending? && x.remaining > 0
  {
    x.(consumed := x.consumed + {x.service.slot}, remaining := x.remaining - 1, served := x.served + 1,
       service := if x.remaining == 1 then Stopped else Polling)
  }

  /** The tile a slot asks for. */
  function Owned(cfg: Config, inputs: Inputs, slot: nat): CsrMatrix {
    if slot < cfg.side then inputs.a else inputs.b
  }

  ghost function NextLocal(cfg: Config, x: Local, step: Step, slot: nat, wire: seq<CsrMatrix>): Local
    requires InGrid(cfg, step.r) && LocallyEnabled(cfg, x, step, wire)
  {
    match step
    case ChangeInputs(_, inputs) => x.(inputs := inputs)
    case Begin(r) => BeginLocal(cfg, r, x)
    case Post(r) => PostLocal(cfg, r, x)
    case NotifyA(r) => NotifyLocal(x, PublishB, ALink(cfg, r, x.stage).owner == r)
    case NotifyB(r) => NotifyLocal(x, Wait, BLink(cfg, r, x.stage).owner == r)
    case ArriveA(_) => ArriveLocal(x, true, wire[0])
    case ArriveB(_) => ArriveLocal(x, false, wire[0])
    case EndWait(_) => x.(phase := Assemble)
    case Assembled(_) => AssembledLocal(cfg, x)
    case Finished(_) => x.(phase := Idle)
    case Poll(_, polled) => PollLocal(x, polled, slot)
    case Send(_) => SendLocal(x)
  }

  /** The touched slot: a request for a remote tile writes the generation there. */
  ghost function NextSlot(cfg: Config, x: Local, step: Step, l: Link, slot: nat): nat {
    if (step.NotifyA? || step.NotifyB?) && l.owner != step.r then x.generation else slot
  }

  /** The touched stream: payload is sent at its end and arrives from its head. */
  ghost function NextWire(cfg: Config, x: Local, step: Step, wire: seq<CsrMatrix>): seq<CsrMatrix>
    requires LocallyEnabled(cfg, x, step, wire)
  {
    match step
    case ArriveA(_) => wire[1..]
    case ArriveB(_) => wire[1..]
    case Send(_) => wire + [Owned(cfg, x.inputs, x.service.slot)]
    case _ => wire
  }

  ghost function Apply(cfg: Config, s: State, step: Step): State
    requires Enabled(cfg, s, step)
  {
    var x := s.ranks(step.r);
    var l := Touched(cfg, x, step);
    State(Set(s.ranks, step.r, NextLocal(cfg, x, step, s.slots(l), s.wires(l))),
          Set(s.slots, l, NextSlot(cfg, x, step, l, s.slots(l))),
          Set(s.wires, l, NextWire(cfg, x, step, s.wires(l))))
  }

  /** Every interleaving: each step is possible where the steps before it have led. */
  ghost predicate Possible(cfg: Config, s: State, steps: seq<Step>)
    decreases |steps|
  {
    steps == [] || (Enabled(cfg, s, steps[0]) && Possible(cfg, Apply(cfg, s, steps[0]), steps[1..]))
  }

  ghost function After(cfg: Config, s: State, steps: seq<Step>): State
    requires Possible(cfg, s, steps)
    decreases |steps|
  {
    if steps == [] then s else After(cfg, Apply(cfg, s, steps[0]), steps[1..])
  }
}
