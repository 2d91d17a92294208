/** The GET transports as one step system: the simple one reads into the workspace, the pipelined
    one reads a stage ahead into a second pair of buffers and swaps.  Reads land one array at a
    time, at any moment before their flush; barriers fence the products. */
module Get {
  import Csr
  import opened Ranks
  import opened Buffers

  datatype Setup = Setup(cfg: Config, lengths: Lengths, pipelined: bool)

  /** Ready is between calls inside a product: the caller may be computing on the workspace. */
  datatype Phase = Idle | AtReady | Ready | Fetching | AtDone

  /** Two storages hold the workspace pair and the incoming pair; swapping exchanges their roles.
      stage counts completed fetches of the product; reads under way go to storage `dest`. */
  datatype Local = Local(
    active: bool, pending: bool, stage: nat, phase: Phase, entered: nat, left: nat,
    aSource: Rank, bSource: Rank, inputs: Arrays, store: bool -> Arrays, workspaceAt: bool, dest: bool,
    inFlight: set<Array>, history: seq<Arrays>)

  type State = Rank -> Local

  datatype Step =
    | ChangeInputs(r: Rank, inputs: Arrays) | Begin(r: Rank) | LeaveReady(r: Rank) | Fetch(r: Rank)
    | Land(r: Rank, buffer: Array) | Complete(r: Rank) | Finish(r: Rank) | LeaveDone(r: Rank)

  /** How many barriers each rank has entered. */
  ghost function Entered(s: State): Rank -> nat {
    r => s(r).entered
  }

  /** An exposed tile without entries has only a row pointer to read. */
  ghost predicate Requested(u: Setup, r: Rank, stage: nat, a: Array)
    requires InGrid(u.cfg, r)
  {
    var o := Source(u.cfg, r, a.forA, stage);
    o != r && (a.part == RowPtr || u.lengths(o, Array(a.forA, Values)) > 0)
  }

  ghost function StartedArray(u: Setup, r: Rank, x: Local, stage: nat, prior: Arrays, a: Array): seq<int>
    requires InGrid(u.cfg, r)
  {
    var o := Source(u.cfg, r, a.forA, stage);
    if o == r then x.inputs(a) else Csr.Resized(prior(a), u.lengths(o, a), 0)
  }

  /** startFetch: own tiles are copied, other tiles are resized and requested. */
  ghost function Started(u: Setup, r: Rank, x: Local, stage: nat): Local
    requires InGrid(u.cfg, r)
  {
    var dest := if u.pipelined then !x.workspaceAt else x.workspaceAt;
    x.(pending := true, dest := dest,
       aSource := Source(u.cfg, r, true, stage), bSource := Source(u.cfg, r, false, stage),
       store := Set(x.store, dest, a => StartedArray(u, r, x, stage, x.store(dest), a)),
       inFlight := set a | a in AllArrays() && Requested(u, r, stage, a))
  }

  /** A product starts; the pipelined transport requests its first stage at once. */
  ghost function Opened(u: Setup, r: Rank, x: Local): Local
    requires InGrid(u.cfg, r)
  {
    var y := x.(phase := Ready, active := true);
    if u.pipelined then Started(u, r, y, 0) else y
  }

  /** completeFetch; the pipelined transport then swaps the pairs and requests the next stage. */
  ghost function Completed(u: Setup, r: Rank, x: Local): Local
    requires InGrid(u.cfg, r)
  {
    var y := x.(phase := Ready, pending := false, stage := x.stage + 1);
    if !u.pipelined then y
    else
      var swapped := y.(workspaceAt := !y.workspaceAt);
      if y.stage < u.cfg.side then Started(u, r, swapped, y.stage) else swapped
  }

  ghost predicate Enabled(u: Setup, s: State, step: Step) {
    InGrid(u.cfg, step.r) &&
    var x := s(step.r);
    match step
    case ChangeInputs(_, _) => x.phase == Idle
    case Begin(_) => x.phase == Idle && |x.history| < u.cfg.products && Fit(u.lengths, step.r, x.inputs)
    case LeaveReady(r) => x.phase == AtReady && BarrierOpen(u.cfg, Entered(s), r)
    case Fetch(_) => x.phase == Ready && x.stage < u.cfg.side
    case Land(_, a) => a in x.inFlight
    case Complete(_) => x.phase == Fetching && x.inFlight == {}
    case Finish(_) => x.phase == Ready && x.stage == u.cfg.side
    case LeaveDone(r) => x.phase == AtDone && BarrierOpen(u.cfg, Entered(s), r)
  }

  ghost function BeginLocal(u: Setup, r: Rank, x: Local): Local
    requires InGrid(u.cfg, r)
  {
    var y := x.(stage := 0, history := x.history + [x.inputs]);
    if u.cfg.side > 1 then y.(phase := AtReady, entered := x.entered + 1) else Opened(u, r, y)
  }

  ghost function FinishLocal(u: Setup, x: Local): Local {
    if u.cfg.side > 1 then x.(phase := AtDone, entered := x.entered + 1) else x.(phase := Idle, active := false)
  }

  /** A landed read holds the source's array as it is at that moment. */
  ghost function LandLocal(x: Local, a: Array, data: seq<int>): Local {
    x.(inFlight := x.inFlight - {a},
       store := Set(x.store, x.dest, Set(x.store(x.dest), a, Overwrite(x.store(x.dest)(a), data))))
  }

  ghost function NextLocal(u: Setup, s: State, step: Step): Local
    requires InGrid(u.cfg, step.r)
  {
    var x := s(step.r);
    match step
    case ChangeInputs(_, inputs) => x.(inputs := inputs)
    case Begin(r) => BeginLocal(u, r, x)
    case LeaveReady(r) => Opened(u, r, x.(left := x.left + 1))
    case Fetch(r) => (if u.pipelined then x else Started(u, r, x, x.stage)).(phase := Fetching)
    case Land(_, a) => LandLocal(x, a, s(if a.forA then x.aSource else x.bSource).inputs(a))
    case Complete(r) => Completed(u, r, x)
    case Finish(_) => FinishLocal(u, x)
    case LeaveDone(_) => x.(phase := Idle, active := false, left := x.left + 1)
  }

  ghost function Apply(u: Setup, s: State, step: Step): State
    requires Enabled(u, s, step)
  {
    Set(s, step.r, NextLocal(u, s, step))
  }

  ghost predicate Init(u: Setup, s: State) {
    forall r :: InGrid(u.cfg, r) ==>
      var x := s(r);
      !x.active && !x.pending && x.stage == x.entered == x.left == 0 && x.phase == Idle && x.inFlight == {} && x.history == []
  }

  ghost predicate Possible(u: Setup, s: State, steps: seq<Step>)
    decreases |steps|
  {
    steps == [] || (Enabled(u, s, steps[0]) && Possible(u, Apply(u, s, steps[0]), steps[1..]))
  }

  ghost function After(u: Setup, s: State, steps: seq<Step>): State
    requires Possible(u, s, steps)
    decreases |steps|
  {
    if steps == [] then s else After(u, Apply(u, s, steps[0]), steps[1..])
  }
}
