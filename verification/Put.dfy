/** The PUT transport as a step system: two barriers per stage, fixed receive buffers, and puts
    that land one array at a time, at any moment before their flush. */
module Put {
  import Csr
  import opened Ranks
  import opened Buffers

  /** Outside fetch (computing, or between products), then the steps of fetch in order. */
  datatype Phase = Outside | Prepared | AtReady | Putting | Flushing | AtDone

  /** stage is nextStage_; round counts all fetches so far; entered and left count barriers. */
  datatype Local = Local(
    active: bool, stage: nat, round: nat, phase: Phase, entered: nat, left: nat,
    inputs: Arrays, workspace: Arrays, inFlight: set<Array>, history: seq<Arrays>)

  type State = Rank -> Local

  datatype Step =
    | ChangeInputs(r: Rank, inputs: Arrays) | Begin(r: Rank) | Prepare(r: Rank) | EnterReady(r: Rank) | LeaveReady(r: Rank)
    | Issue(r: Rank) | Land(r: Rank, buffer: Array) | Flushed(r: Rank) | LeaveDone(r: Rank) | SingleNode(r: Rank) | Finish(r: Rank)

  /** An empty tile has no column and value arrays to put. */
  ghost predicate Transferred(inputs: Arrays, x: Array) {
    x.part == RowPtr || |inputs(Array(x.forA, Values))| > 0
  }

  ghost predicate Puts(cfg: Config, r: Rank, x: Local, a: Array)
    requires InGrid(cfg, r)
  {
    Target(cfg, r, a.forA, x.stage) != r && Transferred(x.inputs, a)
  }

  ghost function Issued(cfg: Config, r: Rank, x: Local): set<Array>
    requires InGrid(cfg, r)
  {
    set a | a in AllArrays() && Puts(cfg, r, x, a)
  }

  ghost function PreparedArray(cfg: Config, lengths: Lengths, r: Rank, x: Local, a: Array): seq<int>
    requires InGrid(cfg, r)
  {
    var o := Source(cfg, r, a.forA, x.stage);
    var resized := Csr.Resized(x.workspace(a), lengths(o, a), 0);
    if o == r then Overwrite(resized, x.inputs(a)) else resized
  }

  /** Both tiles are resized to the stage's shapes; own tiles are copied into the existing storage. */
  ghost function PrepareLocal(cfg: Config, lengths: Lengths, r: Rank, x: Local): Local
    requires InGrid(cfg, r)
  {
    x.(phase := Prepared, workspace := (a => PreparedArray(cfg, lengths, r, x, a)))
  }

  /** How many barriers each rank has entered. */
  ghost function Entered(s: State): Rank -> nat {
    r => s(r).entered
  }

  ghost predicate Enabled(cfg: Config, lengths: Lengths, s: State, step: Step) {
    InGrid(cfg, step.r) &&
    var x := s(step.r);
    match step
    case ChangeInputs(_, _) => !x.active
    case Begin(_) => !x.active && |x.history| < cfg.products && Fit(lengths, step.r, x.inputs)
    case Prepare(_) => x.active && x.phase == Outside && x.stage < cfg.side
    case EnterReady(_) => x.phase == Prepared && cfg.side > 1
    case LeaveReady(r) => x.phase == AtReady && BarrierOpen(cfg, Entered(s), r)
    case Issue(_) => x.phase == Putting
    case Land(_, a) => a in x.inFlight
    case Flushed(_) => x.phase == Flushing && x.inFlight == {}
    case LeaveDone(r) => x.phase == AtDone && BarrierOpen(cfg, Entered(s), r)
    case SingleNode(_) => x.phase == Prepared && cfg.side == 1
    case Finish(_) => x.active && x.phase == Outside && x.stage == cfg.side
  }

  ghost function NextLocal(cfg: Config, lengths: Lengths, x: Local, step: Step): Local
    requires InGrid(cfg, step.r)
  {
    match step
    case ChangeInputs(_, inputs) => x.(inputs := inputs)
    case Begin(_) => x.(active := true, stage := 0, history := x.history + [x.inputs])
    case Prepare(r) => PrepareLocal(cfg, lengths, r, x)
    case EnterReady(_) => x.(phase := AtReady, entered := x.entered + 1)
    case LeaveReady(_) => x.(phase := Putting, left := x.left + 1)
    case Issue(r) => x.(phase := Flushing, inFlight := Issued(cfg, r, x))
    case Land(_, a) => x.(inFlight := x.inFlight - {a})
    case Flushed(_) => x.(phase := AtDone, entered := x.entered + 1)
    case LeaveDone(_) => x.(phase := Outside, left := x.left + 1, stage := x.stage + 1, round := x.round + 1)
    case SingleNode(_) => x.(phase := Outside, stage := x.stage + 1, round := x.round + 1)
    case Finish(_) => x.(active := false)
  }

  /** A landing put overwrites the target's array with the origin's current one. */
  ghost function Landed(y: Local, a: Array, data: seq<int>): Local {
    y.(workspace := Set(y.workspace, a, Overwrite(y.workspace(a), data)))
  }

  ghost function Apply(cfg: Config, lengths: Lengths, s: State, step: Step): State
    requires Enabled(cfg, lengths, s, step)
  {
    var x := s(step.r);
    var moved := Set(s, step.r, NextLocal(cfg, lengths, x, step));
    if step.Land? then
      var target := Target(cfg, step.r, step.buffer.forA, x.stage);
      Set(moved, target, Landed(moved(target), step.buffer, x.inputs(step.buffer)))
    else moved
  }

  /** No barrier left or entered, no product begun, nothing in flight. */
  ghost predicate Init(cfg: Config, s: State) {
    forall r :: InGrid(cfg, r) ==>
      var x := s(r);
      !x.active && x.stage == x.round == x.entered == x.left == 0 && x.phase == Outside && x.inFlight == {} && x.history == []
  }

  ghost predicate Possible(cfg: Config, lengths: Lengths, s: State, steps: seq<Step>)
    decreases |steps|
  {
    steps == [] ||
    (Enabled(cfg, lengths, s, steps[0]) && Possible(cfg, lengths, Apply(cfg, lengths, s, steps[0]), steps[1..]))
  }

  ghost function After(cfg: Config, lengths: Lengths, s: State, steps: seq<Step>): State
    requires Possible(cfg, lengths, s, steps)
    decreases |steps|
  {
    if steps == [] then s else After(cfg, lengths, Apply(cfg, lengths, s, steps[0]), steps[1..])
  }
}
