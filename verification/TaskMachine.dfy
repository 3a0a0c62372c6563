/**
 * The running task graph, seen callback by callback: each callback is at one point of its life, and a step is
 * one lock-protected body or one atomic access of one callback. Any callback that can move may move next.
 */
module TaskMachine {
  import opened Wrappers
  import opened TaskSyntax
  import opened TaskGraph

  /**
   * A cell: its value once written; for a tracking cell its target once tracked; for a when_all the slots stored
   * so far; for a when_all or when_any the children counted so far.
   */
  datatype Cell = Cell(value: Option<Outcome>, target: Option<nat>, slots: seq<Value>, counted: set<nat>)

  /** What a pending job or await of callback `edge` does next. */
  datatype Action =
    | Resolve(edge: nat)                        // runs the job of a created task, or completes a source
    | Register(edge: nat, at: nat)              // awaits on cell `at`
    | Invoke(edge: nat, result: Outcome)        // runs the callback on a result
    | CountUp(edge: nat)                        // when_all: the increment after the slot store
    | Publish(edge: nat)                        // when_all: writes the vector
    | PublishError(edge: nat, error: int)       // when_any: writes the last error
    | TrackTo(edge: nat, to: nat)               // bind: tracks the cell `to`

  /** A callback has an action pending, waits in a cell, or is done. */
  datatype Pc = Active(action: Action) | Waiting(at: nat) | Done

  datatype State = State(graph: Graph, cells: seq<Cell>, pcs: seq<Pc>)

  ghost predicate Shaped(s: State, sources: Sources) {
    Wired(s.graph, sources) && |s.cells| == |s.graph.labels| && |s.pcs| == |s.graph.edges|
  }

  function FreshCell(tag: Label): (c: Cell) {
    Cell(None, None, if tag.Task? && tag.e.WhenAll? then seq(|tag.e.all|, i => Num(0)) else [], {})
  }

  /** A callback begins with its job pending, or with its await. */
  function FirstPc(edge: Edge, e: nat): (pc: Pc) {
    if edge.Fill? then Active(Resolve(e)) else Active(Register(e, edge.src))
  }

  /** The state after the graph has grown to `g`: new cells are fresh and new callbacks are about to begin. */
  ghost function Grow(s: State, g: Graph): (r: State)
    requires |s.cells| <= |g.labels| && |s.pcs| <= |g.edges|
  {
    State(g,
          s.cells + seq(|g.labels| - |s.cells|, i requires 0 <= i < |g.labels| - |s.cells| => FreshCell(g.labels[|s.cells| + i])),
          s.pcs + seq(|g.edges| - |s.pcs|, i requires 0 <= i < |g.edges| - |s.pcs| => FirstPc(g.edges[|s.pcs| + i], |s.pcs| + i)))
  }

  function SetPc(s: State, e: nat, pc: Pc): (r: State)
    requires e < |s.pcs|
  {
    s.(pcs := s.pcs[e := pc])
  }

  /** Every callback waiting in cell `c` gets action `then` for it. */
  function Wake(pcs: seq<Pc>, c: nat, then_: nat -> Action): (r: seq<Pc>)
    ensures |r| == |pcs|
  {
    seq(|pcs|, i requires 0 <= i < |pcs| => if pcs[i] == Waiting(c) then Active(then_(i)) else pcs[i])
  }

  /** A write to a write-once cell: rejected if it is filled; else the waiting callbacks become jobs. */
  function Put(s: State, c: nat, r: Outcome): (s': State)
    requires c < |s.cells|
  {
    if s.cells[c].value.Some? then s
    else s.(cells := s.cells[c := s.cells[c].(value := Some(r))], pcs := Wake(s.pcs, c, (i: nat) => Invoke(i, r)))
  }

  /** A track: rejected if there is a target; else the waiting callbacks are awaited on the target. */
  function SetTarget(s: State, c: nat, to: nat): (s': State)
    requires c < |s.cells|
  {
    if s.cells[c].target.Some? then s
    else s.(cells := s.cells[c := s.cells[c].(target := Some(to))], pcs := Wake(s.pcs, c, (i: nat) => Register(i, to)))
  }

  /** The number of children of the combinator at `c`. */
  function Arity(g: Graph, c: nat): (n: nat) {
    if c >= |g.labels| then 0
    else match g.labels[c]
      case Task(WhenAll(es)) => |es|
      case Task(WhenAny(es)) => |es|
      case _ => 0
  }

  /** An await on cell `at`: passed on, answered, or kept. */
  function Registered(s: State, e: nat, at: nat): (pc: Pc)
    requires at < |s.cells|
  {
    if s.cells[at].target.Some? then Active(Register(e, s.cells[at].target.value))
    else if s.cells[at].value.Some? then Active(Invoke(e, s.cells[at].value.value))
    else Waiting(at)
  }

  /** The function of a `bind` builds a task, whose cell the callback is to track next. */
  ghost function Unfold(s: State, e: nat, task: Expr, sources: Sources): (s': State)
    requires Shaped(s, sources) && e < |s.pcs|
  {
    BuildWired(s.graph, task, sources);
    var (g', root) := Build(s.graph, task, |sources|);
    SetPc(Grow(s, g'), e, Active(TrackTo(e, root)))
  }

  /** A callback run on a result, up to its first shared access. */
  ghost function Invoked(s: State, e: nat, r: Outcome, sources: Sources): (s': State)
    requires Shaped(s, sources) && e < |s.pcs|
  {
    assert EdgeWired(s.graph, sources, e);
    match s.graph.edges[e]
    case Fill(_, _) => s
    case MapEdge(_, dst, f) => SetPc(Put(s, dst, MapOutcome(f, r)), e, Done)
    case BindEdge(_, dst, err, g) =>
      assert CellWired(s.graph, sources, dst);
      (match r
       case Ok(v) => Unfold(s, e, Then(g, v), sources)
       case Err(_) => SetPc(Put(s, err, r), e, Active(TrackTo(e, err))))
    case AllEdge(_, dst, i) =>
      (match r
       case Ok(v) =>
         if i < |s.cells[dst].slots| then
           SetPc(s.(cells := s.cells[dst := s.cells[dst].(slots := s.cells[dst].slots[i := v])]), e, Active(CountUp(e)))
         else s
       case Err(_) => SetPc(Put(s, dst, r), e, Done))
    case AnyEdge(_, dst, i) =>
      (match r
       case Ok(_) => SetPc(Put(s, dst, r), e, Done)
       case Err(error) =>
         SetPc(Count(s, dst, i), e,
               if |s.cells[dst].counted + {i}| >= Arity(s.graph, dst) then Active(PublishError(e, error)) else Done))
  }

  /** Counts child `i` of a combinator. */
  function Count(s: State, c: nat, i: nat): (s': State)
    requires c < |s.cells|
  {
    s.(cells := s.cells[c := s.cells[c].(counted := s.cells[c].counted + {i})])
  }

  /** The next access of callback `e`; a callback that waits or is done does nothing. */
  ghost function Step(s: State, e: nat, sources: Sources): (s': State)
    requires Shaped(s, sources) && e < |s.pcs|
  {
    assert EdgeWired(s.graph, sources, e);
    var edge := s.graph.edges[e];
    match s.pcs[e]
    case Waiting(_) => s
    case Done => s
    case Active(action) => match action {
      case Resolve(_) => if edge.Fill? then SetPc(Put(s, edge.dst, edge.result), e, Done) else s
      case Register(_, at) => if at < |s.cells| then SetPc(s, e, Registered(s, e, at)) else s
      case Invoke(_, r) => Invoked(s, e, r, sources)
      case CountUp(_) =>
        if edge.AllEdge? then
          SetPc(Count(s, edge.dst, edge.index), e,
                if |s.cells[edge.dst].counted + {edge.index}| >= Arity(s.graph, edge.dst) then Active(Publish(e)) else Done)
        else s
      case Publish(_) => SetPc(Put(s, edge.dst, Ok(Vec(s.cells[edge.dst].slots))), e, Done)
      case PublishError(_, error) => SetPc(Put(s, edge.dst, Err(error)), e, Done)
      case TrackTo(_, to) => SetPc(SetTarget(s, edge.dst, to), e, Done)
    }
  }

  /** The state in which all tasks of a program have been built and nothing has run. */
  ghost function Initial(program: seq<Expr>, sources: Sources): (s: State)
  {
    var g0 := SourceGraph(sources);
    SourceGraphWired(sources);
    BuildEachWired(g0, program, sources);
    Grow(State(Graph([], [], []), [], []), BuildEach(g0, program, |sources|).0)
  }

  // ---------- What a step can do ----------

  /** Cells only gain: a value or a target, once there, stays; so do wiring and cells. */
  ghost predicate Gains(s: State, s': State) {
    && Extends(s.graph, s'.graph)
    && |s.cells| <= |s'.cells|
    && forall c :: 0 <= c < |s.cells| ==>
        && (s.cells[c].value.Some? ==> s'.cells[c].value == s.cells[c].value)
        && (s.cells[c].target.Some? ==> s'.cells[c].target == s.cells[c].target)
  }

  /**
   * Chains of targets are finite: a tracking cell tracks a cell whose task its function gave, which is part of
   * its own expression, or a cell that tracks none.
   */
  ghost predicate Below(g: Graph, x: nat, c: nat) {
    && x < |g.labels| && c < |g.labels| && IsBind(g.labels[c])
    && (IsBind(g.labels[x]) ==> g.labels[x].e < g.labels[c].e)
  }

  /** Where cell `c` stands in that order. */
  ghost function Rank(g: Graph, c: nat): (n: nat) {
    if c < |g.labels| && IsBind(g.labels[c]) then 1 else 0
  }

  ghost function RankTask(g: Graph, c: nat): (e: Expr) {
    if c < |g.labels| && IsBind(g.labels[c]) then g.labels[c].e else NEVER
  }

  /** What an await on cell `c` would find: the value of the cell at the end of the chain of targets. */
  ghost function Read(s: State, c: nat): (r: Option<Outcome>)
    decreases Rank(s.graph, c), RankTask(s.graph, c)
  {
    if c >= |s.cells| then None
    else match s.cells[c].target
      case None => s.cells[c].value
      case Some(x) => if Below(s.graph, x, c) then Read(s, x) else None
  }

  /** Cell `at` is on the chain of targets of cell `c`. */
  ghost predicate OnChain(s: State, c: nat, at: nat)
    decreases Rank(s.graph, c), RankTask(s.graph, c)
  {
    c == at || (c < |s.cells| && s.cells[c].target.Some? &&
      Below(s.graph, s.cells[c].target.value, c) && OnChain(s, s.cells[c].target.value, at))
  }
}
