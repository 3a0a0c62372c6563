/**
 * The running task graph as the program holds it: a heap of cells with their lists of callbacks, and the jobs,
 * awaits and atomic accesses that are pending. Any pending action may happen next.
 */
module TaskHeap {
  import opened Wrappers
  import opened CellModel
  import opened TaskSyntax
  import opened TaskGraph
  import opened TaskMachine

  /** What the callbacks of a when_all or when_any share. */
  datatype Context = NoContext | AllOf(all: AllContext<Value>) | AnyOf(any: AnyContext)

  /** Callbacks are known by their index in the graph. */
  datatype HeapCell =
    | Once(once: OnceCell<Value, int, nat>, context: Context)
    | Tracking(tracking: TrackingCell<nat, nat>)

  datatype Heap = Heap(graph: Graph, cells: seq<HeapCell>, pending: multiset<Action>)

  function NewCell(tag: Label): (c: HeapCell) {
    match tag
    case Task(Bind(_, _)) => Tracking(TrackingCell(None, []))
    case Task(WhenAll(es)) => Once(FreshOnce(), AllOf(AllContext(seq(|es|, i => Num(0)), 0)))
    case Task(WhenAny(es)) => Once(FreshOnce(), AnyOf(AnyContext(0, |es|)))
    case _ => Once(FreshOnce(), NoContext)
  }

  /** The jobs that run callbacks on the result of a cell. */
  function Jobs(out: seq<Delivery<Value, int, nat>>): (r: seq<Action>)
    ensures |r| == |out|
  {
    seq(|out|, i requires 0 <= i < |out| => Invoke(out[i].callback, out[i].result))
  }

  /** The awaits that a tracking cell passes on. */
  function Awaits(out: seq<Forward<nat, nat>>): (r: seq<Action>)
    ensures |r| == |out|
  {
    seq(|out|, i requires 0 <= i < |out| => Register(out[i].callback, out[i].to))
  }

  ghost function Queue(h: Heap, actions: seq<Action>): (r: Heap) {
    h.(pending := h.pending + multiset(actions))
  }

  ghost function SetCell(h: Heap, c: nat, cell: HeapCell): (r: Heap)
    requires c < |h.cells|
  {
    h.(cells := h.cells[c := cell])
  }

  ghost function WriteTo(h: Heap, c: nat, result: Outcome): (r: Heap) {
    if c < |h.cells| && h.cells[c].Once? then
      var (once, _, out) := OnceWrite(h.cells[c].once, result);
      Queue(SetCell(h, c, h.cells[c].(once := once)), Jobs(out))
    else h
  }

  ghost function AwaitOn(h: Heap, c: nat, e: nat): (r: Heap) {
    if c >= |h.cells| then h
    else match h.cells[c]
      case Once(once, _) =>
        var (after, out) := OnceAwait(once, e);
        Queue(SetCell(h, c, h.cells[c].(once := after)), Jobs(out))
      case Tracking(tracking) =>
        var (after, out) := TrackingAwait(tracking, e);
        Queue(SetCell(h, c, Tracking(after)), Awaits(out))
  }

  ghost function TrackOn(h: Heap, c: nat, to: nat): (r: Heap) {
    if c < |h.cells| && h.cells[c].Tracking? then
      var (tracking, _, out) := Track(h.cells[c].tracking, to);
      Queue(SetCell(h, c, Tracking(tracking)), Awaits(out))
    else h
  }

  /** The cells of a larger graph are allocated, and what is built begins. */
  ghost function Allocate(h: Heap, g: Graph): (r: Heap)
    requires |h.cells| <= |g.labels| && |h.graph.edges| <= |g.edges|
  {
    var n, m := |h.cells|, |h.graph.edges|;
    Heap(g,
         h.cells + seq(|g.labels| - n, i requires 0 <= i < |g.labels| - n => NewCell(g.labels[n + i])),
         h.pending + multiset(Beginnings(g, m)))
  }

  /** The first actions of the callbacks from `m` on. */
  ghost function Beginnings(g: Graph, m: nat): (r: seq<Action>)
    requires m <= |g.edges|
    ensures |r| == |g.edges| - m
  {
    seq(|g.edges| - m, i requires 0 <= i < |g.edges| - m => FirstPc(g.edges[m + i], m + i).action)
  }

  /** The context of the combinator at `c`. */
  ghost function ContextOf(h: Heap, c: nat): (r: Context) {
    if c < |h.cells| && h.cells[c].Once? then h.cells[c].context else NoContext
  }

  ghost function SetContext(h: Heap, c: nat, context: Context): (r: Heap) {
    if c < |h.cells| && h.cells[c].Once? then SetCell(h, c, h.cells[c].(context := context)) else h
  }

  /** The child callback of a when_all on a value: it stores its slot; the increment is its next access. */
  ghost function StoreSlot(h: Heap, e: nat, c: nat, i: nat, v: Value): (r: Heap) {
    match ContextOf(h, c)
    case AllOf(all) =>
      if i < |all.values| then Queue(SetContext(h, c, AllOf(StoreValue(all, i, v))), [CountUp(e)]) else h
    case _ => h
  }

  /** The increment; the callback that sees the full count goes on to write. */
  ghost function CountSlot(h: Heap, e: nat, c: nat): (r: Heap) {
    match ContextOf(h, c)
    case AllOf(all) =>
      var (after, full) := CountResolved(all);
      Queue(SetContext(h, c, AllOf(after)), if full then [Publish(e)] else [])
    case _ => h
  }

  ghost function WriteSlots(h: Heap, c: nat): (r: Heap) {
    match ContextOf(h, c)
    case AllOf(all) => WriteTo(h, c, Ok(Vec(all.values)))
    case _ => h
  }

  /** The child callback of a when_any on an error; the one that sees all errors goes on to write its own. */
  ghost function CountError(h: Heap, e: nat, c: nat, error: int): (r: Heap) {
    match ContextOf(h, c)
    case AnyOf(any) =>
      var (after, allErrored) := LogError(any);
      Queue(SetContext(h, c, AnyOf(after)), if allErrored then [PublishError(e, error)] else [])
    case _ => h
  }

  /** The function of a `bind` builds a task, whose cell the callback is to track next. */
  ghost function UnfoldOn(h: Heap, e: nat, task: Expr, sources: Sources): (h': Heap)
    requires Wired(h.graph, sources) && |h.cells| == |h.graph.labels|
  {
    BuildWired(h.graph, task, sources);
    var (g', root) := Build(h.graph, task, |sources|);
    Queue(Allocate(h, g'), [TrackTo(e, root)])
  }

  /** A callback run on a result, up to its first shared access. */
  ghost function RunCallback(h: Heap, e: nat, r: Outcome, sources: Sources): (h': Heap)
    requires Wired(h.graph, sources) && |h.cells| == |h.graph.labels| && e < |h.graph.edges|
  {
    match h.graph.edges[e]
    case Fill(_, _) => h
    case MapEdge(_, dst, f) => WriteTo(h, dst, MapOutcome(f, r))
    case BindEdge(_, _, err, g) =>
      (match r
       case Ok(v) => UnfoldOn(h, e, Then(g, v), sources)
       case Err(_) => Queue(WriteTo(h, err, r), [TrackTo(e, err)]))
    case AllEdge(_, dst, i) => if r.Ok? then StoreSlot(h, e, dst, i, r.value) else WriteTo(h, dst, r)
    case AnyEdge(_, dst, i) => if r.Ok? then WriteTo(h, dst, r) else CountError(h, e, dst, r.error)
  }

  ghost predicate HeapShaped(h: Heap, sources: Sources) {
    Wired(h.graph, sources) && |h.cells| == |h.graph.labels|
  }

  /** One pending action happens. */
  ghost function Perform(h: Heap, a: Action, sources: Sources): (h': Heap)
    requires HeapShaped(h, sources) && a.edge < |h.graph.edges|
  {
    var rest, e, edge := h.(pending := h.pending - multiset{a}), a.edge, h.graph.edges[a.edge];
    match a
    case Resolve(_) => if edge.Fill? then WriteTo(rest, edge.dst, edge.result) else rest
    case Register(_, at) => AwaitOn(rest, at, e)
    case Invoke(_, r) => RunCallback(rest, e, r, sources)
    case CountUp(_) => CountSlot(rest, e, edge.dst)
    case Publish(_) => WriteSlots(rest, edge.dst)
    case PublishError(_, error) => WriteTo(rest, edge.dst, Err(error))
    case TrackTo(_, to) => TrackOn(rest, edge.dst, to)
  }

  /** All tasks of a program have been built and nothing has happened yet. */
  ghost function InitialHeap(program: seq<Expr>, sources: Sources): (h: Heap)
  {
    var g0 := SourceGraph(sources);
    SourceGraphWired(sources);
    BuildEachWired(g0, program, sources);
    Allocate(Heap(Graph([], [], []), [], multiset{}), BuildEach(g0, program, |sources|).0)
  }

  /** What `read` gives on a cell: a tracking cell asks the cell it tracks, which is always below it. */
  ghost function HeapRead(h: Heap, c: nat): (r: Option<Outcome>)
    decreases Rank(h.graph, c), RankTask(h.graph, c)
  {
    if c >= |h.cells| then None
    else match h.cells[c]
      case Once(once, _) => once.value
      case Tracking(tracking) =>
        if tracking.target.Some? && Below(h.graph, tracking.target.value, c) then HeapRead(h, tracking.target.value) else None
  }
}
