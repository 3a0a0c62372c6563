/** Every action on the heap is a step of its callback. */
module TaskRefinement {
  import opened Wrappers
  import opened CellModel
  import opened TaskSyntax
  import opened TaskGraph
  import opened TaskMachine
  import opened TaskInvariant
  import opened TaskHeap
  import opened TaskLinks

  /** The context of a combinator holds the slots, and the number of children counted. */
  ghost predicate ContextMatch(context: Context, cell: Cell, tag: Label) {
    match tag
    case Task(WhenAll(es)) => |cell.slots| == |es| && context == AllOf(AllContext(cell.slots, |cell.counted|))
    case Task(WhenAny(es)) => context == AnyOf(AnyContext(|cell.counted|, |es|))
    case _ => context == NoContext
  }

  ghost predicate CellMatch(h: HeapCell, cell: Cell, tag: Label) {
    if IsBind(tag) then h.Tracking? && h.tracking.target == cell.target && cell.value.None?
    else h.Once? && h.once.value == cell.value && cell.target.None? && ContextMatch(h.context, cell, tag)
  }

  ghost predicate CellsMatch(cells: seq<HeapCell>, abstracts: seq<Cell>, labels: seq<Label>) {
    && |cells| == |abstracts| == |labels|
    && forall c :: 0 <= c < |cells| ==> CellMatch(cells[c], abstracts[c], labels[c])
  }

  function Callbacks(cell: HeapCell): (xs: seq<nat>) {
    match cell
    case Once(once, _) => once.callbacks
    case Tracking(tracking) => tracking.callbacks
  }

  function Lists(cells: seq<HeapCell>): (lists: seq<seq<nat>>)
    ensures |lists| == |cells|
  {
    seq(|cells|, c requires 0 <= c < |cells| => Callbacks(cells[c]))
  }

  lemma ListsUpdate(cells: seq<HeapCell>, c: nat, cell: HeapCell)
    requires c < |cells|
    ensures Lists(cells[c := cell]) == Lists(cells)[c := Callbacks(cell)]
  {
  }

  /** Heap and callbacks agree. */
  ghost predicate Sim(h: Heap, s: State) {
    && h.graph == s.graph
    && |s.pcs| == |s.graph.edges|
    && CellsMatch(h.cells, s.cells, h.graph.labels)
    && Linked(h.pending, Lists(h.cells), s.pcs)
  }

  lemma SimShaped(h: Heap, s: State, sources: Sources)
    requires Sim(h, s) && Inv(s, sources)
    ensures HeapShaped(h, sources) && h.graph == s.graph && |s.pcs| == |h.graph.edges|
  {
  }

  // ---------- The parts of an action ----------

  lemma TakeSim(h: Heap, s: State, a: Action)
    requires Sim(h, s) && a in h.pending
    ensures a.edge < |s.pcs| && s.pcs[a.edge] == Active(a)
    ensures Sim(h.(pending := h.pending - multiset{a}), SetPc(s, a.edge, Done))
  {
    TakeLinked(h.pending, Lists(h.cells), s.pcs, a);
  }

  lemma QueueSim(h: Heap, s: State, a: Action)
    requires Sim(h, s) && a.edge < |s.pcs| && s.pcs[a.edge].Done?
    ensures Sim(Queue(h, [a]), SetPc(s, a.edge, Active(a)))
  {
    PutLinked(h.pending, Lists(h.cells), s.pcs, a);
    assert multiset([a]) == multiset{a};
  }

  lemma QueueNothing(h: Heap)
    ensures Queue(h, []) == h
  {
    assert h.pending + multiset([]) == h.pending;
  }

  /** A write delivers to the list of the cell exactly the callbacks that wait in it. */
  lemma WriteSim(h: Heap, s: State, c: nat, r: Outcome)
    requires Sim(h, s) && c < |s.cells| && !IsBind(s.graph.labels[c])
    ensures Sim(WriteTo(h, c, r), Put(s, c, r))
  {
    assert CellMatch(h.cells[c], s.cells[c], h.graph.labels[c]);
    var (once, accepted, out) := OnceWrite(h.cells[c].once, r);
    ListsUpdate(h.cells, c, h.cells[c].(once := once));
    if accepted {
      var given := (i: nat) => Invoke(i, r);
      WakeLinked(h.pending, Lists(h.cells), s.pcs, c, given);
      assert Jobs(out) == Actions(Lists(h.cells)[c], given);
    } else {
      assert Jobs(out) == [];
      assert h.cells[c := h.cells[c].(once := once)] == h.cells;
      QueueNothing(h);
    }
  }

  /** A track passes on exactly the callbacks that wait in the cell. */
  lemma TrackSim(h: Heap, s: State, c: nat, to: nat)
    requires Sim(h, s) && c < |s.cells| && IsBind(s.graph.labels[c])
    ensures Sim(TrackOn(h, c, to), SetTarget(s, c, to))
  {
    assert CellMatch(h.cells[c], s.cells[c], h.graph.labels[c]);
    var (tracking, accepted, out) := Track(h.cells[c].tracking, to);
    ListsUpdate(h.cells, c, Tracking(tracking));
    if accepted {
      var given := (i: nat) => Register(i, to);
      WakeLinked(h.pending, Lists(h.cells), s.pcs, c, given);
      assert Awaits(out) == Actions(Lists(h.cells)[c], given);
    } else {
      assert Awaits(out) == [];
      assert h.cells[c := Tracking(tracking)] == h.cells;
      QueueNothing(h);
    }
  }

  /** What an await does to the heap, by what it does to its callback. */
  lemma AwaitOnIs(h: Heap, s: State, e: nat, at: nat, tag: Label)
    requires at < |h.cells| == |s.cells| && CellMatch(h.cells[at], s.cells[at], tag)
    ensures var h' := AwaitOn(h, at, e);
      && h'.graph == h.graph
      && match Registered(s, e, at)
         case Active(a) => a.edge == e && h'.cells == h.cells && h'.pending == h.pending + multiset{a}
         case Waiting(_) =>
           h'.pending == h.pending && |h'.cells| == |h.cells| && h'.cells == h.cells[at := h'.cells[at]]
           && Callbacks(h'.cells[at]) == Callbacks(h.cells[at]) + [e] && CellMatch(h'.cells[at], s.cells[at], tag)
         case Done => false
  {
    hide ContextMatch, IsBind;
    var h' := AwaitOn(h, at, e);
    match h.cells[at]
    case Once(once, _) =>
      if once.value.Some? {
        assert Jobs(OnceAwait(once, e).1) == [Invoke(e, once.value.value)];
        assert h'.cells == h.cells;
      } else {
        assert Jobs(OnceAwait(once, e).1) == [];
      }
    case Tracking(tracking) =>
      if tracking.target.Some? {
        assert Awaits(TrackingAwait(tracking, e).1) == [Register(e, tracking.target.value)];
        assert h'.cells == h.cells;
      } else {
        assert Awaits(TrackingAwait(tracking, e).1) == [];
      }
  }

  /** An await is passed on, answered, or kept. */
  lemma AwaitSim(h: Heap, s: State, e: nat, at: nat)
    requires Sim(h, s) && at < |s.cells| && e < |s.pcs| && s.pcs[e].Done?
    ensures Sim(AwaitOn(h, at, e), SetPc(s, e, Registered(s, e, at)))
  {
    hide AwaitOn, CellMatch, Linked, Lists, Callbacks;
    AwaitOnIs(h, s, e, at, h.graph.labels[at]);
    var h', lists := AwaitOn(h, at, e), Lists(h.cells);
    match Registered(s, e, at)
    case Active(a) => PutLinked(h.pending, lists, s.pcs, a);
    case Waiting(_) =>
      WaitLinked(h.pending, lists, s.pcs, e, at);
      ListsUpdate(h.cells, at, h'.cells[at]);
      ListAt(h.cells, at);
  }

  lemma ListAt(cells: seq<HeapCell>, c: nat)
    requires c < |cells|
    ensures Lists(cells)[c] == Callbacks(cells[c])
  {
  }

  /** A change of the context of a combinator that its abstract cell makes too. */
  lemma ContextSim(h: Heap, s: State, c: nat, context: Context, cell: Cell)
    requires Sim(h, s) && c < |s.cells| && !IsBind(s.graph.labels[c])
    requires ContextMatch(context, cell, s.graph.labels[c]) && cell.value == s.cells[c].value && cell.target.None?
    ensures Sim(SetContext(h, c, context), s.(cells := s.cells[c := cell]))
  {
    assert CellMatch(h.cells[c], s.cells[c], h.graph.labels[c]);
    ListsUpdate(h.cells, c, h.cells[c].(context := context));
    assert Lists(h.cells)[c := Lists(h.cells)[c]] == Lists(h.cells);
  }

  lemma NewCellMatch(tag: Label)
    ensures CellMatch(NewCell(tag), FreshCell(tag), tag) && Callbacks(NewCell(tag)) == []
  {
  }

  lemma GrowCells(h: Heap, s: State, g: Graph)
    requires CellsMatch(h.cells, s.cells, h.graph.labels) && Extends(h.graph, g) && |s.pcs| == |h.graph.edges|
    ensures CellsMatch(Allocate(h, g).cells, Grow(s, g).cells, g.labels)
  {
    var h', s' := Allocate(h, g), Grow(s, g);
    forall c | 0 <= c < |h'.cells| ensures CellMatch(h'.cells[c], s'.cells[c], g.labels[c]) {
      if c < |h.cells| {
        assert CellMatch(h.cells[c], s.cells[c], h.graph.labels[c]);
      } else {
        NewCellMatch(g.labels[c]);
        assert h'.cells[c] == NewCell(g.labels[c]) && s'.cells[c] == FreshCell(g.labels[c]);
      }
      hide CellMatch, NewCell, FreshCell;
    }
  }

  lemma GrowLists(h: Heap, g: Graph)
    requires |h.cells| <= |g.labels| && |h.graph.edges| <= |g.edges|
    ensures var lists, lists' := Lists(h.cells), Lists(Allocate(h, g).cells);
      |lists'| == |g.labels| && forall c :: 0 <= c < |lists'| ==> lists'[c] == if c < |lists| then lists[c] else []
  {
    var cells' := Allocate(h, g).cells;
    forall c | |h.cells| <= c < |cells'| ensures Callbacks(cells'[c]) == [] {
      NewCellMatch(g.labels[c]);
      assert cells'[c] == NewCell(g.labels[c]);
    }
  }

  lemma GrowFirsts(h: Heap, s: State, g: Graph)
    requires |h.cells| == |s.cells| <= |g.labels| && |s.pcs| == |h.graph.edges| <= |g.edges|
    ensures var h', s', firsts := Allocate(h, g), Grow(s, g), Beginnings(g, |s.pcs|);
      && h'.graph == s'.graph == g && h'.pending == h.pending + multiset(firsts)
      && s.pcs <= s'.pcs && |s'.pcs| == |g.edges| && |firsts| == |g.edges| - |s.pcs|
      && forall i :: 0 <= i < |firsts| ==> firsts[i].edge == |s.pcs| + i && s'.pcs[|s.pcs| + i] == Active(firsts[i])
  {
    hide NewCell, FreshCell;
    var s', firsts := Grow(s, g), Beginnings(g, |s.pcs|);
    forall i | 0 <= i < |firsts| ensures firsts[i].edge == |s.pcs| + i && s'.pcs[|s.pcs| + i] == Active(firsts[i]) {
      assert s'.pcs[|s.pcs| + i] == FirstPc(g.edges[|s.pcs| + i], |s.pcs| + i);
    }
  }

  /** What is built is allocated with fresh cells, and begins. */
  lemma GrowSim(h: Heap, s: State, g: Graph)
    requires Sim(h, s) && Extends(h.graph, g)
    ensures Sim(Allocate(h, g), Grow(s, g))
  {
    hide CellMatch, Lists, Linked, Allocate, Grow, Beginnings;
    GrowCells(h, s, g);
    GrowLists(h, g);
    GrowFirsts(h, s, g);
    var lists, lists' := Lists(h.cells), Lists(Allocate(h, g).cells);
    assert lists <= lists';
    GrowLinked(h.pending, lists, s.pcs, Beginnings(g, |s.pcs|), lists', Grow(s, g).pcs);
  }

  // ---------- The actions ----------

  /** Taking callback `e` off first does not change what a write or a track does. */
  lemma PutCommutes(s: State, e: nat, c: nat, r: Outcome, pc: Pc)
    requires e < |s.pcs| && s.pcs[e].Active? && c < |s.cells|
    ensures SetPc(Put(SetPc(s, e, Done), c, r), e, pc) == SetPc(Put(s, c, r), e, pc)
    ensures Put(SetPc(s, e, Done), c, r) == SetPc(Put(s, c, r), e, Done)
  {
    var a, b := Put(SetPc(s, e, Done), c, r), Put(s, c, r);
    assert a.pcs == b.pcs[e := Done];
    assert a.pcs[e := pc] == b.pcs[e := pc];
  }

  lemma TargetCommutes(s: State, e: nat, c: nat, to: nat)
    requires e < |s.pcs| && s.pcs[e].Active? && c < |s.cells|
    ensures SetTarget(SetPc(s, e, Done), c, to) == SetPc(SetTarget(s, c, to), e, Done)
  {
    assert SetTarget(SetPc(s, e, Done), c, to).pcs == SetTarget(s, c, to).pcs[e := Done];
  }

  /** A callback that writes a cell and is done. */
  lemma WriteAction(h: Heap, s: State, sources: Sources, a: Action, c: nat, r: Outcome)
    requires Sim(h, s) && Inv(s, sources) && a in h.pending && c < |s.cells| && !IsBind(s.graph.labels[c])
    ensures a.edge < |s.pcs| && s.pcs[a.edge] == Active(a)
    ensures Sim(WriteTo(h.(pending := h.pending - multiset{a}), c, r), SetPc(Put(s, c, r), a.edge, Done))
  {
    TakeSim(h, s, a);
    WriteSim(h.(pending := h.pending - multiset{a}), SetPc(s, a.edge, Done), c, r);
    PutCommutes(s, a.edge, c, r, Done);
  }

  lemma RegisterSim(h: Heap, s: State, sources: Sources, a: Action)
    requires Sim(h, s) && Inv(s, sources) && a in h.pending && a.Register?
    ensures a.edge < |s.pcs| && Sim(Perform(h, a, sources), Step(s, a.edge, sources))
  {
    TakeSim(h, s, a);
    var e := a.edge;
    assert EdgeInv(s, sources, e);
    AwaitSim(h.(pending := h.pending - multiset{a}), SetPc(s, e, Done), e, a.at);
    assert s.pcs[e := Done][e := Registered(s, e, a.at)] == s.pcs[e := Registered(s, e, a.at)];
  }

  lemma TrackToSim(h: Heap, s: State, sources: Sources, a: Action)
    requires Sim(h, s) && Inv(s, sources) && a in h.pending && a.TrackTo?
    ensures a.edge < |s.pcs| && Sim(Perform(h, a, sources), Step(s, a.edge, sources))
  {
    TakeSim(h, s, a);
    var e := a.edge;
    assert EdgeInv(s, sources, e) && EdgeWired(s.graph, sources, e);
    var dst := s.graph.edges[e].dst;
    TrackSim(h.(pending := h.pending - multiset{a}), SetPc(s, e, Done), dst, a.to);
    TargetCommutes(s, e, dst, a.to);
  }

  lemma ResolveSim(h: Heap, s: State, sources: Sources, a: Action)
    requires Sim(h, s) && Inv(s, sources) && a in h.pending && a.Resolve?
    ensures a.edge < |s.pcs| && Sim(Perform(h, a, sources), Step(s, a.edge, sources))
  {
    TakeSim(h, s, a);
    assert EdgeInv(s, sources, a.edge) && EdgeWired(s.graph, sources, a.edge);
    var edge := s.graph.edges[a.edge];
    assert CellWired(s.graph, sources, edge.dst);
    WriteAction(h, s, sources, a, edge.dst, edge.result);
  }

  lemma MapSim(h: Heap, s: State, sources: Sources, a: Action)
    requires Sim(h, s) && Inv(s, sources) && a in h.pending && a.Invoke? && a.edge < |s.pcs| && s.graph.edges[a.edge].MapEdge?
    ensures Sim(Perform(h, a, sources), Step(s, a.edge, sources))
  {
    TakeSim(h, s, a);
    var edge := s.graph.edges[a.edge];
    assert EdgeWired(s.graph, sources, a.edge);
    WriteAction(h, s, sources, a, edge.dst, MapOutcome(edge.f, a.result));
  }

  /** The error cell of a bind that runs on an error. */
  lemma BindErrorFacts(h: Heap, s: State, sources: Sources, a: Action)
    requires Sim(h, s) && Inv(s, sources) && a in h.pending && a.edge < |s.pcs| && s.graph.edges[a.edge].BindEdge?
    ensures HeapShaped(h, sources) && h.graph == s.graph && s.pcs[a.edge] == Active(a)
    ensures s.graph.edges[a.edge].err < |s.cells| && !IsBind(s.graph.labels[s.graph.edges[a.edge].err])
  {
    hide EffectInv, ValueInv, KindInv;
    TakeSim(h, s, a);
    EdgeEnds(s, sources, a.edge);
    assert EdgeWired(s.graph, sources, a.edge) && CellWired(s.graph, sources, s.graph.edges[a.edge].dst);
  }

  /** A write and the action that comes next. */
  lemma WriteThen(h: Heap, s: State, sources: Sources, a: Action, c: nat, r: Outcome, next: Action)
    requires Sim(h, s) && Inv(s, sources) && a in h.pending && c < |s.cells| && !IsBind(s.graph.labels[c]) && next.edge == a.edge
    ensures a.edge < |s.pcs| == |Put(s, c, r).pcs|
    ensures Sim(Queue(WriteTo(h.(pending := h.pending - multiset{a}), c, r), [next]), SetPc(Put(s, c, r), a.edge, Active(next)))
  {
    hide Linked, Lists, CellsMatch, Inv, WriteTo;
    WriteAction(h, s, sources, a, c, r);
    var e, s1 := a.edge, SetPc(Put(s, c, r), a.edge, Done);
    QueueSim(WriteTo(h.(pending := h.pending - multiset{a}), c, r), s1, next);
    assert s1.pcs[e := Active(next)] == Put(s, c, r).pcs[e := Active(next)];
  }

  lemma BindErrorSim(h: Heap, s: State, sources: Sources, a: Action)
    requires Sim(h, s) && Inv(s, sources) && a in h.pending && a.Invoke? && a.edge < |s.pcs| && s.graph.edges[a.edge].BindEdge?
    requires a.result.Err?
    ensures Sim(Perform(h, a, sources), Step(s, a.edge, sources))
  {
    hide Sim, EdgeInv, ValueInv, KindInv, Wired, Put, Grow, SetTarget, Count, WriteTo, AwaitOn, TrackOn, Queue;
    BindErrorFacts(h, s, sources, a);
    var err := s.graph.edges[a.edge].err;
    WriteThen(h, s, sources, a, err, a.result, TrackTo(a.edge, err));
  }

  /** Taking callback `e` off first does not change what its function builds. */
  lemma UnfoldCommutes(s: State, e: nat, g: Graph, pc: Pc)
    requires e < |s.pcs| <= |g.edges| && |s.cells| <= |g.labels|
    ensures SetPc(Grow(SetPc(s, e, Done), g), e, pc) == SetPc(Grow(s, g), e, pc)
    ensures Grow(SetPc(s, e, Done), g).pcs[e].Done?
  {
    assert Grow(SetPc(s, e, Done), g).pcs[e := pc] == Grow(s, g).pcs[e := pc];
  }

  lemma UnfoldOnSim(h: Heap, s: State, sources: Sources, a: Action, task: Expr)
    requires Sim(h, s) && Shaped(s, sources) && a in h.pending
    ensures a.edge < |s.pcs|
    ensures Sim(UnfoldOn(h.(pending := h.pending - multiset{a}), a.edge, task, sources), Unfold(s, a.edge, task, sources))
  {
    TakeSim(h, s, a);
    var e := a.edge;
    BuildWired(s.graph, task, sources);
    var (g', root) := Build(s.graph, task, |sources|);
    var h0, s0 := h.(pending := h.pending - multiset{a}), SetPc(s, e, Done);
    hide Build, Wired, CellsMatch, Linked, Lists;
    GrowSim(h0, s0, g');
    UnfoldCommutes(s, e, g', Active(TrackTo(e, root)));
    hide Allocate;
    QueueSim(Allocate(h0, g'), Grow(s0, g'), TrackTo(e, root));
  }

  lemma UnfoldSim(h: Heap, s: State, sources: Sources, a: Action)
    requires Sim(h, s) && Inv(s, sources) && a in h.pending && a.Invoke? && a.edge < |s.pcs| && s.graph.edges[a.edge].BindEdge?
    requires a.result.Ok?
    ensures Sim(Perform(h, a, sources), Step(s, a.edge, sources))
  {
    TakeSim(h, s, a);
    UnfoldOnSim(h, s, sources, a, Then(s.graph.edges[a.edge].g, a.result.value));
    hide Build, Wired, Sim, Unfold, UnfoldOn, WriteTo, Put, AwaitOn, TrackOn, SetTarget, Count;
  }

  // ---------- The actions of when_all and when_any ----------

  /** A change of the cell of callback `e`, with the action that comes next. */
  lemma ContextAction(h: Heap, s: State, sources: Sources, a: Action, c: nat, context: Context, cell: Cell, next: seq<Action>)
    requires Sim(h, s) && Inv(s, sources) && a in h.pending && c < |s.cells| && !IsBind(s.graph.labels[c])
    requires ContextMatch(context, cell, s.graph.labels[c]) && cell.value == s.cells[c].value && cell.target.None?
    requires |next| <= 1 && (next != [] ==> next[0].edge == a.edge)
    ensures a.edge < |s.pcs| && s.pcs[a.edge] == Active(a)
    ensures Sim(Queue(SetContext(h.(pending := h.pending - multiset{a}), c, context), next),
                SetPc(s.(cells := s.cells[c := cell]), a.edge, if next == [] then Done else Active(next[0])))
  {
    TakeSim(h, s, a);
    var h0, s0 := h.(pending := h.pending - multiset{a}), SetPc(s, a.edge, Done);
    ContextSim(h0, s0, c, context, cell);
    var h1, s1 := SetContext(h0, c, context), s0.(cells := s0.cells[c := cell]);
    if next == [] {
      QueueNothing(h1);
    } else {
      assert next == [next[0]];
      QueueSim(h1, s1, next[0]);
      assert s.pcs[a.edge := Done][a.edge := Active(next[0])] == s.pcs[a.edge := Active(next[0])];
    }
  }

  lemma StoreSim(h: Heap, s: State, sources: Sources, a: Action)
    requires Sim(h, s) && Inv(s, sources) && a in h.pending && a.Invoke? && a.edge < |s.pcs| && s.graph.edges[a.edge].AllEdge?
    requires a.result.Ok?
    ensures Sim(Perform(h, a, sources), Step(s, a.edge, sources))
  {
    TakeSim(h, s, a);
    var e, edge := a.edge, s.graph.edges[a.edge];
    EdgeEnds(s, sources, e);
    assert EdgeWired(s.graph, sources, e);
    var c := edge.dst;
    var cell := s.cells[c].(slots := s.cells[c].slots[edge.index := a.result.value]);
    assert CellMatch(h.cells[c], s.cells[c], h.graph.labels[c]);
    ContextAction(h, s, sources, a, c, AllOf(AllContext(cell.slots, |cell.counted|)), cell, [CountUp(e)]);
  }

  lemma CountSize(counted: set<nat>, i: nat)
    ensures |counted + {i}| == if i in counted then |counted| else |counted| + 1
  {
    if i in counted {
      assert counted + {i} == counted;
    }
  }

  lemma CountUpSim(h: Heap, s: State, sources: Sources, a: Action)
    requires Sim(h, s) && Inv(s, sources) && a in h.pending && a.CountUp?
    ensures a.edge < |s.pcs| && Sim(Perform(h, a, sources), Step(s, a.edge, sources))
  {
    TakeSim(h, s, a);
    var e, edge := a.edge, s.graph.edges[a.edge];
    EdgeEnds(s, sources, e);
    assert EdgeInv(s, sources, e) && EdgeWired(s.graph, sources, e);
    var c := edge.dst;
    var cell := s.cells[c].(counted := s.cells[c].counted + {edge.index});
    assert CellMatch(h.cells[c], s.cells[c], h.graph.labels[c]);
    CountSize(s.cells[c].counted, edge.index);
    var full := |cell.counted| >= Arity(s.graph, c);
    ContextAction(h, s, sources, a, c, AllOf(AllContext(cell.slots, |cell.counted|)), cell, if full then [Publish(e)] else []);
  }

  /** A child of a when_any that runs on an error: the context counts the errors before, and not this one. */
  lemma AnyErrorFacts(h: Heap, s: State, sources: Sources, a: Action)
    requires Sim(h, s) && Inv(s, sources) && a in h.pending && a.Invoke? && a.edge < |s.pcs| && s.graph.edges[a.edge].AnyEdge?
    ensures HeapShaped(h, sources) && s.pcs[a.edge] == Active(a)
    ensures var edge := s.graph.edges[a.edge];
      && edge.dst < |s.cells| && s.graph.labels[edge.dst].Task? && s.graph.labels[edge.dst].e.WhenAny?
      && edge.index !in s.cells[edge.dst].counted && s.cells[edge.dst].target.None?
      && h.cells[edge.dst].Once?
      && h.cells[edge.dst].context == AnyOf(AnyContext(|s.cells[edge.dst].counted|, Arity(s.graph, edge.dst)))
  {
    hide Put, Perform, Step;
    TakeSim(h, s, a);
    var e, edge := a.edge, s.graph.edges[a.edge];
    EdgeEnds(s, sources, e);
    assert EdgeInv(s, sources, e) && EdgeWired(s.graph, sources, e);
    assert CellMatch(h.cells[edge.dst], s.cells[edge.dst], h.graph.labels[edge.dst]);
  }

  lemma CountErrorSim(h: Heap, s: State, sources: Sources, a: Action)
    requires Sim(h, s) && Inv(s, sources) && a in h.pending && a.Invoke? && a.edge < |s.pcs| && s.graph.edges[a.edge].AnyEdge?
    requires a.result.Err?
    ensures Sim(Perform(h, a, sources), Step(s, a.edge, sources))
  {
    hide Linked, Lists, CellsMatch, Wired, EdgeInv, ValueInv, KindInv, Put, SetTarget, Grow, WriteTo, AwaitOn, TrackOn;
    AnyErrorFacts(h, s, sources, a);
    var e, edge := a.edge, s.graph.edges[a.edge];
    var c := edge.dst;
    var cell := s.cells[c].(counted := s.cells[c].counted + {edge.index});
    CountSize(s.cells[c].counted, edge.index);
    var full := |cell.counted| >= Arity(s.graph, c);
    ContextAction(h, s, sources, a, c, AnyOf(AnyContext(|cell.counted|, Arity(s.graph, c))), cell,
                  if full then [PublishError(e, a.result.error)] else []);
  }

  /** The cell that a child callback of a combinator writes. */
  lemma ChildFacts(h: Heap, s: State, sources: Sources, a: Action)
    requires Sim(h, s) && Inv(s, sources) && a in h.pending && a.edge < |s.pcs|
    requires s.graph.edges[a.edge].AllEdge? || s.graph.edges[a.edge].AnyEdge?
    ensures HeapShaped(h, sources) && h.graph == s.graph && s.pcs[a.edge] == Active(a)
    ensures var edge := s.graph.edges[a.edge];
      && edge.dst < |s.cells| && !IsBind(s.graph.labels[edge.dst])
      && (edge.AllEdge? ==> ContextOf(h, edge.dst) == AllOf(AllContext(s.cells[edge.dst].slots, |s.cells[edge.dst].counted|)))
  {
    hide EffectInv, ValueInv, KindInv, Linked;
    TakeSim(h, s, a);
    var edge := s.graph.edges[a.edge];
    EdgeEnds(s, sources, a.edge);
    assert EdgeWired(s.graph, sources, a.edge);
    assert CellMatch(h.cells[edge.dst], s.cells[edge.dst], h.graph.labels[edge.dst]);
  }

  /** The result that a child callback writes to its combinator, if it writes next. */
  function Written(s: State, a: Action): (r: Outcome)
    requires a.edge < |s.graph.edges| && s.graph.edges[a.edge].dst < |s.cells|
  {
    match a
    case Publish(_) => Ok(Vec(s.cells[s.graph.edges[a.edge].dst].slots))
    case PublishError(_, error) => Err(error)
    case Invoke(_, result) => result
    case _ => Err(0)
  }

  /** The remaining actions of combinators write. */
  lemma CombinatorWriteSim(h: Heap, s: State, sources: Sources, a: Action)
    requires Sim(h, s) && Inv(s, sources) && a in h.pending && a.edge < |s.pcs|
    requires s.graph.edges[a.edge].AllEdge? || s.graph.edges[a.edge].AnyEdge?
    requires (a.Publish? && s.graph.edges[a.edge].AllEdge?) || a.PublishError?
          || (a.Invoke? && (s.graph.edges[a.edge].AllEdge? <==> a.result.Err?))
    ensures Sim(Perform(h, a, sources), Step(s, a.edge, sources))
  {
    hide Sim, EdgeInv, ValueInv, KindInv, Wired, Put, Grow, SetTarget, Count, WriteTo, AwaitOn, TrackOn, Queue, ContextOf;
    ChildFacts(h, s, sources, a);
    WriteAction(h, s, sources, a, s.graph.edges[a.edge].dst, Written(s, a));
    SameContext(h, h.pending - multiset{a}, s.graph.edges[a.edge].dst);
  }

  lemma SameContext(h: Heap, pending: multiset<Action>, c: nat)
    ensures ContextOf(h.(pending := pending), c) == ContextOf(h, c)
  {
  }

  /** Every pending action on the heap is the next step of its callback. */
  lemma ActionSim(h: Heap, s: State, sources: Sources, a: Action)
    requires Sim(h, s) && Inv(s, sources) && a in h.pending
    ensures a.edge < |s.pcs| && s.pcs[a.edge] == Active(a)
    ensures Sim(Perform(h, a, sources), Step(s, a.edge, sources))
  {
    TakeSim(h, s, a);
    assert EdgeInv(s, sources, a.edge);
    hide Sim, Perform, Step, EffectInv, ValueInv, KindInv, Wired;
    match a
    case Resolve(_) => ResolveSim(h, s, sources, a);
    case Register(_, _) => RegisterSim(h, s, sources, a);
    case CountUp(_) => CountUpSim(h, s, sources, a);
    case Publish(_) => CombinatorWriteSim(h, s, sources, a);
    case PublishError(_, _) => CombinatorWriteSim(h, s, sources, a);
    case TrackTo(_, _) => TrackToSim(h, s, sources, a);
    case Invoke(_, r) =>
      match s.graph.edges[a.edge] {
        case MapEdge(_, _, _) => MapSim(h, s, sources, a);
        case BindEdge(_, _, _, _) => if r.Ok? { UnfoldSim(h, s, sources, a); } else { BindErrorSim(h, s, sources, a); }
        case AllEdge(_, _, _) => if r.Ok? { StoreSim(h, s, sources, a); } else { CombinatorWriteSim(h, s, sources, a); }
        case AnyEdge(_, _, _) => if r.Ok? { CombinatorWriteSim(h, s, sources, a); } else { CountErrorSim(h, s, sources, a); }
        case Fill(_, _) =>
      }
  }
}
