/** What a step of one callback leaves alone, and why the invariant of everything else survives it. */
module TaskFrames {
  import opened Wrappers
  import opened TaskSyntax
  import opened TaskGraph
  import opened TaskMachine
  import opened TaskInvariant

  ghost predicate IsCombinatorEdge(edge: Edge) {
    edge.AllEdge? || edge.AnyEdge?
  }

  /** The cells a callback does not write. */
  ghost predicate Foreign(edge: Edge, c: nat) {
    c != edge.dst && !(edge.BindEdge? && c == edge.err)
  }

  /** Index `i` of a cell's slots and counted children is not this callback's. */
  ghost predicate ForeignIndex(edge: Edge, i: nat) {
    !(IsCombinatorEdge(edge) && i == edge.index)
  }

  /** What a step of callback `e` may do to its own cell: gain a value or target, its slot, and its count. */
  ghost predicate OwnCell(edge: Edge, cell: Cell, cell': Cell) {
    && |cell'.slots| == |cell.slots|
    && cell.counted <= cell'.counted
    && (forall i :: 0 <= i < |cell.slots| && ForeignIndex(edge, i) ==> cell'.slots[i] == cell.slots[i])
    && (forall i :: i in cell'.counted && ForeignIndex(edge, i) ==> i in cell.counted)
  }

  /** Where a step of another callback leaves callback `f`: woken if the cell it waits in has resolved. */
  ghost predicate Follows(s: State, s': State, f: nat)
    requires f < |s.pcs| && f < |s'.pcs|
  {
    match s.pcs[f]
    case Waiting(c) =>
      if c >= |s'.cells| then false
      else if s'.cells[c].value.Some? then s'.pcs[f] == Active(Invoke(f, s'.cells[c].value.value))
      else if s'.cells[c].target.Some? then s'.pcs[f] == Active(Register(f, s'.cells[c].target.value))
      else s'.pcs[f] == s.pcs[f]
    case _ => s'.pcs[f] == s.pcs[f]
  }

  /** A step of callback `e`, seen from outside. */
  ghost predicate Touches(s: State, s': State, sources: Sources, e: nat) {
    && Later(s, s', sources)
    && e < |s.pcs| <= |s'.pcs|
    && (forall c :: 0 <= c < |s.cells| && Foreign(s.graph.edges[e], c) ==> s'.cells[c] == s.cells[c])
    && (s.graph.edges[e].dst < |s.cells| ==>
        OwnCell(s.graph.edges[e], s.cells[s.graph.edges[e].dst], s'.cells[s.graph.edges[e].dst]))
    && (forall f :: 0 <= f < |s.pcs| && f != e ==> Follows(s, s', f))
  }

  /** Different callbacks write different cells, except the children of one combinator, which have different indices. */
  lemma Separate(s: State, sources: Sources, e: nat, f: nat)
    requires Shaped(s, sources) && e < |s.pcs| && f < |s.pcs| && e != f
    ensures var a, b := s.graph.edges[e], s.graph.edges[f];
      && (!IsCombinatorEdge(b) ==> Foreign(a, b.dst))
      && (b.BindEdge? ==> Foreign(a, b.err))
      && (IsCombinatorEdge(b) ==> Foreign(a, b.dst) || (a.dst == b.dst && ForeignIndex(a, b.index) && !a.BindEdge?))
  {
    var a, b := s.graph.edges[e], s.graph.edges[f];
    assert EdgeWired(s.graph, sources, e) && EdgeWired(s.graph, sources, f);
    assert CellWired(s.graph, sources, a.dst) && CellWired(s.graph, sources, b.dst);
  }

  lemma SubsetSize(a: set<nat>, b: set<nat>)
    requires a <= b
    ensures |a| <= |b|
  {
    if a != b {
      assert b == a + (b - a);
    }
  }

  /** Another callback stays on its chain, or is delivered what it waited for. */
  lemma OtherPc(s: State, s': State, sources: Sources, e: nat, f: nat)
    requires Inv(s, sources) && Touches(s, s', sources, e) && f < |s.pcs| && f != e
    ensures PcInv(s', f)
  {
    assert EdgeInv(s, sources, f) && Follows(s, s', f);
    EdgeEnds(s, sources, f);
    var edge := s.graph.edges[f];
    match s.pcs[f]
    case Done =>
    case Waiting(c) =>
      assert KindInv(s', c);
      ChainStays(s, s', sources, edge.src, c);
      if s'.cells[c].value.Some? {
        ChainRead(s', sources, edge.src, c);
      } else if s'.cells[c].target.Some? {
        ChainExtends(s', sources, edge.src, c);
      }
    case Active(action) =>
      match action {
        case Register(_, at) => ChainStays(s, s', sources, edge.src, at);
        case Invoke(_, _) => ReadStays(s, s', sources, edge.src);
        case _ =>
      }
  }

  /** The effect of another callback is where it was. */
  lemma OtherEffect(s: State, s': State, sources: Sources, e: nat, f: nat)
    requires Inv(s, sources) && Touches(s, s', sources, e) && f < |s.pcs| && f != e
    ensures s.graph.edges[f].dst < |s'.cells|
    ensures s.graph.edges[f].BindEdge? ==> s.graph.edges[f].err < |s'.cells|
    ensures s.graph.edges[f].AllEdge? ==> s.graph.edges[f].index < |s'.cells[s.graph.edges[f].dst].slots|
    ensures EffectInv(s', f)
  {
    assert EdgeInv(s, sources, f) && Follows(s, s', f);
    EdgeEnds(s, sources, f);
    EdgeEnds(s', sources, f);
    EdgeEnds(s, sources, e);
    Separate(s, sources, e, f);
    var edge := s.graph.edges[f];
    assert s'.graph.edges[f] == edge;
    if !edge.Fill? && Read(s, edge.src).Some? {
      ReadStays(s, s', sources, edge.src);
    }
    SubsetSize(s.cells[edge.dst].counted, s'.cells[edge.dst].counted);
  }

  /** What a child read, it still reads. */
  lemma ChildReadStays(s: State, s': State, sources: Sources, c: nat, i: nat)
    requires Later(s, s', sources) && c < |s.cells| && ChildRead(s, c, i).Some?
    ensures ChildRead(s', c, i) == ChildRead(s, c, i)
  {
    ReadStays(s, s', sources, s.graph.edges[Child(s.graph, c, i)].src);
  }

  lemma AllValueStays(s: State, s': State, sources: Sources, c: nat, es: seq<Expr>, value: Outcome)
    requires Later(s, s', sources) && c < |s.cells| && AllValue(s, c, es, value)
    ensures AllValue(s', c, es, value)
  {
    forall i | 0 <= i < |es| && ChildRead(s, c, i).Some? ensures ChildRead(s', c, i) == ChildRead(s, c, i) {
      ChildReadStays(s, s', sources, c, i);
    }
  }

  lemma AnyValueStays(s: State, s': State, sources: Sources, c: nat, es: seq<Expr>, value: Outcome)
    requires Later(s, s', sources) && c < |s.cells| && AnyValue(s, c, es, value)
    ensures AnyValue(s', c, es, value)
  {
    forall i | 0 <= i < |es| && ChildRead(s, c, i).Some? ensures ChildRead(s', c, i) == ChildRead(s, c, i) {
      ChildReadStays(s, s', sources, c, i);
    }
  }

  /** The children of a combinator are its own callbacks. */
  lemma ChildIsOwn(s: State, sources: Sources, c: nat, i: nat)
    requires Shaped(s, sources) && c < |s.cells| && i < Arity(s.graph, c)
    ensures Child(s.graph, c, i) < |s.pcs|
    ensures var edge := s.graph.edges[Child(s.graph, c, i)];
      && edge.dst == c && IsCombinatorEdge(edge) && edge.index == i
      && LabelIs(s.graph, edge.src, ChildTask(s.graph, c, i))
      && (edge.AllEdge? <==> s.graph.labels[c].e.WhenAll?)
  {
    assert CellWired(s.graph, sources, c);
    var h := s.graph.homes[c];
    match s.graph.labels[c]
    case Task(WhenAll(es)) => assert AllWired(s.graph, h + i, c, i, es[i]);
    case Task(WhenAny(es)) => assert AnyWired(s.graph, h + i, c, i, es[i]);
  }

  ghost function ChildTask(g: Graph, c: nat, i: nat): (e: Expr)
    requires i < Arity(g, c)
  {
    match g.labels[c]
    case Task(WhenAll(es)) => es[i]
    case Task(WhenAny(es)) => es[i]
  }

  lemma OtherPublishing(s: State, s': State, sources: Sources, e: nat, c: nat, i: nat)
    requires Inv(s, sources) && Touches(s, s', sources, e) && c < |s.cells| && i < Arity(s.graph, c)
    requires Child(s.graph, c, i) != e
    ensures Publishing(s', c, i) <==> Publishing(s, c, i)
  {
    ChildIsOwn(s, sources, c, i);
    var f := Child(s.graph, c, i);
    assert Follows(s, s', f);
  }

  /** The value of a cell the step does not write is as justified as it was. */
  lemma OtherValue(s: State, s': State, sources: Sources, e: nat, c: nat)
    requires Inv(s, sources) && Touches(s, s', sources, e) && c < |s.cells| && Foreign(s.graph.edges[e], c)
    ensures ValueInv(s', sources, c)
  {
    assert ValueInv(s, sources, c);
    assert s'.cells[c] == s.cells[c] && s'.graph.labels[c] == s.graph.labels[c];
    var n := Arity(s.graph, c);
    forall i | 0 <= i < n ensures Publishing(s', c, i) <==> Publishing(s, c, i) {
      ChildIsOwn(s, sources, c, i);
      OtherPublishing(s, s', sources, e, c, i);
    }
    match s.graph.labels[c]
    case Task(WhenAll(es)) =>
      if s.cells[c].value.Some? {
        AllValueStays(s, s', sources, c, es, s.cells[c].value.value);
      }
      PublishingStays(s, s', c, n);
    case Task(WhenAny(es)) =>
      if s.cells[c].value.Some? {
        AnyValueStays(s, s', sources, c, es, s.cells[c].value.value);
      }
      PublishingStays(s, s', c, n);
    case _ =>
  }

  lemma PublishingStays(s: State, s': State, c: nat, n: nat)
    requires forall i :: 0 <= i < n ==> (Publishing(s', c, i) <==> Publishing(s, c, i))
    ensures SomePublishing(s, c, n) ==> SomePublishing(s', c, n)
    ensures OnePublisher(s, c, n) ==> OnePublisher(s', c, n)
  {
    if SomePublishing(s, c, n) {
      var i :| 0 <= i < n && Publishing(s, c, i);
      assert Publishing(s', c, i);
    }
  }

  /** The invariant holds after a step if it holds of the callback that moved, its cell, and all that is new. */
  lemma Assemble(s: State, s': State, sources: Sources, e: nat)
    requires Inv(s, sources) && Touches(s, s', sources, e) && EdgeInv(s', sources, e)
    requires s.graph.edges[e].dst < |s.cells| && ValueInv(s', sources, s.graph.edges[e].dst)
    requires forall f :: |s.pcs| <= f < |s'.pcs| ==> EdgeInv(s', sources, f)
    requires forall c :: |s.cells| <= c < |s'.cells| ==> ValueInv(s', sources, c)
    ensures Inv(s', sources)
  {
    var edge := s.graph.edges[e];
    forall f | 0 <= f < |s'.pcs| ensures EdgeInv(s', sources, f) {
      if f < |s.pcs| && f != e {
        OtherPc(s, s', sources, e, f);
        OtherEffect(s, s', sources, e, f);
      }
    }
    forall c | 0 <= c < |s'.cells| ensures ValueInv(s', sources, c) {
      if c < |s.cells| && Foreign(edge, c) {
        OtherValue(s, s', sources, e, c);
      } else if c < |s.cells| && c != edge.dst {
        ErrorCellLabel(s, sources, e);
      }
    }
  }

  lemma ErrorCellLabel(s: State, sources: Sources, e: nat)
    requires Shaped(s, sources) && e < |s.pcs| && s.graph.edges[e].BindEdge?
    ensures s.graph.edges[e].err < |s.graph.labels| && s.graph.labels[s.graph.edges[e].err].ErrorOf?
  {
    assert EdgeWired(s.graph, sources, e);
    assert CellWired(s.graph, sources, s.graph.edges[e].dst);
  }
}
