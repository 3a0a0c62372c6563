/** What holds of a running task graph in every reachable state. */
module TaskInvariant {
  import opened Wrappers
  import opened TaskSyntax
  import opened TaskGraph
  import opened TaskMachine

  /** Only tracking cells have targets, and no values; targets go up or to a source; contexts have the right size. */
  ghost predicate KindInv(s: State, c: nat)
    requires c < |s.cells| == |s.graph.labels|
  {
    var cell := s.cells[c];
    && (IsBind(s.graph.labels[c]) ==> cell.value.None?)
    && (!IsBind(s.graph.labels[c]) ==> cell.target.None?)
    && (cell.target.Some? ==>
        cell.target.value < |s.cells| && Below(s.graph, cell.target.value, c))
    && (s.graph.labels[c].Task? && s.graph.labels[c].e.WhenAll? ==> |cell.slots| == |s.graph.labels[c].e.all|)
    && (forall i :: i in cell.counted ==> i < Arity(s.graph, c))
  }

  /** A callback waits or is delivered only on the chain of its own cell, with the result read there. */
  ghost predicate PcInv(s: State, e: nat)
    requires e < |s.pcs| == |s.graph.edges|
  {
    var edge := s.graph.edges[e];
    match s.pcs[e]
    case Done => true
    case Waiting(at) =>
      !edge.Fill? && at < |s.cells| && OnChain(s, edge.src, at)
      && s.cells[at].target.None? && s.cells[at].value.None?
    case Active(action) => action.edge == e && match action {
      case Resolve(_) => edge.Fill?
      case Register(_, at) => !edge.Fill? && at < |s.cells| && OnChain(s, edge.src, at)
      case Invoke(_, r) => !edge.Fill? && Read(s, edge.src) == Some(r)
      case CountUp(_) => edge.AllEdge?
      case Publish(_) => edge.AllEdge?
      case PublishError(_, _) => edge.AnyEdge?
      case TrackTo(_, to) => edge.BindEdge? && to < |s.cells|
    }
  }

  /** What a bound task tracks: the task its function gave for the value read, or its own error cell holding the error read. */
  ghost predicate BindTarget(s: State, e: nat, to: nat)
    requires e < |s.graph.edges| && s.graph.edges[e].BindEdge? && s.graph.edges[e].err < |s.cells|
  {
    var edge := s.graph.edges[e];
    match Read(s, edge.src)
    case None => false
    case Some(Ok(v)) =>
      s.cells[edge.err].value.None? && LabelIs(s.graph, to, Then(edge.g, v))
    case Some(Err(er)) => to == edge.err && s.cells[edge.err].value == Some(Err(er))
  }

  /** How far the effect of a callback has come: none before it runs, all of it once it is done. */
  ghost predicate EffectInv(s: State, e: nat)
    requires e < |s.pcs| == |s.graph.edges| && s.graph.edges[e].dst < |s.cells|
    requires s.graph.edges[e].BindEdge? ==> s.graph.edges[e].err < |s.cells|
    requires s.graph.edges[e].AllEdge? ==> s.graph.edges[e].index < |s.cells[s.graph.edges[e].dst].slots|
  {
    var cell, n := s.cells[s.graph.edges[e].dst], |s.cells[s.graph.edges[e].dst].slots|;
    match s.graph.edges[e]
    case Fill(_, r) => cell.value == if s.pcs[e].Done? then Some(r) else None
    case MapEdge(src, _, f) =>
      if s.pcs[e].Done? then
        Read(s, src).Some? && cell.value == Some(MapOutcome(f, Read(s, src).value))
      else cell.value == None
    case BindEdge(_, _, err, _) => (match s.pcs[e]
      case Done => cell.target.Some? && BindTarget(s, e, cell.target.value)
      case Active(TrackTo(_, to)) => cell.target.None? && BindTarget(s, e, to)
      case _ => cell.target.None? && s.cells[err].value.None?)
    case AllEdge(src, _, i) => (match s.pcs[e]
      case Done => (match Read(s, src)
        case None => false
        case Some(Ok(v)) => i in cell.counted && cell.slots[i] == v
        case Some(Err(_)) => i !in cell.counted && cell.value.Some?)
      case Active(CountUp(_)) => i !in cell.counted && Read(s, src) == Some(Ok(cell.slots[i]))
      case Active(Publish(_)) => i in cell.counted && Read(s, src) == Some(Ok(cell.slots[i])) && n <= |cell.counted|
      case _ => i !in cell.counted)
    case AnyEdge(src, dst, i) => (match s.pcs[e]
      case Done => (match Read(s, src)
        case None => false
        case Some(Ok(_)) => i !in cell.counted && cell.value.Some?
        case Some(Err(_)) => i in cell.counted)
      case Active(PublishError(_, er)) =>
        i in cell.counted && Read(s, src) == Some(Err(er)) && Arity(s.graph, dst) <= |cell.counted|
      case _ => i !in cell.counted)
  }

  /** The callback of child `i` of the combinator at `c`. */
  ghost function Child(g: Graph, c: nat, i: nat): (e: nat) {
    if c < |g.homes| then g.homes[c] + i else |g.edges|
  }

  /** What that child's cell reads. */
  ghost function ChildRead(s: State, c: nat, i: nat): (r: Option<Outcome>) {
    var e := Child(s.graph, c, i);
    if e < |s.graph.edges| && !s.graph.edges[e].Fill? then Read(s, s.graph.edges[e].src) else None
  }

  ghost predicate Publishing(s: State, c: nat, i: nat) {
    var e := Child(s.graph, c, i);
    e < |s.pcs| && s.pcs[e].Active? && (s.pcs[e].action.Publish? || s.pcs[e].action.PublishError?)
  }

  ghost predicate SomePublishing(s: State, c: nat, n: nat) {
    exists i :: 0 <= i < n && Publishing(s, c, i)
  }

  /** Of the children of a combinator at most one has seen the full count and not yet written. */
  ghost predicate OnePublisher(s: State, c: nat, n: nat) {
    forall i, j :: 0 <= i < n && 0 <= j < n && Publishing(s, c, i) && Publishing(s, c, j) ==> i == j
  }

  /** The results the children of a combinator read are the reason for its value. */
  ghost predicate AllValue(s: State, c: nat, es: seq<Expr>, value: Outcome) {
    match value
    case Ok(x) => es != [] && x.Vec? && |x.elems| == |es| &&
      forall i :: 0 <= i < |es| ==> ChildRead(s, c, i) == Some(Ok(x.elems[i]))
    case Err(_) => exists i :: 0 <= i < |es| && ChildRead(s, c, i) == Some(value)
  }

  ghost predicate AnyValue(s: State, c: nat, es: seq<Expr>, value: Outcome) {
    && (exists i :: 0 <= i < |es| && ChildRead(s, c, i) == Some(value))
    && (value.Err? ==> forall i :: 0 <= i < |es| ==> ChildRead(s, c, i).Some? && ChildRead(s, c, i).value.Err?)
  }

  ghost predicate ValueInv(s: State, sources: Sources, c: nat)
    requires Wired(s.graph, sources) && c < |s.cells| == |s.graph.labels|
  {
    var value, full := s.cells[c].value, Arity(s.graph, c) <= |s.cells[c].counted|;
    match s.graph.labels[c]
    case Task(Source(k)) => value.Some? ==> SourceResult(sources, k) == value
    case Task(WhenAll(es)) =>
      && (value.Some? ==> AllValue(s, c, es, value.value))
      && (es != [] && full ==> value.Some? || SomePublishing(s, c, |es|))
      && OnePublisher(s, c, |es|)
    case Task(WhenAny(es)) =>
      && (value.Some? ==> AnyValue(s, c, es, value.value))
      && (es != [] && full ==> value.Some? || SomePublishing(s, c, |es|))
      && OnePublisher(s, c, |es|)
    case _ => true
  }

  ghost predicate AllKinds(s: State)
    requires |s.cells| == |s.graph.labels|
  {
    forall c :: 0 <= c < |s.cells| ==> KindInv(s, c)
  }

  ghost predicate EdgeInv(s: State, sources: Sources, e: nat)
    requires Shaped(s, sources) && AllKinds(s) && e < |s.pcs|
  {
    EdgeEnds(s, sources, e);
    PcInv(s, e) && EffectInv(s, e)
  }

  ghost predicate Inv(s: State, sources: Sources) {
    && Shaped(s, sources)
    && AllKinds(s)
    && (forall e :: 0 <= e < |s.pcs| ==> EdgeInv(s, sources, e))
    && (forall c :: 0 <= c < |s.cells| ==> ValueInv(s, sources, c))
  }

  /** The cells a callback names are there. */
  lemma EdgeEnds(s: State, sources: Sources, e: nat)
    requires Shaped(s, sources) && AllKinds(s) && e < |s.pcs|
    ensures s.graph.edges[e].dst < |s.cells|
    ensures !s.graph.edges[e].Fill? ==> s.graph.edges[e].src < |s.cells|
    ensures s.graph.edges[e].BindEdge? ==> s.graph.edges[e].err == s.graph.edges[e].dst + 1 < |s.cells|
    ensures s.graph.edges[e].AllEdge? ==> s.graph.edges[e].index < |s.cells[s.graph.edges[e].dst].slots|
  {
    var dst := s.graph.edges[e].dst;
    assert EdgeWired(s.graph, sources, e);
    assert CellWired(s.graph, sources, dst);
    assert KindInv(s, dst);
    var edge := s.graph.edges[e];
    if edge.AllEdge? {
      assert AllWired(s.graph, s.graph.homes[dst] + edge.index, dst, edge.index, s.graph.labels[dst].e.all[edge.index]);
    }
    if edge.AnyEdge? {
      assert AnyWired(s.graph, s.graph.homes[dst] + edge.index, dst, edge.index, s.graph.labels[dst].e.any[edge.index]);
    }
  }

  // ---------- Reading along chains ----------

  /** In both states targets are sound; the later one has gained. */
  ghost predicate Later(s: State, s': State, sources: Sources) {
    Shaped(s, sources) && Shaped(s', sources) && AllKinds(s) && AllKinds(s') && Gains(s, s')
  }

  lemma {:induction false} ReadStays(s: State, s': State, sources: Sources, c: nat)
    requires Later(s, s', sources) && Read(s, c).Some?
    ensures Read(s', c) == Read(s, c)
    decreases Rank(s.graph, c), RankTask(s.graph, c)
  {
    assert KindInv(s, c) && KindInv(s', c);
    if s.cells[c].target.Some? {
      ReadStays(s, s', sources, s.cells[c].target.value);
    }
  }

  lemma {:induction false} ChainStays(s: State, s': State, sources: Sources, c: nat, at: nat)
    requires Later(s, s', sources) && OnChain(s, c, at)
    ensures OnChain(s', c, at)
    decreases Rank(s.graph, c), RankTask(s.graph, c)
  {
    if c != at {
      ChainStays(s, s', sources, s.cells[c].target.value, at);
    }
  }

  /** The end of a chain is what its start reads. */
  lemma {:induction false} ChainRead(s: State, sources: Sources, c: nat, at: nat)
    requires Shaped(s, sources) && AllKinds(s) && OnChain(s, c, at) && at < |s.cells| && s.cells[at].target.None?
    ensures Read(s, c) == s.cells[at].value
    decreases Rank(s.graph, c), RankTask(s.graph, c)
  {
    if c != at {
      assert KindInv(s, c);
      ChainRead(s, sources, s.cells[c].target.value, at);
    }
  }

  /** A chain goes on to the target of its end. */
  lemma {:induction false} ChainExtends(s: State, sources: Sources, c: nat, at: nat)
    requires Shaped(s, sources) && AllKinds(s) && OnChain(s, c, at) && at < |s.cells| && s.cells[at].target.Some?
    ensures OnChain(s, c, s.cells[at].target.value)
    decreases Rank(s.graph, c), RankTask(s.graph, c)
  {
    assert KindInv(s, at);
    if c != at {
      ChainExtends(s, sources, s.cells[c].target.value, at);
    }
  }
}
