/** Every step of every callback keeps the invariant. */
module TaskSteps {
  import opened Wrappers
  import opened TaskSyntax
  import opened TaskGraph
  import opened TaskMachine
  import opened TaskInvariant
  import opened TaskFrames

  /** A combinator with child `i` uncounted is not full; one that is full has counted every child. */
  lemma FullCount(counted: set<nat>, n: nat)
    requires forall i :: i in counted ==> i < n
    ensures n <= |counted| ==> forall i :: 0 <= i < n ==> i in counted
    ensures |counted| <= n
  {
    var all := Range(n);
    assert counted <= all;
    SubsetSize(counted, all);
    if n <= |counted| && counted != all {
      var i :| i in all && i !in counted;
      assert counted <= all - {i};
      SubsetSize(counted, all - {i});
    }
  }

  ghost function Range(n: nat): (r: set<nat>)
    ensures |r| == n
    ensures forall i: nat :: i in r <==> i < n
  {
    if n == 0 then {} else Range(n - 1) + {n - 1}
  }

  // ---------- Frames of the three kinds of change ----------

  /** Callback `e` writes one of its own write-once cells and moves on. */
  lemma PutFrame(s: State, sources: Sources, e: nat, c: nat, r: Outcome, pc: Pc)
    requires Inv(s, sources) && e < |s.pcs| && c < |s.cells| && !Foreign(s.graph.edges[e], c)
    requires !IsBind(s.graph.labels[c])
    ensures var s' := SetPc(Put(s, c, r), e, pc);
      && Touches(s, s', sources, e) && s'.graph == s.graph && |s'.cells| == |s.cells| && |s'.pcs| == |s.pcs|
      && s'.cells[c] == s.cells[c].(value := if s.cells[c].value.Some? then s.cells[c].value else Some(r))
      && forall d :: 0 <= d < |s.cells| && d != c ==> s'.cells[d] == s.cells[d]
  {
    var s' := SetPc(Put(s, c, r), e, pc);
    forall d | 0 <= d < |s'.cells| ensures KindInv(s', d) {
      assert KindInv(s, d);
    }
    forall f | 0 <= f < |s.pcs| && f != e ensures Follows(s, s', f) {
      assert EdgeInv(s, sources, f);
    }
  }

  /** Callback `e` only moves on. */
  lemma MoveFrame(s: State, sources: Sources, e: nat, pc: Pc)
    requires Inv(s, sources) && e < |s.pcs|
    ensures Touches(s, SetPc(s, e, pc), sources, e)
  {
    var s' := SetPc(s, e, pc);
    forall d | 0 <= d < |s'.cells| ensures KindInv(s', d) {
      assert KindInv(s, d);
    }
    forall f | 0 <= f < |s.pcs| && f != e ensures Follows(s, s', f) {
      assert EdgeInv(s, sources, f);
    }
  }

  /** Callback `e` of a combinator stores in its slot or counts itself, and moves on. */
  lemma OwnCellFrame(s: State, s': State, sources: Sources, e: nat)
    requires Inv(s, sources) && e < |s.pcs| && IsCombinatorEdge(s.graph.edges[e])
    requires s'.graph == s.graph && |s'.pcs| == |s.pcs| && |s'.cells| == |s.cells|
    requires forall f :: 0 <= f < |s.pcs| && f != e ==> s'.pcs[f] == s.pcs[f]
    requires s.graph.edges[e].dst < |s.cells|
    requires var dst := s.graph.edges[e].dst;
      && (forall c :: 0 <= c < |s.cells| && c != dst ==> s'.cells[c] == s.cells[c])
      && OwnCell(s.graph.edges[e], s.cells[dst], s'.cells[dst])
      && s'.cells[dst].value == s.cells[dst].value && s'.cells[dst].target == s.cells[dst].target
    ensures Touches(s, s', sources, e)
  {
    var edge := s.graph.edges[e];
    assert EdgeWired(s.graph, sources, e);
    forall d | 0 <= d < |s'.cells| ensures KindInv(s', d) {
      assert KindInv(s, d);
    }
    forall f | 0 <= f < |s.pcs| && f != e ensures Follows(s, s', f) {
      assert EdgeInv(s, sources, f);
    }
  }

  /** If the cell of callback `e` is as before and `e` publishes neither before nor after, the cell is as justified as before. */
  lemma OwnValueSame(s: State, s': State, sources: Sources, e: nat)
    requires Inv(s, sources) && Touches(s, s', sources, e)
    requires s.graph.edges[e].dst < |s.cells| && s'.cells[s.graph.edges[e].dst] == s.cells[s.graph.edges[e].dst]
    requires forall i :: Child(s.graph, s.graph.edges[e].dst, i) == e ==>
      !Publishing(s, s.graph.edges[e].dst, i) && !Publishing(s', s.graph.edges[e].dst, i)
    ensures ValueInv(s', sources, s.graph.edges[e].dst)
  {
    var c := s.graph.edges[e].dst;
    assert ValueInv(s, sources, c) && s'.graph.labels[c] == s.graph.labels[c];
    var n := Arity(s.graph, c);
    forall i | 0 <= i < n ensures Publishing(s', c, i) <==> Publishing(s, c, i) {
      ChildIsOwn(s, sources, c, i);
      if Child(s.graph, c, i) != e {
        OtherPublishing(s, s', sources, e, c, i);
      }
    }
    PublishingStays(s, s', c, n);
    if s.cells[c].value.Some? {
      match s.graph.labels[c]
      case Task(WhenAll(es)) => AllValueStays(s, s', sources, c, es, s.cells[c].value.value);
      case Task(WhenAny(es)) => AnyValueStays(s, s', sources, c, es, s.cells[c].value.value);
      case _ =>
    }
  }

  // ---------- The steps ----------

  lemma ResolveKeeps(s: State, sources: Sources, e: nat)
    requires Inv(s, sources) && e < |s.pcs| && s.pcs[e] == Active(Resolve(e)) && s.graph.edges[e].Fill?
    ensures Inv(Step(s, e, sources), sources) && Touches(s, Step(s, e, sources), sources, e)
  {
    var s', edge := Step(s, e, sources), s.graph.edges[e];
    assert EdgeInv(s, sources, e) && EdgeWired(s.graph, sources, e) && CellWired(s.graph, sources, edge.dst);
    PutFrame(s, sources, e, edge.dst, edge.result, Done);
    assert EdgeInv(s', sources, e);
    assert ValueInv(s', sources, edge.dst);
    Assemble(s, s', sources, e);
  }

  lemma RegisterKeeps(s: State, sources: Sources, e: nat)
    requires Inv(s, sources) && e < |s.pcs| && s.pcs[e].Active? && s.pcs[e].action.Register?
    ensures Inv(Step(s, e, sources), sources) && Touches(s, Step(s, e, sources), sources, e)
  {
    var s', edge, at := Step(s, e, sources), s.graph.edges[e], s.pcs[e].action.at;
    EdgeEnds(s, sources, e);
    assert EdgeInv(s, sources, e) && KindInv(s, at);
    MoveFrame(s, sources, e, Registered(s, e, at));
    if s.cells[at].target.Some? {
      ChainExtends(s, sources, edge.src, at);
      ChainStays(s, s', sources, edge.src, s.cells[at].target.value);
    } else {
      ChainStays(s, s', sources, edge.src, at);
      ChainRead(s', sources, edge.src, at);
    }
    assert EdgeInv(s', sources, e);
    OwnValueSame(s, s', sources, e);
    Assemble(s, s', sources, e);
  }

  lemma InvokeMapKeeps(s: State, sources: Sources, e: nat)
    requires Inv(s, sources) && e < |s.pcs| && s.pcs[e].Active? && s.pcs[e].action.Invoke? && s.graph.edges[e].MapEdge?
    ensures Inv(Step(s, e, sources), sources) && Touches(s, Step(s, e, sources), sources, e)
  {
    var s', edge := Step(s, e, sources), s.graph.edges[e];
    assert EdgeInv(s, sources, e) && EdgeWired(s.graph, sources, e);
    PutFrame(s, sources, e, edge.dst, MapOutcome(edge.f, s.pcs[e].action.result), Done);
    ReadStays(s, s', sources, edge.src);
    assert EdgeInv(s', sources, e);
    assert ValueInv(s', sources, edge.dst);
    Assemble(s, s', sources, e);
  }

  lemma InvokeBindErrorKeeps(s: State, sources: Sources, e: nat)
    requires Inv(s, sources) && e < |s.pcs| && s.pcs[e].Active? && s.pcs[e].action.Invoke? && s.graph.edges[e].BindEdge?
    requires s.pcs[e].action.result.Err?
    ensures Inv(Step(s, e, sources), sources) && Touches(s, Step(s, e, sources), sources, e)
  {
    var s', edge := Step(s, e, sources), s.graph.edges[e];
    EdgeEnds(s, sources, e);
    assert EdgeInv(s, sources, e) && EdgeWired(s.graph, sources, e);
    ErrorCellLabel(s, sources, e);
    PutFrame(s, sources, e, edge.err, s.pcs[e].action.result, Active(TrackTo(e, edge.err)));
    ReadStays(s, s', sources, edge.src);
    assert EdgeInv(s', sources, e);
    assert ValueInv(s', sources, edge.dst);
    Assemble(s, s', sources, e);
  }

  /** What a bind is about to track is below its tracking cell. */
  lemma TargetBelow(s: State, sources: Sources, e: nat, to: nat)
    requires Shaped(s, sources) && e < |s.pcs| && s.graph.edges[e].BindEdge? && s.graph.edges[e].err < |s.cells| && to < |s.cells|
    requires BindTarget(s, e, to)
    ensures Below(s.graph, to, s.graph.edges[e].dst)
  {
    assert EdgeWired(s.graph, sources, e) && CellWired(s.graph, sources, s.graph.edges[e].dst);
    ErrorCellLabel(s, sources, e);
  }

  lemma TrackKeeps(s: State, sources: Sources, e: nat)
    requires Inv(s, sources) && e < |s.pcs| && s.pcs[e].Active? && s.pcs[e].action.TrackTo?
    ensures Inv(Step(s, e, sources), sources) && Touches(s, Step(s, e, sources), sources, e)
  {
    var s', edge, to := Step(s, e, sources), s.graph.edges[e], s.pcs[e].action.to;
    EdgeEnds(s, sources, e);
    assert EdgeInv(s, sources, e) && EdgeWired(s.graph, sources, e);
    TargetBelow(s, sources, e, to);
    forall d | 0 <= d < |s'.cells| ensures KindInv(s', d) {
      assert KindInv(s, d);
    }
    forall f | 0 <= f < |s.pcs| && f != e ensures Follows(s, s', f) {
      assert EdgeInv(s, sources, f);
    }
    assert Touches(s, s', sources, e);
    ReadStays(s, s', sources, edge.src);
    assert EdgeInv(s', sources, e);
    assert ValueInv(s', sources, edge.dst);
    Assemble(s, s', sources, e);
  }

  /** The parts of a state that have just been added: cells from `n` on and callbacks from `m` on. */
  ghost predicate FreshFrom(s: State, n: nat, m: nat)
    requires |s.cells| == |s.graph.labels| && |s.pcs| == |s.graph.edges|
  {
    && (forall c :: n <= c < |s.cells| ==> s.cells[c] == FreshCell(s.graph.labels[c]))
    && (forall f :: m <= f < |s.pcs| ==> s.pcs[f] == FirstPc(s.graph.edges[f], f))
  }

  lemma FreshKinds(s: State, sources: Sources, n: nat, m: nat)
    requires Shaped(s, sources) && FreshFrom(s, n, m) && n <= |s.cells|
    ensures forall c :: n <= c < |s.cells| ==> KindInv(s, c)
  {
  }

  lemma FreshParts(s: State, sources: Sources, n: nat, m: nat)
    requires Shaped(s, sources) && AllKinds(s) && FreshFrom(s, n, m) && n <= |s.cells| && m <= |s.pcs|
    requires forall f :: m <= f < |s.pcs| ==> n <= s.graph.edges[f].dst
    requires forall c, i :: n <= c < |s.cells| && 0 <= i < Arity(s.graph, c) ==> m <= Child(s.graph, c, i)
    ensures forall f :: m <= f < |s.pcs| ==> EdgeInv(s, sources, f)
    ensures forall c :: n <= c < |s.cells| ==> ValueInv(s, sources, c)
  {
    forall f | m <= f < |s.pcs| ensures EdgeInv(s, sources, f) {
      EdgeEnds(s, sources, f);
      assert s.pcs[f] == FirstPc(s.graph.edges[f], f);
    }
    forall c | n <= c < |s.cells| ensures ValueInv(s, sources, c) {
      assert s.cells[c] == FreshCell(s.graph.labels[c]);
      forall i | 0 <= i < Arity(s.graph, c) ensures !Publishing(s, c, i) {
        ChildIsOwn(s, sources, c, i);
        assert s.pcs[Child(s.graph, c, i)] == FirstPc(s.graph.edges[Child(s.graph, c, i)], Child(s.graph, c, i));
      }
    }
  }

  /** The child callbacks of a cell there after but not before an extension came with it. */
  lemma OldChildOldCell(s: State, s': State, sources: Sources, c: nat, i: nat)
    requires Shaped(s, sources) && Shaped(s', sources) && Extends(s.graph, s'.graph) && AllKinds(s)
    requires c < |s'.cells| && i < Arity(s'.graph, c) && Child(s'.graph, c, i) < |s.pcs|
    ensures c < |s.cells|
  {
    ChildIsOwn(s', sources, c, i);
    EdgeEnds(s, sources, Child(s'.graph, c, i));
  }

  /** What an extension adds satisfies the invariant. */
  lemma NewParts(s: State, s': State, sources: Sources)
    requires Inv(s, sources) && Shaped(s', sources) && Extends(s.graph, s'.graph)
    requires s'.cells[..|s.cells|] == s.cells && FreshFrom(s', |s.cells|, |s.pcs|)
    ensures AllKinds(s')
    ensures forall f :: |s.pcs| <= f < |s'.pcs| ==> EdgeInv(s', sources, f)
    ensures forall c :: |s.cells| <= c < |s'.cells| ==> ValueInv(s', sources, c)
  {
    FreshKinds(s', sources, |s.cells|, |s.pcs|);
    forall c | 0 <= c < |s'.cells| ensures KindInv(s', c) {
      if c < |s.cells| {
        assert KindInv(s, c) && s'.cells[c] == s'.cells[..|s.cells|][c];
      }
    }
    forall f | |s.pcs| <= f < |s'.pcs| ensures |s.cells| <= s'.graph.edges[f].dst {
      if s'.graph.edges[f].dst < |s.cells| {
        OldCellOldEdge(s.graph, s'.graph, sources, f);
      }
    }
    forall c, i | |s.cells| <= c < |s'.cells| && 0 <= i < Arity(s'.graph, c) ensures |s.pcs| <= Child(s'.graph, c, i) {
      if Child(s'.graph, c, i) < |s.pcs| {
        OldChildOldCell(s, s', sources, c, i);
      }
    }
    FreshParts(s', sources, |s.cells|, |s.pcs|);
  }

  lemma GrownParts(s: State, e: nat, g': Graph, pc: Pc)
    requires |s.cells| == |s.graph.labels| <= |g'.labels| && e < |s.pcs| == |s.graph.edges| <= |g'.edges|
    ensures var s' := SetPc(Grow(s, g'), e, pc);
      && s'.graph == g' && |s'.cells| == |g'.labels| && |s'.pcs| == |g'.edges|
      && s'.cells[..|s.cells|] == s.cells && FreshFrom(s', |s.cells|, |s.pcs|)
      && forall f :: 0 <= f < |s.pcs| && f != e ==> s'.pcs[f] == s.pcs[f]
  {
    hide FreshCell, FirstPc;
  }

  /** Callback `e` allocates what a bound function builds and moves on. */
  lemma GrowFrame(s: State, sources: Sources, e: nat, g': Graph, pc: Pc)
    requires Inv(s, sources) && e < |s.pcs| && Wired(g', sources) && Extends(s.graph, g')
    ensures var s' := SetPc(Grow(s, g'), e, pc);
      && Touches(s, s', sources, e)
      && s'.graph == g' && (forall c :: 0 <= c < |s.cells| ==> s'.cells[c] == s.cells[c])
      && (forall f :: |s.pcs| <= f < |s'.pcs| ==> EdgeInv(s', sources, f))
      && (forall c :: |s.cells| <= c < |s'.cells| ==> ValueInv(s', sources, c))
  {
    hide FreshCell, FirstPc, Wired, EffectInv, ValueInv, KindInv;
    GrownParts(s, e, g', pc);
    var s' := SetPc(Grow(s, g'), e, pc);
    NewParts(s, s', sources);
    forall c | 0 <= c < |s.cells| ensures s'.cells[c] == s.cells[c] {
      assert s'.cells[..|s.cells|][c] == s'.cells[c];
    }
    forall f | 0 <= f < |s.pcs| && f != e ensures Follows(s, s', f) {
      assert EdgeInv(s, sources, f);
    }
  }

  lemma InvokeBindValueKeeps(s: State, sources: Sources, e: nat)
    requires Inv(s, sources) && e < |s.pcs| && s.pcs[e].Active? && s.pcs[e].action.Invoke? && s.graph.edges[e].BindEdge?
    requires s.pcs[e].action.result.Ok?
    ensures Inv(Step(s, e, sources), sources) && Touches(s, Step(s, e, sources), sources, e)
  {
    var s', edge := Step(s, e, sources), s.graph.edges[e];
    var task := Then(edge.g, s.pcs[e].action.result.value);
    EdgeEnds(s, sources, e);
    assert EdgeInv(s, sources, e) && EdgeWired(s.graph, sources, e);
    BuildWired(s.graph, task, sources);
    var (g', root) := Build(s.graph, task, |sources|);
    GrowFrame(s, sources, e, g', Active(TrackTo(e, root)));
    assert s' == SetPc(Grow(s, g'), e, Active(TrackTo(e, root)));
    hide Build, Wired, Grow, Step;
    ReadStays(s, s', sources, edge.src);
    assert EdgeInv(s', sources, e);
    assert ValueInv(s', sources, edge.dst);
    Assemble(s, s', sources, e);
  }

  // ---------- The steps of when_all ----------

  lemma StoreKeeps(s: State, sources: Sources, e: nat)
    requires Inv(s, sources) && e < |s.pcs| && s.pcs[e].Active? && s.pcs[e].action.Invoke? && s.graph.edges[e].AllEdge?
    requires s.pcs[e].action.result.Ok?
    ensures Inv(Step(s, e, sources), sources) && Touches(s, Step(s, e, sources), sources, e)
  {
    var s', edge := Step(s, e, sources), s.graph.edges[e];
    EdgeEnds(s, sources, e);
    assert EdgeInv(s, sources, e);
    OwnCellFrame(s, s', sources, e);
    ReadStays(s, s', sources, edge.src);
    assert EdgeInv(s', sources, e);
    OwnValueKeeps(s, s', sources, e);
    Assemble(s, s', sources, e);
  }

  /** As `OwnValueSame`, when only slots change. */
  lemma OwnValueKeeps(s: State, s': State, sources: Sources, e: nat)
    requires Inv(s, sources) && Touches(s, s', sources, e) && s.graph.edges[e].dst < |s.cells|
    requires var c := s.graph.edges[e].dst;
      s'.cells[c].value == s.cells[c].value && s'.cells[c].counted == s.cells[c].counted
    requires forall i :: Child(s.graph, s.graph.edges[e].dst, i) == e ==>
      !Publishing(s, s.graph.edges[e].dst, i) && !Publishing(s', s.graph.edges[e].dst, i)
    ensures ValueInv(s', sources, s.graph.edges[e].dst)
  {
    var c := s.graph.edges[e].dst;
    assert ValueInv(s, sources, c) && s'.graph.labels[c] == s.graph.labels[c];
    var n := Arity(s.graph, c);
    forall i | 0 <= i < n ensures Publishing(s', c, i) <==> Publishing(s, c, i) {
      ChildIsOwn(s, sources, c, i);
      if Child(s.graph, c, i) != e {
        OtherPublishing(s, s', sources, e, c, i);
      }
    }
    PublishingStays(s, s', c, n);
    if s.cells[c].value.Some? {
      match s.graph.labels[c]
      case Task(WhenAll(es)) => AllValueStays(s, s', sources, c, es, s.cells[c].value.value);
      case Task(WhenAny(es)) => AnyValueStays(s, s', sources, c, es, s.cells[c].value.value);
      case _ =>
    }
  }

  /** The publishers after a step of child `e`: those before, without or with `e` as it now stands. */
  lemma PublishersAfter(s: State, s': State, sources: Sources, e: nat, n: nat)
    requires Inv(s, sources) && Touches(s, s', sources, e) && IsCombinatorEdge(s.graph.edges[e])
    requires s.graph.edges[e].dst < |s.cells| && n == Arity(s.graph, s.graph.edges[e].dst)
    requires OnePublisher(s, s.graph.edges[e].dst, n)
    ensures var c, own := s.graph.edges[e].dst, s.graph.edges[e].index;
      && own < n && Child(s.graph, c, own) == e && Child(s'.graph, c, own) == e
      && (forall i :: 0 <= i < n && i != own ==> (Publishing(s', c, i) <==> Publishing(s, c, i)))
      && (!Publishing(s', c, own) ==> OnePublisher(s', c, n))
      && ((forall i :: 0 <= i < n && i != own ==> !Publishing(s, c, i)) ==> OnePublisher(s', c, n))
  {
    var c, own := s.graph.edges[e].dst, s.graph.edges[e].index;
    assert EdgeWired(s.graph, sources, e);
    forall i | 0 <= i < n && i != own ensures Publishing(s', c, i) <==> Publishing(s, c, i) {
      OtherPublishing(s, s', sources, e, c, i);
    }
  }

  lemma InvokeAllErrorKeeps(s: State, sources: Sources, e: nat)
    requires Inv(s, sources) && e < |s.pcs| && s.pcs[e].Active? && s.pcs[e].action.Invoke? && s.graph.edges[e].AllEdge?
    requires s.pcs[e].action.result.Err?
    ensures Inv(Step(s, e, sources), sources) && Touches(s, Step(s, e, sources), sources, e)
  {
    var s', edge, r := Step(s, e, sources), s.graph.edges[e], s.pcs[e].action.result;
    EdgeEnds(s, sources, e);
    assert EdgeInv(s, sources, e) && EdgeWired(s.graph, sources, e) && ValueInv(s, sources, edge.dst);
    PutFrame(s, sources, e, edge.dst, r, Done);
    ReadStays(s, s', sources, edge.src);
    assert EdgeInv(s', sources, e);
    var es := s.graph.labels[edge.dst].e.all;
    PublishersAfter(s, s', sources, e, |es|);
    if s.cells[edge.dst].value.Some? {
      AllValueStays(s, s', sources, edge.dst, es, s.cells[edge.dst].value.value);
    } else {
      assert ChildRead(s', edge.dst, edge.index) == Some(r);
    }
    assert ValueInv(s', sources, edge.dst);
    Assemble(s, s', sources, e);
  }

  lemma CountUpKeeps(s: State, sources: Sources, e: nat)
    requires Inv(s, sources) && e < |s.pcs| && s.pcs[e].Active? && s.pcs[e].action.CountUp?
    ensures Inv(Step(s, e, sources), sources) && Touches(s, Step(s, e, sources), sources, e)
  {
    assert EdgeInv(s, sources, e);
    var s', edge := Step(s, e, sources), s.graph.edges[e];
    var c, own := edge.dst, edge.index;
    EdgeEnds(s, sources, e);
    assert EdgeWired(s.graph, sources, e) && ValueInv(s, sources, c) && KindInv(s, c);
    OwnCellFrame(s, s', sources, e);
    ReadStays(s, s', sources, edge.src);
    assert EdgeInv(s', sources, e);
    var es := s.graph.labels[c].e.all;
    NotFull(s, sources, e);
    PublishersAfter(s, s', sources, e, |es|);
    if s.cells[c].value.Some? {
      AllValueStays(s, s', sources, c, es, s.cells[c].value.value);
    }
    if |es| <= |s'.cells[c].counted| {
      assert Publishing(s', c, own);
    }
    assert ValueInv(s', sources, c);
    Assemble(s, s', sources, e);
  }

  /** While child `e` is uncounted its combinator is not full, and nobody publishes. */
  lemma NotFull(s: State, sources: Sources, e: nat)
    requires Inv(s, sources) && e < |s.pcs| && IsCombinatorEdge(s.graph.edges[e]) && s.graph.edges[e].dst < |s.cells|
    requires s.graph.edges[e].index !in s.cells[s.graph.edges[e].dst].counted
    ensures var c := s.graph.edges[e].dst;
      && |s.cells[c].counted| < Arity(s.graph, c)
      && forall i :: 0 <= i < Arity(s.graph, c) ==> !Publishing(s, c, i)
  {
    var c := s.graph.edges[e].dst;
    var n := Arity(s.graph, c);
    assert EdgeWired(s.graph, sources, e) && KindInv(s, c);
    FullCount(s.cells[c].counted, n);
    forall i | 0 <= i < n ensures !Publishing(s, c, i) {
      ChildIsOwn(s, sources, c, i);
      assert EdgeInv(s, sources, Child(s.graph, c, i));
    }
  }

  /** In a full combinator every child has run, and read what its slot or its count says. */
  lemma FullMeansRead(s: State, sources: Sources, c: nat, i: nat)
    requires Inv(s, sources) && c < |s.cells| && i < Arity(s.graph, c) <= |s.cells[c].counted|
    ensures ChildRead(s, c, i).Some?
    ensures s.graph.labels[c].e.WhenAll? ==>
      i < |s.cells[c].slots| && ChildRead(s, c, i) == Some(Ok(s.cells[c].slots[i]))
    ensures s.graph.labels[c].e.WhenAny? ==> ChildRead(s, c, i).value.Err?
  {
    assert KindInv(s, c);
    FullCount(s.cells[c].counted, Arity(s.graph, c));
    ChildIsOwn(s, sources, c, i);
    assert EdgeInv(s, sources, Child(s.graph, c, i));
  }

  lemma PublishKeeps(s: State, sources: Sources, e: nat)
    requires Inv(s, sources) && e < |s.pcs| && s.pcs[e].Active? && s.pcs[e].action.Publish?
    ensures Inv(Step(s, e, sources), sources) && Touches(s, Step(s, e, sources), sources, e)
  {
    var s', edge := Step(s, e, sources), s.graph.edges[e];
    var c := edge.dst;
    EdgeEnds(s, sources, e);
    assert EdgeInv(s, sources, e) && EdgeWired(s.graph, sources, e) && ValueInv(s, sources, c) && KindInv(s, c);
    var es, slots := s.graph.labels[c].e.all, s.cells[c].slots;
    PutFrame(s, sources, e, c, Ok(Vec(slots)), Done);
    ReadStays(s, s', sources, edge.src);
    assert EdgeInv(s', sources, e);
    PublishersAfter(s, s', sources, e, |es|);
    if s.cells[c].value.Some? {
      AllValueStays(s, s', sources, c, es, s.cells[c].value.value);
    } else {
      forall i | 0 <= i < |es| ensures ChildRead(s', c, i) == Some(Ok(slots[i])) {
        FullMeansRead(s, sources, c, i);
        ChildReadStays(s, s', sources, c, i);
      }
    }
    assert ValueInv(s', sources, c);
    Assemble(s, s', sources, e);
  }

  // ---------- The steps of when_any ----------

  lemma InvokeAnyValueKeeps(s: State, sources: Sources, e: nat)
    requires Inv(s, sources) && e < |s.pcs| && s.pcs[e].Active? && s.pcs[e].action.Invoke? && s.graph.edges[e].AnyEdge?
    requires s.pcs[e].action.result.Ok?
    ensures Inv(Step(s, e, sources), sources) && Touches(s, Step(s, e, sources), sources, e)
  {
    var s', edge, r := Step(s, e, sources), s.graph.edges[e], s.pcs[e].action.result;
    EdgeEnds(s, sources, e);
    assert EdgeInv(s, sources, e) && EdgeWired(s.graph, sources, e) && ValueInv(s, sources, edge.dst);
    PutFrame(s, sources, e, edge.dst, r, Done);
    ReadStays(s, s', sources, edge.src);
    assert EdgeInv(s', sources, e);
    var es := s.graph.labels[edge.dst].e.any;
    PublishersAfter(s, s', sources, e, |es|);
    if s.cells[edge.dst].value.Some? {
      AnyValueStays(s, s', sources, edge.dst, es, s.cells[edge.dst].value.value);
    } else {
      assert ChildRead(s', edge.dst, edge.index) == Some(r);
    }
    assert ValueInv(s', sources, edge.dst);
    Assemble(s, s', sources, e);
  }

  lemma LogErrorKeeps(s: State, sources: Sources, e: nat)
    requires Inv(s, sources) && e < |s.pcs| && s.pcs[e].Active? && s.pcs[e].action.Invoke? && s.graph.edges[e].AnyEdge?
    requires s.pcs[e].action.result.Err?
    ensures Inv(Step(s, e, sources), sources) && Touches(s, Step(s, e, sources), sources, e)
  {
    assert EdgeInv(s, sources, e);
    var s', edge := Step(s, e, sources), s.graph.edges[e];
    var c, own := edge.dst, edge.index;
    EdgeEnds(s, sources, e);
    assert EdgeWired(s.graph, sources, e) && ValueInv(s, sources, c) && KindInv(s, c);
    OwnCellFrame(s, s', sources, e);
    ReadStays(s, s', sources, edge.src);
    assert EdgeInv(s', sources, e);
    var es := s.graph.labels[c].e.any;
    NotFull(s, sources, e);
    PublishersAfter(s, s', sources, e, |es|);
    if s.cells[c].value.Some? {
      AnyValueStays(s, s', sources, c, es, s.cells[c].value.value);
    }
    if |es| <= |s'.cells[c].counted| {
      assert Publishing(s', c, own);
    }
    assert ValueInv(s', sources, c);
    Assemble(s, s', sources, e);
  }

  lemma PublishErrorKeeps(s: State, sources: Sources, e: nat)
    requires Inv(s, sources) && e < |s.pcs| && s.pcs[e].Active? && s.pcs[e].action.PublishError?
    ensures Inv(Step(s, e, sources), sources) && Touches(s, Step(s, e, sources), sources, e)
  {
    var s', edge, r: Outcome := Step(s, e, sources), s.graph.edges[e], Err(s.pcs[e].action.error);
    var c := edge.dst;
    EdgeEnds(s, sources, e);
    assert EdgeInv(s, sources, e) && EdgeWired(s.graph, sources, e) && ValueInv(s, sources, c) && KindInv(s, c);
    var es := s.graph.labels[c].e.any;
    PutFrame(s, sources, e, c, r, Done);
    ReadStays(s, s', sources, edge.src);
    assert EdgeInv(s', sources, e);
    PublishersAfter(s, s', sources, e, |es|);
    if s.cells[c].value.Some? {
      AnyValueStays(s, s', sources, c, es, s.cells[c].value.value);
    } else {
      assert ChildRead(s', c, edge.index) == Some(r);
      forall i | 0 <= i < |es| ensures ChildRead(s', c, i).Some? && ChildRead(s', c, i).value.Err? {
        FullMeansRead(s, sources, c, i);
        ChildReadStays(s, s', sources, c, i);
      }
    }
    assert ValueInv(s', sources, c);
    Assemble(s, s', sources, e);
  }

  /** Every step keeps the invariant. */
  lemma StepKeeps(s: State, sources: Sources, e: nat)
    requires Inv(s, sources) && e < |s.pcs|
    ensures Inv(Step(s, e, sources), sources) && Touches(s, Step(s, e, sources), sources, e)
  {
    assert EdgeInv(s, sources, e);
    if !s.pcs[e].Active? {
      MoveFrame(s, sources, e, s.pcs[e]);
      assert s.pcs[e := s.pcs[e]] == s.pcs;
    } else {
      match s.pcs[e].action
      case Resolve(_) => ResolveKeeps(s, sources, e);
      case Register(_, _) => RegisterKeeps(s, sources, e);
      case CountUp(_) => CountUpKeeps(s, sources, e);
      case Publish(_) => PublishKeeps(s, sources, e);
      case PublishError(_, _) => PublishErrorKeeps(s, sources, e);
      case TrackTo(_, _) => TrackKeeps(s, sources, e);
      case Invoke(_, r) =>
        match s.graph.edges[e] {
          case MapEdge(_, _, _) => InvokeMapKeeps(s, sources, e);
          case BindEdge(_, _, _, _) => if r.Ok? { InvokeBindValueKeeps(s, sources, e); } else { InvokeBindErrorKeeps(s, sources, e); }
          case AllEdge(_, _, _) => if r.Ok? { StoreKeeps(s, sources, e); } else { InvokeAllErrorKeeps(s, sources, e); }
          case AnyEdge(_, _, _) => if r.Ok? { InvokeAnyValueKeeps(s, sources, e); } else { LogErrorKeeps(s, sources, e); }
          case Fill(_, _) =>
        }
    }
  }

  /** The initial state satisfies the invariant. */
  lemma InitialInv(program: seq<Expr>, sources: Sources)
    ensures Inv(Initial(program, sources), sources)
  {
    var s, g0 := Initial(program, sources), SourceGraph(sources);
    SourceGraphWired(sources);
    BuildEachWired(g0, program, sources);
    FreshKinds(s, sources, 0, 0);
    FreshParts(s, sources, 0, 0);
  }
}
