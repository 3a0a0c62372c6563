/** Every schedule agrees with the meaning of the task expressions. */
module TaskMeaning {
  import opened Wrappers
  import opened TaskSyntax
  import opened TaskGraph
  import opened TaskMachine
  import opened TaskInvariant
  import opened TaskFrames
  import opened TaskSteps

  // ---------- A filled cell holds a result its task may have ----------

  /** A tracking cell reads what its target reads. */
  lemma ReadTarget(s: State, sources: Sources, c: nat)
    requires Inv(s, sources) && c < |s.cells| && s.cells[c].target.Some?
    ensures s.cells[c].target.value < |s.cells| && Read(s, c) == Read(s, s.cells[c].target.value)
  {
    assert KindInv(s, c) && KindInv(s, s.cells[c].target.value);
  }

  /** The callback that feeds the cell of a created, mapped or bound task, or of a completed source. */
  lemma HomeEdge(s: State, sources: Sources, c: nat, e: Expr)
    requires Inv(s, sources) && LabelIs(s.graph, c, e) && (e.Create? || e.Map? || e.Bind?)
    ensures var h := s.graph.homes[c];
      && h < |s.pcs| && EdgeInv(s, sources, h) && s.graph.edges[h].dst == c
      && (e.Create? ==> s.graph.edges[h] == Fill(c, Ok(e.v)))
      && (e.Map? ==> s.graph.edges[h].MapEdge? && s.graph.edges[h].f == e.f && LabelIs(s.graph, s.graph.edges[h].src, e.mapped))
      && (e.Bind? ==> s.graph.edges[h].BindEdge? && s.graph.edges[h].g == e.g && LabelIs(s.graph, s.graph.edges[h].src, e.bound))
  {
    assert CellWired(s.graph, sources, c);
    var h := s.graph.homes[c];
    assert EdgeInv(s, sources, h);
  }

  /** The cell that the callback feeding `c` is registered on. */
  ghost function SourceOf(g: Graph, c: nat): (src: nat) {
    if c < |g.homes| && g.homes[c] < |g.edges| && !g.edges[g.homes[c]].Fill? then g.edges[g.homes[c]].src else 0
  }

  lemma MapReadAllowed(s: State, sources: Sources, c: nat, e: Expr)
    requires Inv(s, sources) && LabelIs(s.graph, c, e) && e.Map? && Read(s, c).Some?
    ensures var src := SourceOf(s.graph, c);
      && LabelIs(s.graph, src, e.mapped) && Read(s, src).Some?
      && Read(s, c) == Some(MapOutcome(e.f, Read(s, src).value))
  {
    HomeEdge(s, sources, c, e);
    assert KindInv(s, c);
  }

  lemma BindReadAllowed(s: State, sources: Sources, c: nat, e: Expr)
    requires Inv(s, sources) && LabelIs(s.graph, c, e) && e.Bind? && Read(s, c).Some?
    ensures var src := SourceOf(s.graph, c);
      && LabelIs(s.graph, src, e.bound) && Read(s, src).Some?
      && (Read(s, src).value.Err? ==> Read(s, c) == Read(s, src))
      && (Read(s, src).value.Ok? ==>
          && s.cells[c].target.Some?
          && LabelIs(s.graph, s.cells[c].target.value, Then(e.g, Read(s, src).value.value))
          && Read(s, c) == Read(s, s.cells[c].target.value))
  {
    var h := s.graph.homes[c];
    HomeEdge(s, sources, c, e);
    EdgeEnds(s, sources, h);
    assert KindInv(s, c);
    assert s.cells[c].target.Some?;
    ReadTarget(s, sources, c);
    ErrorCellLabel(s, sources, h);
    assert KindInv(s, s.graph.edges[h].err);
  }

  lemma NeverReads(s: State, sources: Sources, c: nat)
    requires Inv(s, sources) && LabelIs(s.graph, c, NEVER)
    ensures Read(s, c) == None
  {
    assert KindInv(s, c) && ValueInv(s, sources, c);
  }

  /**
   * Safety. In every state that satisfies the invariant, a cell that can be read holds a result that the meaning
   * of its task allows: whatever the order of jobs, the races of `when_any` and the tasks `bind` unfolded into.
   */
  lemma {:induction false} ReadAllowed(s: State, sources: Sources, c: nat, e: Expr)
    requires Inv(s, sources) && LabelIs(s.graph, c, e) && Read(s, c).Some?
    ensures Read(s, c).value in Results(e, sources)
    decreases e
  {
    assert KindInv(s, c) && ValueInv(s, sources, c);
    var r := Read(s, c).value;
    match e
    case Source(k) =>
    case Create(v) => HomeEdge(s, sources, c, e);
    case Map(e1, f) =>
      MapReadAllowed(s, sources, c, e);
      ReadAllowed(s, sources, SourceOf(s.graph, c), e1);
    case Bind(e1, g) =>
      BindReadAllowed(s, sources, c, e);
      var src := SourceOf(s.graph, c);
      ReadAllowed(s, sources, src, e1);
      var r1 := Read(s, src).value;
      if r1.Ok? {
        var x := s.cells[c].target.value;
        if r1.value in g {
          ReadAllowed(s, sources, x, g[r1.value]);
        } else {
          NeverReads(s, sources, x);
        }
      }
      assert r in BoundResults(g, r1, sources);
      InBindResults(e, Results(e1, sources), sources, r);
    case WhenAll(es) =>
      forall i | 0 <= i < |es| && ChildRead(s, c, i).Some?
        ensures ChildRead(s, c, i).value in Results(es[i], sources)
      {
        ChildIsOwn(s, sources, c, i);
        ReadAllowed(s, sources, s.graph.edges[Child(s.graph, c, i)].src, es[i]);
      }
      AllAllowed(s, c, es, r, sources);
    case WhenAny(es) =>
      forall i | 0 <= i < |es| && ChildRead(s, c, i).Some?
        ensures ChildRead(s, c, i).value in Results(es[i], sources)
      {
        ChildIsOwn(s, sources, c, i);
        ReadAllowed(s, sources, s.graph.edges[Child(s.graph, c, i)].src, es[i]);
      }
      AnyAllowed(s, c, es, r, sources);
    case Shared(_, task) => ReadAllowed(s, sources, c, task);
  }

  lemma AllAllowed(s: State, c: nat, es: seq<Expr>, r: Outcome, sources: Sources)
    requires AllValue(s, c, es, r)
    requires forall i :: 0 <= i < |es| && ChildRead(s, c, i).Some? ==> ChildRead(s, c, i).value in Results(es[i], sources)
    ensures r in Results(WhenAll(es), sources)
  {
    match r
    case Ok(x) =>
      forall i | 0 <= i < |es| ensures Ok(x.elems[i]) in Results(es[i], sources) {
        assert ChildRead(s, c, i) == Some(Ok(x.elems[i]));
      }
      InVectors(es, sources, x.elems);
    case Err(_) =>
      var i :| 0 <= i < |es| && ChildRead(s, c, i) == Some(r);
      assert r in Results(es[i], sources);
      assert r in Errors(es, sources);
  }

  lemma AnyAllowed(s: State, c: nat, es: seq<Expr>, r: Outcome, sources: Sources)
    requires AnyValue(s, c, es, r)
    requires forall i :: 0 <= i < |es| && ChildRead(s, c, i).Some? ==> ChildRead(s, c, i).value in Results(es[i], sources)
    ensures r in Results(WhenAny(es), sources)
  {
    var i :| 0 <= i < |es| && ChildRead(s, c, i) == Some(r);
    assert r in Results(es[i], sources);
    if r.Err? {
      forall j | 0 <= j < |es| ensures exists q :: q in Results(es[j], sources) && q.Err? {
        assert ChildRead(s, c, j).value in Results(es[j], sources);
      }
    }
  }

  // ---------- When nothing can move, what must resolve has resolved ----------

  /** No callback has anything pending: each waits in an unresolved cell or is done. */
  ghost predicate Quiescent(s: State) {
    forall e :: 0 <= e < |s.pcs| ==> !s.pcs[e].Active?
  }

  /** At quiescence a callback is done exactly when its own cell can be read. */
  lemma QuiescentDone(s: State, sources: Sources, e: nat)
    requires Inv(s, sources) && Quiescent(s) && e < |s.pcs|
    ensures s.graph.edges[e].Fill? ==> s.pcs[e].Done?
    ensures !s.graph.edges[e].Fill? ==> (s.pcs[e].Done? <==> Read(s, s.graph.edges[e].src).Some?)
  {
    assert EdgeInv(s, sources, e);
    EdgeEnds(s, sources, e);
    if s.pcs[e].Waiting? {
      ChainRead(s, sources, s.graph.edges[e].src, s.pcs[e].at);
    }
  }

  lemma ChildDone(s: State, sources: Sources, c: nat, i: nat)
    requires Inv(s, sources) && Quiescent(s) && c < |s.cells| && i < Arity(s.graph, c) && ChildRead(s, c, i).Some?
    ensures var r := ChildRead(s, c, i).value;
      if r.Ok? == s.graph.labels[c].e.WhenAll? then i in s.cells[c].counted else s.cells[c].value.Some?
  {
    var e := Child(s.graph, c, i);
    ChildIsOwn(s, sources, c, i);
    QuiescentDone(s, sources, e);
    assert EdgeInv(s, sources, e);
  }

  ghost predicate AllRead(s: State, c: nat, n: nat) {
    forall i :: 0 <= i < n ==> ChildRead(s, c, i).Some?
  }

  /** Some child alone decides the combinator: a value for when_any, an error for when_all. */
  ghost predicate SomeDecides(s: State, c: nat, n: nat, any: bool) {
    exists i :: 0 <= i < n && ChildRead(s, c, i).Some? && ChildRead(s, c, i).value.Ok? == any
  }

  /**
   * At quiescence a combinator has resolved exactly when the results of its children decide it; over no tasks
   * it never resolves.
   */
  lemma CombinatorResolved(s: State, sources: Sources, c: nat, n: nat)
    requires Inv(s, sources) && Quiescent(s) && c < |s.cells| && n == Arity(s.graph, c) && s.graph.labels[c].Task?
    requires s.graph.labels[c].e.WhenAll? || s.graph.labels[c].e.WhenAny?
    ensures s.cells[c].value.Some? <==> n > 0 && (AllRead(s, c, n) || SomeDecides(s, c, n, s.graph.labels[c].e.WhenAny?))
  {
    assert ValueInv(s, sources, c) && KindInv(s, c);
    var cell := s.cells[c];
    forall i | 0 <= i < n ensures !Publishing(s, c, i) {
    }
    forall i | 0 <= i < n && ChildRead(s, c, i).Some? && cell.value.None? ensures i in cell.counted {
      ChildDone(s, sources, c, i);
    }
    forall i | 0 <= i < n && ChildRead(s, c, i).Some? && ChildRead(s, c, i).value.Ok? == s.graph.labels[c].e.WhenAny?
      ensures cell.value.Some?
    {
      ChildDone(s, sources, c, i);
    }
    if n > 0 && cell.value.None? && AllRead(s, c, n) {
      assert Range(n) <= cell.counted;
      SubsetSize(Range(n), cell.counted);
    }
  }

  /**
   * Progress. When nothing is pending any more, every task whose result is defined under every schedule has
   * resolved.
   */
  lemma {:induction false} QuiescentResolved(s: State, sources: Sources, c: nat, e: Expr)
    requires Inv(s, sources) && Quiescent(s) && LabelIs(s.graph, c, e) && Resolves(e, sources)
    ensures Read(s, c).Some?
    decreases e
  {
    assert KindInv(s, c) && CellWired(s.graph, sources, c);
    var h := s.graph.homes[c];
    match e
    case Source(k) =>
      QuiescentDone(s, sources, h);
      assert EdgeInv(s, sources, h);
    case Create(_) =>
      HomeEdge(s, sources, c, e);
      QuiescentDone(s, sources, h);
    case Map(e1, _) =>
      HomeEdge(s, sources, c, e);
      QuiescentResolved(s, sources, s.graph.edges[h].src, e1);
      QuiescentDone(s, sources, h);
    case Bind(e1, g) =>
      HomeEdge(s, sources, c, e);
      EdgeEnds(s, sources, h);
      var src := s.graph.edges[h].src;
      QuiescentResolved(s, sources, src, e1);
      ReadAllowed(s, sources, src, e1);
      QuiescentDone(s, sources, h);
      ReadTarget(s, sources, c);
      var r := Read(s, src).value;
      if r.Ok? {
        QuiescentResolved(s, sources, s.cells[c].target.value, g[r.value]);
      } else {
        ErrorCellLabel(s, sources, h);
        assert KindInv(s, s.graph.edges[h].err);
      }
    case WhenAll(es) =>
      ChildrenResolved(s, sources, c, es);
      CombinatorResolved(s, sources, c, |es|);
    case WhenAny(es) =>
      ChildrenResolved(s, sources, c, es);
      CombinatorResolved(s, sources, c, |es|);
    case Shared(_, task) => QuiescentResolved(s, sources, c, task);
  }

  lemma {:induction false} ChildrenResolved(s: State, sources: Sources, c: nat, es: seq<Expr>)
    requires Inv(s, sources) && Quiescent(s) && (LabelIs(s.graph, c, WhenAll(es)) || LabelIs(s.graph, c, WhenAny(es)))
    ensures forall i :: 0 <= i < |es| && Resolves(es[i], sources) ==>
      ChildRead(s, c, i).Some? && ChildRead(s, c, i).value in Results(es[i], sources)
    decreases es
  {
    forall i | 0 <= i < |es| && Resolves(es[i], sources)
      ensures ChildRead(s, c, i).Some? && ChildRead(s, c, i).value in Results(es[i], sources)
    {
      ChildIsOwn(s, sources, c, i);
      var src := s.graph.edges[Child(s.graph, c, i)].src;
      QuiescentResolved(s, sources, src, es[i]);
      ReadAllowed(s, sources, src, es[i]);
    }
  }

  // ---------- Laws of the meanings ----------

  /** `map(f)` has the results of `bind` to a task created from `f(x)`, errors included, and resolves when it does. */
  lemma MapIsBind(e: Expr, f: Value -> Value, sources: Sources)
    ensures var b := Bind(e, imap v | true :: Create(f(v)));
      && Results(Map(e, f), sources) == Results(b, sources)
      && (Resolves(Map(e, f), sources) <==> Resolves(b, sources))
  {
    var g: imap<Value, Expr> := imap v | true :: Create(f(v));
    var b := Bind(e, g);
    forall q ensures q in Results(Map(e, f), sources) <==> q in Results(b, sources) {
      InBindResults(b, Results(e, sources), sources, q);
      forall r: Outcome ensures BoundResults(g, r, sources) == {MapOutcome(f, r)} {
        if r.Ok? {
          assert Then(g, r.value) == Create(f(r.value));
        }
      }
    }
  }

  /** Binding twice is binding to a bound task. */
  lemma BindAssociates(e: Expr, g: imap<Value, Expr>, h: imap<Value, Expr>, sources: Sources)
    ensures Results(Bind(Bind(e, g), h), sources)
         == Results(Bind(e, imap v | v in g :: Bind(g[v], h)), sources)
  {
    var inner: imap<Value, Expr> := imap v | v in g :: Bind(g[v], h);
    var left, right := Bind(Bind(e, g), h), Bind(e, inner);
    NeverHasNoResult(sources);
    forall q ensures q in Results(left, sources) <==> q in Results(right, sources) {
      InBindResults(left, Results(Bind(e, g), sources), sources, q);
      InBindResults(right, Results(e, sources), sources, q);
      if q in Results(left, sources) {
        var r :| r in Results(Bind(e, g), sources) && q in BoundResults(h, r, sources);
        InBindResults(Bind(e, g), Results(e, sources), sources, r);
        var p :| p in Results(e, sources) && r in BoundResults(g, p, sources);
        AssociateStep(g, h, p, sources, q);
        assert q in BoundResults(inner, p, sources);
      }
      if q in Results(right, sources) {
        var p :| p in Results(e, sources) && q in BoundResults(inner, p, sources);
        AssociateStep(g, h, p, sources, q);
        var r :| r in BoundResults(g, p, sources) && q in BoundResults(h, r, sources);
        InBindResults(Bind(e, g), Results(e, sources), sources, r);
      }
    }
  }

  lemma AssociateStep(g: imap<Value, Expr>, h: imap<Value, Expr>, p: Outcome, sources: Sources, q: Outcome)
    ensures var inner: imap<Value, Expr> := imap v | v in g :: Bind(g[v], h);
      q in BoundResults(inner, p, sources) <==>
        exists r :: r in BoundResults(g, p, sources) && q in BoundResults(h, r, sources)
  {
    NeverHasNoResult(sources);
    match p
    case Err(_) => assert BoundResults(g, p, sources) == {p};
    case Ok(v) =>
      if v in g {
        InBindResults(Bind(g[v], h), Results(g[v], sources), sources, q);
      }
  }
}
