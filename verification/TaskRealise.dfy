/** The meaning of a task is exact: a result is allowed if and only if it is read after some complete run. */
module TaskRealise {
  import opened Wrappers
  import opened TaskSyntax
  import opened TaskGraph
  import opened TaskMachine
  import opened TaskInvariant
  import opened TaskFrames
  import opened TaskSteps
  import opened TaskMeaning
  import opened TaskTermination
  import opened TaskHeap
  import opened TaskRefinement
  import opened TaskRuns
  import opened TaskReach
  import opened TaskAdequacy
  import opened TaskChildren

  /** No copies of tasks: the parts of the expression run independently of each other. */
  ghost predicate Unshared(e: Expr)
    decreases e
  {
    match e
    case Source(_) => true
    case Create(_) => true
    case Map(e1, _) => Unshared(e1)
    case Bind(e1, g) => Unshared(e1) && forall v :: v in g ==> Unshared(g[v])
    case WhenAll(es) => forall i :: 0 <= i < |es| ==> Unshared(es[i])
    case WhenAny(es) => forall i :: 0 <= i < |es| ==> Unshared(es[i])
    case Shared(_, _) => false
  }

  // ---------- Any allowed result can be brought about ----------

  lemma SourceYields(s: State, sources: Sources, g: Graph, k: nat, r: Outcome)
    requires Ready(s, sources, g, Build(g, Source(k), |sources|).0) && r in Results(Source(k), sources)
    ensures Yields(s, s, sources, Added(g, Build(g, Source(k), |sources|).0), Build(g, Source(k), |sources|).1, r)
  {
    hide EdgeInv, ValueInv, KindInv, Goes, CellWired, EdgeWired;
    GoesNowhere(s, sources, Added(g, g));
    assert g.labels[k] == Task(Source(k)) && s.graph.labels[k] == g.labels[k];
    ReadOwn(s, sources, k);
  }

  /** The child callbacks of a combinator that has just been built are about to begin. */
  lemma AllChildren(s: State, sources: Sources, g: Graph, e: Expr, roots: seq<nat>)
    requires e.WhenAll? && |roots| == |e.all| && Ready(s, sources, g, AddAll(g, e, roots))
    ensures Children(s, sources, |g.labels|, |g.edges|, roots, true)
    ensures Added(g, AddAll(g, e, roots)) == ChildRegion(|g.labels|, |g.edges|, |roots|)
  {
    hide EdgeInv, ValueInv, KindInv, Wired, FreshCell;
    var g', c, f0 := AddAll(g, e, roots), |g.labels|, |g.edges|;
    assert g'.labels[c] == Task(e) && s.graph.labels[c] == g'.labels[c];
    forall i | 0 <= i < |roots| ensures IsChild(s, c, f0 + i, roots[i], i, true) {
      assert g'.edges[f0 + i] == AllEdge(roots[i], c, i) && s.graph.edges[f0 + i] == g'.edges[f0 + i];
    }
  }

  lemma AnyChildren(s: State, sources: Sources, g: Graph, e: Expr, roots: seq<nat>)
    requires e.WhenAny? && |roots| == |e.any| && Ready(s, sources, g, AddAny(g, e, roots))
    ensures Children(s, sources, |g.labels|, |g.edges|, roots, false)
    ensures Added(g, AddAny(g, e, roots)) == ChildRegion(|g.labels|, |g.edges|, |roots|)
  {
    hide EdgeInv, ValueInv, KindInv, Wired, FreshCell;
    var g', c, f0 := AddAny(g, e, roots), |g.labels|, |g.edges|;
    assert g'.labels[c] == Task(e) && s.graph.labels[c] == g'.labels[c];
    forall i | 0 <= i < |roots| ensures IsChild(s, c, f0 + i, roots[i], i, false) {
      assert g'.edges[f0 + i] == AnyEdge(roots[i], c, i) && s.graph.edges[f0 + i] == g'.edges[f0 + i];
    }
  }

  /** A result of a map comes from one of the mapped task; one of a bind, from the task for one of its results. */
  lemma MapChoice(e: Expr, sources: Sources, r: Outcome) returns (p: Outcome)
    requires e.Map? && r in Results(e, sources)
    ensures p in Results(e.mapped, sources) && r == MapOutcome(e.f, p)
  {
    p :| p in Results(e.mapped, sources) && r == MapOutcome(e.f, p);
  }

  lemma BindChoice(e: Expr, sources: Sources, r: Outcome) returns (p: Outcome)
    requires e.Bind? && r in Results(e, sources)
    ensures p in Results(e.bound, sources)
    ensures p.Err? ==> r == p
    ensures p.Ok? ==> p.value in e.g && r in Results(e.g[p.value], sources)
  {
    InBindResults(e, Results(e.bound, sources), sources, r);
    p :| p in Results(e.bound, sources) && r in BoundResults(e.g, p, sources);
    NeverHasNoResult(sources);
  }

  lemma VectorChoice(es: seq<Expr>, sources: Sources, r: Outcome) returns (vs: seq<Value>, rs: seq<Outcome>)
    requires r in Results(WhenAll(es), sources) && r.Ok?
    ensures es != [] && r == Ok(Vec(vs)) && AllCount(rs, true, vs)
    ensures |rs| == |es| && forall i :: 0 <= i < |es| ==> rs[i] in Results(es[i], sources)
  {
    vs :| vs in Vectors(es, sources) && r == Ok(Vec(vs));
    InVectors(es, sources, vs);
    rs := seq(|vs|, i requires 0 <= i < |vs| => Ok(vs[i]));
  }

  /** Errors of all tasks, with a given one at `i`. */
  lemma {:induction false} ErrorChoice(es: seq<Expr>, sources: Sources, i: nat, r: Outcome) returns (rs: seq<Outcome>)
    requires forall j :: 0 <= j < |es| ==> exists q :: q in Results(es[j], sources) && q.Err?
    requires i < |es| ==> r in Results(es[i], sources) && r.Err?
    ensures |rs| == |es| && forall j :: 0 <= j < |es| ==> rs[j] in Results(es[j], sources) && rs[j].Err?
    ensures i < |es| ==> rs[i] == r
    decreases |es|
  {
    if es == [] {
      rs := [];
    } else {
      var low, n := es[..|es| - 1], |es| - 1;
      rs := ErrorChoice(low, sources, i, r);
      var q :| q in Results(es[n], sources) && q.Err?;
      rs := rs + [if i == n then r else q];
    }
  }

  /** From where a task is ready, steps of its own lead to any result that it may have. */
  lemma {:induction false} Realise(s: State, sources: Sources, g: Graph, e: Expr, r: Outcome) returns (t: State)
    requires Ready(s, sources, g, Build(g, e, |sources|).0) && r in Results(e, sources) && Unshared(e)
    ensures Yields(s, t, sources, Added(g, Build(g, e, |sources|).0), Build(g, e, |sources|).1, r)
    decreases e, 0
  {
    hide Inv, Wired, Goes, FreshIn, SourcesDone, Inside, Results, Children;
    BuildWired(g, e, sources);
    match e
    case Source(k) =>
      SourceYields(s, sources, g, k, r);
      t := s;
    case Create(v) =>
      CreateResult(v, sources, r);
      t := CreateYields(s, sources, g, v);
    case Map(e1, _) =>
      var (g1, src) := Build(g, e1, |sources|);
      BuildWired(g, e1, sources);
      ReadyFirst(s, sources, g, g1, AddMap(g1, e, src));
      var p := MapChoice(e, sources, r);
      var u := Realise(s, sources, g, e1, p);
      t := MapYields(s, u, sources, g, g1, e, src, p);
    case Bind(e1, table) =>
      var (g1, src) := Build(g, e1, |sources|);
      BuildWired(g, e1, sources);
      ReadyFirst(s, sources, g, g1, AddBind(g1, e, src));
      var p := BindChoice(e, sources, r);
      var u := Realise(s, sources, g, e1, p);
      if p.Err? {
        t := BindErrorYields(s, u, sources, g, g1, e, src, p);
      } else {
        var w := BindUnfolds(s, u, sources, g, g1, e, src, p.value);
        var x := Realise(w, sources, u.graph, table[p.value], r);
        BindInside(s, sources, g, g1, e, src);
        t := BindYields(s, w, x, sources, Added(g, AddBind(g1, e, src)), u.graph, |g1.edges|, Build(u.graph, table[p.value], |sources|).1, r);
      }
    case WhenAll(es) => t := RealiseAll(s, sources, g, es, r);
    case WhenAny(es) => t := RealiseAny(s, sources, g, es, r);
  }

  lemma CreateResult(v: Value, sources: Sources, r: Outcome)
    requires r in Results(Create(v), sources)
    ensures r == Ok(v)
  {
  }

  lemma {:induction false} RealiseAll(s: State, sources: Sources, g: Graph, es: seq<Expr>, r: Outcome) returns (t: State)
    requires Ready(s, sources, g, Build(g, WhenAll(es), |sources|).0) && r in Results(WhenAll(es), sources)
    requires forall i :: 0 <= i < |es| ==> Unshared(es[i])
    ensures Yields(s, t, sources, Added(g, Build(g, WhenAll(es), |sources|).0), Build(g, WhenAll(es), |sources|).1, r)
    decreases es, 1
  {
    hide Inv, Wired, Goes, FreshIn, SourcesDone, Inside, Results, Children;
    var (g1, roots) := BuildEach(g, es, |sources|);
    var g', c, f0 := AddAll(g1, WhenAll(es), roots), |g1.labels|, |g1.edges|;
    BuildEachWired(g, es, sources);
    BuildWired(g, WhenAll(es), sources);
    ReadyFirst(s, sources, g, g1, g');
    if r.Ok? {
      var vs, rs := VectorChoice(es, sources, r);
      var u := RealiseEach(s, sources, g, es, rs);
      ReadySecond(s, u, sources, g, g1, g');
      AllChildren(u, sources, g1, WhenAll(es), roots);
      t := AllCounted(u, sources, c, f0, roots, true, vs, rs, 0);
      GoesWider(s, u, t, sources, g, g1, g');
    } else {
      var i := ErrorOfAll(es, sources, r);
      var u := RealiseOne(s, sources, g, es, i, r);
      ReadySecond(s, u, sources, g, g1, g');
      AllChildren(u, sources, g1, WhenAll(es), roots);
      t := OneDecides(u, sources, c, f0, roots, true, i, r);
      GoesWider(s, u, t, sources, g, g1, g');
    }
  }

  lemma ErrorOfAll(es: seq<Expr>, sources: Sources, r: Outcome) returns (i: nat)
    requires r in Results(WhenAll(es), sources) && r.Err?
    ensures i < |es| && r in Results(es[i], sources)
  {
    i :| 0 <= i < |es| && r in Results(es[i], sources);
  }

  lemma ResultOfAny(es: seq<Expr>, sources: Sources, r: Outcome) returns (i: nat)
    requires r in Results(WhenAny(es), sources)
    ensures i < |es| && r in Results(es[i], sources)
    ensures r.Err? ==> AllCanErr(es, sources)
  {
    i :| 0 <= i < |es| && r in Results(es[i], sources);
  }

  lemma {:induction false} RealiseAny(s: State, sources: Sources, g: Graph, es: seq<Expr>, r: Outcome) returns (t: State)
    requires Ready(s, sources, g, Build(g, WhenAny(es), |sources|).0) && r in Results(WhenAny(es), sources)
    requires forall i :: 0 <= i < |es| ==> Unshared(es[i])
    ensures Yields(s, t, sources, Added(g, Build(g, WhenAny(es), |sources|).0), Build(g, WhenAny(es), |sources|).1, r)
    decreases es, 1
  {
    hide Inv, Wired, Goes, FreshIn, SourcesDone, Inside, Results, Children;
    var (g1, roots) := BuildEach(g, es, |sources|);
    var g', c, f0 := AddAny(g1, WhenAny(es), roots), |g1.labels|, |g1.edges|;
    BuildEachWired(g, es, sources);
    BuildWired(g, WhenAny(es), sources);
    ReadyFirst(s, sources, g, g1, g');
    var i := ResultOfAny(es, sources, r);
    if r.Ok? {
      var u := RealiseOne(s, sources, g, es, i, r);
      ReadySecond(s, u, sources, g, g1, g');
      AnyChildren(u, sources, g1, WhenAny(es), roots);
      t := OneDecides(u, sources, c, f0, roots, false, i, r);
      GoesWider(s, u, t, sources, g, g1, g');
    } else {
      var rs := ErrorChoice(es, sources, i, r);
      var u := RealiseEach(s, sources, g, es, rs);
      ReadySecond(s, u, sources, g, g1, g');
      AnyChildren(u, sources, g1, WhenAny(es), roots);
      t := AllCounted(u, sources, c, f0, roots, false, [], rs, i);
      GoesWider(s, u, t, sources, g, g1, g');
    }
  }

  /** The tasks of a list can be brought to a result each. */
  lemma {:induction false} RealiseEach(s: State, sources: Sources, g: Graph, es: seq<Expr>, rs: seq<Outcome>) returns (t: State)
    requires Ready(s, sources, g, BuildEach(g, es, |sources|).0)
    requires |rs| == |es| && forall i :: 0 <= i < |es| ==> rs[i] in Results(es[i], sources) && Unshared(es[i])
    ensures Goes(s, t, sources, Added(g, BuildEach(g, es, |sources|).0))
    ensures ChildrenRead(t, BuildEach(g, es, |sources|).1, rs)
    decreases es, 0
  {
    hide Inv, Wired, Goes, Inside, Results, Read;
    if es == [] {
      t := s;
      GoesNowhere(s, sources, Added(g, g));
    } else {
      var low, last, n := es[..|es| - 1], es[|es| - 1], |es| - 1;
      var (g1, roots) := BuildEach(g, low, |sources|);
      var (g2, root) := Build(g1, last, |sources|);
      BuildEachWired(g, low, sources);
      BuildWired(g1, last, sources);
      ReadyFirst(s, sources, g, g1, g2);
      var u := RealiseEach(s, sources, g, low, rs[..n]);
      ReadySecond(s, u, sources, g, g1, g2);
      t := Realise(u, sources, g1, last, rs[n]);
      GoesWider(s, u, t, sources, g, g1, g2);
      ReadsKept(u, t, sources, Added(g1, g2), roots, rs[..n]);
      assert rs == rs[..n] + [rs[n]];
    }
  }

  lemma ReadsKept(u: State, t: State, sources: Sources, r: Region, roots: seq<nat>, rs: seq<Outcome>)
    requires Goes(u, t, sources, r) && ChildrenRead(u, roots, rs)
    ensures ChildrenRead(t, roots, rs)
  {
    hide Goes, Read;
    forall i | 0 <= i < |roots| ensures Read(t, roots[i]) == Some(rs[i]) {
      ReadKept(u, t, sources, r, roots[i]);
    }
  }

  /** One task of a list can be brought to a result while the others wait. */
  lemma {:induction false} RealiseOne(s: State, sources: Sources, g: Graph, es: seq<Expr>, i: nat, r: Outcome) returns (t: State)
    requires Ready(s, sources, g, BuildEach(g, es, |sources|).0) && i < |es| && r in Results(es[i], sources) && Unshared(es[i])
    ensures Yields(s, t, sources, Added(g, BuildEach(g, es, |sources|).0), BuildEach(g, es, |sources|).1[i], r)
    decreases es, 0
  {
    hide Inv, Wired, Goes, Results, Read;
    var low, last, n := es[..|es| - 1], es[|es| - 1], |es| - 1;
    var (g1, roots) := BuildEach(g, low, |sources|);
    var (g2, root) := Build(g1, last, |sources|);
    BuildEachWired(g, low, sources);
    BuildWired(g1, last, sources);
    ReadyFirst(s, sources, g, g1, g2);
    if i == n {
      GoesNowhere(s, sources, Added(g, g1));
      ReadySecond(s, s, sources, g, g1, g2);
      t := Realise(s, sources, g1, last, r);
      GoesNowhereAfter(s, t, sources, Added(g1, g2), Added(g, g2));
    } else {
      t := RealiseOne(s, sources, g, low, i, r);
      GoesNowhereAfter(s, t, sources, Added(g, g1), Added(g, g2));
    }
  }

  // ---------- Completing the sources first ----------

  /** The graph that the tasks of a program are built into. */
  ghost function ProgramGraph(program: seq<Expr>, sources: Sources): (g: Graph) {
    BuildEach(SourceGraph(sources), program, |sources|).0
  }

  ghost function SourceRegion(sources: Sources): (r: Region) {
    Region(0, |sources|, 0, |SourceGraph(sources).edges|)
  }

  lemma ProgramWired(program: seq<Expr>, sources: Sources)
    ensures var g0, g := SourceGraph(sources), ProgramGraph(program, sources);
      Wired(g0, sources) && Wired(g, sources) && Extends(g0, g) && Initial(program, sources).graph == g
    ensures Inv(Initial(program, sources), sources) && FreshIn(Initial(program, sources), Region(0, |ProgramGraph(program, sources).labels|, 0, |ProgramGraph(program, sources).edges|))
  {
    hide EdgeInv, ValueInv, KindInv, CellWired, EdgeWired, FreshCell, FirstPc, BuildEach, SourceGraph;
    SourceGraphWired(sources);
    BuildEachWired(SourceGraph(sources), program, sources);
    InitialInv(program, sources);
  }

  lemma ResolveStep(t: State, sources: Sources, f: nat)
    requires Shaped(t, sources) && f < |t.pcs| && t.pcs[f] == Active(Resolve(f)) && t.graph.edges[f].Fill?
    ensures f < |Step(t, f, sources).pcs| && Step(t, f, sources).pcs[f].Done?
  {
    hide Wired, Build, Grow;
  }

  /** The first `k` completions happen, in order. */
  lemma {:induction false} FillSources(program: seq<Expr>, sources: Sources, k: nat) returns (t: State)
    requires k <= |SourceGraph(sources).edges|
    ensures Goes(Initial(program, sources), t, sources, SourceRegion(sources))
    ensures var s, n := Initial(program, sources), |SourceGraph(sources).edges|;
      n <= |s.pcs| <= |t.pcs| && forall f :: 0 <= f < n ==> if f < k then t.pcs[f].Done? else t.pcs[f] == s.pcs[f]
    decreases k
  {
    hide EdgeInv, ValueInv, KindInv, CellWired, EdgeWired, Goes, Step, Initial, FreshCell, BuildEach, SourceGraph;
    var s, g0, r := Initial(program, sources), SourceGraph(sources), SourceRegion(sources);
    ProgramWired(program, sources);
    if k == 0 {
      t := s;
      GoesNowhere(s, sources, r);
    } else {
      var f := k - 1;
      var u := FillSources(program, sources, f);
      GoesInv(s, u, sources, r);
      SourceEdge(g0, u.graph, sources, f);
      assert s.pcs[f] == FirstPc(s.graph.edges[f], f);
      t := Step(u, f, sources);
      ResolveStep(u, sources, f);
      StepOn(s, u, sources, f, r);
      StepKeeps(u, sources, f);
      GoesInv(s, t, sources, r);
      forall e | 0 <= e < |g0.edges| && e != f ensures t.pcs[e] == u.pcs[e] {
        OthersStay(u, t, sources, f, e);
      }
    }
  }

  lemma OthersStay(u: State, t: State, sources: Sources, f: nat, e: nat)
    requires Touches(u, t, sources, f) && e < |u.pcs| && e != f && !u.pcs[e].Waiting?
    ensures e < |t.pcs| && t.pcs[e] == u.pcs[e]
  {
    assert Follows(u, t, e);
  }

  /** The completion of a source is a job that writes the source's cell. */
  lemma SourceEdge(g0: Graph, g: Graph, sources: Sources, f: nat)
    requires g0 == SourceGraph(sources) && Wired(g0, sources) && Extends(g0, g) && f < |g0.edges|
    ensures f < |g.edges| && g.edges[f].Fill? && g.edges[f].dst < |sources|
  {
    hide Wired, SourceGraph;
    SourceEdges(sources);
    WiredEnds(g0, sources, f);
  }

  /** A state with every source completed, and the tasks of the program ready. */
  lemma ProgramReady(program: seq<Expr>, sources: Sources) returns (t: State)
    ensures Reaches(Initial(program, sources), t, sources)
    ensures Ready(t, sources, SourceGraph(sources), ProgramGraph(program, sources))
  {
    hide EdgeInv, ValueInv, KindInv, CellWired, EdgeWired, Step, Initial, FreshCell, FirstPc, BuildEach;
    var s, g0, g := Initial(program, sources), SourceGraph(sources), ProgramGraph(program, sources);
    ProgramWired(program, sources);
    t := FillSources(program, sources, |g0.edges|);
    GoesInv(s, t, sources, SourceRegion(sources));
    FreshPart(s, Region(0, |g.labels|, 0, |g.edges|), Added(g0, g));
    FreshStays(s, t, sources, SourceRegion(sources), Added(g0, g));
    forall k | 0 <= k < |sources| && sources[k].Some? ensures t.cells[k].value == sources[k] {
      SourceFilled(t, sources, g0, k);
    }
  }

  lemma FreshPart(s: State, r: Region, q: Region)
    requires FreshIn(s, r) && r.cl <= q.cl && q.ch <= r.ch && r.el <= q.el && q.eh <= r.eh
    ensures FreshIn(s, q)
  {
    hide FreshCell, FirstPc;
  }

  /** A source whose completion has happened holds its result. */
  lemma SourceFilled(t: State, sources: Sources, g0: Graph, k: nat)
    requires Inv(t, sources) && Wired(g0, sources) && Extends(g0, t.graph) && k < |sources| <= |g0.labels| && sources[k].Some?
    requires |g0.edges| <= |t.pcs| && forall f :: 0 <= f < |g0.edges| ==> t.pcs[f].Done?
    ensures k < |t.cells| && t.cells[k].value == sources[k]
  {
    hide ValueInv, KindInv, PcInv;
    assert CellWired(t.graph, sources, k);
    var h := t.graph.homes[k];
    OldCellOldEdge(g0, t.graph, sources, h);
    assert EdgeInv(t, sources, h);
  }

  // ---------- Schedules of the heap ----------

  /** Steps of callbacks are actions on the heap. */
  lemma {:induction false} Lift(program: seq<Expr>, sources: Sources, es: seq<nat>, t: State) returns (schedule: seq<Action>)
    requires Follow(Initial(program, sources), es, sources) == Some(t)
    ensures HeapAfter(program, sources, schedule).Some? && StateAfter(program, sources, schedule) == t
    decreases |es|
  {
    hide Initial, InitialHeap, Step, Perform, EdgeInv, ValueInv, KindInv, Wired, HeapAfter, Sim, Runs, Delivered, TotalWeight;
    if es == [] {
      schedule := [];
      RunBegins(program, sources);
    } else {
      var low, e := es[..|es| - 1], es[|es| - 1];
      var u := Follow(Initial(program, sources), low, sources).value;
      var before := Lift(program, sources, low, u);
      var h := HeapAfter(program, sources, before).value;
      RunKeeps(program, sources, before);
      ActivePending(h, u, sources, e);
      var a := u.pcs[e].action;
      ActionSim(h, u, sources, a);
      ActiveIsOwn(u, sources, e);
      PendingCanHappen(program, sources, before, a);
      RunEnds(program, sources, before, a);
      schedule := before + [a];
    }
  }

  lemma ActiveIsOwn(u: State, sources: Sources, e: nat)
    requires Inv(u, sources) && e < |u.pcs| && u.pcs[e].Active?
    ensures u.pcs[e].action.edge == e
  {
    hide EffectInv, ValueInv, KindInv;
    assert EdgeInv(u, sources, e);
  }

  /** After a complete run, task `i` of the program has been resolved to `r`. */
  ghost predicate EndsWith(program: seq<Expr>, sources: Sources, schedule: seq<Action>, i: nat, r: Outcome)
    requires i < |program|
  {
    && HeapAfter(program, sources, schedule).Some?
    && HeapAfter(program, sources, schedule).value.pending == multiset{}
    && HeapRead(HeapAfter(program, sources, schedule).value, Roots(program, sources)[i]) == Some(r)
  }

  /** Every result that a task may have is what it reads at the end of some complete run. */
  lemma AllowedHappens(program: seq<Expr>, sources: Sources, i: nat, r: Outcome) returns (full: seq<Action>)
    requires i < |program| && r in Results(program[i], sources) && Unshared(program[i])
    ensures EndsWith(program, sources, full, i, r)
  {
    hide Initial, Step, EdgeInv, ValueInv, KindInv, Wired, HeapAfter, StateAfter, Sim, Runs, Delivered, TotalWeight, FreshIn, SourcesDone, HeapRead, Read, Results;
    var s := ProgramReady(program, sources);
    var t := RealiseOne(s, sources, SourceGraph(sources), program, i, r);
    ReachOn(Initial(program, sources), s, t, sources);
    var es :| Follow(Initial(program, sources), es, sources) == Some(t);
    var schedule := Lift(program, sources, es, t);
    RunKeeps(program, sources, schedule);
    var root := Roots(program, sources)[i];
    HeapReads(HeapAfter(program, sources, schedule).value, t, sources, root);
    full := RunCompletes(program, sources, schedule);
    ReadsAreFinal(program, sources, schedule, full, root);
  }

  /** The meaning of a task without copies is exact: what it allows is what its complete runs come to. */
  lemma ResultsExactly(program: seq<Expr>, sources: Sources, i: nat, r: Outcome)
    requires i < |program| && Unshared(program[i])
    ensures r in Results(program[i], sources) <==> exists schedule :: EndsWith(program, sources, schedule, i, r)
  {
    hide HeapAfter, StateAfter, HeapRead, Results, Roots;
    if r in Results(program[i], sources) {
      var full := AllowedHappens(program, sources, i, r);
    }
    if schedule :| EndsWith(program, sources, schedule, i, r) {
      RootsStay(program, sources, schedule, i);
      ScheduleSafe(program, sources, schedule, Roots(program, sources)[i], program[i]);
    }
  }
}
