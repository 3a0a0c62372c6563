/** Every run of a task graph is finite: each step uses up some of the work the expressions were built with. */
module TaskTermination {
  import opened Wrappers
  import opened TaskSyntax
  import opened TaskGraph
  import opened TaskMachine
  import opened TaskInvariant
  import opened TaskFrames
  import opened TaskSteps
  import opened TaskMeaning

  /** How many cells an await on cell `c` may be passed along. */
  ghost function HopsAt(g: Graph, c: nat, sources: Sources): (n: nat)
    ensures 1 <= n
  {
    if c < |g.labels| && g.labels[c].Task? then Hops(g.labels[c].e, sources) else 1
  }

  /** The steps a callback can still take from its invocation on, those of what it builds included. */
  ghost function Remaining(g: Graph, e: nat, sources: Sources): (n: nat)
    requires e < |g.edges|
  {
    match g.edges[e]
    case Fill(_, _) => 1
    case MapEdge(_, _, _) => 1
    case BindEdge(_, dst, _, _) =>
      2 + if dst < |g.labels| && IsBind(g.labels[dst])
          then MaxWork(g.labels[dst].e, Values(Results(g.labels[dst].e.bound, sources)), sources) else 0
    case AllEdge(_, _, _) => 3
    case AnyEdge(_, _, _) => 2
  }

  /** The steps left in a callback. */
  ghost function Weight(s: State, e: nat, sources: Sources): (n: nat)
    requires e < |s.pcs| == |s.graph.edges|
  {
    match s.pcs[e]
    case Done => 0
    case Waiting(at) => HopsAt(s.graph, at, sources) - 1 + Remaining(s.graph, e, sources)
    case Active(action) => match action {
      case Register(_, at) => HopsAt(s.graph, at, sources) + Remaining(s.graph, e, sources)
      case Invoke(_, _) => Remaining(s.graph, e, sources)
      case CountUp(_) => 2
      case _ => 1
    }
  }

  ghost function WeightBelow(s: State, n: nat, sources: Sources): (w: nat)
    requires n <= |s.pcs| == |s.graph.edges|
  {
    if n == 0 then 0 else WeightBelow(s, n - 1, sources) + Weight(s, n - 1, sources)
  }

  /** The steps left in the whole state. */
  ghost function TotalWeight(s: State, sources: Sources): (w: nat)
    requires |s.pcs| == |s.graph.edges|
  {
    WeightBelow(s, |s.pcs|, sources)
  }

  // ---------- The work a build adds ----------

  /** The weight of a callback that has just been built. */
  ghost function FirstWeight(g: Graph, e: nat, sources: Sources): (n: nat)
    requires e < |g.edges|
  {
    if g.edges[e].Fill? then 1 else HopsAt(g, g.edges[e].src, sources) + Remaining(g, e, sources)
  }

  ghost function FirstWeightBelow(g: Graph, n: nat, sources: Sources): (w: nat)
    requires n <= |g.edges|
  {
    if n == 0 then 0 else FirstWeightBelow(g, n - 1, sources) + FirstWeight(g, n - 1, sources)
  }

  ghost function GraphWork(g: Graph, sources: Sources): (w: nat) {
    FirstWeightBelow(g, |g.edges|, sources)
  }

  /** The weights of the callbacks of a wired graph do not change when it is extended. */
  lemma {:induction false} FirstWeightStays(g: Graph, g': Graph, n: nat, sources: Sources)
    requires Wired(g, sources) && Extends(g, g') && n <= |g.edges|
    ensures FirstWeightBelow(g', n, sources) == FirstWeightBelow(g, n, sources)
  {
    if n > 0 {
      FirstWeightStays(g, g', n - 1, sources);
      WiredEnds(g, sources, n - 1);
    }
  }

  lemma WiredEnds(g: Graph, sources: Sources, e: nat)
    requires Wired(g, sources) && e < |g.edges|
    ensures g.edges[e].dst < |g.labels|
    ensures !g.edges[e].Fill? ==> g.edges[e].src < |g.labels|
  {
    var dst, edge := g.edges[e].dst, g.edges[e];
    assert EdgeWired(g, sources, e);
    assert CellWired(g, sources, dst);
    if edge.AllEdge? {
      assert AllWired(g, g.homes[dst] + edge.index, dst, edge.index, g.labels[dst].e.all[edge.index]);
    }
    if edge.AnyEdge? {
      assert AnyWired(g, g.homes[dst] + edge.index, dst, edge.index, g.labels[dst].e.any[edge.index]);
    }
  }

  /** The callback of child `i` of a combinator that extends `g` to `g'`. */
  ghost predicate ChildAdded(g: Graph, g': Graph, i: nat, root: nat, own: nat, sources: Sources) {
    var f := |g.edges| + i;
    f < |g'.edges| && !g'.edges[f].Fill? && g'.edges[f].src == root && Remaining(g', f, sources) == own
  }

  lemma {:induction false} ChildrenWork(g: Graph, g': Graph, own: nat, sources: Sources, roots: seq<nat>, es: seq<Expr>, k: nat)
    requires Wired(g, sources) && Extends(g, g') && |roots| == |es| && k <= |es| && |g.edges| + |es| <= |g'.edges|
    requires forall i :: 0 <= i < |es| ==> LabelIs(g, roots[i], es[i])
    requires forall i :: 0 <= i < |es| ==> ChildAdded(g, g', i, roots[i], own, sources)
    ensures FirstWeightBelow(g', |g.edges| + k, sources) == GraphWork(g, sources) + HopsOfAll(es[..k], own, sources)
    decreases k
  {
    if k == 0 {
      FirstWeightStays(g, g', |g.edges|, sources);
    } else {
      ChildrenWork(g, g', own, sources, roots, es, k - 1);
      assert es[..k][..k - 1] == es[..k - 1];
      assert LabelIs(g, roots[k - 1], es[k - 1]) && ChildAdded(g, g', k - 1, roots[k - 1], own, sources);
      assert g'.labels[roots[k - 1]] == g.labels[roots[k - 1]];
      CoreMeans(es[k - 1], sources);
    }
  }

  lemma AddAllWork(g: Graph, e: Expr, roots: seq<nat>, sources: Sources)
    requires Wired(g, sources) && e.WhenAll? && |roots| == |e.all|
    requires forall i :: 0 <= i < |roots| ==> LabelIs(g, roots[i], e.all[i])
    ensures GraphWork(AddAll(g, e, roots), sources) == GraphWork(g, sources) + HopsOfAll(e.all, 3, sources)
  {
    var g' := AddAll(g, e, roots);
    forall i | 0 <= i < |roots| ensures ChildAdded(g, g', i, roots[i], 3, sources) {
      assert g'.edges[|g.edges| + i] == AllEdge(roots[i], |g.labels|, i);
    }
    ChildrenWork(g, g', 3, sources, roots, e.all, |roots|);
    assert e.all[..|roots|] == e.all;
  }

  lemma AddAnyWork(g: Graph, e: Expr, roots: seq<nat>, sources: Sources)
    requires Wired(g, sources) && e.WhenAny? && |roots| == |e.any|
    requires forall i :: 0 <= i < |roots| ==> LabelIs(g, roots[i], e.any[i])
    ensures GraphWork(AddAny(g, e, roots), sources) == GraphWork(g, sources) + HopsOfAll(e.any, 2, sources)
  {
    var g' := AddAny(g, e, roots);
    forall i | 0 <= i < |roots| ensures ChildAdded(g, g', i, roots[i], 2, sources) {
      assert g'.edges[|g.edges| + i] == AnyEdge(roots[i], |g.labels|, i);
    }
    ChildrenWork(g, g', 2, sources, roots, e.any, |roots|);
    assert e.any[..|roots|] == e.any;
  }

  lemma AddMapWork(g: Graph, e: Expr, src: nat, sources: Sources)
    requires Wired(g, sources) && e.Map? && LabelIs(g, src, e.mapped)
    ensures GraphWork(AddMap(g, e, src), sources) == GraphWork(g, sources) + Hops(e.mapped, sources) + 1
  {
    var g' := AddMap(g, e, src);
    FirstWeightStays(g, g', |g.edges|, sources);
    assert g'.edges[|g.edges|] == MapEdge(src, |g.labels|, e.f);
    CoreMeans(e.mapped, sources);
  }

  lemma AddBindWork(g: Graph, e: Expr, src: nat, sources: Sources)
    requires Wired(g, sources) && e.Bind? && LabelIs(g, src, e.bound)
    ensures GraphWork(AddBind(g, e, src), sources) ==
      GraphWork(g, sources) + Hops(e.bound, sources) + 2 + MaxWork(e, Values(Results(e.bound, sources)), sources)
  {
    var g' := AddBind(g, e, src);
    FirstWeightStays(g, g', |g.edges|, sources);
    assert g'.edges[|g.edges|] == BindEdge(src, |g.labels|, |g.labels| + 1, e.g);
    assert g'.labels[|g.labels|] == Task(e) && g'.labels[src] == g.labels[src];
    CoreMeans(e.bound, sources);
  }

  /** The part of `WorkOfAll` that the callbacks of the combinator itself are. */
  ghost function HopsOfAll(es: seq<Expr>, own: nat, sources: Sources): (n: nat)
    decreases |es|
  {
    if es == [] then 0 else HopsOfAll(es[..|es| - 1], own, sources) + Hops(es[|es| - 1], sources) + own
  }

  ghost function WorkOfEach(es: seq<Expr>, sources: Sources): (n: nat)
    decreases |es|
  {
    if es == [] then 0 else WorkOfEach(es[..|es| - 1], sources) + Work(es[|es| - 1], sources)
  }

  lemma {:induction false} WorkSplits(es: seq<Expr>, own: nat, sources: Sources)
    ensures WorkOfAll(es, own, sources) == WorkOfEach(es, sources) + HopsOfAll(es, own, sources)
    decreases |es|
  {
    if es != [] {
      WorkSplits(es[..|es| - 1], own, sources);
    }
  }

  /** Building a task adds at most its work: less when it shares tasks that are there already. */
  lemma {:induction false} BuildWork(g: Graph, e: Expr, sources: Sources)
    requires Wired(g, sources)
    ensures GraphWork(Build(g, e, |sources|).0, sources) <= GraphWork(g, sources) + Work(e, sources)
    decreases e, 0
  {
    match e
    case Source(k) => FirstWeightStays(g, Build(g, e, |sources|).0, |g.edges|, sources);
    case Create(v) => FirstWeightStays(g, Build(g, e, |sources|).0, |g.edges|, sources);
    case Map(e1, _) =>
      BuildWork(g, e1, sources);
      BuildWired(g, e1, sources);
      var (g1, src) := Build(g, e1, |sources|);
      AddMapWork(g1, e, src, sources);
    case Bind(e1, _) =>
      BuildWork(g, e1, sources);
      BuildWired(g, e1, sources);
      var (g1, src) := Build(g, e1, |sources|);
      AddBindWork(g1, e, src, sources);
    case WhenAll(es) =>
      BuildEachWork(g, es, sources);
      BuildEachWired(g, es, sources);
      var (g1, roots) := BuildEach(g, es, |sources|);
      AddAllWork(g1, e, roots, sources);
      WorkSplits(es, 3, sources);
    case WhenAny(es) =>
      BuildEachWork(g, es, sources);
      BuildEachWired(g, es, sources);
      var (g1, roots) := BuildEach(g, es, |sources|);
      AddAnyWork(g1, e, roots, sources);
      WorkSplits(es, 2, sources);
    case Shared(cell, task) =>
      if !LabelIs(g, cell, task) {
        BuildWork(g, task, sources);
      }
  }

  lemma {:induction false} BuildEachWork(g: Graph, es: seq<Expr>, sources: Sources)
    requires Wired(g, sources)
    ensures GraphWork(BuildEach(g, es, |sources|).0, sources) <= GraphWork(g, sources) + WorkOfEach(es, sources)
    decreases es, 0
  {
    if es != [] {
      var low, last := es[..|es| - 1], es[|es| - 1];
      BuildEachWork(g, low, sources);
      BuildEachWired(g, low, sources);
      BuildWork(BuildEach(g, low, |sources|).0, last, sources);
    }
  }

  // ---------- Every step uses up work ----------

  /** Following a target shortens the chain that is left. */
  lemma TargetHops(s: State, sources: Sources, c: nat)
    requires Inv(s, sources) && c < |s.cells| && s.cells[c].target.Some?
    ensures HopsAt(s.graph, s.cells[c].target.value, sources) + 1 <= HopsAt(s.graph, c, sources)
  {
    assert KindInv(s, c);
    var e, x := s.graph.labels[c].e, s.cells[c].target.value;
    HomeEdge(s, sources, c, e);
    EdgeEnds(s, sources, s.graph.homes[c]);
    ErrorCellLabel(s, sources, s.graph.homes[c]);
    var src := SourceOf(s.graph, c);
    ReadAllowed(s, sources, src, e.bound);
    var r := Read(s, src).value;
    if r.Ok? {
      assert r.value in Values(Results(e.bound, sources));
      MaxHopsBounds(e, Values(Results(e.bound, sources)), sources, r.value);
      CoreMeans(Then(e.g, r.value), sources);
    }
  }

  /** A callback that another's step wakes has no more steps left than it had. */
  lemma OtherWeight(s: State, s': State, sources: Sources, e: nat, f: nat)
    requires Inv(s, sources) && Inv(s', sources) && Touches(s, s', sources, e) && f < |s.pcs| && f != e
    ensures Weight(s', f, sources) <= Weight(s, f, sources)
  {
    assert Follows(s, s', f) && EdgeInv(s, sources, f);
    EdgeEnds(s, sources, f);
    assert Remaining(s'.graph, f, sources) == Remaining(s.graph, f, sources);
    match s.pcs[f]
    case Waiting(c) =>
      assert s'.graph.labels[c] == s.graph.labels[c];
      if s'.cells[c].value.None? && s'.cells[c].target.Some? {
        TargetHops(s', sources, c);
      }
    case Active(action) =>
      if action.Register? {
        assert s'.graph.labels[action.at] == s.graph.labels[action.at];
      }
    case Done =>
  }

  lemma {:induction false} WeightBelowDrops(s: State, s': State, sources: Sources, e: nat, n: nat, drop: nat)
    requires |s.pcs| == |s.graph.edges| && |s'.pcs| == |s'.graph.edges| && n <= |s.pcs| <= |s'.pcs| && e < |s.pcs|
    requires forall f :: 0 <= f < |s.pcs| && f != e ==> Weight(s', f, sources) <= Weight(s, f, sources)
    requires Weight(s', e, sources) + drop <= Weight(s, e, sources)
    ensures WeightBelow(s', n, sources) + (if e < n then drop else 0) <= WeightBelow(s, n, sources)
  {
    if n > 0 {
      WeightBelowDrops(s, s', sources, e, n - 1, drop);
    }
  }

  /** The weight of callbacks that have just been built is the work they were built with. */
  lemma {:induction false} NewWeight(s: State, sources: Sources, m: nat, n: nat)
    requires Shaped(s, sources) && m <= n <= |s.pcs|
    requires forall f :: m <= f < n ==> s.pcs[f] == FirstPc(s.graph.edges[f], f)
    ensures WeightBelow(s, n, sources) - WeightBelow(s, m, sources)
         == FirstWeightBelow(s.graph, n, sources) - FirstWeightBelow(s.graph, m, sources)
    decreases n - m
  {
    if m < n {
      NewWeight(s, sources, m, n - 1);
      assert s.pcs[n - 1] == FirstPc(s.graph.edges[n - 1], n - 1);
    }
  }

  /** The callback of a `bind` that runs its function on a value. */
  ghost predicate Unfolds(s: State, e: nat)
    requires |s.pcs| == |s.graph.edges|
  {
    e < |s.pcs| && s.pcs[e].Active? && s.graph.edges[e].BindEdge? && s.pcs[e].action.Invoke? && s.pcs[e].action.result.Ok?
  }

  /** The task that it then builds. */
  ghost function Unfolded(s: State, e: nat): (task: Expr)
    requires |s.pcs| == |s.graph.edges| && Unfolds(s, e)
  {
    Then(s.graph.edges[e].g, s.pcs[e].action.result.value)
  }

  /** The callback that moves loses at least one step more than it builds. */
  lemma OwnWeight(s: State, sources: Sources, e: nat)
    requires Inv(s, sources) && e < |s.pcs| && s.pcs[e].Active? && Inv(Step(s, e, sources), sources)
    requires !Unfolds(s, e)
    ensures Step(s, e, sources).graph == s.graph
    ensures Weight(Step(s, e, sources), e, sources) < Weight(s, e, sources)
  {
    assert EdgeInv(s, sources, e);
    EdgeEnds(s, sources, e);
    var edge := s.graph.edges[e];
    match s.pcs[e].action
    case Register(_, at) =>
      if s.cells[at].target.Some? {
        TargetHops(s, sources, at);
      }
    case _ =>
  }

  lemma UnfoldStep(s: State, sources: Sources, e: nat)
    requires Shaped(s, sources) && Unfolds(s, e)
    ensures var s', g' := Step(s, e, sources), Build(s.graph, Unfolded(s, e), |sources|).0;
      && s'.graph == g' && Wired(g', sources) && Extends(s.graph, g') && |s'.pcs| == |g'.edges|
      && s'.pcs[e].Active? && s'.pcs[e].action.TrackTo?
      && (forall f :: |s.pcs| <= f < |s'.pcs| ==> s'.pcs[f] == FirstPc(g'.edges[f], f))
  {
    UnfoldGrows(s, e, Unfolded(s, e), sources);
    StepUnfolds(s, e, sources);
    hide Build, Wired, Grow, Unfold, Step;
  }

  lemma StepUnfolds(s: State, e: nat, sources: Sources)
    requires Shaped(s, sources) && Unfolds(s, e)
    ensures Step(s, e, sources) == Unfold(s, e, Unfolded(s, e), sources)
  {
    hide Build, Wired, Grow, Unfold;
  }

  lemma UnfoldGrows(s: State, e: nat, task: Expr, sources: Sources)
    requires Shaped(s, sources) && e < |s.pcs|
    ensures var s', g' := Unfold(s, e, task, sources), Build(s.graph, task, |sources|).0;
      && s'.graph == g' && Wired(g', sources) && Extends(s.graph, g') && |s'.pcs| == |g'.edges|
      && s'.pcs[e] == Active(TrackTo(e, Build(s.graph, task, |sources|).1))
      && (forall f :: |s.pcs| <= f < |s'.pcs| ==> s'.pcs[f] == FirstPc(g'.edges[f], f))
      && |s.cells| <= |s'.cells| == |g'.labels|
      && (forall c :: |s.cells| <= c < |s'.cells| ==> s'.cells[c] == FreshCell(g'.labels[c]))
  {
    hide Build, Wired, FreshCell, FirstPc, Grow;
    BuildWired(s.graph, task, sources);
    GrowParts(s, Build(s.graph, task, |sources|).0);
  }

  lemma GrowParts(s: State, g: Graph)
    requires |s.cells| <= |g.labels| && |s.pcs| <= |g.edges|
    ensures var s' := Grow(s, g);
      && s'.graph == g && |s'.pcs| == |g.edges| && |s'.cells| == |g.labels|
      && (forall f :: |s.pcs| <= f < |s'.pcs| ==> s'.pcs[f] == FirstPc(g.edges[f], f))
      && (forall c :: |s.cells| <= c < |s'.cells| ==> s'.cells[c] == FreshCell(g.labels[c]))
  {
  }

  lemma OwnBindWeight(s: State, sources: Sources, e: nat)
    requires Inv(s, sources) && Unfolds(s, e)
    ensures Remaining(s.graph, e, sources) >= 2 + Work(Unfolded(s, e), sources)
  {
    assert EdgeInv(s, sources, e) && EdgeWired(s.graph, sources, e);
    var edge, v := s.graph.edges[e], s.pcs[e].action.result.value;
    EdgeEnds(s, sources, e);
    assert CellWired(s.graph, sources, edge.dst);
    var b := s.graph.labels[edge.dst].e;
    ReadAllowed(s, sources, edge.src, b.bound);
    assert v in Values(Results(b.bound, sources));
    MaxWorkBounds(b, Values(Results(b.bound, sources)), sources, v);
  }

  lemma OthersWeight(s: State, sources: Sources, e: nat)
    requires Inv(s, sources) && e < |s.pcs| && s.pcs[e].Active?
    ensures var s' := Step(s, e, sources);
      && Inv(s', sources) && |s.pcs| <= |s'.pcs|
      && forall f :: 0 <= f < |s.pcs| && f != e ==> Weight(s', f, sources) <= Weight(s, f, sources)
  {
    var s' := Step(s, e, sources);
    StepKeeps(s, sources, e);
    hide Step;
    forall f | 0 <= f < |s.pcs| && f != e ensures Weight(s', f, sources) <= Weight(s, f, sources) {
      OtherWeight(s, s', sources, e, f);
    }
  }

  lemma UnfoldDecreases(s: State, sources: Sources, e: nat)
    requires Inv(s, sources) && Unfolds(s, e)
    ensures Inv(Step(s, e, sources), sources)
    ensures TotalWeight(Step(s, e, sources), sources) < TotalWeight(s, sources)
  {
    var s', task := Step(s, e, sources), Unfolded(s, e);
    OthersWeight(s, sources, e);
    OwnBindWeight(s, sources, e);
    UnfoldStep(s, sources, e);
    BuildWork(s.graph, task, sources);
    hide Step, Build, Wired, EdgeInv, ValueInv, Work, MaxWork, Remaining;
    WeightBelowDrops(s, s', sources, e, |s.pcs|, Work(task, sources) + 1);
    FirstWeightStays(s.graph, s'.graph, |s.graph.edges|, sources);
    NewWeight(s', sources, |s.pcs|, |s'.pcs|);
  }

  /** Every step of a callback that can move makes the total weight smaller, even when `bind` builds new tasks. */
  lemma StepDecreases(s: State, sources: Sources, e: nat)
    requires Inv(s, sources) && e < |s.pcs| && s.pcs[e].Active?
    ensures Inv(Step(s, e, sources), sources)
    ensures TotalWeight(Step(s, e, sources), sources) < TotalWeight(s, sources)
  {
    if Unfolds(s, e) {
      UnfoldDecreases(s, sources, e);
    } else {
      OthersWeight(s, sources, e);
      OwnWeight(s, sources, e);
      hide Step, Wired, EdgeInv, ValueInv, Weight;
      WeightBelowDrops(s, Step(s, e, sources), sources, e, |s.pcs|, 1);
    }
  }
}
