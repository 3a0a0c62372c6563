/** Every result that the meaning of a task allows is read after some schedule. */
module TaskAdequacy {
  import opened Wrappers
  import opened TaskSyntax
  import opened TaskGraph
  import opened TaskMachine
  import opened TaskInvariant
  import opened TaskFrames
  import opened TaskSteps
  import opened TaskMeaning
  import opened TaskTermination
  import opened TaskReach

  // ---------- Where a task is about to run ----------

  /** Every source that is ever completed has been. */
  ghost predicate SourcesDone(s: State, sources: Sources) {
    |sources| <= |s.cells| && forall k :: 0 <= k < |sources| && sources[k].Some? ==> s.cells[k].value == sources[k]
  }

  /** What extended `g` to `g'` is there and untouched. */
  ghost predicate Ready(s: State, sources: Sources, g: Graph, g': Graph) {
    && Inv(s, sources) && SourcesDone(s, sources)
    && Wired(g, sources) && Wired(g', sources) && Extends(g, g') && Extends(g', s.graph)
    && FreshIn(s, Added(g, g'))
  }

  /** Cell `c` is all that a state reached within the region needs to be judged by. */
  ghost predicate Yields(s: State, t: State, sources: Sources, r: Region, c: nat, result: Outcome) {
    Goes(s, t, sources, r) && Read(t, c) == Some(result)
  }

  lemma SourcesStay(s: State, t: State, sources: Sources, r: Region)
    requires SourcesDone(s, sources) && Within(s, t, r) && |sources| <= r.cl
    ensures SourcesDone(t, sources)
  {
  }

  /** The first part of what is ready is ready. */
  lemma ReadyFirst(s: State, sources: Sources, g: Graph, g1: Graph, g': Graph)
    requires Ready(s, sources, g, g') && Wired(g1, sources) && Extends(g, g1) && Extends(g1, g')
    ensures Ready(s, sources, g, g1) && Inside(Added(g, g1), Added(g, g'), s)
  {
    hide Inv, Wired, FreshCell;
  }

  /** After the first part has run, the second is ready. */
  lemma ReadySecond(s: State, t: State, sources: Sources, g: Graph, g1: Graph, g': Graph)
    requires Ready(s, sources, g, g') && Wired(g1, sources) && Extends(g, g1) && Extends(g1, g')
    requires Goes(s, t, sources, Added(g, g1))
    ensures Ready(t, sources, g1, g') && Inside(Added(g1, g'), Added(g, g'), s)
  {
    hide Inv, FreshCell, Reaches, AllKinds, CellWired, EdgeWired;
    FreshSecond(s, t, sources, g, g1, g');
    SourcesStay(s, t, sources, Added(g, g1));
  }

  lemma FreshSecond(s: State, t: State, sources: Sources, g: Graph, g1: Graph, g': Graph)
    requires Ready(s, sources, g, g') && Extends(g, g1) && Extends(g1, g')
    requires Goes(s, t, sources, Added(g, g1))
    ensures FreshIn(t, Added(g1, g'))
  {
    hide Inv, FreshCell, Reaches, AllKinds, Wired, Goes;
    FreshStays(s, t, sources, Added(g, g1), Added(g1, g'));
  }

  lemma ReadOwn(s: State, sources: Sources, c: nat)
    requires Inv(s, sources) && c < |s.cells| && !IsBind(s.graph.labels[c])
    ensures Read(s, c) == s.cells[c].value
  {
    hide EdgeInv, ValueInv, Wired;
    assert KindInv(s, c);
  }

  // ---------- Running one callback ----------

  /** The region of one callback and the cells it writes. */
  ghost function Own(edge: Edge, f: nat): (r: Region) {
    Region(edge.dst, if edge.BindEdge? then edge.err + 1 else edge.dst + 1, f, f + 1)
  }

  ghost function Invoking(s: State, f: nat, result: Outcome): (t: State)
    requires f < |s.pcs|
  {
    SetPc(s, f, Active(Invoke(f, result)))
  }

  /** A callback that is about to begin, and whose cell can be read, gets to run. */
  lemma RunOn(s: State, sources: Sources, f: nat, result: Outcome)
    requires Inv(s, sources) && f < |s.pcs| && s.pcs[f] == FirstPc(s.graph.edges[f], f)
    requires !s.graph.edges[f].Fill? && Read(s, s.graph.edges[f].src) == Some(result)
    ensures var t := Invoking(s, f, result);
      && Goes(s, t, sources, Own(s.graph.edges[f], f)) && Inv(t, sources)
      && Goes(s, Step(t, f, sources), sources, Own(s.graph.edges[f], f))
  {
    hide EdgeInv, ValueInv, KindInv, Wired, Step, Within, Later, Reaches;
    var t, r := Invoking(s, f, result), Own(s.graph.edges[f], f);
    EdgeEnds(s, sources, f);
    Deliver(s, sources, f, result, r);
    GoesByStep(t, sources, f, r);
    GoesOn(s, t, Step(t, f, sources), sources, r, r);
  }

  /** One more step of a callback. */
  lemma StepOn(s: State, t: State, sources: Sources, f: nat, r: Region)
    requires Goes(s, t, sources, r) && f < |t.pcs| && t.pcs[f].Active?
    requires Inside(Own(t.graph.edges[f], f), r, s)
    ensures Goes(s, Step(t, f, sources), sources, r)
  {
    hide EdgeInv, ValueInv, KindInv, Wired, Step, Within, Later, Reaches;
    EdgeEnds(t, sources, f);
    GoesByStep(t, sources, f, Own(t.graph.edges[f], f));
    GoesOn(s, t, Step(t, f, sources), sources, r, Own(t.graph.edges[f], f));
  }

  /** The callbacks that an extension added have their own regions in it. */
  lemma OwnInside(s: State, sources: Sources, g: Graph, g': Graph, f: nat)
    requires Wired(g, sources) && Wired(g', sources) && Extends(g, g') && Extends(g', s.graph) && |g.edges| <= f < |g'.edges|
    ensures s.graph.edges[f] == g'.edges[f]
    ensures Inside(Own(s.graph.edges[f], f), Added(g, g'), s)
  {
    hide Wired;
    AddedCells(g, g', sources, f);
  }

  // ---------- Created and mapped tasks ----------

  lemma CreateYields(s: State, sources: Sources, g: Graph, v: Value) returns (t: State)
    requires Ready(s, sources, g, Build(g, Create(v), |sources|).0)
    ensures Yields(s, t, sources, Added(g, Build(g, Create(v), |sources|).0), |g.labels|, Ok(v))
  {
    hide EdgeInv, ValueInv, KindInv, Wired, Goes;
    var g', f, c := Build(g, Create(v), |sources|).0, |g.edges|, |g.labels|;
    assert g'.edges[f] == Fill(c, Ok(v)) && g'.labels[c] == Task(Create(v));
    assert s.pcs[f] == FirstPc(s.graph.edges[f], f) && s.cells[c] == FreshCell(s.graph.labels[c]);
    OwnInside(s, sources, g, g', f);
    t := Step(s, f, sources);
    GoesNowhere(s, sources, Added(g, g'));
    StepOn(s, s, sources, f, Added(g, g'));
    GoesInv(s, t, sources, Added(g, g'));
    ReadOwn(t, sources, c);
  }

  lemma GoesInv(s: State, t: State, sources: Sources, r: Region)
    requires Goes(s, t, sources, r)
    ensures Inv(t, sources) && Shaped(t, sources) && Extends(s.graph, t.graph)
    ensures |s.cells| <= |t.cells| == |t.graph.labels| && |s.pcs| <= |t.pcs| == |t.graph.edges|
  {
  }

  /** The step of a map on a result. */
  lemma MapStep(t: State, sources: Sources, f: nat, result: Outcome)
    requires Shaped(t, sources) && f < |t.pcs| && t.pcs[f] == Active(Invoke(f, result)) && t.graph.edges[f].MapEdge?
    requires t.graph.edges[f].dst < |t.cells| && t.cells[t.graph.edges[f].dst].value.None?
    ensures Step(t, f, sources).cells[t.graph.edges[f].dst].value == Some(MapOutcome(t.graph.edges[f].f, result))
    ensures Step(t, f, sources).graph == t.graph && |Step(t, f, sources).cells| == |t.cells|
  {
    hide Wired, Build, Grow;
  }

  /** Once the mapped task has resolved, the map does. */
  lemma MapYields(s: State, t: State, sources: Sources, g: Graph, g1: Graph, e: Expr, src: nat, result: Outcome) returns (u: State)
    requires e.Map? && LabelIs(g1, src, e.mapped) && Wired(g1, sources) && Extends(g, g1)
    requires Ready(s, sources, g, AddMap(g1, e, src)) && Yields(s, t, sources, Added(g, g1), src, result)
    ensures Yields(s, u, sources, Added(g, AddMap(g1, e, src)), |g1.labels|, MapOutcome(e.f, result))
  {
    hide EdgeInv, ValueInv, KindInv, Wired, Goes, Step;
    var g', f, c := AddMap(g1, e, src), |g1.edges|, |g1.labels|;
    ReadySecond(s, t, sources, g, g1, g');
    ReadyFirst(s, sources, g, g1, g');
    assert g'.edges[f] == MapEdge(src, c, e.f) && g'.labels[c] == Task(e);
    OwnInside(t, sources, g1, g', f);
    assert t.pcs[f] == FirstPc(t.graph.edges[f], f) && t.cells[c] == FreshCell(t.graph.labels[c]);
    RunOn(t, sources, f, result);
    u := Step(Invoking(t, f, result), f, sources);
    MapStep(Invoking(t, f, result), sources, f, result);
    OwnWider(s, t, u, sources, g, g1, g', f);
    GoesInv(s, u, sources, Added(g, g'));
    ReadOwn(u, sources, c);
  }

  /** A run of the first part and then of the second is a run of the whole. */
  lemma GoesWider(s: State, t: State, u: State, sources: Sources, g: Graph, g1: Graph, g': Graph)
    requires Goes(s, t, sources, Added(g, g1)) && Goes(t, u, sources, Added(g1, g')) && Extends(g, g1) && Extends(g1, g')
    ensures Goes(s, u, sources, Added(g, g'))
  {
    hide Inv, Shaped, AllKinds, Reaches, Later, Within;
    var whole := Added(g, g');
    GoesNowhereAfter(s, t, sources, Added(g, g1), whole);
    GoesOn(s, t, u, sources, whole, Added(g1, g'));
  }

  /** What goes within a region goes within a larger one. */
  lemma GoesNowhereAfter(s: State, t: State, sources: Sources, r: Region, whole: Region)
    requires Goes(s, t, sources, r) && Inside(r, whole, s)
    ensures Goes(s, t, sources, whole)
  {
    hide Inv, Shaped, AllKinds, Reaches;
  }

  /** A run of the first part and then of one callback of the second is a run of the whole. */
  lemma OwnWider(s: State, t: State, u: State, sources: Sources, g: Graph, g1: Graph, g': Graph, f: nat)
    requires Goes(s, t, sources, Added(g, g1)) && Extends(g, g1) && Extends(g1, g') && Extends(g', t.graph)
    requires Wired(g1, sources) && Wired(g', sources) && |g1.edges| <= f < |g'.edges|
    requires Goes(t, u, sources, Own(t.graph.edges[f], f))
    ensures Goes(s, u, sources, Added(g, g'))
  {
    hide Goes, Wired;
    OwnInside(t, sources, g1, g', f);
    GoesNowhereAfter(t, u, sources, Own(t.graph.edges[f], f), Added(g1, g'));
    GoesWider(s, t, u, sources, g, g1, g');
  }

  // ---------- Bound tasks ----------

  /** The steps of a bind on an error, and its track. */
  lemma BindErrorStep(t: State, sources: Sources, f: nat, result: Outcome)
    requires Shaped(t, sources) && f < |t.pcs| && t.pcs[f] == Active(Invoke(f, result)) && t.graph.edges[f].BindEdge? && result.Err?
    requires t.graph.edges[f].err < |t.cells| && t.cells[t.graph.edges[f].err].value.None?
    requires t.graph.edges[f].dst < |t.cells| && t.graph.edges[f].dst != t.graph.edges[f].err
    ensures var u, edge := Step(t, f, sources), t.graph.edges[f];
      && u.graph == t.graph && |u.cells| == |t.cells| && |u.pcs| == |t.pcs|
      && u.pcs[f] == Active(TrackTo(f, edge.err)) && u.cells[edge.err].value == Some(result)
      && u.cells[edge.dst] == t.cells[edge.dst]
  {
    hide Wired, Build, Grow;
  }

  lemma TrackStep(t: State, sources: Sources, f: nat, to: nat)
    requires Shaped(t, sources) && f < |t.pcs| && t.pcs[f] == Active(TrackTo(f, to)) && t.graph.edges[f].BindEdge?
    requires t.graph.edges[f].dst < |t.cells| && t.cells[t.graph.edges[f].dst].target.None?
    ensures var u, edge := Step(t, f, sources), t.graph.edges[f];
      u.graph == t.graph && |u.cells| == |t.cells| && u.cells[edge.dst].target == Some(to)
  {
    hide Wired, Build, Grow;
  }

  /** A bind that tracks a cell which can be read reads the same. */
  lemma TrackYields(s: State, t: State, sources: Sources, r: Region, f: nat, to: nat, result: Outcome) returns (u: State)
    requires Goes(s, t, sources, r) && f < |t.pcs| == |t.graph.edges| && t.pcs[f] == Active(TrackTo(f, to)) && t.graph.edges[f].BindEdge?
    requires Inside(Own(t.graph.edges[f], f), r, s) && Read(t, to) == Some(result)
    ensures Yields(s, u, sources, r, t.graph.edges[f].dst, result)
  {
    hide ValueInv, KindInv, Wired, Goes, Step;
    GoesInv(s, t, sources, r);
    assert EdgeInv(t, sources, f);
    EdgeEnds(t, sources, f);
    u := Step(t, f, sources);
    TrackStep(t, sources, f, to);
    StepOn(s, t, sources, f, r);
    GoesInv(s, u, sources, r);
    GoesNowhere(t, sources, Own(t.graph.edges[f], f));
    StepOn(t, t, sources, f, Own(t.graph.edges[f], f));
    ReadKept(t, u, sources, Own(t.graph.edges[f], f), to);
    ReadTarget(u, sources, t.graph.edges[f].dst);
  }

  /** A bind whose first task gave an error reads that error. */
  lemma BindErrorYields(s: State, t: State, sources: Sources, g: Graph, g1: Graph, e: Expr, src: nat, result: Outcome) returns (u: State)
    requires e.Bind? && LabelIs(g1, src, e.bound) && Wired(g1, sources) && Extends(g, g1) && result.Err?
    requires Ready(s, sources, g, AddBind(g1, e, src)) && Yields(s, t, sources, Added(g, g1), src, result)
    ensures Yields(s, u, sources, Added(g, AddBind(g1, e, src)), |g1.labels|, result)
  {
    hide EdgeInv, ValueInv, KindInv, Wired, Goes, Step;
    var g', f, c := AddBind(g1, e, src), |g1.edges|, |g1.labels|;
    ReadySecond(s, t, sources, g, g1, g');
    assert g'.edges[f] == BindEdge(src, c, c + 1, e.g) && g'.labels[c + 1] == ErrorOf(e.bound);
    OwnInside(t, sources, g1, g', f);
    assert t.pcs[f] == FirstPc(t.graph.edges[f], f) && t.cells[c + 1] == FreshCell(t.graph.labels[c + 1]);
    RunOn(t, sources, f, result);
    var v := Step(Invoking(t, f, result), f, sources);
    BindErrorStep(Invoking(t, f, result), sources, f, result);
    OwnWider(s, t, v, sources, g, g1, g', f);
    GoesInv(s, v, sources, Added(g, g'));
    ReadOwn(v, sources, c + 1);
    BindInside(s, sources, g, g1, e, src);
    u := TrackYields(s, v, sources, Added(g, g'), f, c + 1, result);
  }

  lemma BindInside(s: State, sources: Sources, g: Graph, g1: Graph, e: Expr, src: nat)
    requires e.Bind? && Extends(g, g1)
    ensures Inside(Own(BindEdge(src, |g1.labels|, |g1.labels| + 1, e.g), |g1.edges|), Added(g, AddBind(g1, e, src)), s)
  {
  }

  /** What a bind builds when it runs on a value is ready, past all that was there. */
  lemma UnfoldReady(t: State, sources: Sources, f: nat, v: Value, u: State)
    requires Inv(t, sources) && SourcesDone(t, sources) && f < |t.pcs| && t.pcs[f] == Active(Invoke(f, Ok(v)))
    requires t.graph.edges[f].BindEdge? && u == Step(t, f, sources) && Inv(u, sources) && Touches(t, u, sources, f)
    ensures var (built, root) := Build(t.graph, Then(t.graph.edges[f].g, v), |sources|);
      && u.graph == built && Ready(u, sources, t.graph, built) && u.pcs[f] == Active(TrackTo(f, root))
  {
    hide Step, EdgeInv, ValueInv, KindInv, Wired, Build, Grow, Unfold, FreshCell, FirstPc, OwnCell, Follows;
    assert Unfolds(t, f) && Unfolded(t, f) == Then(t.graph.edges[f].g, v);
    StepUnfolds(t, f, sources);
    UnfoldGrows(t, f, Unfolded(t, f), sources);
  }

  /** A bind whose first task gave a value builds the task for it. */
  lemma BindUnfolds(s: State, t: State, sources: Sources, g: Graph, g1: Graph, e: Expr, src: nat, v: Value) returns (u: State)
    requires e.Bind? && LabelIs(g1, src, e.bound) && Wired(g1, sources) && Extends(g, g1)
    requires Ready(s, sources, g, AddBind(g1, e, src)) && Yields(s, t, sources, Added(g, g1), src, Ok(v))
    ensures var (built, root) := Build(t.graph, Then(e.g, v), |sources|);
      && Goes(s, u, sources, Added(g, AddBind(g1, e, src)))
      && u.graph == built && Ready(u, sources, t.graph, built)
      && |g1.edges| < |t.graph.edges| && |g1.edges| < |u.pcs| && u.pcs[|g1.edges|] == Active(TrackTo(|g1.edges|, root))
      && u.graph.edges[|g1.edges|] == BindEdge(src, |g1.labels|, |g1.labels| + 1, e.g)
      && |s.cells| <= |t.graph.labels| && |s.pcs| <= |t.graph.edges|
  {
    hide EdgeInv, ValueInv, KindInv, Wired, Goes, Step, Build, FreshIn;
    var g', f, c, result: Outcome := AddBind(g1, e, src), |g1.edges|, |g1.labels|, Ok(v);
    ReadySecond(s, t, sources, g, g1, g');
    GoesInv(s, t, sources, Added(g, g1));
    assert g'.edges[f] == BindEdge(src, c, c + 1, e.g);
    OwnInside(t, sources, g1, g', f);
    FirstOfReady(t, sources, g1, g', f);
    RunOn(t, sources, f, result);
    var w := Invoking(t, f, result);
    u := Step(w, f, sources);
    OwnWider(s, t, u, sources, g, g1, g', f);
    GoesInv(s, u, sources, Added(g, g'));
    StepKeeps(w, sources, f);
    UnfoldReady(w, sources, f, v, u);
  }

  lemma FirstOfReady(s: State, sources: Sources, g: Graph, g': Graph, f: nat)
    requires Ready(s, sources, g, g') && |g.edges| <= f < |g'.edges|
    ensures f < |s.pcs| && s.pcs[f] == FirstPc(s.graph.edges[f], f)
  {
  }

  /** Once that task has resolved, the bind tracks it. */
  lemma BindYields(s: State, u: State, x: State, sources: Sources, r: Region, was: Graph, f: nat, to: nat, result: Outcome) returns (y: State)
    requires Goes(s, u, sources, r) && f < |was.edges| && f < |u.pcs| && u.pcs[f] == Active(TrackTo(f, to)) && u.graph.edges[f].BindEdge?
    requires |s.cells| <= |was.labels| && |s.pcs| <= |was.edges|
    requires Yields(u, x, sources, Added(was, u.graph), to, result) && Inside(Own(u.graph.edges[f], f), r, s)
    ensures Yields(s, y, sources, r, u.graph.edges[f].dst, result)
  {
    hide Inv, Wired, AllKinds, Reaches, Step;
    GoesOn(s, u, x, sources, r, Added(was, u.graph));
    assert x.pcs[f] == u.pcs[f] && x.graph.edges[f] == u.graph.edges[f];
    y := TrackYields(s, x, sources, r, f, to, result);
  }
}
