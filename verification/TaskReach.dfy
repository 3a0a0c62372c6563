/** Going from one state of a task graph to another, by steps that stay within a part of the graph. */
module TaskReach {
  import opened Wrappers
  import opened TaskSyntax
  import opened TaskGraph
  import opened TaskMachine
  import opened TaskInvariant
  import opened TaskFrames
  import opened TaskSteps
  import opened TaskMeaning
  import opened TaskTermination

  // ---------- Reaching ----------

  /** The state after the callbacks of a list have moved in turn, if each could. */
  ghost function Follow(s: State, es: seq<nat>, sources: Sources): (t: Option<State>)
    decreases |es|
  {
    if es == [] then Some(s)
    else
      var e := es[|es| - 1];
      match Follow(s, es[..|es| - 1], sources)
      case None => None
      case Some(t) =>
        if Shaped(t, sources) && e < |t.pcs| && t.pcs[e].Active? then Some(Step(t, e, sources)) else None
  }

  ghost predicate Reaches(s: State, t: State, sources: Sources) {
    exists es :: Follow(s, es, sources) == Some(t)
  }

  lemma ReachSelf(s: State, sources: Sources)
    ensures Reaches(s, s, sources)
  {
    assert Follow(s, [], sources) == Some(s);
  }

  lemma ReachStep(s: State, t: State, sources: Sources, e: nat)
    requires Reaches(s, t, sources) && Shaped(t, sources) && e < |t.pcs| && t.pcs[e].Active?
    ensures Reaches(s, Step(t, e, sources), sources)
  {
    hide Step, Shaped;
    var es :| Follow(s, es, sources) == Some(t);
    assert (es + [e])[..|es|] == es;
    assert Follow(s, es + [e], sources) == Some(Step(t, e, sources));
  }

  lemma {:induction false} FollowOn(s: State, t: State, u: State, sources: Sources, es: seq<nat>)
    requires Reaches(s, t, sources) && Follow(t, es, sources) == Some(u)
    ensures Reaches(s, u, sources)
    decreases |es|
  {
    hide Step, Shaped, Reaches;
    if es != [] {
      var low, e := es[..|es| - 1], es[|es| - 1];
      var v := Follow(t, low, sources).value;
      FollowOn(s, t, v, sources, low);
      ReachStep(s, v, sources, e);
    }
  }

  lemma ReachOn(s: State, t: State, u: State, sources: Sources)
    requires Reaches(s, t, sources) && Reaches(t, u, sources)
    ensures Reaches(s, u, sources)
  {
    var es :| Follow(t, es, sources) == Some(u);
    FollowOn(s, t, u, sources, es);
  }

  // ---------- Staying within a part of the graph ----------

  /** The cells from `cl` to `ch` and the callbacks from `el` to `eh`. */
  datatype Region = Region(cl: nat, ch: nat, el: nat, eh: nat)

  /** What extending `g` to `g'` added. */
  ghost function Added(g: Graph, g': Graph): (r: Region) {
    Region(|g.labels|, |g'.labels|, |g.edges|, |g'.edges|)
  }

  /** From `s` to `t`, of what was there only the region has changed; pending actions elsewhere are pending still. */
  ghost predicate Within(s: State, t: State, r: Region) {
    && |s.cells| <= |t.cells| && |s.pcs| <= |t.pcs|
    && (forall d :: 0 <= d < |s.cells| && !(r.cl <= d < r.ch) ==> t.cells[d] == s.cells[d])
    && (forall f :: 0 <= f < |s.pcs| && !(r.el <= f < r.eh) && s.pcs[f].Active? ==> t.pcs[f] == s.pcs[f])
  }

  /** `t` is reached from `s` by steps of the region and of what they build. */
  ghost predicate Goes(s: State, t: State, sources: Sources, r: Region) {
    Inv(t, sources) && Reaches(s, t, sources) && Later(s, t, sources) && Within(s, t, r)
  }

  /** Region `q` is part of `r`, or lies past all that is there in `s`. */
  ghost predicate Inside(q: Region, r: Region, s: State) {
    (r.cl <= q.cl && q.ch <= r.ch && r.el <= q.el && q.eh <= r.eh) || (|s.cells| <= q.cl && |s.pcs| <= q.el)
  }

  lemma GoesNowhere(s: State, sources: Sources, r: Region)
    requires Inv(s, sources)
    ensures Goes(s, s, sources, r)
  {
    hide EdgeInv, ValueInv, KindInv, Wired;
    ReachSelf(s, sources);
  }

  lemma GoesOn(s: State, t: State, u: State, sources: Sources, r: Region, q: Region)
    requires Goes(s, t, sources, r) && Goes(t, u, sources, q) && Inside(q, r, s)
    ensures Goes(s, u, sources, r)
  {
    hide Inv, Shaped, AllKinds, Reaches;
    ReachOn(s, t, u, sources);
  }

  /** A callback of the region whose own cells lie in the region moves. */
  lemma GoesByStep(s: State, sources: Sources, e: nat, r: Region)
    requires Inv(s, sources) && e < |s.pcs| && s.pcs[e].Active? && r.el <= e < r.eh
    requires r.cl <= s.graph.edges[e].dst < r.ch
    requires s.graph.edges[e].BindEdge? ==> r.cl <= s.graph.edges[e].err < r.ch
    ensures Goes(s, Step(s, e, sources), sources, r)
  {
    hide Step, EdgeInv, ValueInv, KindInv, Wired, Reaches;
    StepKeeps(s, sources, e);
    ReachSelf(s, sources);
    ReachStep(s, s, sources, e);
    StepWithin(s, Step(s, e, sources), sources, e, r);
  }

  lemma StepWithin(s: State, s': State, sources: Sources, e: nat, r: Region)
    requires Touches(s, s', sources, e) && e < |s.graph.edges| && r.el <= e < r.eh
    requires r.cl <= s.graph.edges[e].dst < r.ch
    requires s.graph.edges[e].BindEdge? ==> r.cl <= s.graph.edges[e].err < r.ch
    ensures Within(s, s', r)
  {
    hide OwnCell, Shaped, AllKinds;
    forall f | 0 <= f < |s.pcs| && !(r.el <= f < r.eh) && s.pcs[f].Active? ensures s'.pcs[f] == s.pcs[f] {
      assert Follows(s, s', f);
    }
    forall d | 0 <= d < |s.cells| && !(r.cl <= d < r.ch) ensures s'.cells[d] == s.cells[d] {
      assert Foreign(s.graph.edges[e], d);
    }
  }

  /** The cells of a callback that an extension added were added with it. */
  lemma AddedCells(g: Graph, g': Graph, sources: Sources, e: nat)
    requires Wired(g, sources) && Wired(g', sources) && Extends(g, g') && |g.edges| <= e < |g'.edges|
    ensures |g.labels| <= g'.edges[e].dst < |g'.labels|
    ensures g'.edges[e].BindEdge? ==> |g.labels| <= g'.edges[e].err < |g'.labels|
  {
    if g'.edges[e].dst < |g.labels| {
      OldCellOldEdge(g, g', sources, e);
    }
    assert EdgeWired(g', sources, e) && CellWired(g', sources, g'.edges[e].dst);
  }

  // ---------- What has not been touched ----------

  /** The cells of a region are as they were allocated, and its callbacks are about to begin. */
  ghost predicate FreshIn(s: State, r: Region) {
    && r.ch <= |s.cells| == |s.graph.labels| && r.eh <= |s.pcs| == |s.graph.edges|
    && (forall c :: r.cl <= c < r.ch ==> s.cells[c] == FreshCell(s.graph.labels[c]))
    && (forall f :: r.el <= f < r.eh ==> s.pcs[f] == FirstPc(s.graph.edges[f], f))
  }

  ghost predicate Apart(q: Region, r: Region) {
    (q.ch <= r.cl || r.ch <= q.cl) && (q.eh <= r.el || r.eh <= q.el)
  }

  /** Steps of one region leave another as it was. */
  lemma FreshStays(s: State, t: State, sources: Sources, r: Region, q: Region)
    requires Goes(s, t, sources, r) && FreshIn(s, q) && Apart(q, r)
    ensures FreshIn(t, q)
  {
    hide Inv, Reaches, Wired, AllKinds, FreshCell;
    forall c | q.cl <= c < q.ch ensures t.cells[c] == FreshCell(t.graph.labels[c]) {
      assert t.cells[c] == s.cells[c] && t.graph.labels[c] == s.graph.labels[c];
    }
    forall f | q.el <= f < q.eh ensures t.pcs[f] == FirstPc(t.graph.edges[f], f) {
      assert s.pcs[f] == FirstPc(s.graph.edges[f], f) && t.graph.edges[f] == s.graph.edges[f];
    }
  }

  // ---------- Delivering a result ----------

  lemma ReadKept(s: State, t: State, sources: Sources, r: Region, c: nat)
    requires Goes(s, t, sources, r) && Read(s, c).Some?
    ensures Read(t, c) == Read(s, c)
  {
    hide Inv, Reaches, Within;
    ReadStays(s, t, sources, c);
  }

  /** All cells on a chain read the same. */
  lemma {:induction false} ReadOnChain(s: State, sources: Sources, c: nat, at: nat)
    requires Inv(s, sources) && OnChain(s, c, at) && at < |s.cells|
    ensures Read(s, at) == Read(s, c)
    decreases Rank(s.graph, c), RankTask(s.graph, c)
  {
    if c != at {
      ReadTarget(s, sources, c);
      if s.cells[c].target.value != at {
        ReadOnChain(s, sources, s.cells[c].target.value, at);
      }
    }
  }

  /** The step of an await. */
  lemma RegisterStep(s: State, sources: Sources, f: nat)
    requires Inv(s, sources) && f < |s.pcs| && s.pcs[f].Active? && s.pcs[f].action.Register?
    ensures s.pcs[f].action.at < |s.cells| && !s.graph.edges[f].Fill?
    ensures Step(s, f, sources) == SetPc(s, f, Registered(s, f, s.pcs[f].action.at))
    ensures s.graph.edges[f].src < |s.cells| && OnChain(s, s.graph.edges[f].src, s.pcs[f].action.at)
  {
    hide EffectInv, ValueInv, KindInv, Registered;
    assert EdgeInv(s, sources, f);
    EdgeEnds(s, sources, f);
  }

  /** A callback whose cell can be read gets to run on what is read, by steps of its own. */
  lemma {:induction false} Deliver(s: State, sources: Sources, f: nat, result: Outcome, r: Region)
    requires Inv(s, sources) && f < |s.pcs| && s.pcs[f].Active? && s.pcs[f].action.Register? && r.el <= f < r.eh
    requires r.cl <= s.graph.edges[f].dst < r.ch
    requires s.graph.edges[f].BindEdge? ==> r.cl <= s.graph.edges[f].err < r.ch
    requires !s.graph.edges[f].Fill? && Read(s, s.graph.edges[f].src) == Some(result)
    ensures Goes(s, SetPc(s, f, Active(Invoke(f, result))), sources, r)
    decreases Weight(s, f, sources)
  {
    hide EdgeInv, ValueInv, Wired, Goes, Step, Weight, Remaining;
    var at := s.pcs[f].action.at;
    RegisterStep(s, sources, f);
    ReadOnChain(s, sources, s.graph.edges[f].src, at);
    var t := Step(s, f, sources);
    GoesByStep(s, sources, f, r);
    StepKeeps(s, sources, f);
    if s.cells[at].target.Some? {
      OwnWeight(s, sources, f);
      ReadKept(s, t, sources, r, s.graph.edges[f].src);
      Deliver(t, sources, f, result, r);
      assert s.pcs[f := t.pcs[f]][f := Active(Invoke(f, result))] == s.pcs[f := Active(Invoke(f, result))];
      GoesOn(s, t, SetPc(s, f, Active(Invoke(f, result))), sources, r, r);
    }
  }
}
