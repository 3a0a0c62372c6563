/** Running the children of a combinator in an order of choice, once their tasks have resolved. */
module TaskChildren {
  import opened Wrappers
  import opened TaskSyntax
  import opened TaskGraph
  import opened TaskMachine
  import opened TaskInvariant
  import opened TaskFrames
  import opened TaskSteps
  import opened TaskMeaning
  import opened TaskTermination
  import opened TaskReach
  import opened TaskAdequacy

  // ---------- The steps of a child ----------

  lemma StoreStep(t: State, sources: Sources, f: nat, v: Value)
    requires Shaped(t, sources) && f < |t.pcs| && t.pcs[f] == Active(Invoke(f, Ok(v))) && t.graph.edges[f].AllEdge?
    requires t.graph.edges[f].dst < |t.cells| && t.graph.edges[f].index < |t.cells[t.graph.edges[f].dst].slots|
    ensures var u, c := Step(t, f, sources), t.graph.edges[f].dst;
      && u.graph == t.graph && |u.cells| == |t.cells| && |u.pcs| == |t.pcs| && u.pcs[f] == Active(CountUp(f))
      && u.cells[c] == t.cells[c].(slots := t.cells[c].slots[t.graph.edges[f].index := v])
  {
    hide Wired, Build, Grow, Put;
  }

  lemma CountUpStep(t: State, sources: Sources, f: nat)
    requires Shaped(t, sources) && f < |t.pcs| && t.pcs[f] == Active(CountUp(f)) && t.graph.edges[f].AllEdge?
    requires t.graph.edges[f].dst < |t.cells|
    ensures var u, c, counted := Step(t, f, sources), t.graph.edges[f].dst, t.cells[t.graph.edges[f].dst].counted + {t.graph.edges[f].index};
      && u.graph == t.graph && |u.cells| == |t.cells| && |u.pcs| == |t.pcs|
      && u.pcs[f] == (if |counted| >= Arity(t.graph, c) then Active(Publish(f)) else Done)
      && u.cells[c] == t.cells[c].(counted := counted)
  {
    hide Wired, Build, Grow, Put, Arity;
  }

  lemma LogStep(t: State, sources: Sources, f: nat, error: int)
    requires Shaped(t, sources) && f < |t.pcs| && t.pcs[f] == Active(Invoke(f, Err(error))) && t.graph.edges[f].AnyEdge?
    requires t.graph.edges[f].dst < |t.cells|
    ensures var u, c, counted := Step(t, f, sources), t.graph.edges[f].dst, t.cells[t.graph.edges[f].dst].counted + {t.graph.edges[f].index};
      && u.graph == t.graph && |u.cells| == |t.cells| && |u.pcs| == |t.pcs|
      && u.pcs[f] == (if |counted| >= Arity(t.graph, c) then Active(PublishError(f, error)) else Done)
      && u.cells[c] == t.cells[c].(counted := counted)
  {
    hide Wired, Build, Grow, Put, Arity;
  }

  /** A write of a child to its unresolved combinator. */
  lemma ChildWrites(t: State, sources: Sources, f: nat, r: Outcome)
    requires Shaped(t, sources) && f < |t.pcs| && t.pcs[f].Active? && IsCombinatorEdge(t.graph.edges[f])
    requires t.graph.edges[f].dst < |t.cells| && t.cells[t.graph.edges[f].dst].value.None?
    requires match t.pcs[f].action
             case Publish(_) => r == Ok(Vec(t.cells[t.graph.edges[f].dst].slots))
             case PublishError(_, error) => r == Err(error)
             case Invoke(_, result) => r == result && (t.graph.edges[f].AllEdge? <==> r.Err?)
             case _ => false
    ensures var u, c := Step(t, f, sources), t.graph.edges[f].dst;
      u.graph == t.graph && |u.cells| == |t.cells| && u.cells[c].value == Some(r)
  {
    hide Wired, Build, Grow, Wake, Arity;
  }

  // ---------- Children that decide alone ----------

  /** The child callbacks of the combinator at `c`, from `f0` on, are about to begin, and nothing has happened at `c`. */
  ghost predicate Children(t: State, sources: Sources, c: nat, f0: nat, roots: seq<nat>, all: bool) {
    && Inv(t, sources)
    && c < |t.cells| && t.graph.labels[c].Task? && t.cells[c] == FreshCell(t.graph.labels[c])
    && (if all then t.graph.labels[c].e.WhenAll? else t.graph.labels[c].e.WhenAny?)
    && Arity(t.graph, c) == |roots| && f0 + |roots| <= |t.pcs|
    && (forall i :: 0 <= i < |roots| ==> IsChild(t, c, f0 + i, roots[i], i, all))
  }

  ghost predicate IsChild(t: State, c: nat, f: nat, root: nat, i: nat, all: bool)
    requires f < |t.pcs|
  {
    f < |t.graph.edges| && t.graph.edges[f] == (if all then AllEdge(root, c, i) else AnyEdge(root, c, i))
    && t.pcs[f] == FirstPc(t.graph.edges[f], f)
  }

  ghost function ChildRegion(c: nat, f0: nat, n: nat): (r: Region) {
    Region(c, c + 1, f0, f0 + n)
  }

  /** A child that decides alone: an error for when_all, a value for when_any. */
  lemma OneDecides(t: State, sources: Sources, c: nat, f0: nat, roots: seq<nat>, all: bool, i: nat, r: Outcome) returns (u: State)
    requires Children(t, sources, c, f0, roots, all) && i < |roots| && (all <==> r.Err?)
    requires Read(t, roots[i]) == Some(r)
    ensures Yields(t, u, sources, ChildRegion(c, f0, |roots|), c, r)
  {
    hide EdgeInv, ValueInv, KindInv, Wired, Goes, Step, Arity;
    var f := f0 + i;
    assert IsChild(t, c, f, roots[i], i, all);
    RunOn(t, sources, f, r);
    u := Step(Invoking(t, f, r), f, sources);
    ChildWrites(Invoking(t, f, r), sources, f, r);
    GoesNowhereAfter(t, u, sources, Own(t.graph.edges[f], f), ChildRegion(c, f0, |roots|));
    GoesInv(t, u, sources, ChildRegion(c, f0, |roots|));
    ReadOwn(u, sources, c);
  }

  // ---------- Children that are counted ----------

  /** The children of `done` have been counted, with their values stored; the others are about to begin. */
  ghost predicate Counted(t: State, c: nat, f0: nat, roots: seq<nat>, all: bool, done: set<nat>, vs: seq<Value>)
    requires c < |t.cells| && f0 + |roots| <= |t.pcs|
  {
    && t.cells[c].value.None? && t.cells[c].counted == done
    && (all ==> |t.cells[c].slots| == |roots| == |vs| && forall i :: i in done && i < |roots| ==> t.cells[c].slots[i] == vs[i])
    && (forall i :: 0 <= i < |roots| && i !in done ==> IsChild(t, c, f0 + i, roots[i], i, all))
  }

  /** What the children read. */
  ghost predicate ChildrenRead(t: State, roots: seq<nat>, rs: seq<Outcome>) {
    |rs| == |roots| && forall i :: 0 <= i < |roots| ==> Read(t, roots[i]) == Some(rs[i])
  }

  /** Child `i` is counted, and publishes if it is the last. */
  lemma CountOne(u: State, sources: Sources, c: nat, f0: nat, roots: seq<nat>, all: bool, done: set<nat>, vs: seq<Value>, i: nat, r: Outcome)
    returns (w: State)
    requires Inv(u, sources) && c < |u.cells| && f0 + |roots| <= |u.pcs| && Arity(u.graph, c) == |roots|
    requires Counted(u, c, f0, roots, all, done, vs) && i < |roots| && i !in done
    requires Read(u, roots[i]) == Some(r) && (all <==> r.Ok?) && (all ==> r == Ok(vs[i]))
    ensures Goes(u, w, sources, Region(c, c + 1, f0 + i, f0 + i + 1))
    ensures |u.cells| <= |w.cells| && |u.pcs| <= |w.pcs| && f0 + i < |w.pcs|
    ensures w.cells[c] == u.cells[c].(counted := done + {i}, slots := if all then u.cells[c].slots[i := vs[i]] else u.cells[c].slots)
    ensures w.pcs[f0 + i] == if |done + {i}| < |roots| then Done else Active(if all then Publish(f0 + i) else PublishError(f0 + i, r.error))
  {
    hide EdgeInv, ValueInv, KindInv, Wired, Goes, Step, Arity;
    var f := f0 + i;
    assert IsChild(u, c, f, roots[i], i, all);
    RunOn(u, sources, f, r);
    var v := Step(Invoking(u, f, r), f, sources);
    GoesInv(u, v, sources, Own(u.graph.edges[f], f));
    if all {
      StoreStep(Invoking(u, f, r), sources, f, vs[i]);
      w := Step(v, f, sources);
      CountUpStep(v, sources, f);
      StepOn(u, v, sources, f, Own(u.graph.edges[f], f));
    } else {
      w := v;
      LogStep(Invoking(u, f, r), sources, f, r.error);
    }
    GoesInv(u, w, sources, Own(u.graph.edges[f], f));
  }

  /** The other children are as they were. */
  lemma CountedNext(u: State, w: State, sources: Sources, c: nat, f0: nat, roots: seq<nat>, all: bool, done: set<nat>, vs: seq<Value>, i: nat)
    requires c < |u.cells| && f0 + |roots| <= |u.pcs| && Counted(u, c, f0, roots, all, done, vs) && i < |roots| && i !in done
    requires Goes(u, w, sources, Region(c, c + 1, f0 + i, f0 + i + 1))
    requires c < |w.cells| && f0 + |roots| <= |w.pcs|
    requires w.cells[c] == u.cells[c].(counted := done + {i}, slots := if all then u.cells[c].slots[i := vs[i]] else u.cells[c].slots)
    ensures Counted(w, c, f0, roots, all, done + {i}, vs)
  {
    hide Inv, AllKinds, Shaped, Reaches;
    forall j | 0 <= j < |roots| && j !in done + {i} ensures IsChild(w, c, f0 + j, roots[j], j, all) {
      assert IsChild(u, c, f0 + j, roots[j], j, all);
      assert w.pcs[f0 + j] == u.pcs[f0 + j] && w.graph.edges[f0 + j] == u.graph.edges[f0 + j];
    }
  }

  /** The children resolve so that all are counted: to the values `vs` for when_all, to errors for when_any. */
  ghost predicate AllCount(rs: seq<Outcome>, all: bool, vs: seq<Value>) {
    && (all ==> |vs| == |rs|)
    && forall i :: 0 <= i < |rs| ==> (all <==> rs[i].Ok?) && (all ==> rs[i] == Ok(vs[i]))
  }

  lemma NoneCounted(t: State, sources: Sources, c: nat, f0: nat, roots: seq<nat>, all: bool, vs: seq<Value>)
    requires Children(t, sources, c, f0, roots, all) && (all ==> |vs| == |roots|)
    ensures Counted(t, c, f0, roots, all, {}, vs)
  {
    hide EdgeInv, ValueInv, KindInv, Wired;
  }

  lemma RangeWithout(k: nat, last: nat)
    ensures k == 0 ==> Range(k) - {last} == {}
    ensures k > 0 ==> k - 1 !in Range(k - 1) - {last}
    ensures k > 0 ==> Range(k) - {last} == if k - 1 == last then Range(k - 1) - {last} else Range(k - 1) - {last} + {k - 1}
  {
    hide Range;
    if k > 0 {
      RangeSplits(k);
    }
  }

  lemma RangeSplits(k: nat)
    requires k > 0
    ensures Range(k) == Range(k - 1) + {k - 1}
  {
  }

  lemma RangeWhole(n: nat, last: nat)
    requires last < n
    ensures last !in Range(n) - {last} && Range(n) - {last} + {last} == Range(n) && |Range(n)| == n
  {
    hide Range;
  }

  lemma OneChildInside(t: State, c: nat, f0: nat, n: nat, i: nat)
    requires i < n
    ensures Inside(Region(c, c + 1, f0 + i, f0 + i + 1), ChildRegion(c, f0, n), t)
  {
  }

  /** One child more is counted. */
  lemma CountNext(t: State, w: State, sources: Sources, c: nat, f0: nat, roots: seq<nat>, all: bool, vs: seq<Value>,
                  rs: seq<Outcome>, done: set<nat>, j: nat) returns (u: State)
    requires Children(t, sources, c, f0, roots, all) && ChildrenRead(t, roots, rs) && AllCount(rs, all, vs)
    requires Goes(t, w, sources, ChildRegion(c, f0, |roots|)) && c < |w.cells| && f0 + |roots| <= |w.pcs|
    requires Counted(w, c, f0, roots, all, done, vs) && j < |roots| && j !in done
    ensures Goes(t, u, sources, ChildRegion(c, f0, |roots|)) && c < |u.cells| && f0 + |roots| <= |u.pcs|
    ensures Counted(u, c, f0, roots, all, done + {j}, vs)
  {
    hide Inv, Goes, Arity, FreshCell, Counted, IsChild, Inside;
    var r := ChildRegion(c, f0, |roots|);
    ReadKept(t, w, sources, r, roots[j]);
    CombinatorKept(t, w, sources, r, c);
    u := CountOne(w, sources, c, f0, roots, all, done, vs, j, rs[j]);
    CountedNext(w, u, sources, c, f0, roots, all, done, vs, j);
    OneChildInside(t, c, f0, |roots|, j);
    GoesOn(t, w, u, sources, r, Region(c, c + 1, f0 + j, f0 + j + 1));
  }

  /** Every child below `k` but `last` is counted. */
  lemma {:induction false} CountMost(t: State, sources: Sources, c: nat, f0: nat, roots: seq<nat>, all: bool, vs: seq<Value>,
                                     rs: seq<Outcome>, last: nat, k: nat) returns (u: State)
    requires Children(t, sources, c, f0, roots, all) && ChildrenRead(t, roots, rs) && AllCount(rs, all, vs)
    requires last < |roots| && k <= |roots|
    ensures Goes(t, u, sources, ChildRegion(c, f0, |roots|)) && c < |u.cells| && f0 + |roots| <= |u.pcs|
    ensures Counted(u, c, f0, roots, all, Range(k) - {last}, vs)
    decreases k
  {
    hide Inv, Goes, Arity, FreshCell, Counted, IsChild, Range;
    RangeWithout(k, last);
    if k == 0 {
      u := t;
      NoneCounted(t, sources, c, f0, roots, all, vs);
      GoesNowhere(t, sources, ChildRegion(c, f0, |roots|));
    } else {
      u := CountMost(t, sources, c, f0, roots, all, vs, rs, last, k - 1);
      if k - 1 != last {
        u := CountNext(t, u, sources, c, f0, roots, all, vs, rs, Range(k - 1) - {last}, k - 1);
      }
    }
  }

  /** A combinator keeps its children. */
  lemma CombinatorKept(t: State, u: State, sources: Sources, r: Region, c: nat)
    requires Goes(t, u, sources, r) && c < |t.cells|
    ensures Inv(u, sources) && c < |t.graph.labels| && u.graph.labels[c] == t.graph.labels[c] && Arity(u.graph, c) == Arity(t.graph, c)
  {
  }

  /** The child that is counted last sees the full count. */
  lemma CountLast(t: State, sources: Sources, c: nat, f0: nat, roots: seq<nat>, all: bool, vs: seq<Value>, rs: seq<Outcome>, last: nat)
    returns (w: State)
    requires Children(t, sources, c, f0, roots, all) && ChildrenRead(t, roots, rs) && AllCount(rs, all, vs) && last < |roots|
    ensures Goes(t, w, sources, ChildRegion(c, f0, |roots|)) && c < |w.cells| && f0 + last < |w.pcs|
    ensures w.cells[c].value.None? && (all ==> w.cells[c].slots == vs)
    ensures w.pcs[f0 + last] == Active(if all then Publish(f0 + last) else PublishError(f0 + last, rs[last].error))
    ensures f0 + last < |t.graph.edges| && t.graph.edges[f0 + last] == (if all then AllEdge(roots[last], c, last) else AnyEdge(roots[last], c, last))
  {
    hide Inv, Goes, Arity, FreshCell, Range, Counted, Inside, IsChild;
    var r, n, f := ChildRegion(c, f0, |roots|), |roots|, f0 + last;
    var done := Range(n) - {last};
    RangeWhole(n, last);
    var u := CountMost(t, sources, c, f0, roots, all, vs, rs, last, n);
    ReadKept(t, u, sources, r, roots[last]);
    CombinatorKept(t, u, sources, r, c);
    ChildIs(t, sources, c, f0, roots, all, last);
    w := CountOne(u, sources, c, f0, roots, all, done, vs, last, rs[last]);
    OneChildInside(t, c, f0, n, last);
    GoesOn(t, u, w, sources, r, Region(c, c + 1, f, f + 1));
    LastSlot(u, c, f0, roots, all, vs, last);
  }

  lemma ChildIs(t: State, sources: Sources, c: nat, f0: nat, roots: seq<nat>, all: bool, i: nat)
    requires Children(t, sources, c, f0, roots, all) && i < |roots|
    ensures f0 + i < |t.graph.edges| && t.graph.edges[f0 + i] == (if all then AllEdge(roots[i], c, i) else AnyEdge(roots[i], c, i))
  {
    assert IsChild(t, c, f0 + i, roots[i], i, all);
  }

  /** With every slot but the last stored, storing the last completes the vector. */
  lemma LastSlot(u: State, c: nat, f0: nat, roots: seq<nat>, all: bool, vs: seq<Value>, last: nat)
    requires c < |u.cells| && f0 + |roots| <= |u.pcs| && last < |roots|
    requires Counted(u, c, f0, roots, all, Range(|roots|) - {last}, vs)
    ensures u.cells[c].value.None?
    ensures all ==> |u.cells[c].slots| == |roots| == |vs| && u.cells[c].slots[last := vs[last]] == vs
  {
    hide IsChild, Range;
    if all {
      forall i | 0 <= i < |vs| ensures u.cells[c].slots[last := vs[last]][i] == vs[i] {
        assert i == last || i in Range(|roots|) - {last};
      }
    }
  }

  /** All children are counted, `last` last; it sees the full count and writes. */
  lemma AllCounted(t: State, sources: Sources, c: nat, f0: nat, roots: seq<nat>, all: bool, vs: seq<Value>, rs: seq<Outcome>, last: nat)
    returns (x: State)
    requires Children(t, sources, c, f0, roots, all) && ChildrenRead(t, roots, rs) && AllCount(rs, all, vs) && last < |roots|
    ensures Yields(t, x, sources, ChildRegion(c, f0, |roots|), c, if all then Ok(Vec(vs)) else rs[last])
  {
    hide EdgeInv, ValueInv, KindInv, Wired, Goes, Arity, FreshCell, Step, IsChild;
    var r, f := ChildRegion(c, f0, |roots|), f0 + last;
    var w := CountLast(t, sources, c, f0, roots, all, vs, rs, last);
    GoesInv(t, w, sources, r);
    x := Step(w, f, sources);
    ChildWrites(w, sources, f, if all then Ok(Vec(vs)) else rs[last]);
    StepOn(t, w, sources, f, r);
    GoesInv(t, x, sources, r);
    CombinatorKept(t, x, sources, r, c);
    ReadOwn(x, sources, c);
  }
}
