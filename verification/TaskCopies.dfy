/** Copies of tasks: they share a cell, and so they agree. */
module TaskCopies {
  import opened Wrappers
  import opened TaskSyntax
  import opened TaskGraph
  import opened TaskMachine
  import opened TaskInvariant
  import opened TaskHeap
  import opened TaskTermination
  import opened TaskRefinement
  import opened TaskRuns
  import opened TaskCombinators
  import opened TaskRealise

  lemma BuildCopy(g: Graph, c: nat, task: Expr, count: nat)
    requires LabelIs(g, c, task)
    ensures Build(g, Shared(c, task), count) == (g, c)
  {
  }

  lemma EachPush(g: Graph, low: seq<Expr>, last: Expr, count: nat)
    ensures var (g1, roots) := BuildEach(g, low, count);
      var (g2, root) := Build(g1, last, count);
      BuildEach(g, low + [last], count) == (g2, roots + [root])
  {
    hide Build;
    var es := low + [last];
    assert es[..|es| - 1] == low;
  }

  lemma {:induction false} RootsPrefix(g: Graph, es: seq<Expr>, count: nat, k: nat)
    requires k <= |es|
    ensures BuildEach(g, es[..k], count).1 == BuildEach(g, es, count).1[..k]
    decreases |es|
  {
    hide Build, BuildEach;
    if k == |es| {
      assert es[..k] == es;
    } else {
      var low := es[..|es| - 1];
      RootsPrefix(g, low, count, k);
      assert low[..k] == es[..k];
      EachPush(g, low, es[|es| - 1], count);
      assert low + [es[|es| - 1]] == es;
    }
  }

  /** A copy of an earlier task of a program is built as the cell of that task, and adds nothing. */
  lemma CopySharesCell(program: seq<Expr>, sources: Sources, j: nat, k: nat)
    requires j < k <= |program|
    ensures var g := ProgramGraph(program[..k], sources);
      Build(g, Shared(Roots(program, sources)[j], program[j]), |sources|) == (g, Roots(program, sources)[j])
  {
    hide BuildEach, Build, Wired, LabelIs, SourceGraph;
    SourceGraphWired(sources);
    BuildEachWired(SourceGraph(sources), program[..k], sources);
    RootsPrefix(SourceGraph(sources), program, |sources|, k);
    assert program[..k][j] == program[j];
    BuildCopy(ProgramGraph(program[..k], sources), Roots(program, sources)[j], program[j], |sources|);
  }

  /** The elements of a vector agree where the children are copies of one task. */
  lemma CopiesAgree(program: seq<Expr>, sources: Sources, schedule: seq<Action>, c: nat, es: seq<Expr>, x: seq<Value>)
    requires HeapAfter(program, sources, schedule).Some?
    requires var h := HeapAfter(program, sources, schedule).value;
      LabelIs(h.graph, c, WhenAll(es)) && HeapRead(h, c) == Some(Ok(Vec(x)))
    ensures var h := HeapAfter(program, sources, schedule).value;
      |x| == |es| && forall i, j :: 0 <= i < |x| && 0 <= j < |x| && ChildCell(h.graph, c, i) == ChildCell(h.graph, c, j) ==> x[i] == x[j]
  {
    hide HeapAfter, HeapRead, Wired, ChildCell;
    WhenAllDecided(program, sources, schedule, c, es);
    var h := HeapAfter(program, sources, schedule).value;
    assert Arity(h.graph, c) == |es|;
    forall i, j | 0 <= i < |x| && 0 <= j < |x| && ChildCell(h.graph, c, i) == ChildCell(h.graph, c, j) ensures x[i] == x[j] {
      assert ChildReads(h, c)[i] == Some(Ok(x[i])) && ChildReads(h, c)[j] == Some(Ok(x[j]));
    }
  }

  // ---------- Why copies make the meaning of a task inexact ----------

  /** A race, and a when_all over two copies of it. */
  function RaceTwice(): (program: seq<Expr>) {
    var race := WhenAny([Create(Num(1)), Create(Num(2))]);
    [race, WhenAll([Shared(2, race), Shared(2, race)])]
  }

  lemma PairOf(g: Graph, a: Expr, b: Expr, count: nat)
    ensures var (g1, x) := Build(g, a, count);
      var (g2, y) := Build(g1, b, count);
      BuildEach(g, [a, b], count) == (g2, [x, y])
  {
    hide Build, BuildEach;
    var (g1, x) := Build(g, a, count);
    var (g2, y) := Build(g1, b, count);
    var none: seq<nat> := [];
    NoTasks(g, count);
    EachPush(g, [], a, count);
    assert [] + [a] == [a] && none + [x] == [x];
    assert BuildEach(g, [a], count) == (g1, [x]);
    EachPush(g, [a], b, count);
    assert [a] + [b] == [a, b] && [x] + [y] == [x, y];
  }

  lemma NoTasks(g: Graph, count: nat)
    ensures BuildEach(g, [], count) == (g, [])
  {
  }

  lemma RaceGraph()
    ensures var g := ProgramGraph(RaceTwice(), []);
      && Roots(RaceTwice(), []) == [2, 3] && |g.labels| == 4 && LabelIs(g, 3, RaceTwice()[1])
      && ChildCell(g, 3, 0) == 2 == ChildCell(g, 3, 1)
  {
    hide BuildEach;
    var race := RaceTwice()[0];
    var one, two: Expr := Create(Num(1)), Create(Num(2));
    var empty := SourceGraph([]);
    var g1 := Build(empty, one, 0).0;
    var g2 := Build(g1, two, 0).0;
    PairOf(empty, one, two, 0);
    var g3 := AddAny(g2, race, [0, 1]);
    assert Build(empty, race, 0) == (g3, 2);
    assert LabelIs(g3, 2, race);
    var copy := Shared(2, race);
    BuildCopy(g3, 2, race, 0);
    PairOf(g3, copy, copy, 0);
    var g4 := AddAll(g3, RaceTwice()[1], [2, 2]);
    assert Build(g3, RaceTwice()[1], 0) == (g4, 3);
    PairOf(empty, race, RaceTwice()[1], 0);
    assert g4.edges[4] == AllEdge(2, 3, 0) && g4.edges[5] == AllEdge(2, 3, 1) && g4.homes[3] == 4;
  }

  /** What a child of a combinator awaits does not change when the graph grows. */
  lemma ChildCellStays(g: Graph, g': Graph, c: nat, i: nat)
    requires Extends(g, g') && c < |g.homes| && g.homes[c] + i < |g.edges|
    ensures ChildCell(g, c, i) < |g.labels| ==> ChildCell(g', c, i) == ChildCell(g, c, i)
  {
  }

  lemma RaceAllows()
    ensures Ok(Vec([Num(1), Num(2)])) in Results(RaceTwice()[1], [])
  {
    var race, all := RaceTwice()[0], RaceTwice()[1];
    var vs: seq<Value> := [Num(1), Num(2)];
    forall i | 0 <= i < 2 ensures Ok(vs[i]) in Results(all.all[i], []) {
      var r: Outcome := Ok(vs[i]);
      assert r in Results(race.any[i], []) && r.Ok?;
      assert r in Oks(race.any, []);
      assert Results(all.all[i], []) == Results(race, []);
    }
    InVectors(all.all, [], vs);
  }

  /**
   * The meaning of the when_all allows the vector of both values of the race, as if the copies ran on their own;
   * no run comes to it. So copies have to be excluded where the meaning of a task is said to be exact.
   */
  lemma RaceInexact()
    ensures Ok(Vec([Num(1), Num(2)])) in Results(RaceTwice()[1], [])
    ensures forall schedule :: !EndsWith(RaceTwice(), [], schedule, 1, Ok(Vec([Num(1), Num(2)])))
  {
    hide HeapAfter, StateAfter, HeapRead, Results, ProgramGraph, RaceTwice, Build, BuildEach, ChildCell, Inv, Sim, Initial;
    RaceAllows();
    RaceGraph();
    forall schedule ensures !EndsWith(RaceTwice(), [], schedule, 1, Ok(Vec([Num(1), Num(2)]))) {
      if EndsWith(RaceTwice(), [], schedule, 1, Ok(Vec([Num(1), Num(2)]))) {
        RaceAgrees(schedule);
      }
    }
  }

  lemma RaceAgrees(schedule: seq<Action>)
    ensures !EndsWith(RaceTwice(), [], schedule, 1, Ok(Vec([Num(1), Num(2)])))
  {
    hide HeapAfter, StateAfter, HeapRead, ProgramGraph, Build, BuildEach, ChildCell, Inv, Sim, Initial, TotalWeight, Runs, Delivered, HasRun, Wired;
    var x: seq<Value> := [Num(1), Num(2)];
    if EndsWith(RaceTwice(), [], schedule, 1, Ok(Vec(x))) {
      var h, g := HeapAfter(RaceTwice(), [], schedule).value, ProgramGraph(RaceTwice(), []);
      RaceGraph();
      RunKeeps(RaceTwice(), [], schedule);
      SimGraph(h, StateAfter(RaceTwice(), [], schedule));
      ProgramWired(RaceTwice(), []);
      RootsStay(RaceTwice(), [], schedule, 1);
      CopiesAgree(RaceTwice(), [], schedule, 3, RaceTwice()[1].all, x);
      RaceCells(g, h.graph);
    }
  }

  lemma SimGraph(h: Heap, s: State)
    requires Sim(h, s)
    ensures h.graph == s.graph
  {
  }

  lemma RaceCells(g: Graph, g': Graph)
    requires g == ProgramGraph(RaceTwice(), []) && Extends(g, g')
    ensures ChildCell(g', 3, 0) == ChildCell(g', 3, 1)
  {
    hide ProgramGraph;
    RaceGraph();
    ChildCellStays(g, g', 3, 0);
    ChildCellStays(g, g', 3, 1);
  }
}
