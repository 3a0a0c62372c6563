/** The cells and callbacks a task expression is built into, and how they are wired. */
module TaskGraph {
  import opened Wrappers
  import opened TaskSyntax

  /** What a cell is for: the task of an expression, or the error cell that `bind` allocates beside its tracking cell. */
  datatype Label = Task(e: Expr) | ErrorOf(of: Expr)

  /** The task of a tracking cell. */
  ghost predicate IsBind(tag: Label) {
    tag.Task? && tag.e.Bind?
  }

  /** A callback with what it has captured: the cell it is registered on and the cells it writes. */
  datatype Edge =
    | Fill(dst: nat, result: Outcome)                 // the job of a created task, or the completion of a source
    | MapEdge(src: nat, dst: nat, f: Value -> Value)
    | BindEdge(src: nat, dst: nat, err: nat, g: imap<Value, Expr>)
    | AllEdge(src: nat, dst: nat, index: nat)
    | AnyEdge(src: nat, dst: nat, index: nat)

  /** `homes` gives for each cell the first of the callbacks that feed it. */
  datatype Graph = Graph(labels: seq<Label>, homes: seq<nat>, edges: seq<Edge>)

  /** Allocates one cell. */
  ghost function AddCell(g: Graph, tag: Label, home: nat): (r: Graph) {
    Graph(g.labels + [tag], g.homes + [home], g.edges)
  }

  ghost function AddEdges(g: Graph, edges: seq<Edge>): (r: Graph) {
    g.(edges := g.edges + edges)
  }

  /** `map`: a write-once cell, and a callback on the mapped task. */
  ghost function AddMap(g: Graph, e: Expr, src: nat): (r: Graph)
    requires e.Map?
  {
    AddEdges(AddCell(g, Task(e), |g.edges|), [MapEdge(src, |g.labels|, e.f)])
  }

  /** `bind`: a tracking cell and an error cell, and a callback on the bound task. */
  ghost function AddBind(g: Graph, e: Expr, src: nat): (r: Graph)
    requires e.Bind?
  {
    var dst, home := |g.labels|, |g.edges|;
    AddEdges(AddCell(AddCell(g, Task(e), home), ErrorOf(e.bound), home), [BindEdge(src, dst, dst + 1, e.g)])
  }

  /** `when_all`: a cell with its context, and a callback on each task, in order. */
  ghost function AddAll(g: Graph, e: Expr, roots: seq<nat>): (r: Graph) {
    AddEdges(AddCell(g, Task(e), |g.edges|), seq(|roots|, i requires 0 <= i < |roots| => AllEdge(roots[i], |g.labels|, i)))
  }

  ghost function AddAny(g: Graph, e: Expr, roots: seq<nat>): (r: Graph) {
    AddEdges(AddCell(g, Task(e), |g.edges|), seq(|roots|, i requires 0 <= i < |roots| => AnyEdge(roots[i], |g.labels|, i)))
  }

  /**
   * Builds a task as the combinators do, the tasks it is made of first; `count` value sources exist already. A copy
   * of a task that is there already is the cell of that task.
   */
  ghost function Build(g: Graph, e: Expr, count: nat): (r: (Graph, nat))
    decreases e, 0
  {
    var c, h := |g.labels|, |g.edges|;
    match e
    case Source(k) => if k < count then (g, k) else (AddCell(g, Task(e), h), c)
    case Create(v) => (AddEdges(AddCell(g, Task(e), h), [Fill(c, Ok(v))]), c)
    case Map(e1, _) => var (g1, src) := Build(g, e1, count); (AddMap(g1, e, src), |g1.labels|)
    case Bind(e1, _) => var (g1, src) := Build(g, e1, count); (AddBind(g1, e, src), |g1.labels|)
    case WhenAll(es) => var (g1, roots) := BuildEach(g, es, count); (AddAll(g1, e, roots), |g1.labels|)
    case WhenAny(es) => var (g1, roots) := BuildEach(g, es, count); (AddAny(g1, e, roots), |g1.labels|)
    case Shared(cell, task) => if LabelIs(g, cell, task) then (g, cell) else Build(g, task, count)
  }

  ghost function BuildEach(g: Graph, es: seq<Expr>, count: nat): (r: (Graph, seq<nat>))
    ensures |r.1| == |es|
    decreases es, 0
  {
    if es == [] then (g, [])
    else
      var (g1, roots) := BuildEach(g, es[..|es| - 1], count);
      var (g2, root) := Build(g1, es[|es| - 1], count);
      (g2, roots + [root])
  }

  /** The graph of the value sources: source `k` is cell `k`, with one completion if it has a result. */
  ghost function SourceGraph(sources: Sources): (g: Graph)
    ensures |g.labels| == |sources|
    decreases |sources|
  {
    if sources == [] then Graph([], [], [])
    else
      var g, k := SourceGraph(sources[..|sources| - 1]), |sources| - 1;
      AddEdges(AddCell(g, Task(Source(k)), |g.edges|), if sources[k].Some? then [Fill(k, sources[k].value)] else [])
  }

  // ---------- Wiring ----------

  ghost predicate IsEdge(g: Graph, e: nat, edge: Edge) {
    e < |g.edges| && g.edges[e] == edge
  }

  /** Cell `c` is the cell of task `e`. */
  ghost predicate LabelIs(g: Graph, c: nat, e: Expr) {
    c < |g.labels| && g.labels[c] == Task(Core(e))
  }

  /** The callbacks that feed a cell stand at its home, in order, registered on the cells of the right tasks. */
  ghost predicate CellWired(g: Graph, sources: Sources, c: nat)
    requires c < |g.labels| == |g.homes|
  {
    var h := g.homes[c];
    match g.labels[c]
    case ErrorOf(e1) =>
      0 < c && h < |g.edges| && g.edges[h].BindEdge? && g.edges[h].err == c && g.edges[h].dst == c - 1
      && LabelIs(g, c - 1, Bind(e1, g.edges[h].g))
    case Task(e) => match e {
      case Source(k) =>
        if c < |sources| then k == c && (sources[c].Some? ==> IsEdge(g, h, Fill(c, sources[c].value)))
        else |sources| <= k
      case Create(v) => IsEdge(g, h, Fill(c, Ok(v)))
      case Map(e1, f) =>
        h < |g.edges| && g.edges[h].MapEdge? && g.edges[h] == MapEdge(g.edges[h].src, c, f) && LabelIs(g, g.edges[h].src, e1)
      case Bind(e1, table) =>
        h < |g.edges| && g.edges[h].BindEdge? && g.edges[h] == BindEdge(g.edges[h].src, c, c + 1, table)
        && LabelIs(g, g.edges[h].src, e1)
        && c + 1 < |g.labels| && g.labels[c + 1] == ErrorOf(e1) && g.homes[c + 1] == h
      case WhenAll(es) =>
        h + |es| <= |g.edges| && forall i :: 0 <= i < |es| ==> AllWired(g, h + i, c, i, es[i])
      case WhenAny(es) =>
        h + |es| <= |g.edges| && forall i :: 0 <= i < |es| ==> AnyWired(g, h + i, c, i, es[i])
      case Shared(_, _) => false
    }
  }

  ghost predicate AllWired(g: Graph, e: nat, c: nat, i: nat, child: Expr) {
    e < |g.edges| && g.edges[e].AllEdge? && g.edges[e] == AllEdge(g.edges[e].src, c, i) && LabelIs(g, g.edges[e].src, child)
  }

  ghost predicate AnyWired(g: Graph, e: nat, c: nat, i: nat, child: Expr) {
    e < |g.edges| && g.edges[e].AnyEdge? && g.edges[e] == AnyEdge(g.edges[e].src, c, i) && LabelIs(g, g.edges[e].src, child)
  }

  /** A callback stands at its place in the home of the cell it feeds. */
  ghost predicate EdgeWired(g: Graph, sources: Sources, e: nat)
    requires e < |g.edges| && |g.labels| == |g.homes|
  {
    var edge := g.edges[e];
    edge.dst < |g.labels| && g.labels[edge.dst].Task? &&
    var task, h := g.labels[edge.dst].e, g.homes[edge.dst];
    match edge
    case Fill(dst, r) => e == h && (task.Create? || (dst < |sources| && sources[dst] == Some(r)))
    case MapEdge(_, _, _) => e == h && task.Map?
    case BindEdge(_, _, _, _) => e == h && task.Bind?
    case AllEdge(_, _, i) => e == h + i && task.WhenAll? && i < |task.all|
    case AnyEdge(_, _, i) => e == h + i && task.WhenAny? && i < |task.any|
  }

  ghost predicate Wired(g: Graph, sources: Sources) {
    && |g.labels| == |g.homes|
    && |sources| <= |g.labels|
    && (forall k :: 0 <= k < |sources| ==> g.labels[k] == Task(Source(k)))
    && (forall c :: 0 <= c < |g.labels| ==> CellWired(g, sources, c))
    && (forall e :: 0 <= e < |g.edges| ==> EdgeWired(g, sources, e))
  }

  ghost predicate Extends(g: Graph, g': Graph) {
    g.labels <= g'.labels && g.homes <= g'.homes && g.edges <= g'.edges
  }

  lemma CellStaysWired(g: Graph, g': Graph, sources: Sources, c: nat)
    requires c < |g.labels| == |g.homes| && |g'.labels| == |g'.homes| && Extends(g, g') && CellWired(g, sources, c)
    ensures CellWired(g', sources, c)
  {
    match g.labels[c]
    case ErrorOf(_) =>
    case Task(e) =>
      match e {
        case WhenAll(es) =>
          forall i | 0 <= i < |es| ensures AllWired(g', g'.homes[c] + i, c, i, es[i]) {
            assert AllWired(g, g.homes[c] + i, c, i, es[i]);
          }
        case WhenAny(es) =>
          forall i | 0 <= i < |es| ensures AnyWired(g', g'.homes[c] + i, c, i, es[i]) {
            assert AnyWired(g, g.homes[c] + i, c, i, es[i]);
          }
        case _ =>
      }
  }

  /** An extension is wired if what it adds is. */
  lemma ExtendWired(g: Graph, g': Graph, sources: Sources)
    requires Wired(g, sources) && Extends(g, g') && |g'.labels| == |g'.homes|
    requires forall c :: |g.labels| <= c < |g'.labels| ==> CellWired(g', sources, c)
    requires forall e :: |g.edges| <= e < |g'.edges| ==> EdgeWired(g', sources, e)
    ensures Wired(g', sources)
  {
    forall c | 0 <= c < |g'.labels| ensures CellWired(g', sources, c) {
      if c < |g.labels| {
        CellStaysWired(g, g', sources, c);
      }
    }
    forall e | 0 <= e < |g'.edges| ensures EdgeWired(g', sources, e) {
      if e < |g.edges| {
        assert EdgeWired(g, sources, e);
      }
    }
  }

  /** A callback that feeds a cell there before an extension was there before it. */
  lemma OldCellOldEdge(g: Graph, g': Graph, sources: Sources, f: nat)
    requires Wired(g, sources) && Wired(g', sources) && Extends(g, g')
    requires f < |g'.edges| && g'.edges[f].dst < |g.labels|
    ensures f < |g.edges|
  {
    var c, edge := g'.edges[f].dst, g'.edges[f];
    assert EdgeWired(g', sources, f) && CellWired(g, sources, c);
    if edge.AllEdge? {
      assert AllWired(g, g.homes[c] + edge.index, c, edge.index, g.labels[c].e.all[edge.index]);
    }
    if edge.AnyEdge? {
      assert AnyWired(g, g.homes[c] + edge.index, c, edge.index, g.labels[c].e.any[edge.index]);
    }
  }

  /** What a build leaves: a wired extension, with the task's cell. */
  ghost predicate Built(g: Graph, e: Expr, sources: Sources, g': Graph, root: nat) {
    Wired(g', sources) && Extends(g, g') && LabelIs(g', root, e)
  }

  lemma AddMapWired(g: Graph, e: Expr, src: nat, sources: Sources)
    requires Wired(g, sources) && e.Map? && LabelIs(g, src, e.mapped)
    ensures Built(g, e, sources, AddMap(g, e, src), |g.labels|)
  {
    ExtendWired(g, AddMap(g, e, src), sources);
  }

  lemma AddBindWired(g: Graph, e: Expr, src: nat, sources: Sources)
    requires Wired(g, sources) && e.Bind? && LabelIs(g, src, e.bound)
    ensures Built(g, e, sources, AddBind(g, e, src), |g.labels|)
  {
    ExtendWired(g, AddBind(g, e, src), sources);
  }

  lemma AddAllWired(g: Graph, e: Expr, roots: seq<nat>, sources: Sources)
    requires Wired(g, sources) && e.WhenAll? && |roots| == |e.all|
    requires forall i :: 0 <= i < |roots| ==> LabelIs(g, roots[i], e.all[i])
    ensures Built(g, e, sources, AddAll(g, e, roots), |g.labels|)
  {
    var g', c, h := AddAll(g, e, roots), |g.labels|, |g.edges|;
    forall i | 0 <= i < |roots| ensures AllWired(g', h + i, c, i, e.all[i]) {
      assert LabelIs(g, roots[i], e.all[i]);
    }
    ExtendWired(g, g', sources);
  }

  lemma AddAnyWired(g: Graph, e: Expr, roots: seq<nat>, sources: Sources)
    requires Wired(g, sources) && e.WhenAny? && |roots| == |e.any|
    requires forall i :: 0 <= i < |roots| ==> LabelIs(g, roots[i], e.any[i])
    ensures Built(g, e, sources, AddAny(g, e, roots), |g.labels|)
  {
    var g', c, h := AddAny(g, e, roots), |g.labels|, |g.edges|;
    forall i | 0 <= i < |roots| ensures AnyWired(g', h + i, c, i, e.any[i]) {
      assert LabelIs(g, roots[i], e.any[i]);
    }
    ExtendWired(g, g', sources);
  }

  lemma {:induction false} BuildWired(g: Graph, e: Expr, sources: Sources)
    requires Wired(g, sources)
    ensures Built(g, e, sources, Build(g, e, |sources|).0, Build(g, e, |sources|).1)
    decreases e, 0
  {
    match e
    case Source(k) =>
      if k < |sources| {
        assert LabelIs(g, k, e);
      } else {
        ExtendWired(g, AddCell(g, Task(e), |g.edges|), sources);
      }
    case Create(v) => ExtendWired(g, Build(g, e, |sources|).0, sources);
    case Map(e1, _) =>
      BuildWired(g, e1, sources);
      var (g1, src) := Build(g, e1, |sources|);
      AddMapWired(g1, e, src, sources);
    case Bind(e1, _) =>
      BuildWired(g, e1, sources);
      var (g1, src) := Build(g, e1, |sources|);
      AddBindWired(g1, e, src, sources);
    case WhenAll(es) =>
      BuildEachWired(g, es, sources);
      var (g1, roots) := BuildEach(g, es, |sources|);
      AddAllWired(g1, e, roots, sources);
    case WhenAny(es) =>
      BuildEachWired(g, es, sources);
      var (g1, roots) := BuildEach(g, es, |sources|);
      AddAnyWired(g1, e, roots, sources);
    case Shared(cell, task) =>
      if !LabelIs(g, cell, task) {
        BuildWired(g, task, sources);
      }
  }

  lemma {:induction false} BuildEachWired(g: Graph, es: seq<Expr>, sources: Sources)
    requires Wired(g, sources)
    ensures var (g', roots) := BuildEach(g, es, |sources|);
      && Wired(g', sources) && Extends(g, g')
      && forall i :: 0 <= i < |es| ==> LabelIs(g', roots[i], es[i])
    decreases es, 0
  {
    if es != [] {
      var low, last := es[..|es| - 1], es[|es| - 1];
      BuildEachWired(g, low, sources);
      BuildWired(BuildEach(g, low, |sources|).0, last, sources);
    }
  }

  lemma {:induction false} SourceGraphWired(sources: Sources)
    ensures Wired(SourceGraph(sources), sources)
    decreases |sources|
  {
    if sources != [] {
      var low := sources[..|sources| - 1];
      var g, k := SourceGraph(low), |low|;
      SourceGraphWired(low);
      var g' := SourceGraph(sources);
      forall c | 0 <= c < |g'.labels| ensures g'.labels[c] == Task(Source(c)) && CellWired(g', sources, c) {
        if c < k {
          assert g.labels[c] == Task(Source(c)) && CellWired(g, low, c);
          CellStaysWired(g, g', low, c);
        }
      }
      forall e | 0 <= e < |g'.edges| ensures EdgeWired(g', sources, e) {
        if e < |g.edges| {
          assert EdgeWired(g, low, e);
        }
      }
    }
  }
}
