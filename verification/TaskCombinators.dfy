/** What when_all and when_any come to over whole runs: who publishes, what, and when. */
module TaskCombinators {
  import opened Wrappers
  import opened TaskSyntax
  import opened TaskGraph
  import opened TaskMachine
  import opened TaskInvariant
  import opened TaskFrames
  import opened TaskSteps
  import opened TaskMeaning
  import opened TaskTermination
  import opened TaskHeap
  import opened TaskLinks
  import opened TaskRefinement
  import opened TaskRuns

  // ---------- The full count is seen once ----------

  predicate IsPublish(a: Action) {
    a.Publish? || a.PublishError?
  }

  /** How often the children of the combinator at `c` go on to write because they saw the full count. */
  ghost function Publications(g: Graph, schedule: seq<Action>, c: nat): (n: nat)
    decreases |schedule|
  {
    if schedule == [] then 0
    else
      var a := schedule[|schedule| - 1];
      Publications(g, schedule[..|schedule| - 1], c)
      + if IsPublish(a) && a.edge < |g.edges| && g.edges[a.edge].dst == c then 1 else 0
  }

  /** All children of the combinator at `c` have been counted. */
  ghost predicate Full(s: State, c: nat) {
    c < |s.cells| && 0 < Arity(s.graph, c) <= |s.cells[c].counted|
  }

  ghost predicate SomeoneToPublish(s: State, c: nat) {
    c < |s.cells| && SomePublishing(s, c, Arity(s.graph, c))
  }

  /** Once the count is full, either one child is about to write, or one has. */
  ghost predicate PublishedOnce(s: State, g: Graph, schedule: seq<Action>, c: nat) {
    Publications(g, schedule, c) + (if SomeoneToPublish(s, c) then 1 else 0) == if Full(s, c) then 1 else 0
  }

  lemma SamePublishing(s: State, s': State, c: nat, n: nat)
    requires forall i :: 0 <= i < n ==> (Publishing(s', c, i) <==> Publishing(s, c, i))
    ensures SomePublishing(s, c, n) <==> SomePublishing(s', c, n)
  {
    if SomePublishing(s, c, n) {
      var i :| 0 <= i < n && Publishing(s, c, i);
      assert Publishing(s', c, i);
    }
    if SomePublishing(s', c, n) {
      var i :| 0 <= i < n && Publishing(s', c, i);
      assert Publishing(s, c, i);
    }
  }

  /** What a step of another cell's callback, or one that neither counts nor publishes, leaves of a combinator. */
  lemma StepElsewhere(s: State, s': State, sources: Sources, e: nat, c: nat)
    requires Inv(s, sources) && Inv(s', sources) && Touches(s, s', sources, e) && c < |s.cells|
    requires s'.cells[c].counted == s.cells[c].counted
    requires forall i :: 0 <= i < Arity(s.graph, c) && Child(s.graph, c, i) == e ==> !Publishing(s, c, i) && !Publishing(s', c, i)
    ensures SomeoneToPublish(s', c) <==> SomeoneToPublish(s, c)
    ensures Full(s', c) <==> Full(s, c)
  {
    assert s'.graph.labels[c] == s.graph.labels[c];
    var n := Arity(s.graph, c);
    forall i | 0 <= i < n ensures Publishing(s', c, i) <==> Publishing(s, c, i) {
      ChildIsOwn(s, sources, c, i);
      if Child(s.graph, c, i) != e {
        OtherPublishing(s, s', sources, e, c, i);
      }
    }
    SamePublishing(s, s', c, n);
  }

  /** The count that completes a combinator makes its child the publisher; before it there was none. */
  lemma CountStep(s: State, sources: Sources, a: Action, c: nat)
    requires Inv(s, sources) && a.edge < |s.pcs| && s.pcs[a.edge] == Active(a) && c == s.graph.edges[a.edge].dst < |s.cells|
    requires (a.CountUp? && s.graph.edges[a.edge].AllEdge?) || (a.Invoke? && s.graph.edges[a.edge].AnyEdge? && a.result.Err?)
    requires Inv(Step(s, a.edge, sources), sources) && Touches(s, Step(s, a.edge, sources), sources, a.edge)
    ensures var s' := Step(s, a.edge, sources);
      && !Full(s, c) && !SomeoneToPublish(s, c)
      && (SomeoneToPublish(s', c) <==> Full(s', c))
  {
    var s', e, edge := Step(s, a.edge, sources), a.edge, s.graph.edges[a.edge];
    assert EdgeInv(s, sources, e) && EdgeWired(s.graph, sources, e) && ValueInv(s, sources, c);
    var n := Arity(s.graph, c);
    NotFull(s, sources, e);
    PublishersAfter(s, s', sources, e, n);
    assert Publishing(s', c, edge.index) <==> n <= |s'.cells[c].counted|;
  }

  /** The publisher writes, and then there is none. */
  lemma PublishStep(s: State, sources: Sources, a: Action, c: nat)
    requires Inv(s, sources) && a.edge < |s.pcs| && s.pcs[a.edge] == Active(a) && c == s.graph.edges[a.edge].dst < |s.cells|
    requires IsPublish(a)
    requires Inv(Step(s, a.edge, sources), sources) && Touches(s, Step(s, a.edge, sources), sources, a.edge)
    ensures var s' := Step(s, a.edge, sources);
      Full(s, c) && SomeoneToPublish(s, c) && Full(s', c) && !SomeoneToPublish(s', c)
  {
    var s', e, edge := Step(s, a.edge, sources), a.edge, s.graph.edges[a.edge];
    EdgeEnds(s, sources, e);
    assert EdgeInv(s, sources, e) && EdgeWired(s.graph, sources, e) && ValueInv(s, sources, c) && KindInv(s, c);
    var n := Arity(s.graph, c);
    PublishersAfter(s, s', sources, e, n);
    assert Publishing(s, c, edge.index) && !Publishing(s', c, edge.index);
    assert n <= |s.cells[c].counted| && s'.cells[c].counted == s.cells[c].counted;
  }

  lemma PublicationsPush(g: Graph, schedule: seq<Action>, a: Action, c: nat)
    ensures Publications(g, schedule + [a], c)
         == Publications(g, schedule, c) + if IsPublish(a) && a.edge < |g.edges| && g.edges[a.edge].dst == c then 1 else 0
  {
    assert (schedule + [a])[..|schedule|] == schedule;
  }

  /** A combinator that a step allocates is not full, and nobody publishes there. */
  lemma NewCombinator(s: State, sources: Sources, e: nat, c: nat)
    requires Inv(s, sources) && e < |s.pcs| && s.pcs[e].Active? && Inv(Step(s, e, sources), sources)
    requires |s.cells| <= c < |Step(s, e, sources).cells|
    ensures Unfolds(s, e) && Step(s, e, sources).cells[c] == FreshCell(Step(s, e, sources).graph.labels[c])
  {
    assert EdgeInv(s, sources, e);
    EdgeEnds(s, sources, e);
    if !Unfolds(s, e) {
      OwnWeight(s, sources, e);
    } else {
      StepUnfolds(s, e, sources);
      UnfoldGrows(s, e, Unfolded(s, e), sources);
    }
  }

  /** A callback that counts or publishes at `c` is a child there. */
  predicate CountsOrPublishes(g: Graph, a: Action) {
    a.CountUp? || IsPublish(a) || (a.Invoke? && a.edge < |g.edges| && g.edges[a.edge].AnyEdge? && a.result.Err?)
  }

  /** Any other step leaves the counts of the cells that were there, and publishes nothing. */
  lemma OtherAction(s: State, sources: Sources, a: Action, c: nat)
    requires Inv(s, sources) && a.edge < |s.pcs| && s.pcs[a.edge] == Active(a) && c < |s.cells|
    requires Inv(Step(s, a.edge, sources), sources) && Touches(s, Step(s, a.edge, sources), sources, a.edge)
    requires !CountsOrPublishes(s.graph, a) || s.graph.edges[a.edge].dst != c
    ensures var s' := Step(s, a.edge, sources);
      && (SomeoneToPublish(s', c) <==> SomeoneToPublish(s, c)) && (Full(s', c) <==> Full(s, c))
  {
    var s', e, edge := Step(s, a.edge, sources), a.edge, s.graph.edges[a.edge];
    EdgeEnds(s, sources, e);
    assert EdgeInv(s, sources, e) && EdgeWired(s.graph, sources, e);
    if c == edge.dst || (edge.BindEdge? && c == edge.err) {
      assert s'.cells[c].counted == s.cells[c].counted;
    }
    forall i | 0 <= i < Arity(s.graph, c) && Child(s.graph, c, i) == e
      ensures !Publishing(s, c, i) && !Publishing(s', c, i)
    {
      ChildIsOwn(s, sources, c, i);
    }
    StepElsewhere(s, s', sources, e, c);
  }

  lemma PublishedOnceStep(s: State, sources: Sources, g: Graph, schedule: seq<Action>, a: Action, c: nat)
    requires Inv(s, sources) && a.edge < |s.pcs| && s.pcs[a.edge] == Active(a)
    requires Extends(s.graph, g) && PublishedOnce(s, g, schedule, c)
    ensures PublishedOnce(Step(s, a.edge, sources), g, schedule + [a], c)
  {
    var s', e := Step(s, a.edge, sources), a.edge;
    StepKeeps(s, sources, e);
    EdgeEnds(s, sources, e);
    assert EdgeInv(s, sources, e);
    PublicationsPush(g, schedule, a, c);
    if |s.cells| <= c < |s'.cells| {
      NewCombinator(s, sources, e, c);
      forall i | 0 <= i < Arity(s'.graph, c) ensures !Publishing(s', c, i) {
        NewChildren(s, sources, e, c, i);
      }
    } else if c < |s.cells| {
      if CountsOrPublishes(s.graph, a) && s.graph.edges[e].dst == c {
        if IsPublish(a) {
          PublishStep(s, sources, a, c);
        } else {
          CountStep(s, sources, a, c);
        }
      } else {
        OtherAction(s, sources, a, c);
      }
    }
    hide Step, Inv, EdgeInv, Touches, Full, SomeoneToPublish;
  }

  lemma NewChildren(s: State, sources: Sources, e: nat, c: nat, i: nat)
    requires Inv(s, sources) && e < |s.pcs| && s.pcs[e].Active? && Inv(Step(s, e, sources), sources)
    requires Touches(s, Step(s, e, sources), sources, e)
    requires |s.cells| <= c < |Step(s, e, sources).cells| && i < Arity(Step(s, e, sources).graph, c)
    ensures !Publishing(Step(s, e, sources), c, i)
  {
    var s' := Step(s, e, sources);
    ChildIsOwn(s', sources, c, i);
    var f := Child(s'.graph, c, i);
    if f < |s.pcs| {
      EdgeEnds(s, sources, f);
      assert false;
    }
    BuiltNotRun(s, sources, e, f);
  }

  // ---------- The first success of a when_any ----------

  /** Action `a` runs a child of the combinator at `c` on a success. */
  ghost predicate Succeeds(g: Graph, a: Action, c: nat) {
    a.Invoke? && a.result.Ok? && a.edge < |g.edges| && g.edges[a.edge].AnyEdge? && g.edges[a.edge].dst == c
  }

  /** The first success that a schedule runs for the when_any at `c`. */
  ghost function FirstSuccess(g: Graph, schedule: seq<Action>, c: nat): (r: Option<Outcome>)
    decreases |schedule|
  {
    if schedule == [] then None
    else
      var before, a := FirstSuccess(g, schedule[..|schedule| - 1], c), schedule[|schedule| - 1];
      if before.Some? then before else if Succeeds(g, a, c) then Some(a.result) else None
  }

  /** The when_any at `c` holds the first success, and nothing but an error before there is one. */
  ghost predicate HoldsFirst(s: State, g: Graph, schedule: seq<Action>, c: nat) {
    match FirstSuccess(g, schedule, c)
    case Some(r) => c < |s.cells| && s.cells[c].value == Some(r)
    case None => c < |s.cells| ==> s.cells[c].value.None? || s.cells[c].value.value.Err?
  }

  /** A child that succeeds finds its when_any unresolved or resolved to a success. */
  lemma SuccessStep(s: State, sources: Sources, a: Action, c: nat)
    requires Inv(s, sources) && a.edge < |s.pcs| && s.pcs[a.edge] == Active(a) && Succeeds(s.graph, a, c) && c < |s.cells|
    ensures s.cells[c].value.Some? ==> s.cells[c].value.value.Ok?
    ensures Step(s, a.edge, sources).cells[c].value == if s.cells[c].value.Some? then s.cells[c].value else Some(a.result)
  {
    var e, edge := a.edge, s.graph.edges[a.edge];
    assert EdgeInv(s, sources, e) && EdgeWired(s.graph, sources, e) && ValueInv(s, sources, c);
    assert ChildRead(s, c, edge.index) == Some(a.result);
  }

  /** Any other step leaves a resolved when_any, and resolves an unresolved one only to an error. */
  lemma NoSuccessStep(s: State, sources: Sources, a: Action, c: nat)
    requires Inv(s, sources) && a.edge < |s.pcs| && s.pcs[a.edge] == Active(a) && !Succeeds(s.graph, a, c)
    requires c < |s.cells| && s.graph.labels[c].Task? && s.graph.labels[c].e.WhenAny?
    requires Touches(s, Step(s, a.edge, sources), sources, a.edge)
    ensures var s' := Step(s, a.edge, sources);
      s'.cells[c].value == s.cells[c].value || (s.cells[c].value.None? && s'.cells[c].value.Some? && s'.cells[c].value.value.Err?)
  {
    var s', e, edge := Step(s, a.edge, sources), a.edge, s.graph.edges[a.edge];
    EdgeEnds(s, sources, e);
    assert EdgeInv(s, sources, e) && EdgeWired(s.graph, sources, e);
    if edge.BindEdge? {
      ErrorCellLabel(s, sources, e);
    }
  }

  lemma HoldsFirstStep(s: State, sources: Sources, g: Graph, schedule: seq<Action>, a: Action, c: nat)
    requires Inv(s, sources) && a.edge < |s.pcs| && s.pcs[a.edge] == Active(a)
    requires Extends(Step(s, a.edge, sources).graph, g) && Extends(s.graph, g) && HoldsFirst(s, g, schedule, c)
    requires c < |g.labels| && g.labels[c].Task? && g.labels[c].e.WhenAny?
    ensures HoldsFirst(Step(s, a.edge, sources), g, schedule + [a], c)
  {
    hide Step, EdgeInv, ValueInv, KindInv, Wired, OwnCell, Follows;
    var s' := Step(s, a.edge, sources);
    StepKeeps(s, sources, a.edge);
    EdgeEnds(s, sources, a.edge);
    assert (schedule + [a])[..|schedule|] == schedule;
    if c < |s.cells| {
      assert s.graph.labels[c] == g.labels[c];
      if Succeeds(s.graph, a, c) {
        SuccessStep(s, sources, a, c);
      } else {
        NoSuccessStep(s, sources, a, c);
      }
    } else if c < |s'.cells| {
      NewCombinator(s, sources, a.edge, c);
    }
  }

  // ---------- Over whole runs ----------

  ghost predicate CombinatorInv(s: State, g: Graph, schedule: seq<Action>, c: nat) {
    && PublishedOnce(s, g, schedule, c)
    && (c < |g.labels| && g.labels[c].Task? && g.labels[c].e.WhenAny? ==> HoldsFirst(s, g, schedule, c))
  }

  lemma InitialCombinator(program: seq<Expr>, sources: Sources, g: Graph, c: nat)
    ensures CombinatorInv(Initial(program, sources), g, [], c)
  {
    var s := Initial(program, sources);
    InitialInv(program, sources);
    if c < |s.cells| {
      assert s.cells[c] == FreshCell(s.graph.labels[c]);
      forall i | 0 <= i < Arity(s.graph, c) ensures !Publishing(s, c, i) {
        ChildIsOwn(s, sources, c, i);
        assert s.pcs[Child(s.graph, c, i)] == FirstPc(s.graph.edges[Child(s.graph, c, i)], Child(s.graph, c, i));
      }
    }
  }

  /** The last step of a run. */
  lemma LastStep(program: seq<Expr>, sources: Sources, low: seq<Action>, a: Action)
    requires HeapAfter(program, sources, low + [a]).Some?
    ensures HeapAfter(program, sources, low).Some?
    ensures var s := StateAfter(program, sources, low);
      && Inv(s, sources) && Shaped(s, sources) && a.edge < |s.pcs| && s.pcs[a.edge] == Active(a)
      && StateAfter(program, sources, low + [a]) == Step(s, a.edge, sources)
      && Extends(s.graph, Step(s, a.edge, sources).graph)
  {
    hide HeapAfter, StateAfter, Step, Perform, Sim, EdgeInv, ValueInv, KindInv, Wired, Runs, Delivered;
    RunEnds(program, sources, low, a);
    var h, s := HeapAfter(program, sources, low).value, StateAfter(program, sources, low);
    RunKeeps(program, sources, low);
    ActionSim(h, s, sources, a);
    StepKeeps(s, sources, a.edge);
  }

  lemma CombinatorBegins(program: seq<Expr>, sources: Sources, g: Graph, c: nat)
    ensures CombinatorInv(StateAfter(program, sources, []), g, [], c)
  {
    hide CombinatorInv, Initial, Step;
    InitialCombinator(program, sources, g, c);
  }

  lemma CombinatorStep(s: State, sources: Sources, g: Graph, schedule: seq<Action>, a: Action, c: nat)
    requires Inv(s, sources) && a.edge < |s.pcs| && s.pcs[a.edge] == Active(a)
    requires Extends(s.graph, g) && Extends(Step(s, a.edge, sources).graph, g) && CombinatorInv(s, g, schedule, c)
    ensures CombinatorInv(Step(s, a.edge, sources), g, schedule + [a], c)
  {
    hide Step, EdgeInv, ValueInv, KindInv, Wired, PublishedOnce, HoldsFirst;
    PublishedOnceStep(s, sources, g, schedule, a, c);
    if c < |g.labels| && g.labels[c].Task? && g.labels[c].e.WhenAny? {
      HoldsFirstStep(s, sources, g, schedule, a, c);
    }
  }

  lemma ExtendsTransitive(a: Graph, b: Graph, c: Graph)
    requires Extends(a, b) && Extends(b, c)
    ensures Extends(a, c)
  {
  }

  lemma {:induction false} CombinatorRun(program: seq<Expr>, sources: Sources, schedule: seq<Action>, g: Graph, c: nat)
    requires HeapAfter(program, sources, schedule).Some?
    requires Extends(StateAfter(program, sources, schedule).graph, g)
    ensures CombinatorInv(StateAfter(program, sources, schedule), g, schedule, c)
    decreases |schedule|
  {
    hide *;
    if schedule == [] {
      CombinatorBegins(program, sources, g, c);
    } else {
      var low, a := schedule[..|schedule| - 1], schedule[|schedule| - 1];
      assert schedule == low + [a];
      LastStep(program, sources, low, a);
      var s := StateAfter(program, sources, low);
      ExtendsTransitive(s.graph, Step(s, a.edge, sources).graph, g);
      CombinatorRun(program, sources, low, g, c);
      CombinatorStep(s, sources, g, low, a, c);
    }
  }

  /** A when_any reads the first success that was run, from then on, and until then nothing but an error. */
  lemma FirstSuccessWins(program: seq<Expr>, sources: Sources, schedule: seq<Action>, c: nat, es: seq<Expr>)
    requires HeapAfter(program, sources, schedule).Some?
    requires LabelIs(HeapAfter(program, sources, schedule).value.graph, c, WhenAny(es))
    ensures var h := HeapAfter(program, sources, schedule).value;
      var first := FirstSuccess(h.graph, schedule, c);
      if first.Some? then HeapRead(h, c) == first
      else HeapRead(h, c).None? || HeapRead(h, c).value.Err?
  {
    var h, s := HeapAfter(program, sources, schedule).value, StateAfter(program, sources, schedule);
    RunKeeps(program, sources, schedule);
    CombinatorRun(program, sources, schedule, h.graph, c);
    HeapReads(h, s, sources, c);
    assert KindInv(s, c);
  }

  /** The cell of child `i` of the combinator at `c`. */
  ghost function ChildCell(g: Graph, c: nat, i: nat): (cell: nat) {
    var e := Child(g, c, i);
    if e < |g.edges| && !g.edges[e].Fill? then g.edges[e].src else |g.labels|
  }

  /** What the children of the combinator at `c` read, in order. */
  ghost function ChildReads(h: Heap, c: nat): (found: seq<Option<Outcome>>)
    ensures |found| == Arity(h.graph, c)
  {
    seq(Arity(h.graph, c), i requires 0 <= i => HeapRead(h, ChildCell(h.graph, c, i)))
  }

  /**
   * What a when_all may read: a vector only if every child reads its element, in order; an error only if a child
   * reads it; and when nothing is left to happen, nothing only over no tasks, or if no child erred and some is
   * unresolved.
   */
  ghost predicate AllDecided(found: seq<Option<Outcome>>, r: Option<Outcome>, complete: bool) {
    match r
    case Some(Ok(x)) => found != [] && x.Vec? && |x.elems| == |found| && forall i :: 0 <= i < |found| ==> found[i] == Some(Ok(x.elems[i]))
    case Some(Err(_)) => r in found
    case None =>
      complete && found != [] ==>
        None in found && forall i :: 0 <= i < |found| && found[i].Some? ==> found[i].value.Ok?
  }

  /**
   * What a when_any may read: only what a child reads, and an error only if every child reads an error; and when
   * nothing is left to happen, nothing only over no tasks, or if no child succeeded and some is unresolved.
   */
  ghost predicate AnyDecided(found: seq<Option<Outcome>>, r: Option<Outcome>, complete: bool) {
    match r
    case Some(q) => r in found && (q.Err? ==> forall i :: 0 <= i < |found| ==> found[i].Some? && found[i].value.Err?)
    case None =>
      complete && found != [] ==>
        None in found && forall i :: 0 <= i < |found| && found[i].Some? ==> found[i].value.Err?
  }

  lemma ChildReadsAre(h: Heap, s: State, sources: Sources, c: nat)
    requires Sim(h, s) && Inv(s, sources) && c < |s.cells|
    ensures forall i :: 0 <= i < Arity(s.graph, c) ==>
      ChildReads(h, c)[i] == ChildRead(s, c, i) && LabelIs(h.graph, ChildCell(h.graph, c, i), ChildTask(s.graph, c, i))
  {
    forall i | 0 <= i < Arity(s.graph, c)
      ensures ChildReads(h, c)[i] == ChildRead(s, c, i) && LabelIs(h.graph, ChildCell(h.graph, c, i), ChildTask(s.graph, c, i))
    {
      ChildIsOwn(s, sources, c, i);
      HeapReads(h, s, sources, ChildCell(h.graph, c, i));
    }
  }

  /** The value of a combinator and the reads of its children, in a state that satisfies the invariant. */
  lemma StateDecided(s: State, sources: Sources, c: nat, found: seq<Option<Outcome>>)
    requires Inv(s, sources) && c < |s.cells| && s.graph.labels[c].Task? && |found| == Arity(s.graph, c)
    requires forall i :: 0 <= i < |found| ==> found[i] == ChildRead(s, c, i)
    ensures s.graph.labels[c].e.WhenAll? ==> AllDecided(found, s.cells[c].value, Quiescent(s))
    ensures s.graph.labels[c].e.WhenAny? ==> AnyDecided(found, s.cells[c].value, Quiescent(s))
  {
    assert ValueInv(s, sources, c);
    if (s.graph.labels[c].e.WhenAll? || s.graph.labels[c].e.WhenAny?) && Quiescent(s) {
      CombinatorResolved(s, sources, c, |found|);
      if s.cells[c].value.None? && found != [] {
        var i :| 0 <= i < |found| && ChildRead(s, c, i).None?;
        assert found[i] == None;
      }
    }
    hide Inv, ChildRead, Quiescent;
  }

  /** Every when_all of a running program reads what its children decide. */
  lemma WhenAllDecided(program: seq<Expr>, sources: Sources, schedule: seq<Action>, c: nat, es: seq<Expr>)
    requires HeapAfter(program, sources, schedule).Some?
    requires LabelIs(HeapAfter(program, sources, schedule).value.graph, c, WhenAll(es))
    ensures var h := HeapAfter(program, sources, schedule).value;
      && (forall i :: 0 <= i < |es| ==> LabelIs(h.graph, ChildCell(h.graph, c, i), es[i]))
      && AllDecided(ChildReads(h, c), HeapRead(h, c), h.pending == multiset{})
  {
    hide HeapAfter, StateAfter, HeapRead, EdgeInv, ValueInv, Wired, Runs, Delivered, TotalWeight, ChildReads, AllDecided, AnyDecided;
    var h, s := HeapAfter(program, sources, schedule).value, StateAfter(program, sources, schedule);
    RunKeeps(program, sources, schedule);
    HeapReads(h, s, sources, c);
    ChildReadsAre(h, s, sources, c);
    assert KindInv(s, c);
    if h.pending == multiset{} {
      NothingPending(h, s, sources);
    }
    StateDecided(s, sources, c, ChildReads(h, c));
  }

  /** Every when_any of a running program reads what its children decide. */
  lemma WhenAnyDecided(program: seq<Expr>, sources: Sources, schedule: seq<Action>, c: nat, es: seq<Expr>)
    requires HeapAfter(program, sources, schedule).Some?
    requires LabelIs(HeapAfter(program, sources, schedule).value.graph, c, WhenAny(es))
    ensures var h := HeapAfter(program, sources, schedule).value;
      && (forall i :: 0 <= i < |es| ==> LabelIs(h.graph, ChildCell(h.graph, c, i), es[i]))
      && AnyDecided(ChildReads(h, c), HeapRead(h, c), h.pending == multiset{})
  {
    hide HeapAfter, StateAfter, HeapRead, EdgeInv, ValueInv, Wired, Runs, Delivered, TotalWeight, ChildReads, AllDecided, AnyDecided;
    var h, s := HeapAfter(program, sources, schedule).value, StateAfter(program, sources, schedule);
    RunKeeps(program, sources, schedule);
    HeapReads(h, s, sources, c);
    ChildReadsAre(h, s, sources, c);
    assert KindInv(s, c);
    if h.pending == multiset{} {
      NothingPending(h, s, sources);
    }
    StateDecided(s, sources, c, ChildReads(h, c));
  }

  // ---------- Who publishes ----------

  /** Every child has resolved the way that is counted: to a value for when_all, to an error for when_any. */
  ghost predicate Unanimous(found: seq<Option<Outcome>>, values: bool) {
    forall i :: 0 <= i < |found| ==> found[i].Some? && found[i].value.Ok? == values
  }

  /** With nothing pending, the count of a combinator is full exactly if its children are unanimous. */
  lemma FullMeansUnanimous(s: State, sources: Sources, c: nat, found: seq<Option<Outcome>>)
    requires Inv(s, sources) && Quiescent(s) && c < |s.cells| && 0 < |found| == Arity(s.graph, c)
    requires forall i :: 0 <= i < |found| ==> found[i] == ChildRead(s, c, i)
    ensures Full(s, c) <==> Unanimous(found, s.graph.labels[c].e.WhenAll?)
  {
    hide EdgeInv, ValueInv, KindInv, Wired, ChildRead;
    var n := |found|;
    if Full(s, c) {
      forall i | 0 <= i < n ensures found[i].Some? && found[i].value.Ok? == s.graph.labels[c].e.WhenAll? {
        FullMeansRead(s, sources, c, i);
      }
    }
    if Unanimous(found, s.graph.labels[c].e.WhenAll?) {
      forall i: nat | i in Range(n) ensures i in s.cells[c].counted {
        assert found[i].Some?;
        ChildDone(s, sources, c, i);
      }
      SubsetSize(Range(n), s.cells[c].counted);
    }
  }

  /**
   * Under every schedule at most one child of a when_all or when_any sees the full count and goes on to write.
   * When nothing is pending, exactly one has if and only if every child reads a value, of a when_any an error.
   */
  lemma FullCountSeenOnce(program: seq<Expr>, sources: Sources, schedule: seq<Action>, c: nat)
    requires HeapAfter(program, sources, schedule).Some?
    ensures var h := HeapAfter(program, sources, schedule).value;
      && Publications(h.graph, schedule, c) <= 1
      && (h.pending == multiset{} && 0 < Arity(h.graph, c) ==>
          (Publications(h.graph, schedule, c) == 1 <==> Unanimous(ChildReads(h, c), h.graph.labels[c].e.WhenAll?)))
  {
    hide HeapAfter, StateAfter, Sim, EdgeInv, ValueInv, KindInv, Wired, Runs, Delivered, TotalWeight, Unanimous, ChildReads, Publications, HoldsFirst;
    var h, s := HeapAfter(program, sources, schedule).value, StateAfter(program, sources, schedule);
    RunKeeps(program, sources, schedule);
    SimShaped(h, s, sources);
    CombinatorRun(program, sources, schedule, h.graph, c);
    if h.pending == multiset{} && 0 < Arity(h.graph, c) {
      NothingPending(h, s, sources);
      NobodyToPublish(s, c);
      ChildReadsAre(h, s, sources, c);
      FullMeansUnanimous(s, sources, c, ChildReads(h, c));
    }
  }

  lemma NobodyToPublish(s: State, c: nat)
    requires Quiescent(s)
    ensures !SomeoneToPublish(s, c)
  {
  }
}
