/**
 * Whole runs of a task program on the heap. A schedule is the list of pending actions in the order in which
 * they happen; nothing is assumed about the order.
 */
module TaskRuns {
  import opened Wrappers
  import opened TaskSyntax
  import opened TaskGraph
  import opened TaskMachine
  import opened TaskInvariant
  import opened TaskFrames
  import opened TaskSteps
  import opened TaskMeaning
  import opened TaskTermination
  import opened TaskHeap
  import opened TaskLinks
  import opened TaskRefinement

  ghost predicate CanHappen(h: Heap, a: Action, sources: Sources) {
    a in h.pending && HeapShaped(h, sources) && a.edge < |h.graph.edges|
  }

  /** The heap after a schedule, if each action of it was pending when its turn came. */
  ghost function HeapAfter(program: seq<Expr>, sources: Sources, schedule: seq<Action>): (h: Option<Heap>)
    decreases |schedule|
  {
    if schedule == [] then Some(InitialHeap(program, sources))
    else
      var a := schedule[|schedule| - 1];
      match HeapAfter(program, sources, schedule[..|schedule| - 1])
      case None => None
      case Some(h) => if CanHappen(h, a, sources) then Some(Perform(h, a, sources)) else None
  }

  /** The same run, callback by callback. */
  ghost function StateAfter(program: seq<Expr>, sources: Sources, schedule: seq<Action>): (s: State)
    decreases |schedule|
  {
    if schedule == [] then Initial(program, sources)
    else
      var s, e := StateAfter(program, sources, schedule[..|schedule| - 1]), schedule[|schedule| - 1].edge;
      if Shaped(s, sources) && e < |s.pcs| then Step(s, e, sources) else s
  }

  /** How often a schedule runs callback `e`. */
  ghost function Runs(schedule: seq<Action>, e: nat): (n: nat)
    decreases |schedule|
  {
    if schedule == [] then 0
    else
      var a := schedule[|schedule| - 1];
      Runs(schedule[..|schedule| - 1], e) + if a.edge == e && (a.Invoke? || a.Resolve?) then 1 else 0
  }

  /** A callback that has been run. */
  predicate HasRun(pc: Pc) {
    pc.Done? || (pc.Active? && (pc.action.CountUp? || pc.action.Publish? || pc.action.PublishError? || pc.action.TrackTo?))
  }

  /** What is known of a run. */
  ghost predicate RunInv(program: seq<Expr>, sources: Sources, schedule: seq<Action>, h: Heap, s: State) {
    && Inv(s, sources) && Sim(h, s)
    && Extends(Initial(program, sources).graph, s.graph)
    && TotalWeight(s, sources) + |schedule| <= TotalWeight(Initial(program, sources), sources)
    && (forall e: nat :: Runs(schedule, e) == if e < |s.pcs| && HasRun(s.pcs[e]) then 1 else 0)
    && (forall i :: 0 <= i < |schedule| && schedule[i].Invoke? ==> Delivered(s, schedule[i]))
  }

  /** Callback `a.edge` was run on the result that its own cell reads. */
  ghost predicate Delivered(s: State, a: Action) {
    a.Invoke? && a.edge < |s.graph.edges| && !s.graph.edges[a.edge].Fill?
    && Read(s, s.graph.edges[a.edge].src) == Some(a.result)
  }

  lemma InitialSim(program: seq<Expr>, sources: Sources)
    ensures Sim(InitialHeap(program, sources), Initial(program, sources))
  {
    var g0 := SourceGraph(sources);
    SourceGraphWired(sources);
    BuildEachWired(g0, program, sources);
    var h, s := Heap(Graph([], [], []), [], multiset{}), State(Graph([], [], []), [], []);
    GrowSim(h, s, BuildEach(g0, program, |sources|).0);
  }

  lemma NothingHasRun(program: seq<Expr>, sources: Sources)
    ensures var s := Initial(program, sources); forall e :: 0 <= e < |s.pcs| ==> !HasRun(s.pcs[e])
  {
    hide Wired, FreshCell;
    var s := Initial(program, sources);
    forall e | 0 <= e < |s.pcs| ensures !HasRun(s.pcs[e]) {
      assert s.pcs[e] == FirstPc(s.graph.edges[e], e);
    }
  }

  lemma InitialRun(program: seq<Expr>, sources: Sources)
    ensures RunInv(program, sources, [], InitialHeap(program, sources), Initial(program, sources))
  {
    hide Initial, InitialHeap, Sim, EdgeInv, ValueInv, KindInv, Wired, TotalWeight, Delivered, HasRun;
    InitialSim(program, sources);
    InitialInv(program, sources);
    NothingHasRun(program, sources);
  }

  lemma OwnRun(s: State, sources: Sources, a: Action)
    requires Inv(s, sources) && a.edge < |s.pcs| && s.pcs[a.edge] == Active(a)
    requires a.edge < |Step(s, a.edge, sources).pcs|
    ensures HasRun(Step(s, a.edge, sources).pcs[a.edge]) <==> HasRun(s.pcs[a.edge]) || a.Invoke? || a.Resolve?
  {
    hide ValueInv, EffectInv;
    assert EdgeInv(s, sources, a.edge);
    EdgeEnds(s, sources, a.edge);
  }

  lemma OtherRun(s: State, s': State, sources: Sources, e: nat, f: nat)
    requires Touches(s, s', sources, e) && f < |s.pcs| && f != e
    ensures HasRun(s'.pcs[f]) <==> HasRun(s.pcs[f])
  {
    hide Later, OwnCell, Foreign;
    assert Follows(s, s', f);
  }

  /** A step runs its own callback if it is an invocation or a job, and no other. */
  lemma StepRuns(s: State, sources: Sources, a: Action, f: nat)
    requires Inv(s, sources) && a.edge < |s.pcs| && s.pcs[a.edge] == Active(a) && f < |s.pcs|
    requires Touches(s, Step(s, a.edge, sources), sources, a.edge)
    ensures f < |Step(s, a.edge, sources).pcs|
    ensures HasRun(Step(s, a.edge, sources).pcs[f]) <==> HasRun(s.pcs[f]) || (f == a.edge && (a.Invoke? || a.Resolve?))
  {
    hide Step, EdgeInv, ValueInv, KindInv, Later, OwnCell;
    if f != a.edge {
      OtherRun(s, Step(s, a.edge, sources), sources, a.edge, f);
    } else {
      OwnRun(s, sources, a);
    }
  }

  /** What a step builds has not run yet. */
  lemma BuiltNotRun(s: State, sources: Sources, e: nat, f: nat)
    requires Inv(s, sources) && e < |s.pcs| && s.pcs[e].Active? && Inv(Step(s, e, sources), sources)
    requires |s.pcs| <= f < |Step(s, e, sources).pcs|
    ensures !HasRun(Step(s, e, sources).pcs[f])
  {
    if Unfolds(s, e) {
      UnfoldStep(s, sources, e);
      hide Step, Build, Wired;
      var s' := Step(s, e, sources);
      assert s'.pcs[f] == FirstPc(s'.graph.edges[f], f);
    } else {
      OwnWeight(s, sources, e);
    }
  }

  lemma RunsStep(s: State, sources: Sources, schedule: seq<Action>, a: Action, f: nat)
    requires Inv(s, sources) && a.edge < |s.pcs| && s.pcs[a.edge] == Active(a)
    requires Runs(schedule, f) == if f < |s.pcs| && HasRun(s.pcs[f]) then 1 else 0
    ensures var s' := Step(s, a.edge, sources);
      Runs(schedule + [a], f) == if f < |s'.pcs| && HasRun(s'.pcs[f]) then 1 else 0
  {
    StepKeeps(s, sources, a.edge);
    assert (schedule + [a])[..|schedule|] == schedule;
    if f < |s.pcs| {
      assert EdgeInv(s, sources, a.edge);
      StepRuns(s, sources, a, f);
    } else if f < |Step(s, a.edge, sources).pcs| {
      BuiltNotRun(s, sources, a.edge, f);
    }
    hide Step, Inv, Touches;
  }

  lemma DeliveredStays(s: State, s': State, sources: Sources, a: Action)
    requires Later(s, s', sources) && Delivered(s, a)
    ensures Delivered(s', a)
  {
    ReadStays(s, s', sources, s.graph.edges[a.edge].src);
  }

  /** Every callback in a schedule was run on the result its cell reads, and so is the next. */
  lemma DeliveredStep(s: State, sources: Sources, schedule: seq<Action>, a: Action)
    requires Inv(s, sources) && a.edge < |s.pcs| && s.pcs[a.edge] == Active(a)
    requires forall i :: 0 <= i < |schedule| && schedule[i].Invoke? ==> Delivered(s, schedule[i])
    ensures var s', schedule' := Step(s, a.edge, sources), schedule + [a];
      Extends(s.graph, s'.graph) && forall i :: 0 <= i < |schedule'| && schedule'[i].Invoke? ==> Delivered(s', schedule'[i])
  {
    var s', schedule' := Step(s, a.edge, sources), schedule + [a];
    StepKeeps(s, sources, a.edge);
    assert EdgeInv(s, sources, a.edge);
    forall i | 0 <= i < |schedule'| && schedule'[i].Invoke? ensures Delivered(s', schedule'[i]) {
      hide Step, ValueInv, KindInv, EffectInv;
      assert Delivered(s, schedule'[i]);
      DeliveredStays(s, s', sources, schedule'[i]);
    }
    hide Step;
  }

  lemma RunStep(program: seq<Expr>, sources: Sources, schedule: seq<Action>, h: Heap, s: State, a: Action)
    requires RunInv(program, sources, schedule, h, s) && CanHappen(h, a, sources)
    ensures Shaped(s, sources) && a.edge < |s.pcs|
    ensures RunInv(program, sources, schedule + [a], Perform(h, a, sources), Step(s, a.edge, sources))
  {
    hide Step, Perform, EdgeInv, ValueInv, KindInv, Wired, Sim, Runs, Delivered, TotalWeight, HasRun;
    ActionSim(h, s, sources, a);
    StepDecreases(s, sources, a.edge);
    DeliveredStep(s, sources, schedule, a);
    var s', schedule' := Step(s, a.edge, sources), schedule + [a];
    forall f: nat ensures Runs(schedule', f) == if f < |s'.pcs| && HasRun(s'.pcs[f]) then 1 else 0 {
      RunsStep(s, sources, schedule, a, f);
    }
  }

  lemma RunBegins(program: seq<Expr>, sources: Sources)
    ensures HeapAfter(program, sources, []).Some?
    ensures RunInv(program, sources, [], HeapAfter(program, sources, []).value, StateAfter(program, sources, []))
  {
    hide RunInv, InitialHeap, Initial, Perform, Step;
    InitialRun(program, sources);
  }

  /** A run ends with its last action. */
  lemma RunEnds(program: seq<Expr>, sources: Sources, low: seq<Action>, a: Action)
    requires HeapAfter(program, sources, low + [a]).Some?
    ensures HeapAfter(program, sources, low).Some?
    ensures var h, s := HeapAfter(program, sources, low).value, StateAfter(program, sources, low);
      && CanHappen(h, a, sources) && HeapAfter(program, sources, low + [a]).value == Perform(h, a, sources)
      && (Shaped(s, sources) && a.edge < |s.pcs| ==> StateAfter(program, sources, low + [a]) == Step(s, a.edge, sources))
  {
    hide Perform, Step, Wired, InitialHeap, Initial;
    assert (low + [a])[..|low|] == low;
  }

  lemma RunGoesOn(program: seq<Expr>, sources: Sources, low: seq<Action>, a: Action)
    requires HeapAfter(program, sources, low).Some? && CanHappen(HeapAfter(program, sources, low).value, a, sources)
    ensures HeapAfter(program, sources, low + [a]) == Some(Perform(HeapAfter(program, sources, low).value, a, sources))
  {
    hide Perform, Wired, InitialHeap;
    assert (low + [a])[..|low|] == low;
  }

  /** The invariant of whole runs. */
  lemma {:induction false} RunKeeps(program: seq<Expr>, sources: Sources, schedule: seq<Action>)
    requires HeapAfter(program, sources, schedule).Some?
    ensures RunInv(program, sources, schedule, HeapAfter(program, sources, schedule).value, StateAfter(program, sources, schedule))
    decreases |schedule|
  {
    hide *;
    if schedule == [] {
      RunBegins(program, sources);
    } else {
      var low, a := schedule[..|schedule| - 1], schedule[|schedule| - 1];
      assert schedule == low + [a];
      RunEnds(program, sources, low, a);
      RunKeeps(program, sources, low);
      RunStep(program, sources, low, HeapAfter(program, sources, low).value, StateAfter(program, sources, low), a);
    }
  }

  // ---------- Reading the heap ----------

  lemma {:induction false} HeapReads(h: Heap, s: State, sources: Sources, c: nat)
    requires Sim(h, s) && Shaped(s, sources) && AllKinds(s)
    ensures HeapRead(h, c) == Read(s, c)
    decreases Rank(s.graph, c), RankTask(s.graph, c)
  {
    if c < |h.cells| {
      assert CellMatch(h.cells[c], s.cells[c], h.graph.labels[c]) && KindInv(s, c);
      if s.cells[c].target.Some? {
        HeapReads(h, s, sources, s.cells[c].target.value);
      }
    }
  }

  lemma ActivePending(h: Heap, s: State, sources: Sources, e: nat)
    requires Sim(h, s) && Inv(s, sources) && e < |s.pcs| && s.pcs[e].Active?
    ensures s.pcs[e].action in h.pending
  {
    assert EdgeInv(s, sources, e);
    assert Pending(s.pcs, s.pcs[e].action);
  }

  /** When nothing is pending, every callback waits in an unresolved cell or is done. */
  lemma NothingPending(h: Heap, s: State, sources: Sources)
    requires Sim(h, s) && Inv(s, sources) && h.pending == multiset{}
    ensures Quiescent(s)
  {
    forall e | 0 <= e < |s.pcs| ensures !s.pcs[e].Active? {
      if s.pcs[e].Active? {
        ActivePending(h, s, sources, e);
      }
    }
  }

  // ---------- The results ----------

  /** The cells of the tasks of a program. */
  ghost function Roots(program: seq<Expr>, sources: Sources): (roots: seq<nat>)
    ensures |roots| == |program|
  {
    BuildEach(SourceGraph(sources), program, |sources|).1
  }

  /** The tasks of a program keep their cells. */
  lemma RootsStay(program: seq<Expr>, sources: Sources, schedule: seq<Action>, i: nat)
    requires HeapAfter(program, sources, schedule).Some? && i < |program|
    ensures LabelIs(HeapAfter(program, sources, schedule).value.graph, Roots(program, sources)[i], program[i])
  {
    RunKeeps(program, sources, schedule);
    SourceGraphWired(sources);
    BuildEachWired(SourceGraph(sources), program, sources);
  }

  /**
   * Safety. After every run, whatever was pending first, a cell that can be read holds a result that the
   * meaning of its task allows.
   */
  lemma ScheduleSafe(program: seq<Expr>, sources: Sources, schedule: seq<Action>, c: nat, e: Expr)
    requires HeapAfter(program, sources, schedule).Some?
    ensures var h := HeapAfter(program, sources, schedule).value;
      LabelIs(h.graph, c, e) && HeapRead(h, c).Some? ==> HeapRead(h, c).value in Results(e, sources)
  {
    var h, s := HeapAfter(program, sources, schedule).value, StateAfter(program, sources, schedule);
    RunKeeps(program, sources, schedule);
    HeapReads(h, s, sources, c);
    if LabelIs(h.graph, c, e) && HeapRead(h, c).Some? {
      ReadAllowed(s, sources, c, e);
    }
  }

  /** One action leaves what can be read. */
  lemma ReadStaysPut(program: seq<Expr>, sources: Sources, schedule: seq<Action>, a: Action, c: nat)
    requires HeapAfter(program, sources, schedule + [a]).Some?
    ensures HeapAfter(program, sources, schedule).Some?
    ensures var before, after := HeapAfter(program, sources, schedule).value, HeapAfter(program, sources, schedule + [a]).value;
      HeapRead(before, c).Some? ==> HeapRead(after, c) == HeapRead(before, c)
  {
    hide HeapAfter, StateAfter, HeapRead, Step, Perform, Sim, EdgeInv, ValueInv, KindInv, Wired, Runs, Delivered, TotalWeight;
    RunEnds(program, sources, schedule, a);
    var h, s := HeapAfter(program, sources, schedule).value, StateAfter(program, sources, schedule);
    var h', s' := HeapAfter(program, sources, schedule + [a]).value, StateAfter(program, sources, schedule + [a]);
    RunKeeps(program, sources, schedule);
    RunKeeps(program, sources, schedule + [a]);
    HeapReads(h, s, sources, c);
    HeapReads(h', s', sources, c);
    ActionSim(h, s, sources, a);
    StepKeeps(s, sources, a.edge);
    if Read(s, c).Some? {
      ReadStays(s, s', sources, c);
    }
  }

  /** Once a cell can be read, whatever happens later leaves what is read. */
  lemma {:induction false} ReadsAreFinal(program: seq<Expr>, sources: Sources, schedule: seq<Action>, full: seq<Action>, c: nat)
    requires schedule <= full && HeapAfter(program, sources, full).Some?
    ensures HeapAfter(program, sources, schedule).Some?
    ensures var before, after := HeapAfter(program, sources, schedule).value, HeapAfter(program, sources, full).value;
      HeapRead(before, c).Some? ==> HeapRead(after, c) == HeapRead(before, c)
    decreases |full|
  {
    hide HeapAfter, HeapRead;
    if schedule == full {
    } else {
      var low, a := full[..|full| - 1], full[|full| - 1];
      assert full == low + [a];
      ReadStaysPut(program, sources, low, a, c);
      ReadsAreFinal(program, sources, schedule, low, c);
    }
  }

  /** Progress. When nothing is pending, every task whose result is defined under all schedules has resolved. */
  lemma ScheduleResolves(program: seq<Expr>, sources: Sources, schedule: seq<Action>, c: nat, e: Expr)
    requires HeapAfter(program, sources, schedule).Some?
    ensures var h := HeapAfter(program, sources, schedule).value;
      h.pending == multiset{} && LabelIs(h.graph, c, e) && Resolves(e, sources) ==> HeapRead(h, c).Some?
  {
    var h, s := HeapAfter(program, sources, schedule).value, StateAfter(program, sources, schedule);
    RunKeeps(program, sources, schedule);
    HeapReads(h, s, sources, c);
    if h.pending == multiset{} && LabelIs(h.graph, c, e) && Resolves(e, sources) {
      NothingPending(h, s, sources);
      QuiescentResolved(s, sources, c, e);
    }
  }

  /** when_all and when_any over no tasks never resolve. */
  lemma OverNoTasks(program: seq<Expr>, sources: Sources, schedule: seq<Action>, c: nat, e: Expr)
    requires HeapAfter(program, sources, schedule).Some?
    requires LabelIs(HeapAfter(program, sources, schedule).value.graph, c, e) && (e == WhenAll([]) || e == WhenAny([]))
    ensures HeapRead(HeapAfter(program, sources, schedule).value, c) == None
  {
    ScheduleSafe(program, sources, schedule, c, e);
    assert Errors([], sources) == {} && Oks([], sources) == {};
  }

  /** Exactly once. No callback or job runs twice; a callback runs on the result that the cell it awaits reads. */
  lemma RunsAtMostOnce(program: seq<Expr>, sources: Sources, schedule: seq<Action>, e: nat)
    requires HeapAfter(program, sources, schedule).Some?
    ensures Runs(schedule, e) <= 1
    ensures var h := HeapAfter(program, sources, schedule).value;
      forall i :: 0 <= i < |schedule| && schedule[i].Invoke? && schedule[i].edge == e ==>
        && e < |h.graph.edges| && !h.graph.edges[e].Fill?
        && HeapRead(h, h.graph.edges[e].src) == Some(schedule[i].result)
  {
    var h, s := HeapAfter(program, sources, schedule).value, StateAfter(program, sources, schedule);
    RunKeeps(program, sources, schedule);
    forall i | 0 <= i < |schedule| && schedule[i].Invoke? && schedule[i].edge == e
      ensures e < |h.graph.edges| && !h.graph.edges[e].Fill?
           && HeapRead(h, h.graph.edges[e].src) == Some(schedule[i].result)
    {
      assert Delivered(s, schedule[i]);
      HeapReads(h, s, sources, h.graph.edges[e].src);
    }
  }

  /** When nothing is pending, every job has run, and a callback has run exactly if the cell it awaits has resolved. */
  lemma RunsOnceResolved(program: seq<Expr>, sources: Sources, schedule: seq<Action>, e: nat)
    requires HeapAfter(program, sources, schedule).Some?
    requires HeapAfter(program, sources, schedule).value.pending == multiset{}
    requires e < |HeapAfter(program, sources, schedule).value.graph.edges|
    ensures var h := HeapAfter(program, sources, schedule).value;
      Runs(schedule, e) == 1 <==> h.graph.edges[e].Fill? || HeapRead(h, h.graph.edges[e].src).Some?
  {
    var h, s := HeapAfter(program, sources, schedule).value, StateAfter(program, sources, schedule);
    RunKeeps(program, sources, schedule);
    NothingPending(h, s, sources);
    QuiescentDone(s, sources, e);
    if !h.graph.edges[e].Fill? {
      HeapReads(h, s, sources, h.graph.edges[e].src);
    }
  }

  // ---------- Runs are finite ----------

  /** The sources that are completed. */
  ghost function Completions(sources: Sources): (n: nat)
    decreases |sources|
  {
    if sources == [] then 0
    else Completions(sources[..|sources| - 1]) + if sources[|sources| - 1].Some? then 1 else 0
  }

  lemma {:induction false} SourceEdges(sources: Sources)
    ensures |SourceGraph(sources).edges| == Completions(sources)
    ensures forall e :: 0 <= e < |SourceGraph(sources).edges| ==> SourceGraph(sources).edges[e].Fill?
    decreases |sources|
  {
    if sources != [] {
      SourceEdges(sources[..|sources| - 1]);
    }
  }

  lemma {:induction false} FillsWork(g: Graph, sources: Sources, n: nat)
    requires n <= |g.edges| && forall e :: 0 <= e < n ==> g.edges[e].Fill?
    ensures FirstWeightBelow(g, n, sources) == n
  {
    if n > 0 {
      FillsWork(g, sources, n - 1);
    }
  }

  /** The steps a program can take are at most those of its tasks and one for each completed source. */
  lemma InitialWork(program: seq<Expr>, sources: Sources)
    ensures TotalWeight(Initial(program, sources), sources) <= WorkOfEach(program, sources) + Completions(sources)
  {
    var s, g0 := Initial(program, sources), SourceGraph(sources);
    SourceGraphWired(sources);
    BuildEachWired(g0, program, sources);
    BuildEachWork(g0, program, sources);
    SourceEdges(sources);
    FillsWork(g0, sources, |g0.edges|);
    NewWeight(s, sources, 0, |s.pcs|);
  }

  /**
   * Every run is finite: it has at most as many actions as the expressions bound in advance, although `bind`
   * builds new tasks on the way.
   */
  lemma RunsAreFinite(program: seq<Expr>, sources: Sources, schedule: seq<Action>)
    requires HeapAfter(program, sources, schedule).Some?
    ensures |schedule| <= WorkOfEach(program, sources) + Completions(sources)
  {
    RunKeeps(program, sources, schedule);
    InitialWork(program, sources);
  }

  /** Every pending action can happen. */
  lemma PendingCanHappen(program: seq<Expr>, sources: Sources, schedule: seq<Action>, a: Action)
    requires HeapAfter(program, sources, schedule).Some?
    requires a in HeapAfter(program, sources, schedule).value.pending
    ensures HeapAfter(program, sources, schedule + [a]).Some?
  {
    hide HeapAfter, StateAfter, Step, Perform, Sim, Inv, HeapShaped, Runs, Delivered, TotalWeight;
    var h, s := HeapAfter(program, sources, schedule).value, StateAfter(program, sources, schedule);
    RunKeeps(program, sources, schedule);
    SimShaped(h, s, sources);
    ActionSim(h, s, sources, a);
    RunGoesOn(program, sources, schedule, a);
  }

  /** The actions that the bound still leaves room for. */
  ghost function Room(program: seq<Expr>, sources: Sources, schedule: seq<Action>): (n: nat) {
    var bound := WorkOfEach(program, sources) + Completions(sources);
    if |schedule| <= bound then bound - |schedule| else 0
  }

  /** Every run can be carried on until nothing is pending. */
  lemma {:induction false} RunCompletes(program: seq<Expr>, sources: Sources, schedule: seq<Action>) returns (full: seq<Action>)
    requires HeapAfter(program, sources, schedule).Some?
    ensures schedule <= full && HeapAfter(program, sources, full).Some?
    ensures HeapAfter(program, sources, full).value.pending == multiset{}
    decreases Room(program, sources, schedule)
  {
    var h := HeapAfter(program, sources, schedule).value;
    if h.pending == multiset{} {
      full := schedule;
    } else {
      var a :| a in h.pending;
      PendingCanHappen(program, sources, schedule, a);
      RunsAreFinite(program, sources, schedule + [a]);
      full := RunCompletes(program, sources, schedule + [a]);
    }
  }

  /** A task with one possible result has it after every complete run: all schedules agree. */
  lemma SchedulesAgree(program: seq<Expr>, sources: Sources, left: seq<Action>, right: seq<Action>, i: nat)
    requires HeapAfter(program, sources, left).Some? && HeapAfter(program, sources, right).Some? && i < |program|
    requires HeapAfter(program, sources, left).value.pending == multiset{}
    requires HeapAfter(program, sources, right).value.pending == multiset{}
    requires Resolves(program[i], sources)
    requires forall p, q :: p in Results(program[i], sources) && q in Results(program[i], sources) ==> p == q
    ensures var root := Roots(program, sources)[i];
      && HeapRead(HeapAfter(program, sources, left).value, root).Some?
      && HeapRead(HeapAfter(program, sources, left).value, root)
      == HeapRead(HeapAfter(program, sources, right).value, root)
  {
    var root, e := Roots(program, sources)[i], program[i];
    RootsStay(program, sources, left, i);
    RootsStay(program, sources, right, i);
    ScheduleSafe(program, sources, left, root, e);
    ScheduleSafe(program, sources, right, root, e);
    ScheduleResolves(program, sources, left, root, e);
    ScheduleResolves(program, sources, right, root, e);
  }
}
