/** Task expressions and what they mean: the results a task may have, when it must have one, and how much work it is. */
module TaskSyntax {
  import opened Wrappers

  datatype Value = Num(n: int) | Vec(elems: seq<Value>)

  type Outcome = Result<Value, int>

  /**
   * A task is the task of a value source, a created task, or built from tasks. The function given to `bind`
   * is the table of its values; where the table has none, it gives a task that never resolves. A copy of a task
   * that has been built before shares its cell.
   */
  datatype Expr =
    | Source(k: nat)
    | Create(v: Value)
    | Map(mapped: Expr, f: Value -> Value)
    | Bind(bound: Expr, g: imap<Value, Expr>)
    | WhenAll(all: seq<Expr>)
    | WhenAny(any: seq<Expr>)
    | Shared(cell: nat, task: Expr)

  /** The task that a copy is of. */
  ghost function Core(e: Expr): (r: Expr)
    ensures !r.Shared? && (r == e || r < e)
    decreases e
  {
    match e
    case Shared(_, task) => Core(task)
    case _ => e
  }

  const NEVER: Expr := WhenAll([])

  /** The task that a bound function gives for a value. */
  ghost function Then(g: imap<Value, Expr>, v: Value): (e: Expr) {
    if v in g then g[v] else NEVER
  }

  function MapOutcome(f: Value -> Value, r: Outcome): (q: Outcome) {
    match r
    case Ok(v) => Ok(f(v))
    case Err(_) => r
  }

  /** What the value sources are completed with; a source that is never completed has none. */
  type Sources = seq<Option<Outcome>>

  ghost function SourceResult(sources: Sources, k: nat): (r: Option<Outcome>) {
    if k < |sources| then sources[k] else None
  }

  // ---------- The results a task may have ----------

  /** An error passes through `map` and `bind`; `when_all` gives all values or some error, `when_any` some value or, if all can err, some error. */
  ghost function Results(e: Expr, sources: Sources): (rs: set<Outcome>)
    decreases e, 0
  {
    match e
    case Source(k) => if SourceResult(sources, k).Some? then {SourceResult(sources, k).value} else {}
    case Create(v) => {Ok(v)}
    case Map(e1, f) => set r | r in Results(e1, sources) :: MapOutcome(f, r)
    case Bind(e1, g) => BindResults(e, Results(e1, sources), sources)
    case WhenAll(es) =>
      (if es == [] then {} else set vs | vs in Vectors(es, sources) :: Ok(Vec(vs))) + Errors(es, sources)
    case WhenAny(es) =>
      Oks(es, sources) + if AllCanErr(es, sources) then Errors(es, sources) else {}
    case Shared(_, task) => Results(task, sources)
  }

  ghost function BindResults(b: Expr, rs: set<Outcome>, sources: Sources): (qs: set<Outcome>)
    requires b.Bind?
    decreases b, 0, |rs|
  {
    if rs == {} then {}
    else
      var r := Pick(rs);
      BindResults(b, rs - {r}, sources) +
      (match r case Err(_) => {r} case Ok(v) => if v in b.g then Results(b.g[v], sources) else {})
  }

  /** All vectors with one possible value of each task. */
  ghost function Vectors(es: seq<Expr>, sources: Sources): (vss: set<seq<Value>>)
    decreases es, 0
  {
    if es == [] then {[]}
    else
      var last := Results(es[|es| - 1], sources);
      set vs, r | vs in Vectors(es[..|es| - 1], sources) && r in last && r.Ok? :: vs + [r.value]
  }

  ghost function Errors(es: seq<Expr>, sources: Sources): (rs: set<Outcome>)
    decreases es, 0
  {
    set i, r | 0 <= i < |es| && r in Results(es[i], sources) && r.Err? :: r
  }

  ghost function Oks(es: seq<Expr>, sources: Sources): (rs: set<Outcome>)
    decreases es, 0
  {
    set i, r | 0 <= i < |es| && r in Results(es[i], sources) && r.Ok? :: r
  }

  ghost predicate AllCanErr(es: seq<Expr>, sources: Sources)
    decreases es, 0
  {
    es != [] && forall i :: 0 <= i < |es| ==> exists r :: r in Results(es[i], sources) && r.Err?
  }

  lemma NeverHasNoResult(sources: Sources)
    ensures Results(NEVER, sources) == {}
  {
    assert Errors([], sources) == {};
  }

  /** What a bound task may give when its first task gave `r`. */
  ghost function BoundResults(g: imap<Value, Expr>, r: Outcome, sources: Sources): (qs: set<Outcome>) {
    match r
    case Err(_) => {r}
    case Ok(v) => Results(Then(g, v), sources)
  }

  lemma {:induction false} InBindResults(b: Expr, rs: set<Outcome>, sources: Sources, q: Outcome)
    requires b.Bind?
    ensures q in BindResults(b, rs, sources) <==> exists r :: r in rs && q in BoundResults(b.g, r, sources)
    decreases |rs|
  {
    NeverHasNoResult(sources);
    if rs != {} {
      var r := Pick(rs);
      InBindResults(b, rs - {r}, sources, q);
      assert BindResults(b, rs, sources) == BindResults(b, rs - {r}, sources) + BoundResults(b.g, r, sources);
    }
  }

  /** A vector is possible exactly when each of its elements is possible for the task at its position. */
  lemma {:induction false} InVectors(es: seq<Expr>, sources: Sources, vs: seq<Value>)
    ensures vs in Vectors(es, sources) <==>
      |vs| == |es| && forall i :: 0 <= i < |es| ==> Ok(vs[i]) in Results(es[i], sources)
    decreases |es|
  {
    if es != [] {
      var low, last := es[..|es| - 1], es[|es| - 1];
      if |vs| == |es| {
        var front, v := vs[..|vs| - 1], vs[|vs| - 1];
        InVectors(low, sources, front);
        assert vs == front + [v];
        if vs in Vectors(es, sources) {
          var ws, r :| ws in Vectors(low, sources) && r in Results(last, sources) && r.Ok? && vs == ws + [r.value];
          assert ws == front && r == Ok(v);
        }
        if front in Vectors(low, sources) && Ok(v) in Results(last, sources) {
          var r: Outcome := Ok(v);
          assert front + [r.value] in Vectors(es, sources);
        }
      } else if vs in Vectors(es, sources) {
        var ws, r :| ws in Vectors(low, sources) && r in Results(last, sources) && r.Ok? && vs == ws + [r.value];
        InVectors(low, sources, ws);
      }
    }
  }

  // ---------- What each combinator means ----------

  /** map passes errors on as they are and applies its function to values, and gives nothing else. */
  lemma MapLaw(e: Expr, sources: Sources, r: Outcome)
    requires e.Map?
    ensures r in Results(e, sources) <==>
      if r.Err? then r in Results(e.mapped, sources)
      else exists v :: Ok(v) in Results(e.mapped, sources) && r.value == e.f(v)
  {
    if r in Results(e, sources) {
      var p :| p in Results(e.mapped, sources) && r == MapOutcome(e.f, p);
      assert p.Ok? ==> Ok(p.value) in Results(e.mapped, sources);
    }
    if v :| r.Ok? && Ok(v) in Results(e.mapped, sources) && r.value == e.f(v) {
      assert MapOutcome(e.f, Ok(v)) == r;
    }
    if r.Err? && r in Results(e.mapped, sources) {
      assert MapOutcome(e.f, r) == r;
    }
  }

  /** bind passes errors on as they are, and on a value gives what the task for that value gives. */
  lemma BindLaw(e: Expr, sources: Sources, r: Outcome)
    requires e.Bind?
    ensures r in Results(e, sources) <==>
      || (r.Err? && r in Results(e.bound, sources))
      || exists v :: Ok(v) in Results(e.bound, sources) && v in e.g && r in Results(e.g[v], sources)
  {
    NeverHasNoResult(sources);
    InBindResults(e, Results(e.bound, sources), sources, r);
    if v :| Ok(v) in Results(e.bound, sources) && v in e.g && r in Results(e.g[v], sources) {
      assert r in BoundResults(e.g, Ok(v), sources);
    }
    if p :| p in Results(e.bound, sources) && r in BoundResults(e.g, p, sources) {
      assert p.Ok? ==> Ok(p.value) in Results(e.bound, sources);
    }
    if r.Err? && r in Results(e.bound, sources) {
      assert r in BoundResults(e.g, r, sources);
    }
  }

  /** when_all gives an error of one task, or the vector of a value of each, in order; over no tasks, nothing. */
  lemma AllLaw(es: seq<Expr>, sources: Sources, r: Outcome)
    ensures r in Results(WhenAll(es), sources) <==>
      if r.Err? then exists i :: 0 <= i < |es| && r in Results(es[i], sources)
      else es != [] && r.value.Vec? && |r.value.elems| == |es|
           && forall i :: 0 <= i < |es| ==> Ok(r.value.elems[i]) in Results(es[i], sources)
  {
    if r.Ok? && r.value.Vec? {
      InVectors(es, sources, r.value.elems);
    }
    if i :| r.Err? && 0 <= i < |es| && r in Results(es[i], sources) {
      assert r in Errors(es, sources);
    }
  }

  /** when_any gives a value of one task; an error of one only where every task can err. */
  lemma AnyLaw(es: seq<Expr>, sources: Sources, r: Outcome)
    ensures r in Results(WhenAny(es), sources) <==>
      && (exists i :: 0 <= i < |es| && r in Results(es[i], sources))
      && (r.Err? ==> forall i :: 0 <= i < |es| ==> exists q :: q in Results(es[i], sources) && q.Err?)
  {
    if i :| 0 <= i < |es| && r in Results(es[i], sources) {
      assert if r.Ok? then r in Oks(es, sources) else r in Errors(es, sources);
    }
  }

  // ---------- When a task must have a result ----------

  /** The tasks that resolve under every schedule: their results are defined whatever the races come to. */
  ghost predicate Resolves(e: Expr, sources: Sources)
    decreases e
  {
    match e
    case Source(k) => SourceResult(sources, k).Some?
    case Create(_) => true
    case Map(e1, _) => Resolves(e1, sources)
    case Bind(e1, g) =>
      Resolves(e1, sources) && forall v :: Ok(v) in Results(e1, sources) ==> v in g && Resolves(g[v], sources)
    case WhenAll(es) =>
      es != [] &&
      ((forall i :: 0 <= i < |es| ==> Resolves(es[i], sources))
       || exists i :: 0 <= i < |es| && Resolves(es[i], sources) && forall r :: r in Results(es[i], sources) ==> r.Err?)
    case WhenAny(es) =>
      es != [] &&
      ((forall i :: 0 <= i < |es| ==> Resolves(es[i], sources))
       || exists i :: 0 <= i < |es| && Resolves(es[i], sources) && forall r :: r in Results(es[i], sources) ==> r.Ok?)
    case Shared(_, task) => Resolves(task, sources)
  }

  // ---------- How much work a task is ----------

  ghost function Max(x: nat, y: nat): (m: nat) {
    if x < y then y else x
  }

  /** The values a set of results can continue with. */
  ghost function Values(rs: set<Outcome>): (vs: set<Value>) {
    set r | r in rs && r.Ok? :: r.value
  }

  ghost function Pick<X>(xs: set<X>): (x: X)
    requires xs != {}
    ensures x in xs
  {
    var x :| x in xs;
    x
  }

  /** How many cells an await on the task may be passed along. */
  ghost function Hops(e: Expr, sources: Sources): (n: nat)
    ensures 1 <= n
    decreases e, 1, 0
  {
    match e
    case Bind(e1, g) => 1 + MaxHops(e, Values(Results(e1, sources)), sources)
    case Shared(_, task) => Hops(task, sources)
    case _ => 1
  }

  ghost function MaxHops(b: Expr, vs: set<Value>, sources: Sources): (n: nat)
    requires b.Bind?
    ensures 1 <= n
    decreases b, 0, |vs|
  {
    if vs == {} then 1
    else
      var v := Pick(vs);
      Max(if v in b.g then Hops(b.g[v], sources) else 1, MaxHops(b, vs - {v}, sources))
  }

  /** The steps all callbacks and jobs of a task can take, registrations included. */
  ghost function Work(e: Expr, sources: Sources): (n: nat)
    decreases e, 1, 0
  {
    match e
    case Source(_) => 0
    case Create(_) => 1
    case Map(e1, _) => Work(e1, sources) + Hops(e1, sources) + 1
    case Bind(e1, g) =>
      Work(e1, sources) + Hops(e1, sources) + 2 + MaxWork(e, Values(Results(e1, sources)), sources)
    case WhenAll(es) => WorkOfAll(es, 3, sources)
    case WhenAny(es) => WorkOfAll(es, 2, sources)
    case Shared(_, task) => Work(task, sources)
  }

  ghost function MaxWork(b: Expr, vs: set<Value>, sources: Sources): (n: nat)
    requires b.Bind?
    decreases b, 0, |vs|
  {
    if vs == {} then 0
    else
      var v := Pick(vs);
      Max(if v in b.g then Work(b.g[v], sources) else 0, MaxWork(b, vs - {v}, sources))
  }

  /** The work of the children of a combinator, with `own` steps for each of its callbacks. */
  ghost function WorkOfAll(es: seq<Expr>, own: nat, sources: Sources): (n: nat)
    decreases es, 1, |es|
  {
    if es == [] then 0
    else
      var last := es[|es| - 1];
      WorkOfAll(es[..|es| - 1], own, sources) + Work(last, sources) + Hops(last, sources) + own
  }

  lemma {:induction false} MaxWorkBounds(b: Expr, vs: set<Value>, sources: Sources, v: Value)
    requires b.Bind? && v in vs
    ensures Work(Then(b.g, v), sources) <= MaxWork(b, vs, sources)
    decreases |vs|
  {
    var w := Pick(vs);
    if v != w {
      MaxWorkBounds(b, vs - {w}, sources, v);
    }
  }

  lemma {:induction false} MaxHopsBounds(b: Expr, vs: set<Value>, sources: Sources, v: Value)
    requires b.Bind? && v in vs
    ensures Hops(Then(b.g, v), sources) <= MaxHops(b, vs, sources)
    decreases |vs|
  {
    var w := Pick(vs);
    if v != w {
      MaxHopsBounds(b, vs - {w}, sources, v);
    }
  }

  /** A copy means what its task does. */
  lemma {:induction false} CoreMeans(e: Expr, sources: Sources)
    ensures Results(Core(e), sources) == Results(e, sources)
    ensures Resolves(Core(e), sources) <==> Resolves(e, sources)
    ensures Hops(Core(e), sources) == Hops(e, sources)
    decreases e
  {
    if e.Shared? {
      CoreMeans(e.task, sources);
    }
  }
}
