/**
 * The bookkeeping of pending actions and callback lists: they hold each callback exactly as often as its point
 * of life says, so nothing is lost and nothing is delivered twice.
 */
module TaskLinks {
  import opened Wrappers
  import opened TaskSyntax
  import opened TaskGraph
  import opened TaskMachine

  ghost predicate NoRepeats(xs: seq<nat>) {
    forall i, j :: 0 <= i < j < |xs| ==> xs[i] != xs[j]
  }

  /** Action `a` is what callback `a.edge` has pending. */
  ghost predicate Pending(pcs: seq<Pc>, a: Action) {
    a.edge < |pcs| && pcs[a.edge] == Active(a)
  }

  /** Callback `e` waits in cell `c`. */
  ghost predicate Waits(pcs: seq<Pc>, e: nat, c: nat) {
    e < |pcs| && pcs[e] == Waiting(c)
  }

  /** An active callback is exactly one pending action; a waiting callback stands exactly once in the list of its cell. */
  ghost predicate Linked(pending: multiset<Action>, lists: seq<seq<nat>>, pcs: seq<Pc>) {
    && (forall a: Action :: pending[a] == if Pending(pcs, a) then 1 else 0)
    && (forall c: nat :: c < |lists| ==> NoRepeats(lists[c]))
    && (forall c: nat, e: nat :: c < |lists| ==> (e in lists[c] <==> Waits(pcs, e, c)))
    && (forall e: nat :: e < |pcs| && pcs[e].Waiting? ==> pcs[e].at < |lists|)
  }

  /** A pending action is taken out: its callback has nothing pending and waits nowhere. */
  lemma TakeLinked(pending: multiset<Action>, lists: seq<seq<nat>>, pcs: seq<Pc>, a: Action)
    requires Linked(pending, lists, pcs) && a in pending
    ensures Pending(pcs, a) && Linked(pending - multiset{a}, lists, pcs[a.edge := Done])
  {
    assert Pending(pcs, a);
    var pcs' := pcs[a.edge := Done];
    forall b: Action ensures (pending - multiset{a})[b] == if Pending(pcs', b) then 1 else 0 {
      assert pending[b] == if Pending(pcs, b) then 1 else 0;
    }
    forall c: nat, e: nat | c < |lists| ensures e in lists[c] <==> Waits(pcs', e, c) {
      assert e in lists[c] <==> Waits(pcs, e, c);
    }
  }

  /** A callback with nothing pending gets an action. */
  lemma PutLinked(pending: multiset<Action>, lists: seq<seq<nat>>, pcs: seq<Pc>, a: Action)
    requires Linked(pending, lists, pcs) && a.edge < |pcs| && pcs[a.edge].Done?
    ensures Linked(pending + multiset{a}, lists, pcs[a.edge := Active(a)])
  {
    var pcs' := pcs[a.edge := Active(a)];
    forall b: Action ensures (pending + multiset{a})[b] == if Pending(pcs', b) then 1 else 0 {
      assert pending[b] == if Pending(pcs, b) then 1 else 0;
    }
    forall c: nat, e: nat | c < |lists| ensures e in lists[c] <==> Waits(pcs', e, c) {
      assert e in lists[c] <==> Waits(pcs, e, c);
    }
  }

  /** A callback with nothing pending is put at the end of the list of a cell. */
  lemma WaitLinked(pending: multiset<Action>, lists: seq<seq<nat>>, pcs: seq<Pc>, e: nat, at: nat)
    requires Linked(pending, lists, pcs) && e < |pcs| && pcs[e].Done? && at < |lists|
    ensures Linked(pending, lists[at := lists[at] + [e]], pcs[e := Waiting(at)])
  {
    var pcs', lists' := pcs[e := Waiting(at)], lists[at := lists[at] + [e]];
    assert e in lists[at] <==> Waits(pcs, e, at);
    forall a: Action ensures pending[a] == if Pending(pcs', a) then 1 else 0 {
      assert pending[a] == if Pending(pcs, a) then 1 else 0;
    }
    forall c: nat, f: nat | c < |lists'| ensures f in lists'[c] <==> Waits(pcs', f, c) {
      assert f in lists[c] <==> Waits(pcs, f, c);
    }
    forall c: nat | c < |lists'| ensures NoRepeats(lists'[c]) {
      assert NoRepeats(lists[c]);
    }
  }

  /** The actions given to the callbacks of a list. */
  function Actions(xs: seq<nat>, given: nat -> Action): (r: seq<Action>)
    ensures |r| == |xs|
  {
    seq(|xs|, i requires 0 <= i < |xs| => given(xs[i]))
  }

  /** A list without repeats gives each of its callbacks one action. */
  lemma {:induction false} ActionsCount(xs: seq<nat>, given: nat -> Action, a: Action)
    requires NoRepeats(xs) && forall i: nat :: given(i).edge == i
    ensures multiset(Actions(xs, given))[a] == if a.edge in xs && a == given(a.edge) then 1 else 0
    decreases |xs|
  {
    if xs == [] {
      assert Actions(xs, given) == [];
    } else {
      var low, last := xs[..|xs| - 1], xs[|xs| - 1];
      ActionsCount(low, given, a);
      assert Actions(xs, given) == Actions(low, given) + [given(last)];
      assert xs == low + [last];
      assert last !in low;
    }
  }

  /** The list of a cell is emptied, and its callbacks get an action each. */
  lemma WakeLinked(pending: multiset<Action>, lists: seq<seq<nat>>, pcs: seq<Pc>, c: nat, given: nat -> Action)
    requires Linked(pending, lists, pcs) && c < |lists| && forall i: nat :: given(i).edge == i
    ensures Linked(pending + multiset(Actions(lists[c], given)), lists[c := []], Wake(pcs, c, given))
  {
    var pcs', lists' := Wake(pcs, c, given), lists[c := []];
    var more := multiset(Actions(lists[c], given));
    forall a: Action ensures (pending + more)[a] == if Pending(pcs', a) then 1 else 0 {
      assert pending[a] == if Pending(pcs, a) then 1 else 0;
      assert NoRepeats(lists[c]);
      ActionsCount(lists[c], given, a);
      assert a.edge in lists[c] <==> Waits(pcs, a.edge, c);
    }
    forall d: nat, e: nat | d < |lists'| ensures e in lists'[d] <==> Waits(pcs', e, d) {
      assert e in lists[d] <==> Waits(pcs, e, d);
    }
    forall d: nat | d < |lists'| ensures NoRepeats(lists'[d]) {
      assert NoRepeats(lists[d]);
    }
  }

  /** The first actions of callbacks from index `m` on. */
  lemma {:induction false} FirstCount(actions: seq<Action>, m: nat, a: Action)
    requires forall i :: 0 <= i < |actions| ==> actions[i].edge == m + i
    ensures multiset(actions)[a] == if m <= a.edge < m + |actions| && actions[a.edge - m] == a then 1 else 0
    decreases |actions|
  {
    if actions != [] {
      var low, last := actions[..|actions| - 1], actions[|actions| - 1];
      FirstCount(low, m, a);
      assert actions == low + [last];
    }
  }

  /** New callbacks begin with one action each, and new cells with empty lists. */
  lemma GrowLinked(pending: multiset<Action>, lists: seq<seq<nat>>, pcs: seq<Pc>, actions: seq<Action>,
                   lists': seq<seq<nat>>, pcs': seq<Pc>)
    requires Linked(pending, lists, pcs)
    requires lists <= lists' && pcs <= pcs' && |pcs'| == |pcs| + |actions|
    requires forall c :: |lists| <= c < |lists'| ==> lists'[c] == []
    requires forall i :: 0 <= i < |actions| ==> actions[i].edge == |pcs| + i && pcs'[|pcs| + i] == Active(actions[i])
    ensures Linked(pending + multiset(actions), lists', pcs')
  {
    forall a: Action ensures (pending + multiset(actions))[a] == if Pending(pcs', a) then 1 else 0 {
      assert pending[a] == if Pending(pcs, a) then 1 else 0;
      FirstCount(actions, |pcs|, a);
      if a.edge < |pcs'| && |pcs| <= a.edge {
        assert pcs'[|pcs| + (a.edge - |pcs|)] == Active(actions[a.edge - |pcs|]);
      }
    }
    forall c: nat, e: nat | c < |lists'| ensures e in lists'[c] <==> Waits(pcs', e, c) {
      if c < |lists| {
        assert lists'[c] == lists[c];
        assert e in lists[c] <==> Waits(pcs, e, c);
      }
      if |pcs| <= e < |pcs'| {
        assert pcs'[|pcs| + (e - |pcs|)] == Active(actions[e - |pcs|]);
      }
      if e < |pcs| && c >= |lists| {
        assert pcs[e].Waiting? ==> pcs[e].at < |lists|;
      }
    }
    forall c: nat | c < |lists'| ensures NoRepeats(lists'[c]) {
      if c < |lists| {
        assert NoRepeats(lists[c]);
      }
    }
    forall e: nat | e < |pcs'| ensures pcs'[e].Waiting? ==> pcs'[e].at < |lists'| {
      if e >= |pcs| {
        assert pcs'[|pcs| + (e - |pcs|)] == Active(actions[e - |pcs|]);
      }
    }
  }
}
