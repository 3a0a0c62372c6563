/** The cell objects: each method body runs under the cell's lock. */
module Cells {
  import opened Wrappers
  import opened CellModel

  /** What a cell hands on, in order: jobs to the scheduler, or awaits to the cell it tracks. */
  class Outbox<J> {
    var sent: seq<J>

    constructor ()
      ensures sent == []
    {
      sent := [];
    }

    method Send(j: J)
      modifies this
      ensures sent == old(sent) + [j]
    {
      sent := sent + [j];
    }
  }

  class WriteOnceCell<T, E, C> {
    var value: Option<Result<T, E>>
    var callbacks: seq<C>
    const scheduler: Outbox<Delivery<T, E, C>>

    ghost function State(): (c: OnceCell<T, E, C>)
      reads this
    {
      OnceCell(value, callbacks)
    }

    constructor (scheduler: Outbox<Delivery<T, E, C>>)
      ensures State() == FreshOnce() && this.scheduler == scheduler
    {
      value, callbacks, this.scheduler := None, [], scheduler;
    }

    method Read() returns (r: Option<Result<T, E>>)
      ensures r == value
    {
      r := value;
    }

    /** Accepted only the first time; then every waiting callback is queued, in order, and forgotten. */
    method WriteResultToValue(result: Result<T, E>) returns (accepted: bool)
      modifies this`value, this`callbacks, scheduler
      ensures (State(), accepted) == (OnceWrite(old(State()), result).0, OnceWrite(old(State()), result).1)
      ensures scheduler.sent == old(scheduler.sent) + OnceWrite(old(State()), result).2
      ensures accepted <==> old(value).None?
      ensures accepted ==> value == Some(result) && callbacks == []
                           && scheduler.sent == old(scheduler.sent) + Deliveries(old(callbacks), result)
      ensures !accepted ==> State() == old(State()) && scheduler.sent == old(scheduler.sent)
    {
      if value.Some? {
        return false;
      }
      value := Some(result);
      for i := 0 to |callbacks|
        invariant State() == OnceCell(Some(result), old(callbacks))
        invariant scheduler.sent == old(scheduler.sent) + Deliveries(callbacks[..i], result)
      {
        assert callbacks[..i + 1] == callbacks[..i] + [callbacks[i]];
        DeliveriesPush(callbacks[..i], callbacks[i], result);
        scheduler.Send(Delivery(callbacks[i], result));
      }
      assert callbacks[..|callbacks|] == callbacks;
      callbacks := [];
      accepted := true;
    }

    /** Queued at once when the value is there, otherwise kept until it is. */
    method Await(callback: C)
      modifies this`callbacks, scheduler
      ensures State() == OnceAwait(old(State()), callback).0
      ensures scheduler.sent == old(scheduler.sent) + OnceAwait(old(State()), callback).1
      ensures value.Some? ==> callbacks == old(callbacks) && scheduler.sent == old(scheduler.sent) + [Delivery(callback, value.value)]
      ensures value.None? ==> callbacks == old(callbacks) + [callback] && scheduler.sent == old(scheduler.sent)
    {
      if value.Some? {
        scheduler.Send(Delivery(callback, value.value));
        return;
      }
      callbacks := callbacks + [callback];
    }
  }

  /** Knows the cell it tracks by a handle; the awaits it passes on go to `inner`. */
  class TrackingOnceCell<K, C> {
    var cell: Option<K>
    var callbacks: seq<C>
    const inner: Outbox<Forward<K, C>>

    ghost function State(): (c: TrackingCell<K, C>)
      reads this
    {
      TrackingCell(cell, callbacks)
    }

    constructor (inner: Outbox<Forward<K, C>>)
      ensures State() == TrackingCell(None, []) && this.inner == inner
    {
      cell, callbacks, this.inner := None, [], inner;
    }

    method Await(callback: C)
      modifies this`callbacks, inner
      ensures State() == TrackingAwait(old(State()), callback).0
      ensures inner.sent == old(inner.sent) + TrackingAwait(old(State()), callback).1
      ensures cell.Some? ==> callbacks == old(callbacks) && inner.sent == old(inner.sent) + [Forward(cell.value, callback)]
      ensures cell.None? ==> callbacks == old(callbacks) + [callback] && inner.sent == old(inner.sent)
    {
      if cell.None? {
        callbacks := callbacks + [callback];
        return;
      }
      inner.Send(Forward(cell.value, callback));
    }

    /** Accepted only the first time; then every waiting callback is passed on, in order, and forgotten. */
    method Track(newCell: K) returns (accepted: bool)
      modifies this`cell, this`callbacks, inner
      ensures (State(), accepted) == (CellModel.Track(old(State()), newCell).0, CellModel.Track(old(State()), newCell).1)
      ensures inner.sent == old(inner.sent) + CellModel.Track(old(State()), newCell).2
      ensures accepted <==> old(cell).None?
      ensures accepted ==> cell == Some(newCell) && callbacks == []
                           && inner.sent == old(inner.sent) + Forwards(newCell, old(callbacks))
      ensures !accepted ==> State() == old(State()) && inner.sent == old(inner.sent)
    {
      if cell.Some? {
        return false;
      }
      cell := Some(newCell);
      for i := 0 to |callbacks|
        invariant State() == TrackingCell(Some(newCell), old(callbacks))
        invariant inner.sent == old(inner.sent) + Forwards(newCell, callbacks[..i])
      {
        assert callbacks[..i + 1] == callbacks[..i] + [callbacks[i]];
        assert Forwards(newCell, callbacks[..i + 1]) == Forwards(newCell, callbacks[..i]) + [Forward(newCell, callbacks[i])];
        inner.Send(Forward(newCell, callbacks[i]));
      }
      assert callbacks[..|callbacks|] == callbacks;
      callbacks := [];
      accepted := true;
    }
  }

  class WhenAllExecutionContext<T> {
    const resolvedValues: array<T>
    var numResolvedCells: nat

    ghost function State(): (c: AllContext<T>)
      reads this, resolvedValues
    {
      AllContext(resolvedValues[..], numResolvedCells)
    }

    constructor (blank: T, totalCells: nat)
      ensures fresh(resolvedValues) && State() == AllContext(seq(totalCells, i => blank), 0)
    {
      resolvedValues := new T[totalCells](i => blank);
      numResolvedCells := 0;
      new;
      assert resolvedValues[..] == seq(totalCells, i => blank);
    }

    /** The slot store and the increment in one piece; the task machine takes them apart. */
    method CommitResolvedValue(cellId: nat, value: T) returns (all: bool)
      requires cellId < resolvedValues.Length
      modifies resolvedValues, this`numResolvedCells
      ensures (State(), all) == CountResolved(StoreValue(old(State()), cellId, value))
      ensures resolvedValues[..] == old(resolvedValues[..])[cellId := value]
      ensures numResolvedCells == old(numResolvedCells) + 1
      ensures all <==> numResolvedCells >= resolvedValues.Length
    {
      resolvedValues[cellId] := value;
      var soFar := numResolvedCells;
      numResolvedCells := numResolvedCells + 1;
      all := soFar + 1 >= resolvedValues.Length;
    }
  }

  class WhenAnyExecutionContext {
    var numErroneousCells: nat
    const totalCells: nat

    ghost function State(): (c: AnyContext)
      reads this
    {
      AnyContext(numErroneousCells, totalCells)
    }

    constructor (numCells: nat)
      ensures State() == AnyContext(0, numCells)
    {
      numErroneousCells, totalCells := 0, numCells;
    }

    method LogError() returns (allErrored: bool)
      modifies this`numErroneousCells
      ensures (State(), allErrored) == CellModel.LogError(old(State()))
      ensures numErroneousCells == old(numErroneousCells) + 1
      ensures allErrored <==> numErroneousCells >= totalCells
    {
      numErroneousCells := numErroneousCells + 1;
      allErrored := numErroneousCells >= totalCells;
    }
  }
}
