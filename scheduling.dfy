/**
 * The GLib main context as the timers see it: a table of pending timeout
 * sources, each registered by `timeout_add(interval, callback)` under a
 * fresh positive id and dropped by `source_remove(id)`. Time itself is not
 * modelled: a source fires only when its owner takes an explicit dispatch
 * step for it.
 */
module Scheduling {

  /** A registered timeout: its interval and the callback the loop calls. */
  datatype Source<C> = Source(interval: nat, callback: C)

  /** The pending sources and the next id `timeout_add` hands out. */
  datatype LoopView<C> = LoopView(sources: map<nat, Source<C>>, nextId: nat)

  /** GLib never hands out the id 0. */
  const FIRST_ID: nat := 1

  /** A loop with no pending source. */
  function EmptyLoop<C>(): (l: LoopView<C>)
    ensures l.sources == map[] && IdsIssued(l)
  {
    LoopView(map[], FIRST_ID)
  }

  /** Every pending id was issued earlier, so the next id is new. */
  predicate IdsIssued<C>(l: LoopView<C>)
  {
    && FIRST_ID <= l.nextId
    && forall id :: id in l.sources ==> FIRST_ID <= id < l.nextId
  }

  /** `timeout_add`: register a source, returning the new loop and the source's id. */
  function Add<C>(l: LoopView<C>, interval: nat, callback: C): (r: (LoopView<C>, nat))
    ensures IdsIssued(l) ==> r.1 !in l.sources && IdsIssued(r.0)
    ensures r.0.sources.Keys == l.sources.Keys + {r.1}
    ensures r.1 in r.0.sources && r.0.sources[r.1] == Source(interval, callback)
    ensures IdsIssued(l) ==> forall id :: id in l.sources ==> r.0.sources[id] == l.sources[id]
  {
    (LoopView(l.sources[l.nextId := Source(interval, callback)], l.nextId + 1), l.nextId)
  }

  /** `source_remove`: drop a source; removing an id that is not pending changes nothing. */
  function Remove<C>(l: LoopView<C>, id: nat): (r: LoopView<C>)
    ensures id !in r.sources && r.sources.Keys == l.sources.Keys - {id}
    ensures forall k :: k in r.sources ==> r.sources[k] == l.sources[k]
    ensures id !in l.sources ==> r == l
    ensures IdsIssued(l) ==> IdsIssued(r)
  {
    LoopView(l.sources - {id}, l.nextId)
  }

  /** The main context, updated in place by its owner. */
  class Scheduler<C> {
    var sources: map<nat, Source<C>>
    var nextId: nat

    ghost function View(): LoopView<C>
      reads this
    {
      LoopView(sources, nextId)
    }

    ghost predicate Valid()
      reads this
    {
      IdsIssued(View())
    }

    constructor ()
      ensures Valid() && View() == EmptyLoop()
    {
      sources := map[];
      nextId := FIRST_ID;
    }

    method TimeoutAdd(interval: nat, callback: C) returns (id: nat)
      requires Valid()
      modifies this
      ensures Valid()
      ensures (View(), id) == Add(old(View()), interval, callback)
    {
      id := nextId;
      sources := sources[id := Source(interval, callback)];
      nextId := nextId + 1;
    }

    method SourceRemove(id: nat)
      requires Valid()
      modifies this
      ensures Valid()
      ensures View() == Remove(old(View()), id)
    {
      sources := sources - {id};
    }
  }
}
