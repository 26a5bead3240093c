/**
 * The single-slot state timer of the current controller. It keeps at most
 * one pending timeout source id. Starting again cancels the previous source
 * before arming a new one. The callback is wrapped so that it always answers
 * "do not repeat" to the loop, so it runs at most once per start.
 */
module Timers {
  import opened Wrappers
  import opened Scheduling

  /** The timer's `_id` slot and the loop it registers its sources in. */
  datatype TimerView<C> = TimerView(id: Option<nat>, loop: LoopView<C>)

  /** The ids the slot may name: none, or the one it holds. */
  function Slot(id: Option<nat>): set<nat>
  {
    if id.Some? then {id.value} else {}
  }

  /** At most one source is pending, and it is the one the slot names. */
  predicate SingleSlot<C>(t: TimerView<C>)
  {
    && IdsIssued(t.loop)
    && t.loop.sources.Keys <= Slot(t.id)
    && (t.id.Some? ==> t.id.value < t.loop.nextId)
  }

  /** The slot names a source that has not fired or been removed yet. */
  predicate Pending<C>(t: TimerView<C>)
  {
    t.id.Some? && t.id.value in t.loop.sources
  }

  /** A new timer: the slot is empty and nothing is pending. */
  function Fresh<C>(): (t: TimerView<C>)
    ensures t.id == None && t.loop.sources == map[] && SingleSlot(t)
  {
    TimerView(None, EmptyLoop())
  }

  /** The wrapper around the user callback: whatever it returned, the loop is told not to repeat. */
  function OnceWrapper(callbackResult: bool): (repeat: bool)
    ensures !repeat
  {
    false
  }

  /** `start`: remove the source the slot names, if any, then register the new one. */
  function StartSpec<C>(t: TimerView<C>, duration: nat, callback: C): (r: TimerView<C>)
    ensures r.id == Some(t.loop.nextId)
    ensures IdsIssued(t.loop) ==> t.loop.nextId !in t.loop.sources
    ensures SingleSlot(t) && t.id.Some? ==> t.id.value !in r.loop.sources
    ensures SingleSlot(t) ==> SingleSlot(r) && r.loop.sources == map[t.loop.nextId := Source(duration, callback)]
  {
    var cleared := if t.id.Some? then Remove(t.loop, t.id.value) else t.loop;
    var (loop', id') := Add(cleared, duration, callback);
    TimerView(Some(id'), loop')
  }

  /** `stop`: when the slot names a source, remove it and empty the slot; otherwise do nothing. */
  function StopSpec<C>(t: TimerView<C>): (r: TimerView<C>)
    ensures r.id == None
    ensures t.id == None ==> r == t
    ensures t.id.Some? ==> t.id.value !in r.loop.sources
    ensures SingleSlot(t) ==> SingleSlot(r) && r.loop.sources == map[]
  {
    if t.id.Some? then TimerView(None, Remove(t.loop, t.id.value)) else t
  }

  /**
   * The loop dispatches source `sid`. If it is pending, the wrapped callback
   * runs (it is returned, for the caller to run), and since the wrapper
   * answers "do not repeat" the loop drops the source. The slot keeps its
   * id: only `stop` empties it.
   */
  function FireSpec<C>(t: TimerView<C>, sid: nat, callbackResult: bool): (r: (TimerView<C>, Option<C>))
    ensures r.1.Some? <==> sid in t.loop.sources
    ensures r.1.Some? ==> r.1.value == t.loop.sources[sid].callback
    ensures r.0.id == t.id && sid !in r.0.loop.sources
    ensures r.1.None? ==> r.0 == t
    ensures SingleSlot(t) ==> SingleSlot(r.0)
  {
    if sid in t.loop.sources then
      var cb := t.loop.sources[sid].callback;
      var repeat := OnceWrapper(callbackResult);
      var loop' := if repeat then t.loop else Remove(t.loop, sid);
      (TimerView(t.id, loop'), Some(cb))
    else
      (t, None)
  }

  /** What can happen to a timer: its two methods, and the loop dispatching a source. */
  datatype TimerEvent<C> = Start(duration: nat, callback: C) | Stop | Fire(sid: nat, callbackResult: bool)

  /** One event: the new timer and the callbacks it ran (zero or one). */
  function Apply<C>(t: TimerView<C>, e: TimerEvent<C>): (r: (TimerView<C>, seq<C>))
    ensures |r.1| <= 1
    ensures SingleSlot(t) ==> SingleSlot(r.0)
  {
    match e
    case Start(d, cb) => (StartSpec(t, d, cb), [])
    case Stop => (StopSpec(t), [])
    case Fire(sid, res) =>
      var (t', ran) := FireSpec(t, sid, res);
      (t', if ran.Some? then [ran.value] else [])
  }

  /** A run of events: the final timer and every callback invocation, in order. */
  function Run<C>(t: TimerView<C>, es: seq<TimerEvent<C>>): (r: (TimerView<C>, seq<C>))
    ensures SingleSlot(t) ==> SingleSlot(r.0)
    ensures |r.1| <= |es|
    decreases |es|
  {
    if es == [] then (t, [])
    else
      var (t1, calls1) := Apply(t, es[0]);
      var (t2, calls2) := Run(t1, es[1..]);
      (t2, calls1 + calls2)
  }

  /** Every event is a dispatch by the loop: no start, no stop. */
  predicate OnlyFires<C>(es: seq<TimerEvent<C>>)
  {
    forall i :: 0 <= i < |es| ==> es[i].Fire?
  }

  /** Every event is a dispatch or a stop: no start. */
  predicate NoStarts<C>(es: seq<TimerEvent<C>>)
  {
    forall i :: 0 <= i < |es| ==> !es[i].Start?
  }

  /** Some event dispatches source `sid`. */
  predicate Dispatches<C>(es: seq<TimerEvent<C>>, sid: nat)
  {
    exists i :: 0 <= i < |es| && es[i].Fire? && es[i].sid == sid
  }

  /** With no start in between, a timer with nothing pending never runs a callback. */
  lemma {:induction false} NothingPendingNothingRuns<C>(t: TimerView<C>, es: seq<TimerEvent<C>>)
    requires SingleSlot(t) && t.loop.sources == map[]
    requires NoStarts(es)
    ensures Run(t, es).1 == []
    ensures Run(t, es).0.loop.sources == map[]
    decreases |es|
  {
    if es != [] {
      var (t1, calls1) := Apply(t, es[0]);
      assert calls1 == [] && t1.loop.sources == map[];
      NothingPendingNothingRuns(t1, es[1..]);
    }
  }

  /**
   * The loop's dispatches alone run the pending callback exactly once if the
   * pending source is among them, and otherwise not at all.
   */
  lemma {:induction false} PendingRunsAtMostOnce<C>(t: TimerView<C>, es: seq<TimerEvent<C>>)
    requires SingleSlot(t) && OnlyFires(es)
    ensures Run(t, es).1 ==
            if Pending(t) && Dispatches(es, t.id.value) then [t.loop.sources[t.id.value].callback] else []
    decreases |es|
  {
    if es != [] {
      var e := es[0];
      var rest := es[1..];
      var (t1, calls1) := Apply(t, e);
      assert OnlyFires(rest) by {
        forall i | 0 <= i < |rest| ensures rest[i].Fire? { assert rest[i] == es[i + 1]; }
      }
      assert NoStarts(rest) by {
        forall i | 0 <= i < |rest| ensures !rest[i].Start? { assert rest[i] == es[i + 1]; }
      }
      PendingRunsAtMostOnce(t1, rest);
      if Pending(t) && e.sid == t.id.value {
        assert Dispatches(es, t.id.value) by { assert es[0].Fire? && es[0].sid == t.id.value; }
        assert t1.loop.sources == map[];
        NothingPendingNothingRuns(t1, rest);
      } else {
        assert e.sid !in t.loop.sources;
        assert t1 == t && calls1 == [];
        if Pending(t) {
          if Dispatches(rest, t.id.value) {
            var j :| 0 <= j < |rest| && rest[j].Fire? && rest[j].sid == t.id.value;
            assert es[j + 1] == rest[j];
          }
          if Dispatches(es, t.id.value) {
            var j :| 0 <= j < |es| && es[j].Fire? && es[j].sid == t.id.value;
            assert j != 0;
            assert rest[j - 1] == es[j];
          }
        }
      }
    }
  }

  /** `start` followed by dispatches only: the callback runs once when its source is dispatched, and never twice. */
  lemma StartRunsCallbackOnce<C>(t: TimerView<C>, duration: nat, callback: C, es: seq<TimerEvent<C>>)
    requires SingleSlot(t) && OnlyFires(es)
    ensures Run(StartSpec(t, duration, callback), es).1 ==
            if Dispatches(es, t.loop.nextId) then [callback] else []
  {
    PendingRunsAtMostOnce(StartSpec(t, duration, callback), es);
  }

  /**
   * Restarting before the first timeout: the first source is gone, so only
   * the second callback can run, and at most once.
   */
  lemma RestartCancelsPrevious<C>(t: TimerView<C>, d1: nat, cb1: C, d2: nat, cb2: C, es: seq<TimerEvent<C>>)
    requires SingleSlot(t) && OnlyFires(es)
    ensures t.loop.nextId !in StartSpec(StartSpec(t, d1, cb1), d2, cb2).loop.sources
    ensures Run(StartSpec(StartSpec(t, d1, cb1), d2, cb2), es).1 ==
            if Dispatches(es, t.loop.nextId + 1) then [cb2] else []
  {
    var t1 := StartSpec(t, d1, cb1);
    StartRunsCallbackOnce(t1, d2, cb2, es);
  }

  /** `start` then `stop`: however many more stops and dispatches follow, the callback never runs. */
  lemma StopPreventsCallback<C>(t: TimerView<C>, duration: nat, callback: C, es: seq<TimerEvent<C>>)
    requires SingleSlot(t) && NoStarts(es)
    ensures Run(StopSpec(StartSpec(t, duration, callback)), es).1 == []
  {
    NothingPendingNothingRuns(StopSpec(StartSpec(t, duration, callback)), es);
  }

  /** The timer object: the `_id` slot over a scheduler it owns. */
  class StateTimer<C> {
    var id: Option<nat>
    const loop: Scheduler<C>

    ghost function View(): TimerView<C>
      reads this, loop
    {
      TimerView(id, loop.View())
    }

    ghost predicate Valid()
      reads this, loop
    {
      SingleSlot(View())
    }

    constructor ()
      ensures Valid() && View() == Fresh() && fresh(loop)
    {
      id := None;
      loop := new Scheduler();
    }

    method Start(duration: nat, callback: C)
      requires Valid()
      modifies this, loop
      ensures Valid()
      ensures View() == StartSpec(old(View()), duration, callback)
    {
      if id.Some? {
        loop.SourceRemove(id.value);
      }
      var sid := loop.TimeoutAdd(duration, callback);
      id := Some(sid);
    }

    method Stop()
      requires Valid()
      modifies this, loop
      ensures Valid()
      ensures View() == StopSpec(old(View()))
    {
      if id.Some? {
        loop.SourceRemove(id.value);
        id := None;
      }
    }

    /**
     * The loop dispatches source `sid`; `callbackResult` is what the user
     * callback returns. Returns the callback that ran, if any.
     */
    method Fire(sid: nat, callbackResult: bool) returns (ran: Option<C>)
      requires Valid()
      modifies loop
      ensures Valid()
      ensures (View(), ran) == FireSpec(old(View()), sid, callbackResult)
    {
      if sid in loop.sources {
        ran := Some(loop.sources[sid].callback);
        var repeat := OnceWrapper(callbackResult);
        if !repeat {
          loop.SourceRemove(sid);
        }
      } else {
        ran := None;
      }
    }
  }
}
