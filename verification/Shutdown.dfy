/** The end of the agent: its events are flushed, its log session is stopped and its tunnels are cleared, once. */
module Shutdowns {
  import opened Options
  import opened Events
  import opened Bursts
  import opened TimedDebouncer
  import opened LogStreams
  import opened Registry
  import opened Services

  /** What a part of the shutdown meets when it begins: the events emitted so far, the log session, and the tunnels. */
  datatype Met = Met(emitted: seq<Emission>, session: Option<nat>, tunnels: map<(ClientId, ServerId), nat>)

  class Agent {
    const events: Debouncer
    const logs: LogService
    const tunnels: Service
    var shutDown: bool
    var connectionCloses: nat
    ghost var met: seq<Met>  // one for each part that came after the events

    ghost predicate Valid()
      reads this, events, events.pending.Values, logs, logs.sink, logs.channels, tunnels, tunnels.Repr
    {
      && events.Valid() && logs.Valid() && tunnels.Valid()
      && this !in tunnels.Repr && events !in tunnels.Repr && logs !in tunnels.Repr
      && logs.sink !in tunnels.Repr && logs.channels !in tunnels.Repr
      && (forall k :: k in events.pending ==> events.pending[k] !in tunnels.Repr)
      && connectionCloses == if shutDown && tunnels.shouldRun then 1 else 0
    }

    constructor (events: Debouncer, logs: LogService, tunnels: Service)
      requires events.Valid() && logs.Valid() && tunnels.Valid()
      requires events !in tunnels.Repr && logs !in tunnels.Repr
      requires logs.sink !in tunnels.Repr && logs.channels !in tunnels.Repr
      requires forall k :: k in events.pending ==> events.pending[k] !in tunnels.Repr
      ensures Valid() && !shutDown && this.events == events && this.logs == logs && this.tunnels == tunnels
    {
      this.events, this.logs, this.tunnels := events, logs, tunnels;
      shutDown, connectionCloses, met := false, 0, [];
    }

    /** The log after a flush: it has the lifecycle event, debounced like any other, and then all that was buffered. */
    ghost predicate Flushes(view: Windows, log: seq<Emission>, stopped: bool, event: Event, now: int, after: seq<Emission>) {
      var (open, out) := if tunnels.shouldRun then Submitted(view, Some(event), now, events.window, stopped) else (view, []);
      forall k :: Trace(after, k) == Trace(log + out, k) + Flushed(At(open, k), now)
    }

    ghost function Now(): Met
      reads this, events, logs, tunnels
    {
      Met(events.emitted, logs.streamLog, tunnels.world.reg)
    }

    /** Submits a lifecycle event, if the agent runs at all. */
    method SubmitEvent(event: Event)
      requires Valid()
      modifies events, events.pending.Values
      ensures Valid() && events.now == old(events.now) && events.stopped == old(events.stopped)
      ensures (events.view, events.emitted) ==
              if tunnels.shouldRun
              then var (open, out) :=
                     Submitted(old(events.view), Some(event), old(events.now), events.window, old(events.stopped));
                   (open, old(events.emitted) + out)
              else (old(events.view), old(events.emitted))
    {
      if tunnels.shouldRun {
        events.Submit(Some(event));
      }
    }

    /** Stops the debouncer, which emits all that was buffered. */
    method StopEvents()
      requires Valid()
      modifies events
      ensures Valid() && events.stopped && events.view == map[] && events.pending == map[] && events.now == old(events.now)
      ensures forall k :: Trace(events.emitted, k) == Trace(old(events.emitted), k) + Flushed(At(old(events.view), k), events.now)
    {
      ghost var open, log := events.view, events.emitted;
      ghost var order := events.Stop();
      forall k ensures Trace(events.emitted, k) == Trace(log, k) + Flushed(At(open, k), events.now) {
        TraceClosed(log, open, order, Some(events.now), k);
        assert k !in order ==> Flushed(At(open, k), events.now) == [];
      }
    }

    /** The lifecycle event, and then the rest. */
    method FlushEvents(event: Event)
      requires Valid()
      modifies events, events.pending.Values
      ensures Valid() && events.stopped && events.view == map[] && events.pending == map[]
      ensures Flushes(old(events.view), old(events.emitted), old(events.stopped), event, events.now, events.emitted)
    {
      SubmitEvent(event);
      assert !tunnels.shouldRun ==> old(events.emitted) + [] == events.emitted;
      StopEvents();
    }

    method EndLogs(ended: bool) returns (ok: bool)
      requires Valid()
      modifies this`met, logs, logs.sink, logs.channels
      ensures Valid() && met == old(met) + [old(Now())]
      ensures logs.streamLog == None && ok == (old(logs.streamLog).None? || ended)
      ensures forall i :: 0 <= i < |logs.channels.table| ==> logs.channels.table[i].cancelled
    {
      met := met + [Now()];
      if tunnels.shouldRun {
        logs.EndService();
      }
      ok := logs.StopStreamLog(ended);
    }

    method EndTunnels()
      requires Valid() && events.pending == map[]
      modifies this`met, tunnels.Repr
      ensures Valid() && met == old(met) + [old(Now())] && tunnels.world == StopAndDeleteAll(old(tunnels.world))
    {
      met := met + [Now()];
      tunnels.StopAndDelete();
    }

    /** An agent that does not run has no connection. */
    method CloseConnection(closed: bool) returns (ok: bool)
      requires Valid() && !shutDown
      modifies this`shutDown, this`connectionCloses, this`met
      ensures Valid() && shutDown && met == old(met) + [old(Now())] && ok == (tunnels.shouldRun ==> closed)
    {
      met := met + [Now()];
      shutDown := true;
      if tunnels.shouldRun {
        connectionCloses := connectionCloses + 1;
        return closed;
      }
      return true;
    }

    /** The order of a shutdown: when the log session is ended, every event has been emitted; when the tunnels are, there is
        no session any more; when the connection is closed, all of that is done. The debouncer's calls run to completion
        here; what a flush in flight can still emit is in DebouncerSafety. */
    ghost predicate InOrder(was: Met, seen: seq<Met>)
      reads events
    {
      && |seen| == 3 && events.stopped
      && seen[0] == Met(events.emitted, was.session, was.tunnels)
      && seen[1] == Met(events.emitted, None, was.tunnels)
      && seen[2] == Met(events.emitted, None, map[])
    }

    /** What Shutdown does the first time. ended and closed: the log pump ends in time, and the connection closes without
        an error. */
    method CloseDown(event: Event, ended: bool, closed: bool) returns (ok: bool)
      requires Valid() && !shutDown
      modifies this`shutDown, this`connectionCloses, this`met, events, events.pending.Values
      modifies logs, logs.sink, logs.channels, tunnels.Repr
      ensures Valid() && shutDown && ok == ((old(logs.streamLog).None? || ended) && (tunnels.shouldRun ==> closed))
      ensures Flushes(old(events.view), old(events.emitted), old(events.stopped), event, events.now, events.emitted)
      ensures events.stopped && events.view == map[] && logs.streamLog == None
      ensures forall i :: 0 <= i < |logs.channels.table| ==> logs.channels.table[i].cancelled
      ensures tunnels.world == StopAndDeleteAll(old(tunnels.world))
      ensures |met| == |old(met)| + 3 && InOrder(old(Now()), met[|old(met)|..])
    {
      FlushEvents(event);
      ok := EndLogs(ended);
      EndTunnels();
      var done := CloseConnection(closed);
      ok := ok && done;
    }

    /** Runs once: a second call changes nothing. */
    method Shutdown(event: Event, ended: bool, closed: bool) returns (ok: bool)
      requires Valid()
      modifies this`shutDown, this`connectionCloses, this`met, events, events.pending.Values
      modifies logs, logs.sink, logs.channels, tunnels.Repr
      ensures Valid() && shutDown
      ensures old(shutDown) ==>
                && ok && events.emitted == old(events.emitted) && tunnels.world == old(tunnels.world)
                && logs.channels.table == old(logs.channels.table)
      ensures !old(shutDown) ==> ok == ((old(logs.streamLog).None? || ended) && (tunnels.shouldRun ==> closed))
      ensures !old(shutDown) ==>
                Flushes(old(events.view), old(events.emitted), old(events.stopped), event, events.now, events.emitted)
      ensures !old(shutDown) ==> events.stopped && events.view == map[] && logs.streamLog == None
      ensures !old(shutDown) ==> forall i :: 0 <= i < |logs.channels.table| ==> logs.channels.table[i].cancelled
      ensures !old(shutDown) ==> tunnels.world == StopAndDeleteAll(old(tunnels.world))
      ensures !old(shutDown) ==> |met| == |old(met)| + 3 && InOrder(old(Now()), met[|old(met)|..])
    {
      if shutDown {
        return true;
      }
      ok := CloseDown(event, ended, closed);
    }
  }
}
