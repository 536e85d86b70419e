/** The scheduler object: each method is what runs under one hold of the mutex, and refines one step
    (or a sequence of steps) of `SchedulerProtocol`. */
module Scheduler {
  import opened Common
  import opened SubscriptionHeap
  import P = SchedulerProtocol

  /** Time parsing and the cron library, as functions of their inputs. */
  datatype Calendar = Calendar(parseCron: string -> Option<string>, next: (string, int) -> int,
                               parseTime: string -> Option<int>)

  /** No entry for an invalid expression, a one-shot time that has passed, or an unknown trigger. */
  function BuildEntry(cal: Calendar, sub: Subscription, now: int): Option<Entry> {
    match sub.trigger
    case Cron(expr) =>
      (match cal.parseCron(expr)
       case None => None
       case Some(sched) => Some(Entry(sub, Some(sched), cal.next(sched, now))))
    case Once(at) =>
      (match cal.parseTime(at)
       case None => None
       case Some(t) => if t <= now then None else Some(Entry(sub, None, t)))
    case Other(_) => None
  }

  /** e is what sub asks for from now on: each time of its cron schedule, from the first one after now,
      or its single time in the future. */
  predicate IsEntryFor(cal: Calendar, sub: Subscription, now: int, e: Entry) {
    && e.sub == sub
    && match e.schedule
       case Some(sched) =>
         sub.trigger.Cron? && cal.parseCron(sub.trigger.expr) == Some(sched) && e.nextFire == cal.next(sched, now)
       case None => sub.trigger.Once? && cal.parseTime(sub.trigger.at) == Some(e.nextFire) && now < e.nextFire
  }

  lemma BuildEntryExactly(cal: Calendar, sub: Subscription, now: int, e: Entry)
    ensures BuildEntry(cal, sub, now) == Some(e) <==> IsEntryFor(cal, sub, now, e)
  {
  }

  function BuildEntries(cal: Calendar, subs: seq<Subscription>, now: int): seq<Entry> {
    if subs == [] then []
    else
      var rest := BuildEntries(cal, subs[..|subs| - 1], now);
      match BuildEntry(cal, subs[|subs| - 1], now)
      case None => rest
      case Some(e) => rest + [e]
  }

  datatype Popped = NothingDue | Overlap(entry: Entry) | Started(entry: Entry)

  /** states leads from one model state to another by one event per step. */
  ghost predicate Trace(states: seq<P.State>, events: seq<P.Event>) {
    && |states| == |events| + 1
    && forall i :: 0 <= i < |events| ==> P.Step(states[i], events[i], states[i + 1])
  }

  lemma TraceSnoc(states: seq<P.State>, events: seq<P.Event>, ev: P.Event, t: P.State)
    requires Trace(states, events) && P.Step(states[|events|], ev, t)
    ensures Trace(states + [t], events + [ev])
  {
    hide P.Step;
    var states', events' := states + [t], events + [ev];
    forall i | 0 <= i < |events'| ensures P.Step(states'[i], events'[i], states'[i + 1]) {
      if i < |events| {
        assert P.Step(states[i], events[i], states[i + 1]);
      }
    }
  }

  ghost predicate AreStarts(events: seq<P.Event>, started: seq<Entry>) {
    |events| == |started| && forall i :: 0 <= i < |started| ==> events[i] == P.Start(started[i])
  }

  /** Started earliest first, and nothing left behind is earlier than what was started. */
  ghost predicate InFireOrder(started: seq<Entry>, heap: seq<Entry>) {
    && (forall i, j :: 0 <= i < j < |started| ==> started[i].nextFire <= started[j].nextFire)
    && (forall i, e :: 0 <= i < |started| && e in heap ==> started[i].nextFire <= e.nextFire)
  }

  lemma InFireOrderSnoc(started: seq<Entry>, before: seq<Entry>, e: Entry, after: seq<Entry>)
    requires InFireOrder(started, before) && e in before
    requires forall f :: f in before ==> e.nextFire <= f.nextFire
    requires forall f :: f in after ==> f in before
    ensures InFireOrder(started + [e], after)
  {
  }

  lemma TakenFromBag(h: seq<Entry>, e: Entry, rest: seq<Entry>)
    requires multiset(rest) + multiset{e} == multiset(h)
    ensures e in multiset(h) && multiset(rest) == multiset(h) - multiset{e} && |rest| == |h| - 1
    ensures forall f :: f in rest ==> f in h
  {
    assert |multiset(rest)| == |multiset(h)| - 1;
    assert forall f :: f in rest ==> f in multiset(rest) && f in multiset(h);
  }

  lemma RemovedFromHeap(s: P.State, h: seq<Entry>, id: string, e: Entry, rest: seq<Entry>)
    requires s.heap == multiset(h) && e.sub.id == id && multiset(rest) + multiset{e} == multiset(h)
    ensures P.Step(s, P.Remove(id), s.(heap := multiset(rest)))
  {
    TakenFromBag(h, e, rest);
    assert P.InHeap(s, id);
  }

  lemma NotInHeap(s: P.State, h: seq<Entry>, id: string)
    requires s.heap == multiset(h) && forall k :: 0 <= k < |h| ==> h[k].sub.id != id
    ensures P.Step(s, P.Remove(id), if P.RunningFor(s, id) != "" then s.(cancelled := s.cancelled + {id}) else s)
  {
    assert forall e :: e in multiset(h) ==> e in h;
    assert !P.InHeap(s, id);
  }

  lemma PutBackInBag(h: seq<Entry>, e: Entry, rest: seq<Entry>, g: seq<Entry>)
    requires multiset(rest) + multiset{e} == multiset(h) && multiset(g) == multiset(rest) + multiset{e}
    ensures e in g && forall f :: f in g ==> f in h
  {
    assert e in multiset(g);
    assert forall f :: f in g ==> f in multiset(g) && f in multiset(h);
  }

  lemma SkipIsStep(s: P.State, e: Entry)
    requires e in s.heap && P.RunningFor(s, e.sub.id) != ""
    ensures P.Step(s, P.Skip(e), s)
  {
  }

  lemma StartIsStep(s: P.State, e: Entry, t: P.State)
    requires e in s.heap && t.heap == s.heap - multiset{e} && P.RunningFor(s, e.sub.id) == ""
    requires t.running == s.running[e.sub.id := e.sub.instanceID] && t.cancelled == s.cancelled
    requires t.firing == s.firing + multiset{e}
    ensures P.Step(s, P.Start(e), t)
  {
  }

  lemma FinishIsStep(s: P.State, e: Entry, failed: bool, next: Option<int>, t: P.State)
    requires e in s.firing && (next.Some? <==> e.schedule.Some? && (failed || !e.sub.trigger.Once?))
    requires t.heap == if next.Some? && e.sub.id !in s.cancelled then s.heap + multiset{e.(nextFire := next.value)} else s.heap
    requires t.running == s.running - {e.sub.id} && t.cancelled == s.cancelled - {e.sub.id}
    requires t.firing == s.firing - multiset{e}
    ensures P.Step(s, P.Finish(e, failed, next), t)
  {
  }

  class Scheduler {
    var heap: seq<Entry>
    var running: map<string, string>
    var cancelled: set<string>
    ghost var firing: multiset<Entry>

    ghost predicate Valid()
      reads this
    {
      IsHeap(heap)
    }

    ghost function Model(): P.State
      reads this
    {
      P.State(multiset(heap), running, cancelled, firing)
    }

    constructor ()
      ensures Valid() && Model() == P.INITIAL
    {
      heap, running, cancelled := [], map[], {};
      firing := multiset{};
    }

    method Add(cal: Calendar, sub: Subscription, now: int)
      requires Valid()
      modifies this
      ensures Valid()
      ensures forall e :: IsEntryFor(cal, sub, now, e) ==>
                Model() == old(Model()).(heap := old(multiset(heap)) + multiset{e})
                && P.Step(old(Model()), P.Add(e), Model())
      ensures (forall e :: !IsEntryFor(cal, sub, now, e)) ==> Model() == old(Model())
    {
      forall e ensures BuildEntry(cal, sub, now) == Some(e) <==> IsEntryFor(cal, sub, now, e) {
        BuildEntryExactly(cal, sub, now, e);
      }
      match BuildEntry(cal, sub, now)
      case None =>
      case Some(e) => heap := Push(heap, e);
    }

    /** ResumeInstance once the database has returned the reactivated subscriptions. */
    method ResumeInstance(cal: Calendar, subs: seq<Subscription>, now: int)
      returns (ghost states: seq<P.State>, ghost events: seq<P.Event>)
      requires Valid()
      modifies this
      ensures Valid() && Trace(states, events)
      ensures states[0] == old(Model()) && states[|events|] == Model()
      ensures |events| == |BuildEntries(cal, subs, now)|
      ensures forall i :: 0 <= i < |events| ==> events[i] == P.Add(BuildEntries(cal, subs, now)[i])
    {
      var entries: seq<Entry> := [];
      for i := 0 to |subs|
        invariant entries == BuildEntries(cal, subs[..i], now)
        invariant heap == old(heap) && running == old(running) && cancelled == old(cancelled)
        invariant firing == old(firing)
      {
        assert subs[..i + 1][..i] == subs[..i];
        match BuildEntry(cal, subs[i], now)
        case None =>
        case Some(e) => entries := entries + [e];
      }
      assert subs[..|subs|] == subs;
      states, events := [Model()], [];
      for i := 0 to |entries|
        invariant Valid() && Trace(states, events) && |events| == i
        invariant states[0] == old(Model()) && states[i] == Model()
        invariant forall k :: 0 <= k < i ==> events[k] == P.Add(entries[k])
      {
        heap := Push(heap, entries[i]);
        TraceSnoc(states, events, P.Add(entries[i]), Model());
        states, events := states + [Model()], events + [P.Add(entries[i])];
      }
    }

    method Remove(id: string)
      requires Valid()
      modifies this
      ensures Valid() && P.Step(old(Model()), P.Remove(id), Model())
    {
      hide IsHeap, P.Step;
      var i := 0;
      while i < |heap| && heap[i].sub.id != id
        invariant i <= |heap|
        invariant forall k :: 0 <= k < i ==> heap[k].sub.id != id
      {
        i := i + 1;
      }
      if i < |heap| {
        var e, rest := SubscriptionHeap.Remove(heap, i);
        RemovedFromHeap(Model(), heap, id, e, rest);
        heap := rest;
      } else {
        NotInHeap(Model(), heap, id);
        if id in running && running[id] != "" {
          cancelled := cancelled + {id};
        }
      }
    }

    /** A database error leaves everything as it was. */
    method PauseInstance(instanceID: string, dbFailed: bool)
      requires Valid()
      modifies this
      ensures Valid()
      ensures if dbFailed then Model() == old(Model())
              else P.Step(old(Model()), P.Pause(instanceID), Model())
    {
      if dbFailed {
        return;
      }
      var remaining: seq<Entry> := [];
      for i := 0 to |heap|
        invariant heap == old(heap) && Model() == old(Model())
        invariant forall e :: multiset(remaining)[e] ==
                    if e.sub.instanceID != instanceID then multiset(heap[..i])[e] else 0
      {
        assert heap[..i + 1] == heap[..i] + [heap[i]];
        if heap[i].sub.instanceID != instanceID {
          remaining := remaining + [heap[i]];
        }
      }
      assert heap[..|heap|] == heap;
      cancelled := cancelled + (set id | id in running && running[id] == instanceID);
      heap := Init(remaining);
    }

    /** One iteration of fireReady's loop. Whatever is taken from the heap is due and earliest; an
        entry whose previous fire is still in progress goes back. */
    method PopReady(now: int) returns (r: Popped)
      requires Valid()
      modifies this
      ensures Valid()
      ensures !r.Started? ==> Model() == old(Model())
      ensures r.NothingDue? ==> forall e :: e in heap ==> e.nextFire > now
      ensures !r.NothingDue? ==>
                && r.entry.nextFire <= now
                && r.entry in old(heap) && forall e :: e in old(heap) ==> r.entry.nextFire <= e.nextFire
      ensures r.Overlap? ==> P.Step(old(Model()), P.Skip(r.entry), Model())
      ensures r.Overlap? ==> r.entry in heap && r.entry.sub.id in running
      ensures r.Started? ==> P.Step(old(Model()), P.Start(r.entry), Model())
      ensures r.Started? ==> |heap| == |old(heap)| - 1
      ensures forall e :: e in heap ==> e in old(heap)
    {
      hide IsHeap, P.Step;
      ghost var s := Model();
      if |heap| > 0 {
        RootIsEarliest(heap);
      }
      if |heap| == 0 || heap[0].nextFire > now {
        return NothingDue;
      }
      var entry, rest := Pop(heap);
      TakenFromBag(heap, entry, rest);
      heap := rest;
      var subID := entry.sub.id;
      if subID in running && running[subID] != "" {
        heap := Push(heap, entry);
        PutBackInBag(old(heap), entry, rest, heap);
        SkipIsStep(s, entry);
        return Overlap(entry);
      }
      running := running[subID := entry.sub.instanceID];
      firing := firing + multiset{entry};
      StartIsStep(s, entry, Model());
      return Started(entry);
    }

    /** fireReady with no other step between its iterations: it starts due entries, earliest first,
        and stops when nothing is due or at an overlap. */
    method FireReady(now: int) returns (started: seq<Entry>, ghost states: seq<P.State>, ghost events: seq<P.Event>)
      requires Valid()
      modifies this
      ensures Valid() && Trace(states, events) && states[0] == old(Model()) && states[|events|] == Model()
      ensures AreStarts(events, started) && InFireOrder(started, heap)
      ensures forall e :: e in started ==> e.nextFire <= now
      ensures (forall e :: e in heap ==> e.nextFire > now) ||
              (exists e :: e in heap && e.nextFire <= now && e.sub.id in running)
    {
      hide IsHeap, P.Step;
      started, states, events := [], [Model()], [];
      while true
        invariant Valid() && Trace(states, events) && states[0] == old(Model()) && states[|events|] == Model()
        invariant AreStarts(events, started) && InFireOrder(started, heap)
        invariant forall e :: e in started ==> e.nextFire <= now
        decreases |heap|
      {
        ghost var before := heap;
        var r := PopReady(now);
        assert forall e :: e in heap ==> e in before;
        if r.NothingDue? || r.Overlap? {
          break;
        }
        TraceSnoc(states, events, P.Start(r.entry), Model());
        InFireOrderSnoc(started, before, r.entry, heap);
        started, states, events := started + [r.entry], states + [Model()], events + [P.Start(r.entry)];
      }
    }

    /** The end of fireSingle: bookkeeping, then back to the heap at the next time of its schedule,
        unless it has none, was a one-shot that succeeded, or was cancelled meanwhile. */
    method FinishFire(cal: Calendar, entry: Entry, failed: bool, now: int) returns (ghost next: Option<int>)
      requires Valid() && entry in firing
      modifies this
      ensures Valid()
      ensures multiset(heap) ==
              if entry.schedule.Some? && (failed || !entry.sub.trigger.Once?) && entry.sub.id !in old(cancelled)
              then old(multiset(heap)) + multiset{entry.(nextFire := cal.next(entry.schedule.value, now))}
              else old(multiset(heap))
      ensures running == old(running) - {entry.sub.id} && cancelled == old(cancelled) - {entry.sub.id}
      ensures firing == old(firing) - multiset{entry}
      ensures P.Step(old(Model()), P.Finish(entry, failed, next), Model())
    {
      hide IsHeap, P.Step, P.FinishStep;
      ghost var s := Model();
      var nextTime := if entry.schedule.Some? then Some(cal.next(entry.schedule.value, now)) else None;
      if entry.sub.trigger.Once? && !failed {
        nextTime := None;
      }
      running := running - {entry.sub.id};
      var wasCancelled := entry.sub.id in cancelled;
      cancelled := cancelled - {entry.sub.id};
      firing := firing - multiset{entry};
      if nextTime.Some? && !wasCancelled {
        heap := Push(heap, entry.(nextFire := nextTime.value));
      }
      next := nextTime;
      FinishIsStep(s, entry, failed, next, Model());
    }
  }
}
