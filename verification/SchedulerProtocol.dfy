/** The cron scheduler as a state machine over its mutex-protected steps, and what holds over every
    run of it. The heap is a bag here; `Scheduler` shows that the slice refines it. */
module SchedulerProtocol {
  import opened Common
  import opened SubscriptionHeap

  /** firing holds the entries whose fireSingle goroutine has started and not yet finished. */
  datatype State = State(heap: multiset<Entry>, running: map<string, string>,
                         cancelled: set<string>, firing: multiset<Entry>)

  const INITIAL := State(multiset{}, map[], {}, multiset{})

  datatype Event =
    | Add(added: Entry)                          // Add, or one push of ResumeInstance or Start
    | Remove(id: string)
    | Pause(instanceID: string)
    | Skip(overlapping: Entry)                   // popped, found running, pushed back
    | Start(started: Entry)
    | Finish(finished: Entry, failed: bool, next: Option<int>) // end of fireSingle and its next fire time

  /** The map lookup running[id], "" when absent. */
  function RunningFor(s: State, id: string): string { if id in s.running then s.running[id] else "" }

  ghost predicate InHeap(s: State, id: string) { exists e :: e in s.heap && e.sub.id == id }

  ghost predicate Step(s: State, ev: Event, t: State) {
    match ev
    case Add(e) => t == s.(heap := s.heap + multiset{e})
    case Remove(id) => RemoveStep(s, id, t)
    case Pause(inst) => PauseStep(s, inst, t)
    case Skip(e) => e in s.heap && RunningFor(s, e.sub.id) != "" && t == s
    case Start(e) => StartStep(s, e, t)
    case Finish(e, failed, next) => FinishStep(s, e, failed, next, t)
  }

  ghost predicate RemoveStep(s: State, id: string, t: State) {
    if InHeap(s, id) then exists e :: e in s.heap && e.sub.id == id && t == s.(heap := s.heap - multiset{e})
    else if RunningFor(s, id) != "" then t == s.(cancelled := s.cancelled + {id})
    else t == s
  }

  ghost predicate PauseStep(s: State, inst: string, t: State) {
    && (forall e :: t.heap[e] == if e.sub.instanceID != inst then s.heap[e] else 0)
    && t.cancelled == s.cancelled + (set id | id in s.running && s.running[id] == inst)
    && t.running == s.running && t.firing == s.firing
  }

  ghost predicate StartStep(s: State, e: Entry, t: State) {
    && e in s.heap && RunningFor(s, e.sub.id) == ""
    && t == s.(heap := s.heap - multiset{e}, running := s.running[e.sub.id := e.sub.instanceID],
               firing := s.firing + multiset{e})
  }

  /** A next fire time exists for an entry with a schedule, except after a successful one-shot. */
  ghost predicate FinishStep(s: State, e: Entry, failed: bool, next: Option<int>, t: State) {
    && e in s.firing && (next.Some? <==> e.schedule.Some? && (failed || !e.sub.trigger.Once?))
    && t == State(if ReAdds(s, e, next) then s.heap + multiset{e.(nextFire := next.value)} else s.heap,
                  s.running - {e.sub.id}, s.cancelled - {e.sub.id}, s.firing - multiset{e})
  }

  predicate ReAdds(s: State, e: Entry, next: Option<int>) { next.Some? && e.sub.id !in s.cancelled }

  /** The entry an event pushes into the heap, if any. */
  function Pushed(s: State, ev: Event): Option<Entry> {
    match ev
    case Add(e) => Some(e)
    case Finish(e, _, next) => if ReAdds(s, e, next) then Some(e.(nextFire := next.value)) else None
    case _ => None
  }

  /** What any step does to membership: the heap gains at most the pushed entry, the fires at most
      the started one. */
  lemma StepMembers(s: State, ev: Event, t: State)
    requires Step(s, ev, t)
    ensures forall e :: e in t.heap ==> e in s.heap || Pushed(s, ev) == Some(e)
    ensures forall e :: e in t.firing ==> e in s.firing || ev == Start(e)
    ensures forall id :: id in t.running && (ev.Start? ==> ev.started.sub.id != id)
              ==> id in s.running && t.running[id] == s.running[id] && (id !in t.cancelled ==> id !in s.cancelled)
  {
    match ev
    case Add(_) =>
    case Remove(id) => RemoveMembers(s, id, t);
    case Pause(_) =>
    case Skip(_) =>
    case Start(e) => assert forall f :: f in t.firing ==> f in s.firing || f == e;
    case Finish(e, failed, next) => FinishMembers(s, e, failed, next, t);
  }

  lemma RemoveMembers(s: State, id: string, t: State)
    requires RemoveStep(s, id, t)
    ensures forall e :: e in t.heap ==> e in s.heap
    ensures t.firing == s.firing && t.running == s.running && s.cancelled <= t.cancelled
  {
  }

  lemma FinishMembers(s: State, e: Entry, failed: bool, next: Option<int>, t: State)
    requires FinishStep(s, e, failed, next, t)
    ensures forall f :: f in t.heap ==> f in s.heap || Pushed(s, Finish(e, failed, next)) == Some(f)
    ensures forall f :: f in t.firing ==> f in s.firing
  {
  }

  /** A live id is in the heap or firing uncancelled. */
  ghost predicate Live(s: State, id: string) {
    InHeap(s, id) || (id in s.running && id !in s.cancelled)
  }

  /** What the callers owe: an id is added only while it is not live, and belongs to an instance. */
  ghost predicate Disciplined(s: State, ev: Event) {
    ev.Add? ==> !Live(s, ev.added.sub.id) && ev.added.sub.instanceID != ""
  }

  /** A run: one more state than events, from the empty scheduler. */
  ghost predicate IsRun(states: seq<State>, events: seq<Event>) {
    && |states| == |events| + 1 && states[0] == INITIAL
    && forall i :: 0 <= i < |events| ==> Step(states[i], events[i], states[i + 1])
  }

  ghost predicate IsDisciplinedRun(states: seq<State>, events: seq<Event>) {
    IsRun(states, events) && forall i :: 0 <= i < |events| ==> Disciplined(states[i], events[i])
  }

  // ----- The invariant -----

  /** At most one copy of each subscription. */
  ghost predicate Single(b: multiset<Entry>) {
    forall e, f :: e in b && f in b && e.sub.id == f.sub.id ==> e == f && b[e] == 1
  }

  /** Heap entries belong to an instance, and a heap copy coexists only with a cancelled fire. */
  ghost predicate HeapInv(heap: multiset<Entry>, running: map<string, string>, cancelled: set<string>) {
    && Single(heap)
    && forall e :: e in heap ==> e.sub.instanceID != "" && (e.sub.id in running ==> e.sub.id in cancelled)
  }

  ghost function Ids(b: multiset<Entry>): set<string> { set e | e in b :: e.sub.id }

  /** Fires and running keys match. */
  ghost predicate FireInv(firing: multiset<Entry>, running: map<string, string>) {
    && Single(firing)
    && (forall e :: e in firing ==> e.sub.id in running && running[e.sub.id] == e.sub.instanceID != "")
    && running.Keys == Ids(firing)
  }

  ghost predicate Inv(s: State) {
    && s.cancelled <= s.running.Keys
    && HeapInv(s.heap, s.running, s.cancelled)
    && FireInv(s.firing, s.running)
  }

  lemma SingleAdd(b: multiset<Entry>, e: Entry)
    requires Single(b) && forall f :: f in b ==> f.sub.id != e.sub.id
    ensures Single(b + multiset{e})
  {
  }

  lemma SingleSub(b: multiset<Entry>, c: multiset<Entry>)
    requires Single(b) && c <= b
    ensures Single(c)
  {
    forall e, f | e in c && f in c && e.sub.id == f.sub.id ensures e == f && c[e] == 1 {
      assert e in b && f in b;
    }
  }

  /** Taking the only copy of an id leaves none. */
  lemma SingleTake(b: multiset<Entry>, e: Entry)
    requires Single(b) && e in b
    ensures Single(b - multiset{e})
    ensures forall f :: f in b - multiset{e} ==> f in b && f.sub.id != e.sub.id
    ensures forall f :: f in b && f.sub.id != e.sub.id ==> f in b - multiset{e}
  {
    SingleSub(b, b - multiset{e});
  }

  lemma IdsAdd(b: multiset<Entry>, e: Entry)
    ensures Ids(b + multiset{e}) == Ids(b) + {e.sub.id}
  {
    var c := b + multiset{e};
    assert e in c && forall f :: f in c <==> f in b || f == e;
    forall id | id in Ids(b) ensures id in Ids(c) {
      var f :| f in b && f.sub.id == id;
      assert f in c;
    }
  }

  lemma IdsTake(b: multiset<Entry>, e: Entry)
    requires Single(b) && e in b
    ensures Ids(b - multiset{e}) == Ids(b) - {e.sub.id}
  {
    SingleTake(b, e);
    var c := b - multiset{e};
    forall id | id in Ids(b) && id != e.sub.id ensures id in Ids(c) {
      var f :| f in b && f.sub.id == id;
      assert f in c;
    }
  }

  lemma FireAdd(firing: multiset<Entry>, running: map<string, string>, e: Entry)
    requires FireInv(firing, running) && e.sub.id !in running && e.sub.instanceID != ""
    ensures FireInv(firing + multiset{e}, running[e.sub.id := e.sub.instanceID])
  {
    FiringIsNotRunning(firing, running, e.sub.id);
    hide Single, Ids;
    SingleAdd(firing, e);
    IdsAdd(firing, e);
  }

  lemma FiringIsNotRunning(firing: multiset<Entry>, running: map<string, string>, id: string)
    requires FireInv(firing, running) && id !in running
    ensures forall f :: f in firing ==> f.sub.id != id
  {
  }

  lemma FireTake(firing: multiset<Entry>, running: map<string, string>, e: Entry)
    requires FireInv(firing, running) && e in firing
    ensures FireInv(firing - multiset{e}, running - {e.sub.id})
  {
    hide Single, Ids;
    SingleTake(firing, e);
    IdsTake(firing, e);
  }

  lemma HeapShrinks(heap: multiset<Entry>, heap': multiset<Entry>, running: map<string, string>,
                    cancelled: set<string>, cancelled': set<string>)
    requires HeapInv(heap, running, cancelled) && heap' <= heap && cancelled <= cancelled'
    ensures HeapInv(heap', running, cancelled')
  {
    SingleSub(heap, heap');
    assert forall e :: e in heap' ==> e in heap;
  }

  /** After a fire of e ends, no heap copy mentions e's id unless it was cancelled, and e itself may
      come back. */
  lemma HeapAfterFinish(heap: multiset<Entry>, running: map<string, string>, cancelled: set<string>, e: Entry)
    requires HeapInv(heap, running, cancelled)
    ensures HeapInv(heap, running - {e.sub.id}, cancelled - {e.sub.id})
    ensures e.sub.id in running && e.sub.id !in cancelled && e.sub.instanceID != "" ==>
              HeapInv(heap + multiset{e}, running - {e.sub.id}, cancelled - {e.sub.id})
  {
    if e.sub.id in running && e.sub.id !in cancelled {
      SingleAdd(heap, e);
    }
  }

  lemma StepKeepsInv(s: State, ev: Event, t: State)
    requires Inv(s) && Step(s, ev, t) && Disciplined(s, ev)
    ensures Inv(t)
  {
    match ev
    case Add(e) => AddKeepsInv(s, e, t);
    case Remove(id) => RemoveKeepsInv(s, id, t);
    case Pause(inst) => HeapShrinks(s.heap, t.heap, s.running, s.cancelled, t.cancelled);
    case Skip(_) =>
    case Start(e) => StartKeepsInv(s, e, t);
    case Finish(e, failed, next) => FinishKeepsInv(s, e, failed, next, t);
  }

  lemma AddKeepsInv(s: State, e: Entry, t: State)
    requires Inv(s) && t == s.(heap := s.heap + multiset{e}) && !Live(s, e.sub.id) && e.sub.instanceID != ""
    ensures Inv(t)
  {
    SingleAdd(s.heap, e);
    assert forall f :: f in t.heap ==> f in s.heap || f == e;
  }

  lemma RemoveKeepsInv(s: State, id: string, t: State)
    requires Inv(s) && RemoveStep(s, id, t)
    ensures Inv(t)
  {
    HeapShrinks(s.heap, t.heap, s.running, s.cancelled, t.cancelled);
  }

  lemma StartKeepsInv(s: State, e: Entry, t: State)
    requires Inv(s) && StartStep(s, e, t)
    ensures Inv(t)
  {
    SingleTake(s.heap, e);
    FireAdd(s.firing, s.running, e);
  }

  lemma FinishKeepsInv(s: State, e: Entry, failed: bool, next: Option<int>, t: State)
    requires Inv(s) && FinishStep(s, e, failed, next, t)
    ensures Inv(t)
  {
    FireTake(s.firing, s.running, e);
    HeapAfterFinish(s.heap, s.running, s.cancelled, if next.Some? then e.(nextFire := next.value) else e);
  }

  /** In every state of every disciplined run: cancelled ids are running, no id has two heap
      copies or a heap copy beside an uncancelled fire, and no two fires of one id overlap. */
  lemma {:induction false} RunKeepsInv(states: seq<State>, events: seq<Event>, i: nat)
    requires IsDisciplinedRun(states, events) && i < |states|
    ensures Inv(states[i])
  {
    if i > 0 {
      RunKeepsInv(states, events, i - 1);
      StepKeepsInv(states[i - 1], events[i - 1], states[i]);
    }
  }

  /** In-flight fires and running keys correspond one to one, so no subscription overlaps itself. */
  lemma FiresMatchRunningKeys(states: seq<State>, events: seq<Event>, i: nat)
    requires IsDisciplinedRun(states, events) && i < |states|
    ensures forall e, f :: e in states[i].firing && f in states[i].firing && e.sub.id == f.sub.id
              ==> e == f && states[i].firing[e] == 1
    ensures states[i].running.Keys == set e | e in states[i].firing :: e.sub.id
  {
    RunKeepsInv(states, events, i);
  }

  // ----- Cancellation -----

  lemma RemoveKills(s: State, id: string, t: State)
    requires Inv(s) && RemoveStep(s, id, t)
    ensures !Live(t, id)
  {
    if InHeap(s, id) {
      var e :| e in s.heap && e.sub.id == id && t == s.(heap := s.heap - multiset{e});
      SingleTake(s.heap, e);
    }
  }

  lemma DeadStaysDead(s: State, ev: Event, t: State, id: string)
    requires Inv(s) && Step(s, ev, t) && !Live(s, id)
    requires !(ev.Add? && ev.added.sub.id == id)
    ensures !Live(t, id)
  {
    StepMembers(s, ev, t);
  }

  /** Once dead at state i, an id does not start at any later event j until it is added again. */
  lemma {:induction false} DeadNeverStarts(states: seq<State>, events: seq<Event>, i: nat, j: nat, id: string)
    requires IsDisciplinedRun(states, events) && i <= j < |events|
    requires !Live(states[i], id)
    requires forall k :: i <= k <= j && events[k].Add? ==> events[k].added.sub.id != id
    ensures !Live(states[j], id)
    ensures events[j].Start? ==> events[j].started.sub.id != id
    decreases j - i
  {
    assert Step(states[i], events[i], states[i + 1]);
    if i < j {
      RunKeepsInv(states, events, i);
      DeadStaysDead(states[i], events[i], states[i + 1], id);
      DeadNeverStarts(states, events, i + 1, j, id);
    }
  }

  /** Removal is final: whenever Remove(id) happens, mid-fire or not, id does not start again
      before it is added again. */
  lemma RemovedNeverStarts(states: seq<State>, events: seq<Event>, i: nat, j: nat, id: string)
    requires IsDisciplinedRun(states, events) && i < j < |events|
    requires events[i] == Remove(id)
    requires forall k :: i < k < j && events[k].Add? ==> events[k].added.sub.id != id
    ensures events[j].Start? ==> events[j].started.sub.id != id
  {
    assert Step(states[i], events[i], states[i + 1]);
    RunKeepsInv(states, events, i);
    RemoveKills(states[i], id, states[i + 1]);
    if events[j].Start? {
      DeadNeverStarts(states, events, i + 1, j, id);
    }
  }

  // ----- Staying live -----

  /** The schedule brings the entry back after every fire that is not cancelled. */
  predicate Recurs(e: Entry) { e.schedule.Some? && !e.sub.trigger.Once? }

  /** The entry waits in the heap, or is firing uncancelled. */
  predicate Carries(s: State, e: Entry) { e in s.heap || (e in s.firing && e.sub.id !in s.cancelled) }

  /** The entry is carried at some next fire time. */
  ghost predicate Armed(s: State, e: Entry) { exists at :: Carries(s, e.(nextFire := at)) }

  /** What ends a subscription: its removal, the pause of its instance, and for a one-shot the end of
      its fire. */
  predicate Ends(ev: Event, e: Entry) {
    || ev == Remove(e.sub.id) || ev == Pause(e.sub.instanceID)
    || (ev.Finish? && ev.finished.sub.id == e.sub.id && !Recurs(e))
  }

  lemma CarriedOn(s: State, ev: Event, t: State, f: Entry)
    requires Inv(s) && Step(s, ev, t) && Carries(s, f) && !Ends(ev, f) && !ev.Finish?
    ensures Carries(t, f)
  {
    match ev
    case Add(e) =>
    case Remove(id) => CarriedPastRemove(s, id, t, f);
    case Pause(_) =>
    case Skip(_) =>
    case Start(e) => CarriedPastStart(s, e, t, f);
  }

  lemma CarriedPastRemove(s: State, id: string, t: State, f: Entry)
    requires RemoveStep(s, id, t) && Carries(s, f) && f.sub.id != id
    ensures Carries(t, f)
  {
  }

  lemma CarriedPastStart(s: State, e: Entry, t: State, f: Entry)
    requires Inv(s) && StartStep(s, e, t) && Carries(s, f)
    ensures Carries(t, f)
  {
    assert e.sub.id !in s.running;
    hide Single, Ids;
    assert f != e ==> f in t.heap || f in t.firing;
  }

  lemma CarriedPastFinish(s: State, e: Entry, failed: bool, next: Option<int>, t: State, f: Entry)
    requires Inv(s) && FinishStep(s, e, failed, next, t) && Carries(s, f)
    requires f.sub.id == e.sub.id ==> Recurs(f)
    ensures Carries(t, f) || (next.Some? && Carries(t, f.(nextFire := next.value)))
  {
    if f in s.heap {
      assert f in t.heap;
    } else if f.sub.id == e.sub.id {
      assert f == e;
      assert f.(nextFire := next.value) in t.heap;
    } else {
      assert f in t.firing;
    }
  }

  lemma StepKeepsArmed(s: State, ev: Event, t: State, e: Entry)
    requires Inv(s) && Step(s, ev, t) && Armed(s, e) && !Ends(ev, e)
    ensures Armed(t, e)
  {
    hide Inv, Step, FinishStep, Carries;
    var at :| Carries(s, e.(nextFire := at));
    var f := e.(nextFire := at);
    match ev
    case Finish(g, failed, next) =>
      FinishedStep(s, g, failed, next, t);
      CarriedPastFinish(s, g, failed, next, t, f);
      if next.Some? {
        assert f.(nextFire := next.value) == e.(nextFire := next.value);
      }
    case _ => CarriedOn(s, ev, t, f);
  }

  lemma FinishedStep(s: State, e: Entry, failed: bool, next: Option<int>, t: State)
    requires Step(s, Finish(e, failed, next), t)
    ensures FinishStep(s, e, failed, next, t)
  {
  }

  lemma AddedIsArmed(s: State, e: Entry, t: State)
    requires Step(s, Add(e), t)
    ensures Armed(t, e)
  {
    assert Carries(t, e.(nextFire := e.nextFire));
  }

  lemma ArmedIsLive(s: State, e: Entry)
    requires Inv(s) && Armed(s, e)
    ensures Live(s, e.sub.id)
  {
    hide Single, HeapInv, Ids;
    var at :| Carries(s, e.(nextFire := at));
    var f := e.(nextFire := at);
    assert f.sub.id == e.sub.id;
  }

  /** A subscription that is neither removed nor paused after it was added is live after every step, a
      recurring one for good and a one-shot until its fire has ended: its entry waits in the heap or
      is firing uncancelled. */
  lemma StaysLive(states: seq<State>, events: seq<Event>, i: nat, j: nat, e: Entry) returns (at: int)
    requires IsDisciplinedRun(states, events) && i < j <= |events| && events[i] == Add(e)
    requires forall k :: i < k < j ==> events[k] != Remove(e.sub.id) && events[k] != Pause(e.sub.instanceID)
    requires e.schedule.None? || e.sub.trigger.Once? ==>
               forall k :: i < k < j && events[k].Finish? ==> events[k].finished.sub.id != e.sub.id
    ensures var s, f := states[j], e.(nextFire := at);
            f in s.heap || (f in s.firing && e.sub.id in s.running && e.sub.id !in s.cancelled)
    ensures Live(states[j], e.sub.id)
  {
    forall k | i < k < j ensures !Ends(events[k], e) {
    }
    hide IsDisciplinedRun, IsRun, Step, Live, Ends, Single, Ids, HeapInv;
    StaysArmed(states, events, i, j, e);
    RunKeepsInv(states, events, j);
    at :| Carries(states[j], e.(nextFire := at));
  }

  lemma {:induction false} StaysArmed(states: seq<State>, events: seq<Event>, i: nat, j: nat, e: Entry)
    requires IsDisciplinedRun(states, events) && i < j <= |events| && events[i] == Add(e)
    requires forall k :: i < k < j ==> !Ends(events[k], e)
    ensures Armed(states[j], e) && Live(states[j], e.sub.id)
    decreases j
  {
    hide IsDisciplinedRun, IsRun, Step, Inv, Armed, Live;
    RunIsStepwise(states, events, j - 1);
    if j == i + 1 {
      AddedIsArmed(states[i], e, states[j]);
    } else {
      StaysArmed(states, events, i, j - 1, e);
      StepKeepsArmed(states[j - 1], events[j - 1], states[j], e);
    }
    ArmedIsLive(states[j], e);
  }

  lemma RunIsStepwise(states: seq<State>, events: seq<Event>, i: nat)
    requires IsDisciplinedRun(states, events) && i < |events|
    ensures |states| == |events| + 1 && Step(states[i], events[i], states[i + 1])
    ensures Inv(states[i]) && Inv(states[i + 1])
  {
    RunKeepsInv(states, events, i);
    RunKeepsInv(states, events, i + 1);
  }

  // ----- Ids keep their instance -----

  /** A subscription id belongs to one instance: it is always added for the same one. */
  ghost predicate OneInstance(events: seq<Event>, id: string, inst: string) {
    forall k :: 0 <= k < |events| && events[k].Add? && events[k].added.sub.id == id
      ==> events[k].added.sub.instanceID == inst
  }

  lemma {:induction false} InstanceIsKept(states: seq<State>, events: seq<Event>, i: nat, id: string, inst: string)
    requires IsRun(states, events) && OneInstance(events, id, inst) && i < |states|
    ensures forall e :: (e in states[i].heap || e in states[i].firing) && e.sub.id == id ==> e.sub.instanceID == inst
    ensures id in states[i].running ==> states[i].running[id] == inst
  {
    if i > 0 {
      InstanceIsKept(states, events, i - 1, id, inst);
      var s, ev, t := states[i - 1], events[i - 1], states[i];
      assert Step(s, ev, t);
      StepMembers(s, ev, t);
      hide Step;
    }
  }

  /** A pause is final too: after PauseInstance(inst), no subscription of inst starts before it is
      added (resumed) again, even one that was firing when the pause came. */
  lemma PausedNeverStarts(states: seq<State>, events: seq<Event>, i: nat, j: nat, id: string, inst: string)
    requires IsDisciplinedRun(states, events) && i < j < |events|
    requires OneInstance(events, id, inst) && events[i] == Pause(inst)
    requires forall k :: i < k < j && events[k].Add? ==> events[k].added.sub.id != id
    ensures events[j].Start? ==> events[j].started.sub.id != id
  {
    var s, t := states[i], states[i + 1];
    assert Step(s, events[i], t);
    InstanceIsKept(states, events, i, id, inst);
    assert forall f :: f in t.heap ==> f.sub.instanceID != inst && f in s.heap;
    if events[j].Start? {
      DeadNeverStarts(states, events, i + 1, j, id);
    }
  }

  // ----- One-shot triggers -----

  ghost function Adds(events: seq<Event>, id: string): nat {
    if events == [] then 0
    else Adds(events[..|events| - 1], id) +
         var ev := events[|events| - 1]; if ev.Add? && ev.added.sub.id == id then 1 else 0
  }

  ghost function Starts(events: seq<Event>, id: string): nat {
    if events == [] then 0
    else Starts(events[..|events| - 1], id) +
         var ev := events[|events| - 1]; if ev.Start? && ev.started.sub.id == id then 1 else 0
  }

  /** A one-shot subscription starts at most once per Add, whether its fire fails or not: every
      start uses up the heap copy of one Add, and no completion puts one back. */
  lemma {:induction false} OnceStartsAtMostOncePerAdd(states: seq<State>, events: seq<Event>, id: string)
    requires IsDisciplinedRun(states, events)
    requires forall k :: 0 <= k < |events| && events[k].Add? && events[k].added.sub.id == id
               ==> events[k].added.schedule.None?
    ensures var s := states[|events|];
            && (forall e :: (e in s.heap || e in s.firing) && e.sub.id == id ==> e.schedule.None?)
            && Starts(events, id) + (if InHeap(s, id) then 1 else 0) <= Adds(events, id)
    decreases |events|
  {
    if events != [] {
      var n := |events| - 1;
      var s, ev, t := states[n], events[n], states[n + 1];
      assert Step(s, ev, t);
      OnceStartsAtMostOncePerAdd(states[..n + 1], events[..n], id);
      RunKeepsInv(states, events, n);
      OnceStep(s, ev, t, id);
    }
  }

  /** Between two starts of a one-shot subscription there is an Add of it, and one before the first. */
  lemma OnceIsAddedBetweenStarts(states: seq<State>, events: seq<Event>, i: int, j: nat, id: string)
    requires IsDisciplinedRun(states, events) && -1 <= i < j < |events|
    requires forall k :: 0 <= k < |events| && events[k].Add? && events[k].added.sub.id == id
               ==> events[k].added.schedule.None?
    requires i >= 0 ==> events[i].Start? && events[i].started.sub.id == id
    requires events[j].Start? && events[j].started.sub.id == id
    ensures exists k :: i < k < j && events[k].Add? && events[k].added.sub.id == id
  {
    if forall k :: i < k < j ==> !(events[k].Add? && events[k].added.sub.id == id) {
      if i >= 0 {
        OnceAt(states, events, i, id);
      }
      StaysOutOfHeap(states, events, i + 1, j, id);
      OnceAt(states, events, j, id);
      assert false;
    }
  }

  lemma OnceAt(states: seq<State>, events: seq<Event>, i: nat, id: string)
    requires IsDisciplinedRun(states, events) && i < |events| < |states|
    requires forall k :: 0 <= k < |events| && events[k].Add? && events[k].added.sub.id == id
               ==> events[k].added.schedule.None?
    ensures events[i].Start? && events[i].started.sub.id == id ==> InHeap(states[i], id) && !InHeap(states[i + 1], id)
    ensures !(events[i].Add? && events[i].added.sub.id == id) && InHeap(states[i + 1], id) ==> InHeap(states[i], id)
  {
    hide IsDisciplinedRun, IsRun, Step, Inv, InHeap, Adds, Starts;
    RunIsStepwise(states, events, i);
    Prefix(states, events, i);
    OnceStartsAtMostOncePerAdd(states[..i + 1], events[..i], id);
    OnceStep(states[i], events[i], states[i + 1], id);
  }

  lemma Prefix(states: seq<State>, events: seq<Event>, i: nat)
    requires IsDisciplinedRun(states, events) && i < |events| < |states|
    ensures IsDisciplinedRun(states[..i + 1], events[..i])
  {
    hide Step, Disciplined;
  }

  lemma {:induction false} StaysOutOfHeap(states: seq<State>, events: seq<Event>, i: nat, j: nat, id: string)
    requires IsDisciplinedRun(states, events) && i <= j <= |events| < |states|
    requires forall k :: 0 <= k < |events| && events[k].Add? && events[k].added.sub.id == id
               ==> events[k].added.schedule.None?
    requires !InHeap(states[i], id) && forall k :: i <= k < j ==> !(events[k].Add? && events[k].added.sub.id == id)
    ensures !InHeap(states[j], id)
    decreases j
  {
    hide IsDisciplinedRun, InHeap;
    if i < j {
      StaysOutOfHeap(states, events, i, j - 1, id);
      OnceAt(states, events, j - 1, id);
    }
  }

  lemma OnceStep(s: State, ev: Event, t: State, id: string)
    requires Inv(s) && Step(s, ev, t)
    requires forall e :: (e in s.heap || e in s.firing) && e.sub.id == id ==> e.schedule.None?
    requires ev.Add? && ev.added.sub.id == id ==> ev.added.schedule.None?
    ensures forall e :: (e in t.heap || e in t.firing) && e.sub.id == id ==> e.schedule.None?
    ensures ev.Start? && ev.started.sub.id == id ==> InHeap(s, id) && !InHeap(t, id)
    ensures !(ev.Add? && ev.added.sub.id == id) && InHeap(t, id) ==> InHeap(s, id)
  {
    StepMembers(s, ev, t);
    if ev.Start? {
      SingleTake(s.heap, ev.started);
    }
  }
}
