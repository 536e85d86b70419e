/** Why callers must add a subscription only while it is not live, and with an instance: exactly when
    an Add keeps the invariant, and exactly when it lets a subscription start after its removal. */
module SchedulerDiscipline {
  import opened Common
  import opened SubscriptionHeap
  import opened SchedulerProtocol

  /** The discipline is what the invariant needs, no more. */
  lemma AddKeepsInvExactly(s: State, e: Entry)
    requires Inv(s)
    ensures Inv(s.(heap := s.heap + multiset{e})) <==> !Live(s, e.sub.id) && e.sub.instanceID != ""
  {
    var t := s.(heap := s.heap + multiset{e});
    assert e in t.heap;
    if InHeap(s, e.sub.id) {
      var f :| f in s.heap && f.sub.id == e.sub.id;
      assert f in t.heap && t.heap[e] == s.heap[e] + 1;
    }
    if !Live(s, e.sub.id) && e.sub.instanceID != "" {
      AddKeepsInv(s, e, t);
    }
  }

  // ----- Starting after a removal -----

  ghost predicate IsRunFrom(s: State, states: seq<State>, events: seq<Event>, id: string) {
    && |states| == |events| + 1 && states[0] == s
    && (forall i :: 0 <= i < |events| ==> Step(states[i], events[i], states[i + 1]))
    && (forall i :: 0 <= i < |events| && events[i].Add? ==> events[i].added.sub.id != id)
  }

  ghost predicate StartsAfterRemove(events: seq<Event>, id: string) {
    exists i, j :: 0 <= i < j < |events| && events[i] == Remove(id) && IsStartOf(events[j], id)
  }

  predicate IsStartOf(ev: Event, id: string) { ev.Start? && ev.started.sub.id == id }

  /** Some run that never adds id again starts it after a Remove(id). */
  ghost predicate Outlives(s: State, id: string) {
    exists states, events :: IsRunFrom(s, states, events, id) && StartsAfterRemove(events, id)
  }

  /** A fire of id is on its way back to the heap. */
  ghost predicate Rearming(s: State, id: string) {
    id !in s.cancelled && exists f :: f in s.firing && f.sub.id == id && f.schedule.Some?
  }

  // ----- Ids that cannot outlive a removal -----

  /** The part of a state that concerns one id, when it has at most one heap copy and one fire. */
  datatype Local = Local(heap: Option<Entry>, fire: Option<Entry>, cancelled: bool)

  /** The only entry of id in a bag. */
  ghost predicate Holds(b: multiset<Entry>, id: string, o: Option<Entry>) {
    && (o.Some? ==> o.value.sub.id == id)
    && forall x: Entry :: x.sub.id == id ==> b[x] == if o == Some(x) then 1 else 0
  }

  ghost predicate Sees(s: State, id: string, l: Local) {
    && Holds(s.heap, id, l.heap) && Holds(s.firing, id, l.fire)
    && (id in s.running <==> l.fire.Some?) && (l.fire.Some? ==> s.running[id] == l.fire.value.sub.instanceID)
    && (id in s.cancelled <==> l.cancelled)
  }

  /** The fire will not put its entry back. */
  predicate Spent(l: Local) { l.cancelled || (l.fire.Some? ==> l.fire.value.schedule.None?) }

  predicate NotLost(o: Option<Entry>) { o.Some? && o.value.sub.instanceID == "" ==> o.value.schedule.None? }

  /** A heap copy only beside a spent fire that Remove can see, and no entry has a schedule without an
      instance. */
  predicate Tame(l: Local) {
    && (l.heap.Some? && l.fire.Some? ==> l.fire.value.sub.instanceID != "" && Spent(l))
    && NotLost(l.heap) && NotLost(l.fire)
    && (l.cancelled ==> l.fire.Some?)
  }

  predicate Quiet(l: Local) { Tame(l) && l.heap.None? && Spent(l) }

  lemma HoldsAdd(b: multiset<Entry>, id: string, o: Option<Entry>, e: Entry)
    requires Holds(b, id, o)
    ensures e.sub.id != id ==> Holds(b + multiset{e}, id, o)
    ensures e.sub.id == id && o.None? ==> Holds(b + multiset{e}, id, Some(e))
  {
  }

  lemma HoldsTake(b: multiset<Entry>, id: string, o: Option<Entry>, e: Entry)
    requires Holds(b, id, o) && e in b
    ensures e.sub.id != id ==> Holds(b - multiset{e}, id, o)
    ensures e.sub.id == id ==> o == Some(e) && Holds(b - multiset{e}, id, None)
  {
  }

  lemma HoldsInHeap(s: State, id: string, l: Local)
    requires Sees(s, id, l)
    ensures InHeap(s, id) <==> l.heap.Some?
  {
    if l.heap.Some? {
      assert s.heap[l.heap.value] == 1;
    }
  }

  /** What a step means for one id. */
  lemma LocalStep(s: State, ev: Event, t: State, id: string, l: Local) returns (m: Local)
    requires Sees(s, id, l) && Tame(l) && Step(s, ev, t) && (ev.Add? ==> ev.added.sub.id != id)
    ensures Sees(t, id, m) && Tame(m)
    ensures ev == Remove(id) || Quiet(l) ==> Quiet(m)
    ensures Quiet(l) ==> !IsStartOf(ev, id)
  {
    hide Holds;
    match ev
    case Add(e) =>
      HoldsAdd(s.heap, id, l.heap, e);
      m := l;
    case Remove(other) => m := LocalRemove(s, other, t, id, l);
    case Pause(inst) => m := LocalPause(s, inst, t, id, l);
    case Skip(_) => m := l;
    case Start(e) => m := LocalStart(s, e, t, id, l);
    case Finish(e, failed, next) => m := LocalFinish(s, e, failed, next, t, id, l);
  }

  lemma LocalRemove(s: State, other: string, t: State, id: string, l: Local) returns (m: Local)
    requires Sees(s, id, l) && Tame(l) && RemoveStep(s, other, t)
    ensures Sees(t, id, m) && Tame(m) && (other == id || Quiet(l) ==> Quiet(m))
  {
    HoldsInHeap(s, id, l);
    hide Holds, InHeap, Sees;
    m := l;
    if InHeap(s, other) {
      var e := Removed(s, other, t);
      m := LocalTake(s, e, t, id, l);
    } else if other == id && RunningFor(s, id) != "" {
      m := l.(cancelled := true);
      SeesCancelled(s, id, l);
    } else {
      SeesOthersCancelled(s, other, t, id, l);
    }
  }

  lemma Removed(s: State, id: string, t: State) returns (e: Entry)
    requires RemoveStep(s, id, t) && InHeap(s, id)
    ensures e in s.heap && e.sub.id == id && t == s.(heap := s.heap - multiset{e})
  {
    hide InHeap;
    e :| e in s.heap && e.sub.id == id && t == s.(heap := s.heap - multiset{e});
  }

  lemma LocalTake(s: State, e: Entry, t: State, id: string, l: Local) returns (m: Local)
    requires Sees(s, id, l) && Tame(l) && e in s.heap && t == s.(heap := s.heap - multiset{e})
    ensures Sees(t, id, m) && Tame(m) && (e.sub.id == id || Quiet(l) ==> Quiet(m))
  {
    hide Holds;
    HoldsTake(s.heap, id, l.heap, e);
    m := if e.sub.id == id then l.(heap := None) else l;
  }

  lemma SeesCancelled(s: State, id: string, l: Local)
    requires Sees(s, id, l) && RunningFor(s, id) != ""
    ensures Sees(s.(cancelled := s.cancelled + {id}), id, l.(cancelled := true)) && l.fire.Some?
  {
    hide Holds;
  }

  lemma SeesOthersCancelled(s: State, other: string, t: State, id: string, l: Local)
    requires Sees(s, id, l) && (t == s || (other != id && t == s.(cancelled := s.cancelled + {other})))
    ensures Sees(t, id, l) && (RunningFor(s, id) == "" && l.fire.Some? ==> l.fire.value.sub.instanceID == "")
  {
    hide Holds;
  }

  lemma LocalPause(s: State, inst: string, t: State, id: string, l: Local) returns (m: Local)
    requires Sees(s, id, l) && Tame(l) && PauseStep(s, inst, t)
    ensures Sees(t, id, m) && Tame(m) && (Quiet(l) ==> Quiet(m))
  {
    m := Local(if l.heap.Some? && l.heap.value.sub.instanceID == inst then None else l.heap, l.fire,
               l.cancelled || (l.fire.Some? && l.fire.value.sub.instanceID == inst));
  }

  lemma LocalStart(s: State, e: Entry, t: State, id: string, l: Local) returns (m: Local)
    requires Sees(s, id, l) && Tame(l) && StartStep(s, e, t)
    ensures Sees(t, id, m) && Tame(m) && (Quiet(l) ==> Quiet(m) && e.sub.id != id)
  {
    hide Holds;
    HoldsTake(s.heap, id, l.heap, e);
    HoldsAdd(s.firing, id, l.fire, e);
    m := if e.sub.id == id then Local(None, Some(e), l.cancelled) else l;
  }

  lemma LocalFinish(s: State, e: Entry, failed: bool, next: Option<int>, t: State, id: string, l: Local)
    returns (m: Local)
    requires Sees(s, id, l) && Tame(l) && FinishStep(s, e, failed, next, t)
    ensures Sees(t, id, m) && Tame(m) && (Quiet(l) ==> Quiet(m))
  {
    hide Holds;
    HoldsTake(s.firing, id, l.fire, e);
    if next.Some? {
      HoldsAdd(s.heap, id, l.heap, e.(nextFire := next.value));
    }
    if e.sub.id == id {
      m := Local(if ReAdds(s, e, next) then Some(e.(nextFire := next.value)) else l.heap, None, false);
    } else {
      m := l;
    }
  }

  lemma StepAt(states: seq<State>, events: seq<Event>, id: string, i: nat)
    requires |states| > 0 && IsRunFrom(states[0], states, events, id) && i < |events|
    ensures Step(states[i], events[i], states[i + 1]) && (events[i].Add? ==> events[i].added.sub.id != id)
  {
    hide Step;
  }

  lemma {:induction false} TameAlong(states: seq<State>, events: seq<Event>, id: string, l: Local, i: nat)
    returns (m: Local)
    requires |states| > 0 && IsRunFrom(states[0], states, events, id) && i < |states|
    requires Sees(states[0], id, l) && Tame(l)
    ensures Sees(states[i], id, m) && Tame(m)
    ensures forall k :: 0 <= k < i && events[k] == Remove(id) ==> Quiet(m)
  {
    hide Tame, Quiet, Step, Sees;
    m := l;
    if i > 0 {
      var k := TameAlong(states, events, id, l, i - 1);
      StepAt(states, events, id, i - 1);
      m := LocalStep(states[i - 1], events[i - 1], states[i], id, k);
    }
  }

  lemma QuietNeverStarts(states: seq<State>, events: seq<Event>, id: string, l: Local, i: nat, j: nat)
    requires |states| > 0 && IsRunFrom(states[0], states, events, id)
    requires Sees(states[0], id, l) && Tame(l)
    requires i < j < |events| && events[i] == Remove(id)
    ensures !IsStartOf(events[j], id)
  {
    hide Tame, Quiet, Step, Sees;
    var m := TameAlong(states, events, id, l, j);
    StepAt(states, events, id, j);
    var n := LocalStep(states[j], events[j], states[j + 1], id, m);
  }

  lemma SingleHolds(b: multiset<Entry>, id: string) returns (o: Option<Entry>)
    requires Single(b)
    ensures Holds(b, id, o) && (o.Some? <==> exists x :: x in b && x.sub.id == id)
    ensures o.Some? ==> o.value in b
  {
    if x :| x in b && x.sub.id == id {
      o := Some(x);
    } else {
      o := None;
    }
  }

  lemma AddedIsTame(s: State, e: Entry) returns (l: Local)
    requires Inv(s) && !InHeap(s, e.sub.id) && !Rearming(s, e.sub.id)
    requires e.sub.instanceID == "" ==> e.schedule.None?
    ensures Sees(s.(heap := s.heap + multiset{e}), e.sub.id, l) && Tame(l)
  {
    var id := e.sub.id;
    var h := SingleHolds(s.heap, id);
    var f := SingleHolds(s.firing, id);
    hide Holds;
    HoldsAdd(s.heap, id, h, e);
    assert id in s.running <==> id in Ids(s.firing);
    l := Local(Some(e), f, id in s.cancelled);
  }

  // ----- Ids that can -----

  /** Some run that never adds id starts it. */
  ghost predicate CanStart(s: State, id: string) {
    exists states, events ::
      IsRunFrom(s, states, events, id) && |events| > 0 && IsStartOf(events[|events| - 1], id)
  }

  lemma RunPrepend(s: State, ev: Event, states: seq<State>, events: seq<Event>, id: string)
    requires |states| > 0 && IsRunFrom(states[0], states, events, id)
    requires Step(s, ev, states[0]) && (ev.Add? ==> ev.added.sub.id != id)
    ensures IsRunFrom(s, [s] + states, [ev] + events, id)
  {
    hide Step;
    var ss, es := [s] + states, [ev] + events;
    forall k | 0 <= k < |es| ensures Step(ss[k], es[k], ss[k + 1]) && (es[k].Add? ==> es[k].added.sub.id != id) {
      if k > 0 {
        assert Step(states[k - 1], events[k - 1], states[k - 1 + 1]);
        assert es[k] == events[k - 1] && ss[k] == states[k - 1] && ss[k + 1] == states[k];
      }
    }
  }

  lemma StartNow(s: State, e: Entry, t: State)
    requires StartStep(s, e, t)
    ensures CanStart(s, e.sub.id)
  {
    assert IsRunFrom(s, [s, t], [Start(e)], e.sub.id);
    assert IsStartOf([Start(e)][|[Start(e)]| - 1], e.sub.id);
  }

  lemma StartLater(s: State, ev: Event, t: State, id: string)
    requires Step(s, ev, t) && (ev.Add? ==> ev.added.sub.id != id) && CanStart(t, id)
    ensures CanStart(s, id)
  {
    hide Step, IsRunFrom;
    var states, events :| IsRunFrom(t, states, events, id) && |events| > 0 && IsStartOf(events[|events| - 1], id);
    RunStarts(t, states, events, id);
    RunPrepend(s, ev, states, events, id);
    assert ([ev] + events)[|[ev] + events| - 1] == events[|events| - 1];
  }

  lemma RunStarts(s: State, states: seq<State>, events: seq<Event>, id: string)
    requires IsRunFrom(s, states, events, id)
    ensures |states| > 0 && states[0] == s
  {
  }

  lemma RemoveNow(s: State, t: State, id: string)
    requires RemoveStep(s, id, t) && CanStart(t, id)
    ensures Outlives(s, id)
  {
    hide IsRunFrom, RemoveStep;
    var states, events :| IsRunFrom(t, states, events, id) && |events| > 0 && IsStartOf(events[|events| - 1], id);
    RunStarts(t, states, events, id);
    assert Step(s, Remove(id), t);
    RunPrepend(s, Remove(id), states, events, id);
    var es := [Remove(id)] + events;
    assert es[0] == Remove(id) && IsStartOf(es[|events|], id);
    assert StartsAfterRemove(es, id);
  }

  lemma RemoveLater(s: State, ev: Event, t: State, id: string)
    requires Step(s, ev, t) && (ev.Add? ==> ev.added.sub.id != id) && Outlives(t, id)
    ensures Outlives(s, id)
  {
    hide Step, IsRunFrom;
    var states, events :| IsRunFrom(t, states, events, id) && StartsAfterRemove(events, id);
    RunStarts(t, states, events, id);
    RunPrepend(s, ev, states, events, id);
    var i, j :| 0 <= i < j < |events| && events[i] == Remove(id) && IsStartOf(events[j], id);
    var es := [ev] + events;
    assert es[i + 1] == events[i] && es[j + 1] == events[j];
    assert StartsAfterRemove(es, id);
  }

  lemma IdleFire(s: State, id: string) returns (f: Entry)
    requires Inv(s) && id in s.running
    ensures f in s.firing && f.sub.id == id
  {
    assert id in Ids(s.firing);
    f :| f in s.firing && f.sub.id == id;
  }

  lemma TakeAdded(b: multiset<Entry>, e: Entry)
    ensures e in b + multiset{e} && (b + multiset{e}) - multiset{e} == b
  {
  }

  lemma AddedIsRemoved(s: State, e: Entry)
    ensures RemoveStep(s.(heap := s.heap + multiset{e}), e.sub.id, s)
  {
    TakeAdded(s.heap, e);
    var t := s.(heap := s.heap + multiset{e});
    assert e in t.heap && s == t.(heap := t.heap - multiset{e});
  }

  function Started(s: State, e: Entry): State {
    s.(heap := s.heap - multiset{e}, running := s.running[e.sub.id := e.sub.instanceID],
       firing := s.firing + multiset{e})
  }

  function Finished(s: State, e: Entry): State {
    State(s.heap, s.running - {e.sub.id}, s.cancelled - {e.sub.id}, s.firing - multiset{e})
  }

  function Back(e: Entry): Entry { e.(nextFire := 0) }

  /** Two copies: one is removed, the other starts. */
  lemma SecondCopyStarts(s: State, g: Entry, e: Entry)
    requires g in s.heap && g.sub.id == e.sub.id && e.sub.id !in s.running
    ensures Outlives(s.(heap := s.heap + multiset{e}), e.sub.id)
  {
    var t := s.(heap := s.heap + multiset{e});
    AddedIsRemoved(s, e);
    StartNow(s, g, Started(s, g));
    RemoveNow(t, s, e.sub.id);
  }

  /** A fire that is not cancelled goes back to the heap, at least if it fails, and starts again. */
  lemma Rearms(s: State, f: Entry)
    requires f in s.firing && f.sub.id !in s.cancelled && f.schedule.Some?
    ensures CanStart(s, f.sub.id)
  {
    var u := Finished(s, f).(heap := s.heap + multiset{Back(f)});
    TakeAdded(s.heap, Back(f));
    assert FinishStep(s, f, true, Some(0), u) && StartStep(u, Back(f), Started(u, Back(f)));
    hide StartStep, FinishStep, Started, Finished, CanStart;
    StartNow(u, Back(f), Started(u, Back(f)));
    StartLater(s, Finish(f, true, Some(0)), u, f.sub.id);
  }

  /** The removal takes the new copy, and the fire goes back to the heap. */
  lemma FireComesBack(s: State, f: Entry, e: Entry)
    requires f in s.firing && f.sub.id == e.sub.id && e.sub.id !in s.cancelled && f.schedule.Some?
    ensures Outlives(s.(heap := s.heap + multiset{e}), e.sub.id)
  {
    hide RemoveStep, CanStart, Outlives;
    AddedIsRemoved(s, e);
    Rearms(s, f);
    RemoveNow(s.(heap := s.heap + multiset{e}), s, e.sub.id);
  }

  /** A fire without an instance is invisible to the removal. */
  lemma UnseenFireComesBack(s: State, e: Entry)
    requires !InHeap(s, e.sub.id) && e.sub.id !in s.running && e.sub.id !in s.cancelled
    requires e.sub.instanceID == "" && e.schedule.Some?
    ensures Outlives(s.(heap := s.heap + multiset{e}), e.sub.id)
  {
    var t := s.(heap := s.heap + multiset{e});
    var u := Started(t, e);
    StartUnseen(s, e);
    hide RemoveStep, StartStep, CanStart, Outlives, Started, InHeap;
    Rearms(u, e);
    RemoveNow(u, u, e.sub.id);
    RemoveLater(t, Start(e), u, e.sub.id);
  }

  lemma StartUnseen(s: State, e: Entry)
    requires !InHeap(s, e.sub.id) && e.sub.id !in s.running && e.sub.id !in s.cancelled && e.sub.instanceID == ""
    ensures var t := s.(heap := s.heap + multiset{e});
            var u := Started(t, e);
            StartStep(t, e, u) && RemoveStep(u, e.sub.id, u) && e in u.firing && u.cancelled == s.cancelled
  {
    var t := s.(heap := s.heap + multiset{e});
    var u := Started(t, e);
    TakeAdded(s.heap, e);
    assert u.heap == s.heap;
    assert !InHeap(u, e.sub.id);
  }

  /** After Add(e), and no further Add of its id, the id can start after a Remove exactly if a copy of
      it was already in the heap, or a fire of it was to come back, or e has a schedule but no
      instance. */
  lemma OutlivesExactly(s: State, e: Entry)
    requires Inv(s)
    ensures Outlives(s.(heap := s.heap + multiset{e}), e.sub.id) <==>
            InHeap(s, e.sub.id) || Rearming(s, e.sub.id) || (e.sub.instanceID == "" && e.schedule.Some?)
  {
    hide Outlives, Inv;
    var t, id := s.(heap := s.heap + multiset{e}), e.sub.id;
    if Rearming(s, id) {
      var f :| f in s.firing && f.sub.id == id && f.schedule.Some?;
      FireComesBack(s, f, e);
    } else if InHeap(s, id) || (e.sub.instanceID == "" && e.schedule.Some?) {
      IdleOutlives(s, e);
    } else {
      TameDoesNotOutlive(s, e);
    }
  }

  lemma TameDoesNotOutlive(s: State, e: Entry)
    requires Inv(s) && !InHeap(s, e.sub.id) && !Rearming(s, e.sub.id)
    requires e.sub.instanceID == "" ==> e.schedule.None?
    ensures !Outlives(s.(heap := s.heap + multiset{e}), e.sub.id)
  {
    var t, id := s.(heap := s.heap + multiset{e}), e.sub.id;
    var l := AddedIsTame(s, e);
    hide Tame, Sees, Inv, Step, InHeap, Rearming;
    forall states, events | IsRunFrom(t, states, events, id) ensures !StartsAfterRemove(events, id) {
      forall i, j | 0 <= i < j < |events| && events[i] == Remove(id) ensures !IsStartOf(events[j], id) {
        QuietNeverStarts(states, events, id, l, i, j);
      }
    }
  }

  /** Once a fire that does not come back has ended. */
  lemma IdleOutlives(s: State, e: Entry)
    requires Inv(s) && !Rearming(s, e.sub.id)
    requires InHeap(s, e.sub.id) || (e.sub.instanceID == "" && e.schedule.Some?)
    ensures Outlives(s.(heap := s.heap + multiset{e}), e.sub.id)
  {
    hide Inv, InHeap, Finished, FinishStep, Outlives;
    if e.sub.id in s.running {
      var f := IdleFire(s, e.sub.id);
      var t, u := s.(heap := s.heap + multiset{e}), Finished(s, f);
      var next := if f.schedule.Some? then Some(0) else None;
      FinishFirst(s, f, e, next);
      FinishKeepsInv(s, f, true, next, u);
      NotRunningOutlives(u, e);
      RemoveLater(t, Finish(f, true, next), u.(heap := u.heap + multiset{e}), e.sub.id);
    } else {
      NotRunningOutlives(s, e);
    }
  }

  lemma FinishFirst(s: State, f: Entry, e: Entry, next: Option<int>)
    requires f in s.firing && f.sub.id == e.sub.id && (next.Some? <==> f.schedule.Some?)
    requires next.Some? ==> f.sub.id in s.cancelled
    ensures var u := Finished(s, f);
            && FinishStep(s, f, true, next, u)
            && FinishStep(s.(heap := s.heap + multiset{e}), f, true, next, u.(heap := u.heap + multiset{e}))
            && (InHeap(u, e.sub.id) <==> InHeap(s, e.sub.id)) && e.sub.id !in u.running
  {
  }

  lemma NotRunningOutlives(s: State, e: Entry)
    requires Inv(s) && e.sub.id !in s.running
    requires InHeap(s, e.sub.id) || (e.sub.instanceID == "" && e.schedule.Some?)
    ensures Outlives(s.(heap := s.heap + multiset{e}), e.sub.id)
  {
    if InHeap(s, e.sub.id) {
      var g :| g in s.heap && g.sub.id == e.sub.id;
      SecondCopyStarts(s, g, e);
    } else {
      UnseenFireComesBack(s, e);
    }
  }

  // ----- From the empty scheduler -----

  /** Adding a live id leaves a copy behind that a removal does not reach. */
  lemma DuplicateOutlivesRemoval(e: Entry) returns (states: seq<State>, events: seq<Event>)
    requires e.sub.instanceID != ""
    ensures IsRun(states, events) && events == [Add(e), Add(e), Remove(e.sub.id), Start(e)]
  {
    var one := INITIAL.(heap := multiset{e});
    var two := INITIAL.(heap := multiset{e, e});
    events := [Add(e), Add(e), Remove(e.sub.id), Start(e)];
    states := [INITIAL, one, two, one, State(multiset{}, map[e.sub.id := e.sub.instanceID], {}, multiset{e})];
    assert e in two.heap && two.heap - multiset{e} == one.heap;
  }

  /** With an empty instance id a fire is invisible to Remove, and its completion re-adds it. */
  lemma EmptyInstanceOutlivesRemoval(e: Entry, next: int) returns (states: seq<State>, events: seq<Event>)
    requires e.sub.instanceID == "" && e.schedule.Some?
    ensures IsRun(states, events)
    ensures events == [Add(e), Start(e), Remove(e.sub.id), Finish(e, true, Some(next)), Start(e.(nextFire := next))]
  {
    var again := e.(nextFire := next);
    var added := INITIAL.(heap := multiset{e});
    var fired := State(multiset{}, map[e.sub.id := ""], {}, multiset{e});
    var back := INITIAL.(heap := multiset{again});
    events := [Add(e), Start(e), Remove(e.sub.id), Finish(e, true, Some(next)), Start(again)];
    states := [INITIAL, added, fired, fired, back, State(multiset{}, map[e.sub.id := ""], {}, multiset{again})];
    assert fired.running - {e.sub.id} == map[];
  }
}
