/** The registry over whole runs from the empty one. Ids are created once, under a parent created
    before; after that they may be dropped and registered again under the same parent any number of
    times. That every reachable registry is a forest follows from this alone. */
module RegistryRuns {
  import opened Registry

  // ----- The log of creations -----

  datatype Creation = Creation(id: string, parentID: string)

  /** Position of an id in the log, counted from 1; 0 if it was never created. */
  function BornIn(log: seq<Creation>, id: string): nat {
    if log == [] then 0
    else if log[|log| - 1].id == id then |log|
    else BornIn(log[..|log| - 1], id)
  }

  function ParentIn(log: seq<Creation>, id: string): string {
    if log == [] then ""
    else if log[|log| - 1].id == id then log[|log| - 1].parentID
    else ParentIn(log[..|log| - 1], id)
  }

  predicate IsNew(log: seq<Creation>, c: Creation) {
    c.id != "" && BornIn(log, c.id) == 0 && (c.parentID == "" || BornIn(log, c.parentID) > 0)
  }

  predicate WellCreated(log: seq<Creation>) {
    log == [] || (WellCreated(log[..|log| - 1]) && IsNew(log[..|log| - 1], log[|log| - 1]))
  }

  predicate Created(log: seq<Creation>, id: string) { exists i :: 0 <= i < |log| && log[i].id == id }

  /** An id counts as created iff some entry of the log creates it. */
  lemma {:induction false} BornIffCreated(log: seq<Creation>, id: string)
    ensures BornIn(log, id) > 0 <==> Created(log, id)
  {
    if log != [] {
      var n := |log| - 1;
      BornIffCreated(log[..n], id);
      if Created(log[..n], id) {
        var i :| 0 <= i < n && log[..n][i].id == id;
        assert log[i].id == id;
      }
      if i :| 0 <= i < |log| && log[i].id == id && i < n {
        assert log[..n][i].id == id;
      }
    }
  }

  /** The last entry of an id gives its position and its parent. */
  lemma {:induction false} LastEntryCounts(log: seq<Creation>, id: string, i: nat)
    requires i < |log| && log[i].id == id && forall j :: i < j < |log| ==> log[j].id != id
    ensures BornIn(log, id) == i + 1 && ParentIn(log, id) == log[i].parentID
  {
    if i < |log| - 1 {
      LastEntryCounts(log[..|log| - 1], id, i);
    }
  }

  /** A creation is new iff its id is no empty and no earlier id, and its parent, if any, is earlier. */
  lemma NewExactly(log: seq<Creation>, c: Creation)
    ensures IsNew(log, c) <==> c.id != "" && !Created(log, c.id) && (c.parentID == "" || Created(log, c.parentID))
  {
    BornIffCreated(log, c.id);
    BornIffCreated(log, c.parentID);
  }

  function Born(log: seq<Creation>): string -> nat { id => BornIn(log, id) }

  function Parent(log: seq<Creation>): string -> string { id => ParentIn(log, id) }

  /** An id's parent id is fixed when it is created, and the parent is older. */
  ghost predicate Lineage(parent: string -> string, born: string -> nat) {
    forall c :: parent(c) != "" ==> born(parent(c)) < born(c)
  }

  ghost predicate Follows(r: Registry, parent: string -> string) {
    forall c :: c in r.instances ==> r.instances[c].parentID == parent(c)
  }

  lemma {:induction false} BornIsBounded(log: seq<Creation>, id: string)
    ensures BornIn(log, id) <= |log|
    ensures BornIn(log, id) == 0 ==> ParentIn(log, id) == ""
  {
    if log != [] {
      BornIsBounded(log[..|log| - 1], id);
    }
  }

  /** The log gives every id its lineage. */
  lemma {:induction false} ParentIsOlder(log: seq<Creation>, id: string)
    requires WellCreated(log) && ParentIn(log, id) != ""
    ensures 0 < BornIn(log, ParentIn(log, id)) < BornIn(log, id)
  {
    var front, last := log[..|log| - 1], log[|log| - 1];
    if last.id == id {
      BornIsBounded(front, last.parentID);
      assert last.parentID != last.id;
    } else {
      ParentIsOlder(front, id);
      BornIsBounded(front, ParentIn(front, id));
      assert ParentIn(front, id) != last.id;
    }
  }

  lemma LogIsLineage(log: seq<Creation>)
    requires WellCreated(log)
    ensures Lineage(Parent(log), Born(log))
  {
    forall c | Parent(log)(c) != "" ensures Born(log)(Parent(log)(c)) < Born(log)(c) {
      ParentIsOlder(log, c);
    }
  }

  /** Later creations change nothing about earlier ones. */
  lemma {:induction false} LogGrows(log: seq<Creation>, full: seq<Creation>, id: string)
    requires log <= full && WellCreated(full)
    ensures WellCreated(log)
    ensures BornIn(log, id) > 0 ==> BornIn(full, id) == BornIn(log, id) && ParentIn(full, id) == ParentIn(log, id)
    decreases |full|
  {
    if log == full {
      assert full == log;
    } else {
      var front := full[..|full| - 1];
      assert log <= front;
      LogGrows(log, front, id);
    }
  }

  // ----- Steps -----

  datatype State = State(registry: Registry, log: seq<Creation>)

  const EMPTY := State(Registry(map[], map[]), [])

  datatype Event =
    | Create(id: string, inst: Instance)        // a fresh id
    | Enroll(id: string, inst: Instance)        // restart, failed restart, or restore after a reboot
    | Drop(id: string, inst: Instance)          // unregisterLocked, possibly with a stale instance
    | Forget(id: string)                        // unregisterLocked without an instance
    | SetStatus(id: string, status: Status)
    | Reboot                                    // the process starts again with an empty registry

  ghost predicate Step(s: State, ev: Event, t: State) {
    match ev
    case Create(id, inst) =>
      IsNew(s.log, Creation(id, inst.parentID))
      && t == State(Register(s.registry, id, inst), s.log + [Creation(id, inst.parentID)])
    case Enroll(id, inst) =>
      IsOwn(s, id, inst) && t == s.(registry := Register(s.registry, id, inst))
    case Drop(id, inst) =>
      IsOwn(s, id, inst) && t == s.(registry := Unregister(s.registry, id, inst))
    case Forget(id) =>
      id !in s.registry.instances
      && t == s.(registry := Registry(s.registry.instances - {id}, s.registry.children - {id}))
    case SetStatus(id, status) =>
      id in s.registry.instances
      && t == s.(registry := s.registry.(instances := s.registry.instances[id := s.registry.instances[id].(status := status)]))
    case Reboot => t == s.(registry := Registry(map[], map[]))
  }

  /** An instance of a created id: its parent id is the one it was created with. */
  predicate IsOwn(s: State, id: string, inst: Instance) {
    BornIn(s.log, id) > 0 && inst.parentID == ParentIn(s.log, id)
  }

  /** An id is registered again only while its parent does not list it; an id that is not registered
      is not listed. */
  predicate Disciplined(s: State, ev: Event) { ev.Enroll? ==> ev.id !in Kids(s.registry, ev.inst.parentID) }

  ghost predicate IsRun(states: seq<State>, events: seq<Event>) {
    && |states| == |events| + 1 && states[0] == EMPTY
    && forall i :: 0 <= i < |events| ==> Step(states[i], events[i], states[i + 1]) && Disciplined(states[i], events[i])
  }

  // ----- The invariant -----

  /** Stated with any longer log, so that one lineage serves a whole run. */
  ghost predicate Fits(s: State, full: seq<Creation>) {
    && s.log <= full && WellCreated(full)
    && Inv(s.registry, Born(full)) && Follows(s.registry, Parent(full))
    && (forall c :: c in s.registry.instances ==> BornIn(s.log, c) > 0)
  }

  lemma FitsInv(s: State, full: seq<Creation>)
    requires Fits(s, full)
    ensures Inv(s.registry, Born(full)) && WellCreated(full)
    ensures forall c :: c in s.registry.instances ==> BornIn(s.log, c) > 0
                                                      && s.registry.instances[c].parentID == ParentIn(full, c)
  {
  }

  lemma FitsLonger(s: State, full: seq<Creation>)
    requires Fits(s, s.log) && s.log <= full && WellCreated(full)
    ensures Fits(s, full)
  {
    forall c | c in s.registry.instances
      ensures s.registry.instances[c].parentID == Parent(full)(c)
      ensures ParentIn(full, c) != "" ==> BornIn(full, ParentIn(full, c)) < BornIn(full, c)
    {
      LogGrows(s.log, full, c);
      if ParentIn(full, c) != "" {
        ParentIsOlder(full, c);
      }
    }
  }

  lemma OwnFits(s: State, full: seq<Creation>, id: string, inst: Instance)
    requires s.log <= full && WellCreated(full) && IsOwn(s, id, inst)
    ensures inst.parentID == Parent(full)(id)
    ensures inst.parentID != "" ==> Born(full)(inst.parentID) < Born(full)(id)
  {
    LogGrows(s.log, full, id);
    if inst.parentID != "" {
      ParentIsOlder(full, id);
    }
  }

  lemma StepKeepsFits(s: State, ev: Event, t: State, full: seq<Creation>)
    requires Fits(s, full) && Step(s, ev, t) && Disciplined(s, ev) && t.log <= full
    ensures Fits(t, full)
  {
    hide Inv, Follows, WellCreated, Register, Unregister;
    match ev
    case Create(id, inst) => CreateKeepsFits(s, id, inst, t, full);
    case Enroll(id, inst) =>
      OwnFits(s, full, id, inst);
      RegisterFollows(s, full, id, inst);
      RegisterKeepsInvExactlyWhenUnlisted(s.registry, Born(full), id, inst);
    case Drop(id, inst) =>
      OwnFits(s, full, id, inst);
      UnregisterFollows(s, full, id, inst);
      UnregisterKeepsInv(s.registry, Born(full), id, inst);
    case Forget(id) => ForgetFits(s, id, t, full);
    case SetStatus(id, status) => StatusFits(s, id, status, t, full);
    case Reboot => NothingFits(Parent(full), Born(full));
  }

  lemma RegisterFollows(s: State, full: seq<Creation>, id: string, inst: Instance)
    requires Follows(s.registry, Parent(full)) && inst.parentID == Parent(full)(id)
    ensures Follows(Register(s.registry, id, inst), Parent(full))
    ensures id in s.registry.instances ==> s.registry.instances[id].parentID == inst.parentID
    ensures forall c :: c in Register(s.registry, id, inst).instances ==> c == id || c in s.registry.instances
  {
  }

  lemma UnregisterFollows(s: State, full: seq<Creation>, id: string, inst: Instance)
    requires Follows(s.registry, Parent(full)) && inst.parentID == Parent(full)(id)
    ensures Follows(Unregister(s.registry, id, inst), Parent(full))
    ensures id in s.registry.instances ==> s.registry.instances[id].parentID == inst.parentID
    ensures forall c :: c in Unregister(s.registry, id, inst).instances ==> c in s.registry.instances
  {
  }

  lemma ForgetFits(s: State, id: string, t: State, full: seq<Creation>)
    requires Fits(s, full) && Step(s, Forget(id), t)
    ensures Fits(t, full)
  {
    assert t.registry.instances == s.registry.instances;
    UnregisterKeepsInv(s.registry, Born(full), id, Instance("", false, Stopped));
    hide Inv, WellCreated;
  }

  lemma StatusFits(s: State, id: string, status: Status, t: State, full: seq<Creation>)
    requires Fits(s, full) && Step(s, SetStatus(id, status), t)
    ensures Fits(t, full)
  {
    hide WellCreated;
    SameParentsKeepInv(s.registry, Born(full), t.registry);
    hide Inv;
  }

  lemma NothingFits(parent: string -> string, born: string -> nat)
    ensures Inv(Registry(map[], map[]), born) && Follows(Registry(map[], map[]), parent)
  {
  }

  lemma CreateKeepsFits(s: State, id: string, inst: Instance, t: State, full: seq<Creation>)
    requires Fits(s, full) && Step(s, Create(id, inst), t) && t.log <= full
    ensures Fits(t, full)
  {
    hide Inv;
    var c := Creation(id, inst.parentID);
    assert t.log[..|s.log|] == s.log && t.log[|s.log|] == c;
    assert IsOwn(t, id, inst);
    OwnFits(t, full, id, inst);
    forall x | x in t.registry.instances ensures BornIn(t.log, x) > 0 {
    }
    NotRegisteredNotListed(s.registry, Born(full), id, inst.parentID);
    RegisterKeepsInvExactlyWhenUnlisted(s.registry, Born(full), id, inst);
  }

  lemma NotRegisteredNotListed(r: Registry, born: string -> nat, id: string, p: string)
    requires Inv(r, born) && id !in r.instances
    ensures id !in Kids(r, p)
  {
    InvFacts(r, born);
  }

  lemma {:induction false} RunFits(states: seq<State>, events: seq<Event>, i: nat, full: seq<Creation>)
    requires IsRun(states, events) && i < |states| && states[i].log <= full && WellCreated(full)
    ensures Fits(states[i], full)
  {
    hide Fits, Step, Disciplined, WellCreated;
    if i == 0 {
      EmptyFits(full);
    } else {
      assert Step(states[i - 1], events[i - 1], states[i - 1 + 1]);
      StepGrowsLog(states[i - 1], events[i - 1], states[i]);
      RunFits(states, events, i - 1, full);
      StepKeepsFits(states[i - 1], events[i - 1], states[i], full);
    }
  }

  lemma EmptyFits(full: seq<Creation>)
    requires WellCreated(full)
    ensures Fits(EMPTY, full)
  {
  }

  lemma StepGrowsLog(s: State, ev: Event, t: State)
    requires Step(s, ev, t)
    ensures s.log <= t.log && (WellCreated(s.log) ==> WellCreated(t.log))
  {
    if ev.Create? {
      assert t.log[..|t.log| - 1] == s.log;
    }
  }

  lemma {:induction false} RunLog(states: seq<State>, events: seq<Event>, i: nat)
    requires IsRun(states, events) && i < |states|
    ensures WellCreated(states[i].log) && forall k :: 0 <= k <= i ==> states[k].log <= states[i].log
  {
    hide Step, Disciplined, WellCreated;
    if i == 0 {
      EmptyLog();
    } else {
      RunLog(states, events, i - 1);
      assert Step(states[i - 1], events[i - 1], states[i - 1 + 1]);
      StepGrowsLog(states[i - 1], events[i - 1], states[i]);
    }
  }

  lemma EmptyLog()
    ensures WellCreated([])
  {
  }

  /** Every reachable registry satisfies the listing invariant with the order of creation as birth
      order, and every registered instance has the parent id it was created with. */
  lemma ReachableIsForest(states: seq<State>, events: seq<Event>, i: nat)
    requires IsRun(states, events) && i < |states|
    ensures var s := states[i];
            && Lineage(Parent(s.log), Born(s.log))
            && Inv(s.registry, Born(s.log)) && Follows(s.registry, Parent(s.log))
  {
    RunLog(states, events, i);
    RunFits(states, events, i, states[i].log);
    LogIsLineage(states[i].log);
  }

  /** What is removed is gone from both maps as a key, by a reboot everything is; the log remembers it. */
  lemma RemovedIsGone(s: State, ev: Event, t: State, id: string)
    requires WellCreated(s.log) && Step(s, ev, t) && (ev == Forget(id) || (ev.Drop? && ev.id == id) || ev.Reboot?)
    ensures id !in t.registry.instances && id !in t.registry.children && t.log == s.log
    ensures !ev.Reboot? ==> t.registry.instances == s.registry.instances - {id}
    ensures ev.Reboot? ==> t.registry.instances == map[] && t.registry.children == map[]
  {
    if ev.Drop? && ev.inst.parentID == id != "" {
      ParentIsOlder(s.log, id);
    }
  }

  /** In every reachable state a fresh id can be created, by itself or under any registered instance,
      and any id created before can be registered again under its own parent. */
  lemma AlwaysEnabled(states: seq<State>, events: seq<Event>, i: nat, id: string, inst: Instance)
    requires IsRun(states, events) && i < |states| && id != ""
    requires inst.parentID == "" || inst.parentID in states[i].registry.instances
    ensures !Created(states[i].log, id) ==> exists t :: Step(states[i], Create(id, inst), t)
    ensures (Created(states[i].log, id) && forall c :: c in states[i].log && c.id == id ==> c.parentID == inst.parentID) ==>
              (exists t :: Step(states[i], Enroll(id, inst), t)) && (exists t :: Step(states[i], Drop(id, inst), t))
  {
    var s := states[i];
    RunLog(states, events, i);
    RunFits(states, events, i, s.log);
    FitsInv(s, s.log);
    BornIffCreated(s.log, inst.parentID);
    NewExactly(s.log, Creation(id, inst.parentID));
    hide Fits, IsRun, Register, Unregister;
    if !Created(s.log, id) {
      assert Step(s, Create(id, inst), State(Register(s.registry, id, inst), s.log + [Creation(id, inst.parentID)]));
    } else if forall c :: c in s.log && c.id == id ==> c.parentID == inst.parentID {
      OwnParent(s.log, id, inst.parentID);
      BornIffCreated(s.log, id);
      assert Step(s, Enroll(id, inst), s.(registry := Register(s.registry, id, inst)));
      assert Step(s, Drop(id, inst), s.(registry := Unregister(s.registry, id, inst)));
    }
  }

  lemma {:induction false} OwnParent(log: seq<Creation>, id: string, parentID: string)
    requires Created(log, id) && forall c :: c in log && c.id == id ==> c.parentID == parentID
    ensures ParentIn(log, id) == parentID
  {
    var n := |log| - 1;
    assert log == log[..n] + [log[n]];
    if log[n].id == id {
      assert log[n] in log;
    } else {
      var i :| 0 <= i < |log| && log[i].id == id;
      assert log[..n][i].id == id;
      OwnParent(log[..n], id, parentID);
    }
  }

  /** Parent links close no cycle. */
  lemma NoParentCycle(states: seq<State>, events: seq<Event>, i: nat, chain: seq<string>)
    requires IsRun(states, events) && i < |states| && |chain| > 1
    requires forall k :: 0 <= k < |chain| - 1 ==> IsLink(states[i].registry, chain[k], chain[k + 1])
    ensures chain[0] != chain[|chain| - 1]
  {
    ReachableIsForest(states, events, i);
    ChainGrowsOlder(states[i].registry, Born(states[i].log), chain);
  }

  lemma {:induction false} ChainGrowsOlder(r: Registry, born: string -> nat, chain: seq<string>)
    requires Inv(r, born) && |chain| > 1
    requires forall k :: 0 <= k < |chain| - 1 ==> IsLink(r, chain[k], chain[k + 1])
    ensures born(chain[|chain| - 1]) < born(chain[0])
  {
    hide Inv;
    var n := |chain| - 1;
    assert IsLink(r, chain[n - 1], chain[(n - 1) + 1]);
    LinkIsOlder(r, born, chain[n - 1], chain[n]);
    if n > 1 {
      var front := chain[..n];
      forall k | 0 <= k < |front| - 1 ensures IsLink(r, front[k], front[k + 1]) {
        assert IsLink(r, chain[k], chain[k + 1]);
      }
      ChainGrowsOlder(r, born, front);
    }
  }

  lemma LinkIsOlder(r: Registry, born: string -> nat, c: string, p: string)
    requires Inv(r, born) && IsLink(r, c, p)
    ensures born(p) < born(c)
  {
  }

  // ----- Without the discipline -----

  /** What survives even overlapping restarts: a listed child is registered with that parent id. Only
      repetitions can appear. */
  ghost predicate Linked(r: Registry, parent: string -> string) {
    Follows(r, parent) && forall p, c :: Lists(r, p, c) ==> IsLink(r, c, p)
  }

  ghost predicate FitsLoosely(s: State, full: seq<Creation>) {
    && s.log <= full && WellCreated(full) && Linked(s.registry, Parent(full))
    && (forall c :: c in s.registry.instances ==> BornIn(s.log, c) > 0)
  }

  lemma StepKeepsLoosely(s: State, ev: Event, t: State, full: seq<Creation>)
    requires FitsLoosely(s, full) && Step(s, ev, t) && t.log <= full
    ensures FitsLoosely(t, full)
  {
    hide Linked, Register, Unregister, WellCreated;
    match ev
    case Create(id, inst) => CreateKeepsLoosely(s, id, inst, t, full);
    case Enroll(id, inst) =>
      OwnFits(s, full, id, inst);
      RegisterLinked(s.registry, Parent(full), id, inst);
    case Drop(id, inst) =>
      OwnFits(s, full, id, inst);
      UnregisterLinked(s.registry, Parent(full), id, inst);
    case Forget(id) => ForgetLinked(s, id, t, Parent(full));
    case SetStatus(id, status) => StatusLinked(s, id, status, t, Parent(full));
    case Reboot => NothingLinked(Parent(full));
  }

  lemma CreateKeepsLoosely(s: State, id: string, inst: Instance, t: State, full: seq<Creation>)
    requires FitsLoosely(s, full) && Step(s, Create(id, inst), t) && t.log <= full
    ensures FitsLoosely(t, full)
  {
    hide Linked, Register;
    assert t.log[..|s.log|] == s.log && t.log[|s.log|] == Creation(id, inst.parentID);
    assert IsOwn(t, id, inst);
    OwnFits(t, full, id, inst);
    RegisterLinked(s.registry, Parent(full), id, inst);
    forall x | x in t.registry.instances ensures BornIn(t.log, x) > 0 {
      RegisteredIds(s.registry, id, inst, x);
    }
  }

  lemma ForgetLinked(s: State, id: string, t: State, parent: string -> string)
    requires Linked(s.registry, parent) && Step(s, Forget(id), t)
    ensures Linked(t.registry, parent) && t.registry.instances == s.registry.instances
  {
    assert t.registry.instances == s.registry.instances;
    forall p, c | Lists(t.registry, p, c) ensures IsLink(t.registry, c, p) {
      assert Lists(s.registry, p, c);
    }
  }

  lemma StatusLinked(s: State, id: string, status: Status, t: State, parent: string -> string)
    requires Linked(s.registry, parent) && Step(s, SetStatus(id, status), t)
    ensures Linked(t.registry, parent)
  {
    forall p, c | Lists(t.registry, p, c) ensures IsLink(t.registry, c, p) {
      assert Lists(s.registry, p, c);
    }
  }

  lemma NothingLinked(parent: string -> string)
    ensures Linked(Registry(map[], map[]), parent)
  {
  }

  lemma RegisteredIds(r: Registry, id: string, inst: Instance, x: string)
    requires x in Register(r, id, inst).instances
    ensures x == id || x in r.instances
  {
  }

  lemma RegisterLinked(r: Registry, parent: string -> string, id: string, inst: Instance)
    requires Linked(r, parent) && inst.parentID == parent(id)
    ensures Linked(Register(r, id, inst), parent)
    ensures forall c :: c in Register(r, id, inst).instances ==> c == id || c in r.instances
  {
    var t := Register(r, id, inst);
    forall p, c | Lists(t, p, c) ensures IsLink(t, c, p) {
      if Lists(r, p, c) {
        assert IsLink(r, c, p);
      } else {
        assert p == inst.parentID && c == id;
      }
    }
  }

  lemma UnregisterLinked(r: Registry, parent: string -> string, id: string, inst: Instance)
    requires Linked(r, parent) && inst.parentID == parent(id)
    ensures Linked(Unregister(r, id, inst), parent)
    ensures forall c :: c in Unregister(r, id, inst).instances ==> c in r.instances
  {
    var t := Unregister(r, id, inst);
    WithoutElements(Kids(Registry(r.instances - {id}, r.children - {id}), inst.parentID), id);
    hide Without;
    forall p, c | Lists(t, p, c) ensures IsLink(t, c, p) {
      assert Lists(r, p, c) && IsLink(r, c, p);
      assert c == id ==> p == inst.parentID;
    }
  }

  lemma EmptyFitsLoosely(full: seq<Creation>)
    requires WellCreated(full)
    ensures FitsLoosely(EMPTY, full)
  {
  }

  // ----- Two restarts at once -----

  /** The traversal of collectDescendants, n iterations from the worklist all[done..]. */
  function Traverse(r: Registry, all: seq<string>, done: nat, n: nat): seq<string>
    decreases n
  {
    if n == 0 || done >= |all| then all else Traverse(r, all + Kids(r, all[done]), done + 1, n - 1)
  }

  lemma {:induction false} TraverseExtends(r: Registry, all: seq<string>, done: nat, n: nat)
    ensures all <= Traverse(r, all, done, n)
    decreases n
  {
    if n > 0 && done < |all| {
      TraverseExtends(r, all + Kids(r, all[done]), done + 1, n - 1);
    }
  }

  lemma TraverseStart(r: Registry, all: seq<string>)
    ensures Traverse(r, all, 0, 0) == all
  {
  }

  lemma {:induction false} TraverseOnce(r: Registry, all: seq<string>, done: nat, n: nat)
    ensures var some := Traverse(r, all, done, n);
            Traverse(r, all, done, n + 1) == if done + n < |some| then some + Kids(r, some[done + n]) else some
    decreases n
  {
    if n > 0 && done < |all| {
      TraverseOnce(r, all + Kids(r, all[done]), done + 1, n - 1);
    } else if done < |all| {
      assert Traverse(r, all + Kids(r, all[done]), done + 1, 0) == all + Kids(r, all[done]);
    } else {
      assert Traverse(r, all, done, n) == all;
    }
  }

  /** Both restarts pass the status check while the instance is registered; then both unregister and
      both register it. */
  function Restarted(r: Registry, id: string, inst: Instance): Registry {
    Register(Register(Unregister(Unregister(r, id, inst), id, inst), id, inst), id, inst)
  }

  lemma TwoRestartsAreSteps(s: State, full: seq<Creation>, id: string)
    returns (states: seq<State>, events: seq<Event>)
    requires Fits(s, full) && id in s.registry.instances
    ensures var inst := s.registry.instances[id];
            && events == [Drop(id, inst), Drop(id, inst), Enroll(id, inst), Enroll(id, inst)]
            && |states| == 5 && states[0] == s && states[4] == s.(registry := Restarted(s.registry, id, inst))
            && forall i :: 0 <= i < 4 ==> Step(states[i], events[i], states[i + 1])
  {
    hide Inv, Register, Unregister;
    var inst := s.registry.instances[id];
    LogGrows(s.log, full, id);
    var a := Unregister(s.registry, id, inst);
    var b := Unregister(a, id, inst);
    var c := Register(b, id, inst);
    states := [s, s.(registry := a), s.(registry := b), s.(registry := c), s.(registry := Register(c, id, inst))];
    events := [Drop(id, inst), Drop(id, inst), Enroll(id, inst), Enroll(id, inst)];
  }

  /** The instance ends up listed twice: the invariant is broken, and the traversal from its parent,
      from the first iteration on, lists it twice. */
  lemma TwoRestartsListTwice(r: Registry, born: string -> nat, id: string, n: nat)
    requires Inv(r, born) && id in r.instances && r.instances[id].parentID != "" && n > 0
    ensures var inst := r.instances[id];
            var t, p := Restarted(r, id, inst), inst.parentID;
            && Kids(t, p) == Without(Kids(r, p), id) + [id, id]
            && !Inv(t, born)
            && exists i, j :: 0 <= i < j < |Traverse(t, [p], 0, n)| && Traverse(t, [p], 0, n)[i] == id == Traverse(t, [p], 0, n)[j]
  {
    var inst := r.instances[id];
    var t, p := Restarted(r, id, inst), inst.parentID;
    var w := Without(Kids(r, p), id);
    WithoutTwice(Kids(r, p), id);
    RestartedKids(r, born, id);
    var k := Kids(t, p);
    assert k[|w|] == id == k[|w| + 1];
    var all := [p] + k;
    assert Traverse(t, [p], 0, n) == Traverse(t, all, 1, n - 1);
    TraverseExtends(t, all, 1, n - 1);
    assert all[|w| + 1] == id == all[|w| + 2];
    assert Traverse(t, [p], 0, n)[|w| + 1] == id == Traverse(t, [p], 0, n)[|w| + 2];
    hide Traverse;
    assert !NoDup(k);
  }

  lemma {:induction false} WithoutTwice(s: seq<string>, id: string)
    ensures Without(Without(s, id), id) == Without(s, id)
  {
    WithoutElements(s, id);
    WithoutElements(Without(s, id), id);
  }

  lemma RestartedKids(r: Registry, born: string -> nat, id: string)
    requires Inv(r, born) && id in r.instances && r.instances[id].parentID != ""
    ensures var inst := r.instances[id];
            Kids(Restarted(r, id, inst), inst.parentID) == Without(Kids(r, inst.parentID), id) + [id, id]
  {
    var inst := r.instances[id];
    var p := inst.parentID;
    assert p != id;
    hide Inv, Without;
    WithoutTwice(Kids(r, p), id);
    var a := Unregister(r, id, inst);
    assert Kids(a, p) == Without(Kids(r, p), id);
    var b := Unregister(a, id, inst);
    assert Kids(b, p) == Without(Kids(r, p), id);
    var c := Register(b, id, inst);
    assert Kids(c, p) == Kids(b, p) + [id];
    assert Kids(Register(c, id, inst), p) == Kids(c, p) + [id];
    assert [id] + [id] == [id, id];
  }
}
