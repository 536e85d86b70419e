/** Messages between instances: which session slots a turn may wait for while it holds its own, and
    why no set of concurrent turns can wait on each other in a cycle. Only the slot locks held for
    the length of a turn are modelled; the registry changes underneath by any of its own steps,
    overlapping restarts included. */
module MessageWaits {
  import opened Registry
  import opened RegistryRuns

  // ----- Lineage -----

  ghost function Ancestors(parent: string -> string, born: string -> nat, id: string): set<string>
    requires Lineage(parent, born)
    decreases born(id)
  {
    if parent(id) == "" then {} else {parent(id)} + Ancestors(parent, born, parent(id))
  }

  lemma {:induction false} AncestorsNest(parent: string -> string, born: string -> nat, x: string, y: string)
    requires Lineage(parent, born) && x in Ancestors(parent, born, y)
    ensures Ancestors(parent, born, x) <= Ancestors(parent, born, y) && born(x) < born(y)
    decreases born(y)
  {
    if x != parent(y) {
      AncestorsNest(parent, born, x, parent(y));
    }
  }

  lemma {:induction false} PathDescends(r: Registry, parent: string -> string, born: string -> nat, path: seq<string>)
    requires Linked(r, parent) && Lineage(parent, born) && IsPath(r, path) && |path| > 1
    ensures path[0] in Ancestors(parent, born, path[|path| - 1])
  {
    assert path[0 + 1] in Kids(r, path[0]) && Lists(r, path[0], path[1]) && IsLink(r, path[1], path[0]);
    assert parent(path[1]) == path[0];
    if |path| > 2 {
      PathTail(r, path);
      PathDescends(r, parent, born, path[1..]);
      AncestorsNest(parent, born, path[1], path[|path| - 1]);
    }
  }

  /** What checkDescendant establishes about a target other than the caller. */
  lemma ReachableIsDescendant(r: Registry, parent: string -> string, born: string -> nat, x: string, y: string)
    requires Linked(r, parent) && Lineage(parent, born) && Reaches(r, x, y) && x != y
    ensures x in Ancestors(parent, born, y)
  {
    var path :| IsPath(r, path) && path[0] == x && path[|path| - 1] == y;
    PathDescends(r, parent, born, path);
  }

  // ----- Turns -----

  datatype Slot = Slot(instance: string, session: string)

  /** Who is waiting for the answer: a channel, trigger or notification pump; a turn (its id and the
      instance it runs on); or a background spawn, which holds no slot. */
  datatype Caller = External | FromTurn(turn: nat, instance: string) | FromLaunch(launch: nat)

  /** A message that waits for its slot; chain is the call chain of the context it was sent with. */
  datatype Pending = Pending(caller: Caller, slot: Slot, chain: set<string>)

  /** A turn holds its slot until it ends; chain is the call chain its tools see. */
  datatype Turn = Turn(caller: Caller, slot: Slot, chain: set<string>)

  /** A background spawn: a goroutine that outlives the turn (its id) that launched it, with the
      instance and call chain of that turn's context. */
  datatype Launch = Launch(turn: nat, instance: string, chain: set<string>)

  datatype System = System(base: RegistryRuns.State, turns: map<nat, Turn>, pending: map<nat, Pending>,
                           launched: map<nat, Launch>, next: nat)

  const IDLE := System(RegistryRuns.EMPTY, map[], map[], map[], 0)

  datatype Event =
    | Reshape(op: RegistryRuns.Event)      // any registry step
    | ExternalMessage(slot: Slot)          // fresh context
    | ToolMessage(turn: nat, slot: Slot)   // SendMessage tool
    | SpawnMessage(turn: nat, slot: Slot)  // SpawnInstance: prompt to a child just created for the caller
    | Background(turn: nat)                // SpawnInstance in the background returns at once
    | LaunchedMessage(launch: nat, slot: Slot)
    | Acquire(message: nat)
    | Fail(failed: nat)
    | Finish(finished: nat)

  function Send(s: System, caller: Caller, slot: Slot, chain: set<string>): System {
    s.(pending := s.pending[s.next := Pending(caller, slot, chain)], next := s.next + 1)
  }

  /** The target is a registered child of the caller. */
  predicate IsChildOf(s: System, target: string, caller: string) {
    target in s.base.registry.instances && s.base.registry.instances[target].parentID == caller != ""
  }

  ghost predicate Step(s: System, ev: Event, t: System) {
    match ev
    case Reshape(op) =>
      RegistryRuns.Step(s.base, op, t.base) && t == s.(base := t.base)
    case ExternalMessage(slot) => t == Send(s, External, slot, {})
    case ToolMessage(i, slot) =>
      && i in s.turns
      && var turn := s.turns[i];
         && Reaches(s.base.registry, turn.slot.instance, slot.instance)
         && slot.instance !in turn.chain
         && t == Send(s, FromTurn(i, turn.slot.instance), slot, turn.chain)
    case SpawnMessage(i, slot) =>
      && i in s.turns
      && var turn := s.turns[i];
         && IsChildOf(s, slot.instance, turn.slot.instance)
         && slot.instance !in turn.chain
         && t == Send(s, FromTurn(i, turn.slot.instance), slot, turn.chain)
    case Background(i) =>
      && i in s.turns
      && t == s.(launched := s.launched[s.next := Launch(i, s.turns[i].slot.instance, s.turns[i].chain)], next := s.next + 1)
    case LaunchedMessage(l, slot) =>
      && l in s.launched
      && IsChildOf(s, slot.instance, s.launched[l].instance)
      && slot.instance !in s.launched[l].chain
      && t == Send(s, FromLaunch(l), slot, s.launched[l].chain)
    case Acquire(m) =>
      && m in s.pending
      && (forall i :: i in s.turns ==> s.turns[i].slot != s.pending[m].slot)
      && var p := s.pending[m];
         t == s.(pending := s.pending - {m},
                 turns := s.turns[m := Turn(p.caller, p.slot, p.chain + {p.slot.instance})])
    case Fail(m) => t == s.(pending := s.pending - {m})
    case Finish(i) => t == s.(turns := s.turns - {i})
  }

  // ----- The invariant -----

  /** A caller that is still running runs on the instance recorded with the message, which is an
      ancestor of the target. */
  ghost predicate CallerFits(s: System, caller: Caller, target: string, parent: string -> string, born: string -> nat)
    requires Lineage(parent, born)
  {
    caller.FromTurn? ==>
      && caller.instance in Ancestors(parent, born, target)
      && caller.turn < s.next
      && (caller.turn in s.turns ==> s.turns[caller.turn].slot.instance == caller.instance)
      && caller.turn !in s.pending
  }

  ghost predicate PendingFits(s: System, p: Pending, parent: string -> string, born: string -> nat)
    requires Lineage(parent, born)
  {
    p.chain <= Ancestors(parent, born, p.slot.instance) && CallerFits(s, p.caller, p.slot.instance, parent, born)
  }

  ghost predicate TurnFits(s: System, u: Turn, parent: string -> string, born: string -> nat)
    requires Lineage(parent, born)
  {
    && u.slot.instance in u.chain
    && u.chain <= Ancestors(parent, born, u.slot.instance) + {u.slot.instance}
    && CallerFits(s, u.caller, u.slot.instance, parent, born)
  }

  ghost predicate LaunchFits(l: Launch, parent: string -> string, born: string -> nat)
    requires Lineage(parent, born)
  {
    l.instance in l.chain && l.chain <= Ancestors(parent, born, l.instance) + {l.instance}
  }

  /** The registry agrees with the lineage. */
  ghost predicate Rooted(r: Registry, parent: string -> string, born: string -> nat) {
    Lineage(parent, born) && Linked(r, parent)
  }

  ghost predicate Good(s: System, parent: string -> string, born: string -> nat)
    requires Lineage(parent, born)
  {
    && Rooted(s.base.registry, parent, born)
    && (forall i :: i in s.turns ==> i < s.next && i !in s.pending && TurnFits(s, s.turns[i], parent, born))
    && (forall m :: m in s.pending ==> m < s.next && PendingFits(s, s.pending[m], parent, born))
    && (forall l :: l in s.launched ==> LaunchFits(s.launched[l], parent, born))
  }

  /** A proper descendant of an instance lies strictly below every instance in a chain that ends in
      that instance. */
  lemma TargetIsBelowChain(s: System, x: string, chain: set<string>, target: string,
                           parent: string -> string, born: string -> nat)
    requires Lineage(parent, born) && Rooted(s.base.registry, parent, born)
    requires x in chain && chain <= Ancestors(parent, born, x) + {x} && target !in chain
    requires Reaches(s.base.registry, x, target) || IsChildOf(s, target, x)
    ensures x in Ancestors(parent, born, target)
    ensures chain <= Ancestors(parent, born, target)
  {
    if IsChildOf(s, target, x) {
      assert parent(target) == x;
    } else {
      ReachableIsDescendant(s.base.registry, parent, born, x, target);
    }
    AncestorsNest(parent, born, x, target);
  }

  lemma StepKeepsGood(s: System, ev: Event, t: System, parent: string -> string, born: string -> nat)
    requires Lineage(parent, born) && Good(s, parent, born) && Step(s, ev, t)
    requires Rooted(t.base.registry, parent, born)
    ensures Good(t, parent, born)
  {
    hide Rooted, Reaches, IsChildOf, RegistryRuns.Step, Good;
    match ev
    case Reshape(_) => FewerKeepGood(s, t, parent, born);
    case ExternalMessage(slot) => ExternalSends(s, slot, parent, born);
    case ToolMessage(i, slot) => TurnSends(s, i, slot, parent, born);
    case SpawnMessage(i, slot) => TurnSends(s, i, slot, parent, born);
    case Background(i) => BackgroundKeepsGood(s, i, t, parent, born);
    case LaunchedMessage(l, slot) => LaunchSends(s, l, slot, parent, born);
    case Acquire(m) => AcquireKeepsGood(s, m, t, parent, born);
    case Fail(_) => FewerKeepGood(s, t, parent, born);
    case Finish(_) => FewerKeepGood(s, t, parent, born);
  }

  lemma FewerKeepGood(s: System, t: System, parent: string -> string, born: string -> nat)
    requires Lineage(parent, born) && Good(s, parent, born) && Rooted(t.base.registry, parent, born)
    requires t.launched == s.launched && t.next == s.next
    requires forall i :: i in t.turns ==> i in s.turns && t.turns[i] == s.turns[i]
    requires forall m :: m in t.pending ==> m in s.pending && t.pending[m] == s.pending[m]
    ensures Good(t, parent, born)
  {
    hide Rooted, Ancestors;
  }

  lemma ExternalSends(s: System, slot: Slot, parent: string -> string, born: string -> nat)
    requires Lineage(parent, born) && Good(s, parent, born)
    ensures Good(Send(s, External, slot, {}), parent, born)
  {
    hide Rooted, Ancestors;
  }

  lemma TurnSends(s: System, i: nat, slot: Slot, parent: string -> string, born: string -> nat)
    requires Lineage(parent, born) && Good(s, parent, born) && i in s.turns && slot.instance !in s.turns[i].chain
    requires || Reaches(s.base.registry, s.turns[i].slot.instance, slot.instance)
             || IsChildOf(s, slot.instance, s.turns[i].slot.instance)
    ensures Good(Send(s, FromTurn(i, s.turns[i].slot.instance), slot, s.turns[i].chain), parent, born)
  {
    hide Rooted, Reaches, Ancestors, IsChildOf;
    assert TurnFits(s, s.turns[i], parent, born);
    TargetIsBelowChain(s, s.turns[i].slot.instance, s.turns[i].chain, slot.instance, parent, born);
  }

  lemma BackgroundKeepsGood(s: System, i: nat, t: System, parent: string -> string, born: string -> nat)
    requires Lineage(parent, born) && Good(s, parent, born) && Step(s, Background(i), t)
    ensures Good(t, parent, born)
  {
    hide Rooted, Ancestors;
    assert TurnFits(s, s.turns[i], parent, born);
  }

  /** A background spawn sends with the chain it was launched with, whether or not the turn that
      launched it still runs; no turn waits for its answer. */
  lemma LaunchSends(s: System, l: nat, slot: Slot, parent: string -> string, born: string -> nat)
    requires Lineage(parent, born) && Good(s, parent, born) && l in s.launched
    requires slot.instance !in s.launched[l].chain && IsChildOf(s, slot.instance, s.launched[l].instance)
    ensures Good(Send(s, FromLaunch(l), slot, s.launched[l].chain), parent, born)
  {
    hide Rooted, Ancestors, IsChildOf;
    assert LaunchFits(s.launched[l], parent, born);
    TargetIsBelowChain(s, s.launched[l].instance, s.launched[l].chain, slot.instance, parent, born);
  }

  lemma AcquireKeepsGood(s: System, m: nat, t: System, parent: string -> string, born: string -> nat)
    requires Lineage(parent, born) && Good(s, parent, born) && Step(s, Acquire(m), t)
    ensures Good(t, parent, born)
  {
    hide Rooted, Reaches, Ancestors;
    assert PendingFits(s, s.pending[m], parent, born);
    assert TurnFits(t, t.turns[m], parent, born);
  }

  // ----- Runs -----

  ghost predicate IsRun(states: seq<System>, events: seq<Event>) {
    && |states| == |events| + 1 && states[0] == IDLE
    && forall i :: 0 <= i < |events| ==> Step(states[i], events[i], states[i + 1])
  }

  /** Along a run the log of creations only grows. */
  lemma {:induction false} RunLogs(states: seq<System>, events: seq<Event>, i: nat)
    requires IsRun(states, events) && i < |states|
    ensures WellCreated(states[i].base.log) && forall k :: 0 <= k <= i ==> states[k].base.log <= states[i].base.log
  {
    hide Step, WellCreated;
    if i == 0 {
      EmptyLog();
    } else {
      RunLogs(states, events, i - 1);
      assert Step(states[i - 1], events[i - 1], states[i - 1 + 1]);
      StepLog(states[i - 1], events[i - 1], states[i]);
    }
  }

  lemma StepLog(s: System, ev: Event, t: System)
    requires Step(s, ev, t)
    ensures s.base.log <= t.base.log && (WellCreated(s.base.log) ==> WellCreated(t.base.log))
  {
    hide WellCreated, RegistryRuns.Step, Reaches;
    match ev
    case Reshape(op) => StepGrowsLog(s.base, op, t.base);
    case _ =>
  }

  /** Every registry of a run agrees with the lineage of a log that continues it. */
  lemma {:induction false} RunFitsLog(states: seq<System>, events: seq<Event>, i: nat, full: seq<Creation>)
    requires IsRun(states, events) && i < |states| && states[i].base.log <= full && WellCreated(full)
    ensures FitsLoosely(states[i].base, full)
  {
    hide Step, FitsLoosely, WellCreated;
    if i == 0 {
      EmptyFitsLoosely(full);
    } else {
      assert Step(states[i - 1], events[i - 1], states[i - 1 + 1]);
      StepLog(states[i - 1], events[i - 1], states[i]);
      RunFitsLog(states, events, i - 1, full);
      BaseStep(states[i - 1], events[i - 1], states[i], full);
    }
  }

  lemma BaseStep(s: System, ev: Event, t: System, full: seq<Creation>)
    requires Step(s, ev, t) && FitsLoosely(s.base, full) && t.base.log <= full
    ensures FitsLoosely(t.base, full)
  {
    hide FitsLoosely, RegistryRuns.Step, Reaches;
    match ev
    case Reshape(op) => StepKeepsLoosely(s.base, op, t.base, full);
    case _ =>
  }

  lemma RunIsRooted(states: seq<System>, events: seq<Event>, i: nat, full: seq<Creation>)
    requires IsRun(states, events) && i < |states| && states[i].base.log <= full && WellCreated(full)
    ensures Rooted(states[i].base.registry, Parent(full), Born(full))
  {
    hide Step;
    RunFitsLog(states, events, i, full);
    LogIsLineage(full);
  }

  lemma {:induction false} RunIsGood(states: seq<System>, events: seq<Event>, i: nat, full: seq<Creation>)
    requires IsRun(states, events) && i < |states| && states[i].base.log <= full && WellCreated(full)
    ensures Lineage(Parent(full), Born(full)) && Good(states[i], Parent(full), Born(full))
  {
    hide Step, Good, Rooted, WellCreated, Lineage;
    LogIsLineage(full);
    RunIsRooted(states, events, i, full);
    if i == 0 {
      IdleIsGood(Parent(full), Born(full));
    } else {
      assert Step(states[i - 1], events[i - 1], states[i - 1 + 1]);
      StepLog(states[i - 1], events[i - 1], states[i]);
      RunIsGood(states, events, i - 1, full);
      StepKeepsGood(states[i - 1], events[i - 1], states[i], Parent(full), Born(full));
    }
  }

  lemma IdleIsGood(parent: string -> string, born: string -> nat)
    requires Lineage(parent, born) && Rooted(IDLE.base.registry, parent, born)
    ensures Good(IDLE, parent, born)
  {
  }

  /** Over every run from the empty system, with the lineage that its own creations define: turns,
      pending messages and background spawns stay below their callers. */
  lemma RunKeepsGood(states: seq<System>, events: seq<Event>, i: nat)
    requires IsRun(states, events) && i < |states|
    ensures var log := states[i].base.log;
            Lineage(Parent(log), Born(log)) && Good(states[i], Parent(log), Born(log))
  {
    hide Step, Good, Lineage;
    RunLogs(states, events, i);
    RunIsGood(states, events, i, states[i].base.log);
  }

  // ----- No cycle -----

  /** Turn i cannot end before turn j does: it waits for a slot that j holds, or for j's answer. */
  ghost predicate WaitsFor(s: System, i: nat, j: nat) {
    && i in s.turns && j in s.turns
    && ((exists m :: m in s.pending && s.pending[m].caller.FromTurn? && s.pending[m].caller.turn == i
                     && s.pending[m].slot == s.turns[j].slot)
        || (s.turns[j].caller.FromTurn? && s.turns[j].caller.turn == i))
  }

  lemma WaitGoesDown(s: System, i: nat, j: nat, parent: string -> string, born: string -> nat)
    requires Lineage(parent, born) && Good(s, parent, born) && WaitsFor(s, i, j)
    ensures s.turns[i].slot.instance in Ancestors(parent, born, s.turns[j].slot.instance)
  {
    hide Rooted, Ancestors;
    assert TurnFits(s, s.turns[j], parent, born);
    if !(s.turns[j].caller.FromTurn? && s.turns[j].caller.turn == i) {
      var m :| m in s.pending && s.pending[m].caller.FromTurn? && s.pending[m].caller.turn == i
               && s.pending[m].slot == s.turns[j].slot;
      assert PendingFits(s, s.pending[m], parent, born);
    }
  }

  /** In no reachable state do turns wait on each other in a cycle. */
  lemma NoWaitCycle(states: seq<System>, events: seq<Event>, n: nat, cycle: seq<nat>)
    requires IsRun(states, events) && n < |states|
    requires |cycle| > 1 && forall k :: 0 <= k < |cycle| - 1 ==> WaitsFor(states[n], cycle[k], cycle[k + 1])
    ensures cycle[0] != cycle[|cycle| - 1]
  {
    hide Good, Step, WaitsFor;
    RunKeepsGood(states, events, n);
    var log := states[n].base.log;
    WaitPathGoesDown(states[n], cycle, Parent(log), Born(log));
  }

  lemma {:induction false} WaitPathGoesDown(s: System, path: seq<nat>, parent: string -> string, born: string -> nat)
    requires Lineage(parent, born) && Good(s, parent, born)
    requires |path| > 1 && forall k :: 0 <= k < |path| - 1 ==> WaitsFor(s, path[k], path[k + 1])
    ensures path[0] in s.turns && path[|path| - 1] in s.turns
    ensures born(s.turns[path[0]].slot.instance) < born(s.turns[path[|path| - 1]].slot.instance)
  {
    hide Good;
    assert WaitsFor(s, path[0], path[0 + 1]);
    WaitGoesDown(s, path[0], path[1], parent, born);
    AncestorsNest(parent, born, s.turns[path[0]].slot.instance, s.turns[path[1]].slot.instance);
    if |path| > 2 {
      var rest := path[1..];
      forall k | 0 <= k < |rest| - 1 ensures WaitsFor(s, rest[k], rest[k + 1]) {
        assert WaitsFor(s, path[k + 1], path[(k + 1) + 1]);
      }
      WaitPathGoesDown(s, rest, parent, born);
    }
  }

  /** A message waits only for a slot strictly below every instance of its call chain, and a call
      chain is no longer than the depth of its last instance in the tree. */
  lemma ChainsFollowTheTree(states: seq<System>, events: seq<Event>, n: nat)
    requires IsRun(states, events) && n < |states|
    ensures var s, parent, born := states[n], Parent(states[n].base.log), Born(states[n].base.log);
            && Lineage(parent, born)
            && (forall m :: m in s.pending ==> s.pending[m].chain <= Ancestors(parent, born, s.pending[m].slot.instance))
            && (forall i :: i in s.turns ==>
                  |s.turns[i].chain| <= |Ancestors(parent, born, s.turns[i].slot.instance)| + 1)
  {
    var s, parent, born := states[n], Parent(states[n].base.log), Born(states[n].base.log);
    RunKeepsGood(states, events, n);
    hide Ancestors, Rooted, Step;
    forall m | m in s.pending ensures s.pending[m].chain <= Ancestors(parent, born, s.pending[m].slot.instance) {
      assert PendingFits(s, s.pending[m], parent, born);
    }
    forall i | i in s.turns
      ensures |s.turns[i].chain| <= |Ancestors(parent, born, s.turns[i].slot.instance)| + 1
    {
      var u := s.turns[i];
      assert TurnFits(s, u, parent, born);
      SubsetSize(u.chain, Ancestors(parent, born, u.slot.instance) + {u.slot.instance});
    }
  }

  lemma {:induction false} SubsetSize(a: set<string>, b: set<string>)
    requires a <= b
    ensures |a| <= |b|
  {
    if a != {} {
      var x :| x in a;
      SubsetSize(a - {x}, b - {x});
    }
  }
}
