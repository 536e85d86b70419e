/** What a call chain holds, over every run of `MessageWaits`: exactly the instances that a message has
    come through. A message back to an instance that waits for its sender is refused, and some turn
    always waits for no other. */
module CallChains {
  import opened Registry
  import RegistryRuns
  import opened MessageWaits

  // ----- Exact chains -----

  /** A chain is that of the caller and own: nothing before a message from outside, the chain of the
      turn that sent it as long as that turn runs, the chain of the background spawn that sent it. */
  ghost predicate Continues(s: System, caller: Caller, chain: set<string>, own: set<string>) {
    match caller
    case External => chain == own
    case FromTurn(i, x) =>
      && i < s.next && i !in s.pending && x in chain
      && (i in s.turns ==> x == s.turns[i].slot.instance && chain == s.turns[i].chain + own)
    case FromLaunch(l) => l in s.launched && chain == s.launched[l].chain + own
  }

  ghost predicate PendingChain(s: System, p: Pending) { Continues(s, p.caller, p.chain, {}) }

  ghost predicate TurnChain(s: System, u: Turn) {
    u.slot.instance in u.chain && Continues(s, u.caller, u.chain, {u.slot.instance})
  }

  ghost predicate LaunchChain(s: System, l: Launch) {
    Continues(s, FromTurn(l.turn, l.instance), l.chain, {})
  }

  /** A message carries exactly its sender's chain, a turn exactly its sender's chain and its own
      instance, a background spawn exactly the chain of the turn that launched it. */
  ghost predicate ExactChains(s: System) {
    && (forall m :: m in s.pending ==> m < s.next && PendingChain(s, s.pending[m]))
    && (forall i :: i in s.turns ==> i < s.next && i !in s.pending && TurnChain(s, s.turns[i]))
    && (forall l :: l in s.launched ==> l < s.next && LaunchChain(s, s.launched[l]))
  }

  /** What chains depend on stays: no turn starts under an id that was no message, no spawn changes. */
  ghost predicate SameSenders(s: System, t: System) {
    && s.next <= t.next
    && (forall i :: i < s.next && i in t.turns ==> (i in s.turns && t.turns[i] == s.turns[i]) || i in s.pending)
    && (forall i :: i < s.next && i in t.pending ==> i in s.pending)
    && (forall l :: l in s.launched ==> l in t.launched && t.launched[l] == s.launched[l])
  }

  lemma ChainsStay(s: System, t: System)
    requires SameSenders(s, t) && ExactChains(s)
    ensures forall m :: m in s.pending ==> PendingChain(t, s.pending[m])
    ensures forall i :: i in s.turns ==> TurnChain(t, s.turns[i])
    ensures forall l :: l in s.launched ==> LaunchChain(t, s.launched[l])
  {
  }

  lemma StepKeepsSenders(s: System, ev: Event, t: System)
    requires ExactChains(s) && Step(s, ev, t)
    ensures SameSenders(s, t)
  {
    hide PendingChain, TurnChain, LaunchChain, Reaches, RegistryRuns.Step;
  }

  lemma StepKeepsChains(s: System, ev: Event, t: System)
    requires ExactChains(s) && Step(s, ev, t)
    ensures ExactChains(t)
  {
    hide Reaches, RegistryRuns.Step, ExactChains, IsChildOf;
    StepKeepsSenders(s, ev, t);
    match ev
    case ToolMessage(i, slot) => TurnSendsOn(s, i, slot, t);
    case SpawnMessage(i, slot) => TurnSendsOn(s, i, slot, t);
    case ExternalMessage(slot) => SentOn(s, External, slot, {}, t);
    case LaunchedMessage(l, slot) => SentOn(s, FromLaunch(l), slot, s.launched[l].chain, t);
    case Background(i) => LaunchedOn(s, i, t);
    case Acquire(m) => AcquiredOn(s, m, t);
    case Reshape(_) => FewerOn(s, t);
    case Fail(_) => FewerOn(s, t);
    case Finish(_) => FewerOn(s, t);
  }

  lemma FewerOn(s: System, t: System)
    requires ExactChains(s) && SameSenders(s, t)
    requires forall i :: i in t.turns ==> i in s.turns && t.turns[i] == s.turns[i]
    requires forall m :: m in t.pending ==> m in s.pending && t.pending[m] == s.pending[m]
    requires t.launched == s.launched && t.next == s.next
    ensures ExactChains(t)
  {
    ChainsStay(s, t);
    hide SameSenders, PendingChain, TurnChain, LaunchChain;
  }

  lemma SentOn(s: System, caller: Caller, slot: Slot, chain: set<string>, t: System)
    requires ExactChains(s) && t == Send(s, caller, slot, chain) && SameSenders(s, t)
    requires Continues(s, caller, chain, {})
    ensures ExactChains(t)
  {
    ChainsStay(s, t);
    assert PendingChain(t, t.pending[s.next]);
    hide SameSenders, PendingChain, TurnChain, LaunchChain;
  }

  lemma TurnSendsOn(s: System, i: nat, slot: Slot, t: System)
    requires ExactChains(s) && i in s.turns && SameSenders(s, t)
    requires t == Send(s, FromTurn(i, s.turns[i].slot.instance), slot, s.turns[i].chain)
    ensures ExactChains(t)
  {
    assert TurnChain(s, s.turns[i]);
    SentOn(s, FromTurn(i, s.turns[i].slot.instance), slot, s.turns[i].chain, t);
  }

  lemma LaunchedOn(s: System, i: nat, t: System)
    requires ExactChains(s) && Step(s, Background(i), t) && SameSenders(s, t)
    ensures ExactChains(t)
  {
    assert TurnChain(s, s.turns[i]);
    ChainsStay(s, t);
    assert LaunchChain(t, t.launched[s.next]);
    hide SameSenders, PendingChain, TurnChain, LaunchChain;
  }

  lemma AcquiredOn(s: System, m: nat, t: System)
    requires ExactChains(s) && Step(s, Acquire(m), t) && SameSenders(s, t)
    ensures ExactChains(t)
  {
    ChainsStay(s, t);
    assert PendingChain(t, s.pending[m]);
    assert TurnChain(t, t.turns[m]);
    hide SameSenders, PendingChain, TurnChain, LaunchChain;
  }

  /** In every state of every run every chain is exact. */
  lemma {:induction false} ChainsAreExact(states: seq<System>, events: seq<Event>, n: nat)
    requires IsRun(states, events) && n < |states|
    ensures ExactChains(states[n])
    decreases n
  {
    if n > 0 {
      assert Step(states[n - 1], events[n - 1], states[n - 1 + 1]);
      hide Step, ExactChains, IsRun;
      ChainsAreExact(states, events, n - 1);
      StepKeepsChains(states[n - 1], events[n - 1], states[n]);
    }
  }

  // ----- Messages along a run -----

  /** The message m of s is still pending in t, or runs there with its instance added, or is gone. */
  ghost predicate Kept(t: System, m: nat, p: Pending) {
    && m < t.next
    && (m in t.pending ==> t.pending[m] == p && m !in t.turns)
    && (m in t.turns ==> t.turns[m] == Turn(p.caller, p.slot, p.chain + {p.slot.instance}))
  }

  lemma StepKeepsMessage(s: System, ev: Event, t: System, m: nat, p: Pending)
    requires Kept(s, m, p) && Step(s, ev, t)
    ensures Kept(t, m, p)
  {
    hide Reaches, RegistryRuns.Step, IsChildOf;
  }

  lemma {:induction false} MessageIsKept(states: seq<System>, events: seq<Event>, k: nat, n: nat, m: nat, p: Pending)
    requires IsRun(states, events) && k <= n < |states| && Kept(states[k], m, p)
    ensures Kept(states[n], m, p)
    decreases n
  {
    if k < n {
      assert Step(states[n - 1], events[n - 1], states[n - 1 + 1]);
      hide Step, Kept, IsRun;
      MessageIsKept(states, events, k, n - 1, m, p);
      StepKeepsMessage(states[n - 1], events[n - 1], states[n], m, p);
    }
  }

  /** Whatever happens after turn i sent to a slot: the message waits for that slot alone, and the turn
      that answers it holds that slot, answers i, and has i's chain of that moment and its own
      instance, even if i has ended since. */
  lemma SentMessageRuns(states: seq<System>, events: seq<Event>, k: nat, n: nat, i: nat, slot: Slot)
    requires IsRun(states, events) && k < n < |states|
    requires events[k] == ToolMessage(i, slot) || events[k] == SpawnMessage(i, slot)
    ensures i in states[k].turns
    ensures var m, u, t := states[k].next, states[k].turns[i], states[n];
            && (m in t.pending ==> t.pending[m] == Pending(FromTurn(i, u.slot.instance), slot, u.chain))
            && (m in t.turns ==> t.turns[m] == Turn(FromTurn(i, u.slot.instance), slot, u.chain + {slot.instance}))
  {
    var s, t := states[k], states[k + 1];
    assert Step(s, events[k], t);
    ChainsAreExact(states, events, k);
    var p := Pending(FromTurn(i, s.turns[i].slot.instance), slot, s.turns[i].chain);
    assert Kept(t, s.next, p);
    MessageIsKept(states, events, k + 1, n, s.next, p);
  }

  // ----- Who is in a chain -----

  /** Turn j answers a message that turn i waits on. */
  predicate Answers(s: System, i: nat, j: nat) {
    i in s.turns && j in s.turns && s.turns[j].caller.FromTurn? && s.turns[j].caller.turn == i
  }

  lemma {:induction false} AnswersExtend(s: System, path: seq<nat>)
    requires ExactChains(s) && |path| > 0 && path[0] in s.turns
    requires forall k :: 0 <= k < |path| - 1 ==> Answers(s, path[k], path[k + 1])
    ensures path[|path| - 1] in s.turns && s.turns[path[0]].chain <= s.turns[path[|path| - 1]].chain
    decreases |path|
  {
    if |path| > 1 {
      assert Answers(s, path[|path| - 2], path[|path| - 2 + 1]);
      assert TurnChain(s, s.turns[path[|path| - 1]]);
      AnswersExtend(s, path[..|path| - 1]);
    }
  }

  /** The chain of a turn holds the chain of every turn that waits for it, directly or through others,
      so it can message none of their instances. */
  lemma WaitersAreInChain(states: seq<System>, events: seq<Event>, n: nat, path: seq<nat>)
    requires IsRun(states, events) && n < |states| && |path| > 0 && path[0] in states[n].turns
    requires forall k :: 0 <= k < |path| - 1 ==> Answers(states[n], path[k], path[k + 1])
    ensures var s, i, j := states[n], path[0], path[|path| - 1];
            && j in s.turns && s.turns[i].chain <= s.turns[j].chain
            && s.turns[i].slot.instance in s.turns[j].chain
            && forall slot: Slot, t :: slot.instance == s.turns[i].slot.instance ==>
                 !Step(s, ToolMessage(j, slot), t) && !Step(s, SpawnMessage(j, slot), t)
  {
    var s := states[n];
    ChainsAreExact(states, events, n);
    AnswersExtend(s, path);
    assert TurnChain(s, s.turns[path[0]]);
  }

  /** In every reachable state the chain check stands in nobody's way but the sender's own: a turn can
      message exactly the instances strictly below its own, and the children of its instance. */
  lemma SendsToDescendants(states: seq<System>, events: seq<Event>, n: nat, i: nat, slot: Slot)
    requires IsRun(states, events) && n < |states| && i in states[n].turns
    ensures var s, x, y := states[n], states[n].turns[i].slot.instance, slot.instance;
            && ((exists t :: Step(s, ToolMessage(i, slot), t)) <==> Reaches(s.base.registry, x, y) && x != y)
            && ((exists t :: Step(s, SpawnMessage(i, slot), t)) <==>
                x != "" && y in s.base.registry.instances && s.base.registry.instances[y].parentID == x)
  {
    var s, x, y := states[n], states[n].turns[i].slot.instance, slot.instance;
    hide Reaches;
    NothingBelowIsInChain(states, events, n, i, y);
    var t := Send(s, FromTurn(i, x), slot, s.turns[i].chain);
    if Reaches(s.base.registry, x, y) && x != y {
      assert Step(s, ToolMessage(i, slot), t);
    }
    if IsChildOf(s, y, x) {
      assert Step(s, SpawnMessage(i, slot), t);
    }
  }

  lemma NothingBelowIsInChain(states: seq<System>, events: seq<Event>, n: nat, i: nat, y: string)
    requires IsRun(states, events) && n < |states| && i in states[n].turns
    ensures var s, x := states[n], states[n].turns[i].slot.instance;
            && x in s.turns[i].chain
            && ((Reaches(s.base.registry, x, y) && x != y) || IsChildOf(s, y, x) ==> y !in s.turns[i].chain)
  {
    var s, log := states[n], states[n].base.log;
    var u, x := s.turns[i], s.turns[i].slot.instance;
    var parent, born := RegistryRuns.Parent(log), RegistryRuns.Born(log);
    RunKeepsGood(states, events, n);
    hide Reaches, IsRun, Step, Ancestors;
    assert TurnFits(s, u, parent, born);
    if (Reaches(s.base.registry, x, y) && x != y) || IsChildOf(s, y, x) {
      BelowIsYounger(s, x, y, parent, born);
      if y in u.chain && y != x {
        AncestorsNest(parent, born, y, x);
      }
    }
  }

  lemma BelowIsYounger(s: System, x: string, y: string, parent: string -> string, born: string -> nat)
    requires RegistryRuns.Lineage(parent, born) && Rooted(s.base.registry, parent, born)
    requires (Reaches(s.base.registry, x, y) && x != y) || IsChildOf(s, y, x)
    ensures born(x) < born(y)
  {
    if IsChildOf(s, y, x) {
      assert parent(y) == x;
    } else {
      ReachableIsDescendant(s.base.registry, parent, born, x, y);
      AncestorsNest(parent, born, x, y);
    }
  }

  // ----- No deadlock -----

  /** A pending message is either free to run or waits for the turn that holds its slot; if a turn sent
      it, that turn waits for the holder. */
  lemma BlockedWaits(s: System, m: nat)
    requires m in s.pending
    ensures (exists t :: Step(s, Acquire(m), t)) <==> forall j :: j in s.turns ==> s.turns[j].slot != s.pending[m].slot
    ensures s.pending[m].caller.FromTurn? && s.pending[m].caller.turn in s.turns ==>
              forall j :: j in s.turns && s.turns[j].slot == s.pending[m].slot ==> WaitsFor(s, s.pending[m].caller.turn, j)
  {
    var p := s.pending[m];
    if forall j :: j in s.turns ==> s.turns[j].slot != p.slot {
      var t := s.(pending := s.pending - {m}, turns := s.turns[m := Turn(p.caller, p.slot, p.chain + {p.slot.instance})]);
      assert Step(s, Acquire(m), t);
    }
  }

  ghost predicate Exclusive(s: System) {
    forall i, j :: i in s.turns && j in s.turns && i != j ==> s.turns[i].slot != s.turns[j].slot
  }

  lemma StepKeepsExclusive(s: System, ev: Event, t: System)
    requires Exclusive(s) && Step(s, ev, t)
    ensures Exclusive(t)
  {
    hide Reaches, RegistryRuns.Step, IsChildOf;
  }

  /** In every reachable state no two turns hold the same slot. */
  lemma {:induction false} SlotsAreExclusive(states: seq<System>, events: seq<Event>, n: nat)
    requires IsRun(states, events) && n < |states|
    ensures forall i, j :: i in states[n].turns && j in states[n].turns && i != j ==>
              states[n].turns[i].slot != states[n].turns[j].slot
    decreases n
  {
    if n > 0 {
      assert Step(states[n - 1], events[n - 1], states[n - 1 + 1]);
      SlotsAreExclusive(states, events, n - 1);
      hide Step, IsRun;
      StepKeepsExclusive(states[n - 1], events[n - 1], states[n]);
    }
  }

  /** So when a turn ends, any message that waits for its slot can acquire it. */
  lemma EndingFreesSlot(states: seq<System>, events: seq<Event>, n: nat, i: nat, t: System, m: nat)
    requires IsRun(states, events) && n < |states| && i in states[n].turns && Step(states[n], Finish(i), t)
    requires m in states[n].pending && states[n].pending[m].slot == states[n].turns[i].slot
    ensures i !in t.turns && m in t.pending && exists u :: Step(t, Acquire(m), u)
  {
    SlotsAreExclusive(states, events, n);
    BlockedWaits(t, m);
    hide IsRun;
  }

  /** A message that fails waits no more, and no turn is touched. */
  lemma FailedIsGone(s: System, m: nat, t: System)
    requires Step(s, Fail(m), t)
    ensures m !in t.pending && t.turns == s.turns && forall k :: k in s.pending && k != m ==> k in t.pending
  {
  }

  /** From any reachable state: a turn can send to a free slot of an instance below its own, the message
      can acquire the slot, run with the longer chain and end, and all is as before. */
  lemma ExchangeIsPossible(states: seq<System>, events: seq<Event>, n: nat, i: nat, slot: Slot)
    returns (sent: System, running: System, ended: System)
    requires IsRun(states, events) && n < |states| && i in states[n].turns
    requires Reaches(states[n].base.registry, states[n].turns[i].slot.instance, slot.instance)
    requires slot.instance != states[n].turns[i].slot.instance
    requires forall j :: j in states[n].turns ==> states[n].turns[j].slot != slot
    ensures var s, m := states[n], states[n].next;
            && Step(s, ToolMessage(i, slot), sent) && Step(sent, Acquire(m), running) && Step(running, Finish(m), ended)
            && running.turns.Keys == s.turns.Keys + {m} && running.turns[m].slot == slot
            && running.turns[m].chain == s.turns[i].chain + {slot.instance}
            && ended == s.(next := m + 1)
  {
    var s, m, u := states[n], states[n].next, states[n].turns[i];
    hide Reaches;
    NothingBelowIsInChain(states, events, n, i, slot.instance);
    ChainsAreExact(states, events, n);
    sent := Send(s, FromTurn(i, u.slot.instance), slot, u.chain);
    running := s.(next := m + 1, turns := s.turns[m := Turn(FromTurn(i, u.slot.instance), slot, u.chain + {slot.instance})]);
    ended := s.(next := m + 1);
    assert m !in s.turns && m !in s.pending;
    assert sent.pending - {m} == s.pending && running.turns - {m} == s.turns;
  }

  /** Messages from outside and changes of the registry are always possible. */
  lemma AlwaysOpen(s: System, slot: Slot, op: RegistryRuns.Event, base: RegistryRuns.State) returns (t: System)
    ensures Step(s, ExternalMessage(slot), t)
    ensures t.pending == s.pending[s.next := Pending(External, slot, {})] && t.turns == s.turns && t.base == s.base
    ensures RegistryRuns.Step(s.base, op, base) ==> Step(s, Reshape(op), s.(base := base))
  {
    t := Send(s, External, slot, {});
  }

  /** In every reachable state in which turns run, some turn waits for no other: it can go on to its
      end, so the turns never come to a halt together. */
  lemma SomeTurnIsFree(states: seq<System>, events: seq<Event>, n: nat) returns (i: nat)
    requires IsRun(states, events) && n < |states| && states[n].turns != map[]
    ensures i in states[n].turns && forall j :: !WaitsFor(states[n], i, j)
  {
    var s, log := states[n], states[n].base.log;
    var parent, born := RegistryRuns.Parent(log), RegistryRuns.Born(log);
    RunKeepsGood(states, events, n);
    hide Good, Step, IsRun;
    i := Youngest(s, born, s.turns.Keys);
    forall j ensures !WaitsFor(s, i, j) {
      if WaitsFor(s, i, j) {
        WaitGoesDown(s, i, j, parent, born);
        AncestorsNest(parent, born, s.turns[i].slot.instance, s.turns[j].slot.instance);
      }
    }
  }

  /** A turn whose instance was created last. */
  lemma {:induction false} Youngest(s: System, born: string -> nat, ids: set<nat>) returns (i: nat)
    requires ids != {} && ids <= s.turns.Keys
    ensures i in ids && forall j :: j in ids ==> born(s.turns[j].slot.instance) <= born(s.turns[i].slot.instance)
    decreases ids
  {
    i :| i in ids;
    if ids != {i} {
      var j := Youngest(s, born, ids - {i});
      if born(s.turns[i].slot.instance) < born(s.turns[j].slot.instance) {
        i := j;
      }
    }
  }
}
