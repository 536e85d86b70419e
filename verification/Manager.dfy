/** The instance manager: breadth-first collection of descendants without a visited set, and
    leaf-first stop and delete over the collected snapshot. Each method is modelled without
    interference from other goroutines between its critical sections. */
module Manager {
  import opened Registry
  import Runs = RegistryRuns

  // ----- Breadth-first order -----

  /** all is a breadth-first listing from root whose first `done` entries have been expanded. */
  ghost predicate Bfs(r: Registry, born: string -> nat, root: string, all: seq<string>, done: nat) {
    && done <= |all| && 0 < |all| && all[0] == root
    && NoDup(all) && Below(r, born, root, all) && ParentsFirst(r, all, done) && Expanded(r, all, done)
  }

  /** Everything listed is registered, reachable, and the root or younger. */
  ghost predicate Below(r: Registry, born: string -> nat, root: string, all: seq<string>) {
    forall x :: x in all ==> x in r.instances && Reaches(r, root, x) && (x == root || born(root) < born(x))
  }

  /** Every entry but the first is a child of an earlier, expanded entry. */
  ghost predicate ParentsFirst(r: Registry, all: seq<string>, done: nat) {
    forall j :: 0 < j < |all| ==> HasParentBefore(r, all, j, done)
  }

  ghost predicate HasParentBefore(r: Registry, all: seq<string>, j: nat, done: nat)
    requires j < |all|
  {
    exists i :: 0 <= i < j && i < done && all[j] in Kids(r, all[i])
  }

  ghost predicate Expanded(r: Registry, all: seq<string>, done: nat) {
    forall i, k :: 0 <= i < done && i < |all| && k in Kids(r, all[i]) ==> k in all
  }

  /** Expanding the next entry appends only instances not seen before: each is listed under one
      parent only, and the root is older than everything below it. */
  lemma BfsStep(r: Registry, born: string -> nat, root: string, all: seq<string>, done: nat)
    requires Inv(r, born) && Bfs(r, born, root, all, done) && done < |all|
    ensures Bfs(r, born, root, all + Kids(r, all[done]), done + 1)
  {
    var kids := Kids(r, all[done]);
    forall k | k in kids ensures k !in all && k in r.instances && Reaches(r, root, k) && born(root) < born(k) {
      KidIsNew(r, born, root, all, done, k);
    }
    NoDupConcat(all, kids);
    ParentsFirstStep(r, all, done);
    assert Expanded(r, all + kids, done + 1) by {
      ExpandedStep(r, all, done);
    }
  }

  lemma NoDupConcat(a: seq<string>, b: seq<string>)
    requires NoDup(a) && NoDup(b) && forall x :: x in b ==> x !in a
    ensures NoDup(a + b)
  {
    var c := a + b;
    forall i, j | 0 <= i < j < |c| ensures c[i] != c[j] {
      if i < |a| <= j {
        assert c[j] in b;
      }
    }
  }

  lemma BfsInit(r: Registry, born: string -> nat, root: string)
    requires root in r.instances
    ensures Bfs(r, born, root, [root], 0)
  {
    ReachesSelf(r, root);
  }

  lemma BfsFits(r: Registry, born: string -> nat, root: string, all: seq<string>, done: nat)
    requires Bfs(r, born, root, all, done)
    ensures |all| <= |r.instances|
  {
    NoDupFits(all, r.instances.Keys);
    assert |r.instances.Keys| == |r.instances|;
  }

  lemma ParentsFirstStep(r: Registry, all: seq<string>, done: nat)
    requires ParentsFirst(r, all, done) && done < |all|
    ensures ParentsFirst(r, all + Kids(r, all[done]), done + 1)
  {
    var all' := all + Kids(r, all[done]);
    var next := done + 1;
    forall j | 0 < j < |all'| ensures HasParentBefore(r, all', j, next) {
      if j < |all| {
        assert HasParentBefore(r, all, j, done);
        var i :| 0 <= i < j && i < done && all[j] in Kids(r, all[i]);
        assert all'[j] in Kids(r, all'[i]);
      } else {
        assert all'[j] in Kids(r, all'[done]);
      }
    }
  }

  lemma ExpandedStep(r: Registry, all: seq<string>, done: nat)
    requires Expanded(r, all, done) && done < |all|
    ensures Expanded(r, all + Kids(r, all[done]), done + 1)
  {
  }

  lemma KidIsNew(r: Registry, born: string -> nat, root: string, all: seq<string>, done: nat, k: string)
    requires Inv(r, born) && Bfs(r, born, root, all, done) && done < |all| && k in Kids(r, all[done])
    ensures k !in all && k in r.instances && Reaches(r, root, k) && born(root) < born(k)
  {
    InvFacts(r, born);
    var current := all[done];
    assert k in r.instances && r.instances[k].parentID == current;
    assert current in all;
    ReachesKid(r, root, current, k);
    if k in all {
      var j :| 0 <= j < |all| && all[j] == k;
      if j > 0 {
        OnlyParent(r, born, all, done, j, current);
      }
      assert false;
    }
  }

  /** The earlier entry that lists entry j is its parent. */
  lemma OnlyParent(r: Registry, born: string -> nat, all: seq<string>, done: nat, j: nat, p: string)
    requires Inv(r, born) && ParentsFirst(r, all, done) && 0 < j < |all|
    requires all[j] in r.instances && r.instances[all[j]].parentID == p
    ensures exists i :: 0 <= i < j && i < done && all[i] == p
  {
    InvFacts(r, born);
    assert HasParentBefore(r, all, j, done);
    var i :| 0 <= i < j && i < done && all[j] in Kids(r, all[i]);
    assert r.instances[all[j]].parentID == all[i];
  }

  /** A fully expanded listing is exactly the reachable set. */
  lemma BfsIsExact(r: Registry, born: string -> nat, root: string, all: seq<string>, y: string)
    requires Bfs(r, born, root, all, |all|)
    ensures y in all <==> Reaches(r, root, y)
  {
    if Reaches(r, root, y) {
      var path :| IsPath(r, path) && path[0] == root && path[|path| - 1] == y;
      ClosedUnderPath(r, (set x | x in all), path);
    }
  }

  lemma {:induction false} NoDupFits(s: seq<string>, keys: set<string>)
    requires NoDup(s) && forall x :: x in s ==> x in keys
    ensures |s| <= |keys|
  {
    if s != [] {
      var n := |s| - 1;
      forall x | x in s[..n] ensures x in keys - {s[n]} {
      }
      NoDupFits(s[..n], keys - {s[n]});
    }
  }

  /** In a breadth-first listing everything an entry reaches comes at or after it. */
  lemma {:induction false} BelowComesLater(r: Registry, born: string -> nat, root: string, all: seq<string>,
                                           path: seq<string>, a: nat)
    requires Inv(r, born) && Bfs(r, born, root, all, |all|)
    requires IsPath(r, path) && a < |all| && path[0] == all[a]
    ensures path[|path| - 1] in all[a..]
  {
    if |path| > 1 {
      var b := KidComesLater(r, born, root, all, a, path[1]);
      PathTail(r, path);
      BelowComesLater(r, born, root, all, path[1..], b);
      assert all[b..] == all[a..][b - a..];
    }
  }

  lemma KidComesLater(r: Registry, born: string -> nat, root: string, all: seq<string>, a: nat, k: string)
    returns (b: nat)
    requires Inv(r, born) && Bfs(r, born, root, all, |all|) && a < |all| && k in Kids(r, all[a])
    ensures a < b < |all| && all[b] == k
  {
    InvFacts(r, born);
    assert k in all && all[a] in all;
    b :| 0 <= b < |all| && all[b] == k;
    assert r.instances[k].parentID == all[a];
    if b > 0 {
      OnlyParent(r, born, all, |all|, b, all[a]);
    }
  }

  // ----- Leaf-first removal -----

  function Minus(s: seq<string>, gone: set<string>): seq<string> {
    if s == [] then [] else (if s[0] in gone then [] else [s[0]]) + Minus(s[1..], gone)
  }

  lemma {:induction false} MinusOne(s: seq<string>, gone: set<string>, id: string)
    ensures Without(Minus(s, gone), id) == Minus(s, gone + {id})
    ensures (forall x :: x in s ==> x !in gone) ==> Minus(s, gone) == s
  {
    if s != [] {
      MinusOne(s[1..], gone, id);
      assert s == [s[0]] + s[1..];
      if s[0] !in gone {
        var m := Minus(s, gone);
        assert m[0] == s[0] && m[1..] == Minus(s[1..], gone);
      } else {
        assert Minus(s, gone) == Minus(s[1..], gone);
        assert Minus(s, gone + {id}) == Minus(s[1..], gone + {id});
      }
    }
  }

  /** The registry with some instances gone from both maps and from every list. */
  function Torn(r: Registry, gone: set<string>): Registry {
    Registry(r.instances - gone, map p | p in r.children && p !in gone :: Minus(r.children[p], gone))
  }

  /** Unregistering an instance whose parent is still there and lists it is one more gone. */
  lemma UnregisterTears(r: Registry, gone: set<string>, id: string, inst: Instance)
    requires inst.parentID != "" && inst.parentID in r.children
    requires inst.parentID !in gone && inst.parentID != id
    requires forall p, c :: p in r.children && c in r.children[p] && c == id ==> p == inst.parentID
    ensures Unregister(Torn(r, gone), id, inst) == Torn(r, gone + {id})
  {
    var u, t := Unregister(Torn(r, gone), id, inst), Torn(r, gone + {id});
    assert u.children.Keys == t.children.Keys;
    forall p | p in t.children ensures u.children[p] == t.children[p] {
      MinusOne(r.children[p], gone, id);
      if p != inst.parentID {
        assert id !in r.children[p];
        MinusSame(r.children[p], gone, gone + {id});
      }
    }
    assert u.instances == t.instances;
  }

  lemma {:induction false} MinusSame(s: seq<string>, a: set<string>, b: set<string>)
    requires forall x :: x in s ==> (x in a <==> x in b)
    ensures Minus(s, a) == Minus(s, b)
  {
    if s != [] {
      MinusSame(s[1..], a, b);
    }
  }

  method DropId(siblings: seq<string>, id: string) returns (updated: seq<string>)
    ensures updated == Without(siblings, id)
  {
    updated := [];
    for i := 0 to |siblings|
      invariant updated + Without(siblings[i..], id) == Without(siblings, id)
    {
      ghost var rest := Without(siblings[i + 1..], id);
      assert siblings[i..][1..] == siblings[i + 1..];
      if siblings[i] != id {
        assert updated + ([siblings[i]] + rest) == (updated + [siblings[i]]) + rest;
        updated := updated + [siblings[i]];
      } else {
        assert [] + rest == rest;
      }
    }
  }

  predicate IsRunning(r: Registry, id: string) { id in r.instances && r.instances[id].status == Running }

  class Manager {
    var instances: map<string, Instance>
    var children: map<string, seq<string>>
    /** All ids ever created, across restarts of the process. */
    ghost var log: seq<Runs.Creation>

    ghost function State(): Registry
      reads this
    {
      Registry(instances, children)
    }

    ghost function Model(): Runs.State
      reads this
    {
      Runs.State(State(), log)
    }

    /** The order of creation. */
    ghost function Order(): string -> nat
      reads this`log
    {
      Runs.Born(log)
    }

    ghost predicate Valid()
      reads this
    {
      Runs.Fits(Model(), log)
    }

    constructor ()
      ensures Valid() && Model() == Runs.EMPTY
    {
      instances, children, log := map[], map[], [];
    }

    /** registerAndStartInstance, reregisterStopped and the restore path: a fresh id under an instance
        created before it, or a known id under its own parent. The invariant survives exactly if the
        parent does not list the id; it may if two restarts of one instance overlap. */
    method RegisterInstance(id: string, inst: Instance)
      requires Valid() && (Runs.IsNew(log, Runs.Creation(id, inst.parentID)) || Runs.IsOwn(Model(), id, inst))
      modifies this
      ensures Runs.Step(old(Model()), if Runs.IsOwn(old(Model()), id, inst) then Runs.Enroll(id, inst)
                                      else Runs.Create(id, inst), Model())
      ensures Valid() <==> id !in old(Kids(State(), inst.parentID))
    {
      ghost var s := Model();
      if !Runs.IsOwn(Model(), id, inst) {
        log := log + [Runs.Creation(id, inst.parentID)];
      }
      instances := instances[id := inst];
      if inst.parentID != "" {
        var siblings := if inst.parentID in children then children[inst.parentID] else [];
        children := children[inst.parentID := siblings + [id]];
      }
      RegisteredFits(s, id, inst, Model());
    }

    /** unregisterLocked. */
    method UnregisterLocked(id: string, inst: Instance)
      requires Valid() && Runs.IsOwn(Model(), id, inst)
      modifies this`instances, this`children
      ensures Valid() && Runs.Step(old(Model()), Runs.Drop(id, inst), Model())
    {
      hide Runs.Fits, Runs.Disciplined;
      ghost var s := Model();
      instances := instances - {id};
      children := children - {id};
      if inst.parentID != "" {
        var siblings := if inst.parentID in children then children[inst.parentID] else [];
        var updated := DropId(siblings, id);
        children := children[inst.parentID := updated];
      }
      DropKeepsFits(s, id, inst, Model());
    }

    /** The instance and everything below it, parents first. There is no visited set: that the loop
        ends, repeats nobody and misses nobody follows from the invariant alone. */
    method CollectDescendants(id: string) returns (result: seq<string>)
      requires Valid()
      ensures id !in instances ==> result == []
      ensures id in instances ==> Bfs(State(), Order(), id, result, |result|)
      ensures id in instances ==> forall y :: y in result <==> Reaches(State(), id, y)
      ensures id in instances ==> result == Runs.Traverse(State(), [id], 0, |result|)
    {
      hide Inv, Bfs, NoDup, Reaches, Runs.Traverse, Runs.Fits;
      Runs.FitsInv(Model(), log);
      Runs.TraverseStart(State(), [id]);
      if id !in instances {
        return [];
      }
      result := [];
      var queue := [id];
      ghost var r := State();
      BfsInit(r, Order(), id);
      assert result + queue == [id];
      while |queue| > 0
        invariant Bfs(r, Order(), id, result + queue, |result|)
        invariant result + queue == Runs.Traverse(r, [id], 0, |result|)
        decreases |instances| - |result|
      {
        var current := queue[0];
        ghost var all := result + queue;
        BfsFits(r, Order(), id, all, |result|);
        BfsStep(r, Order(), id, all, |result|);
        Runs.TraverseOnce(r, [id], 0, |result|);
        queue := queue[1..];
        result := result + [current];
        assert result + queue == all;
        queue := queue + if current in children then children[current] else [];
        assert result + queue == all + Kids(r, current);
      }
      assert result + queue == result;
      forall y ensures y in result <==> Reaches(State(), id, y) {
        BfsIsExact(r, Order(), id, result, y);
      }
    }

    method IsDescendant(targetID: string, ancestorID: string) returns (yes: bool)
      requires Valid()
      ensures yes <==> ancestorID in instances && Reaches(State(), ancestorID, targetID)
    {
      var all := CollectDescendants(ancestorID);
      yes := targetID in all;
    }

    /** detachAllSlots and softStop: the instance stays registered as stopped. */
    method SoftStop(id: string)
      requires Valid()
      modifies this`instances
      ensures Valid()
      ensures instances == if id in old(instances) then old(instances)[id := old(instances)[id].(status := Stopped)]
                           else old(instances)
    {
      hide Runs.Fits, Inv;
      if id in instances {
        ghost var s := Model();
        instances := instances[id := instances[id].(status := Stopped)];
        Runs.StepKeepsFits(s, Runs.SetStatus(id, Stopped), Model(), log);
      }
    }

    /** DeleteInstance removes exactly the descendants of the root from both maps, and the root from
        its parent's list; nothing else changes. */
    method DeleteInstance(id: string) returns (found: bool)
      requires Valid()
      modifies this`instances, this`children
      ensures Valid() && found == (id in old(instances))
      ensures State() == if found then Deleted(old(State()), id) else old(State())
    {
      hide Runs.Fits, Inv, Reaches, Kids, Torn, Deleted, Elements, NoDup, Below, ParentsFirst, Expanded;
      Runs.FitsInv(Model(), log);
      ghost var r := State();
      var toStop := CollectDescendants(id);
      assert id in instances ==> |toStop| > 0;
      if |toStop| == 0 {
        return false;
      }
      found := true;
      var i := |toStop|;
      TornNothing(r);
      NothingGone(toStop);
      while i > 0
        invariant 0 <= i <= |toStop| && Valid()
        invariant State() == if i > 0 then Torn(r, Elements(toStop[i..])) else Deleted(r, id)
      {
        i := i - 1;
        DeleteNode(r, id, toStop, i);
      }
    }

    /** One iteration of DeleteInstance's loop, for entry i of the snapshot. A stopped instance is
        unregistered directly, a running one through removeInstance: the registry changes alike. */
    method DeleteNode(ghost r: Registry, ghost root: string, toStop: seq<string>, i: nat)
      requires Valid() && Inv(r, Order()) && Bfs(r, Order(), root, toStop, |toStop|) && i < |toStop|
      requires State() == Torn(r, Elements(toStop[i + 1..]))
      modifies this`instances, this`children
      ensures Valid()
      ensures State() == if i > 0 then Torn(r, Elements(toStop[i..])) else Deleted(r, root)
    {
      hide Runs.Fits, Inv, Bfs, Deleted, Unregister, Torn;
      TearStep(r, Order(), root, toStop, i);
      var id := toStop[i];
      if id in instances {
        RegisteredIsOwn(Model(), id);
        UnregisterLocked(id, instances[id]);
      }
    }

    /** One iteration of StopInstance's loop. */
    method StopNode(ghost r: Registry, ghost root: string, toStop: seq<string>, i: nat)
      requires Valid() && Inv(r, Order()) && Bfs(r, Order(), root, toStop, |toStop|) && i < |toStop|
      requires State() == StoppedBelow(r, Elements(toStop[i + 1..]))
      modifies this`instances, this`children
      ensures Valid()
      ensures State() == if i > 0 then StoppedBelow(r, Elements(toStop[i..])) else StoppedTree(r, root)
    {
      hide Runs.Fits, Inv, Bfs, Unregister, StoppedTree, StoppedBelow, Elements;
      StopStep(r, Order(), root, toStop, i, State());
      var id := toStop[i];
      if id in instances && instances[id].status == Running {
        if instances[id].persistent {
          SoftStop(id);
        } else {
          RegisteredIsOwn(Model(), id);
          UnregisterLocked(id, instances[id]);
        }
      }
    }

    /** StopInstance on a running root: descendants that run are marked stopped if persistent and
        unregistered if not; nothing else changes. trace holds the registry after each teardown: in
        every one of them, a node that was torn down has nothing running below it in the snapshot. */
    method StopInstance(id: string) returns (found: bool, ghost trace: seq<Registry>)
      requires Valid()
      modifies this`instances, this`children
      ensures Valid() && found == (id in old(instances))
      ensures |trace| > 0 && trace[0] == old(State()) && trace[|trace| - 1] == State()
      ensures State() == if IsRunning(old(State()), id) then StoppedTree(old(State()), id) else old(State())
      ensures IsRunning(old(State()), id) ==>
                forall y :: Reaches(old(State()), id, y) ==> !IsRunning(State(), y)
      ensures forall k :: 0 <= k < |trace| ==> LeafFirst(old(State()), trace[k])
    {
      hide Runs.Fits, Inv, Reaches, Bfs, LeafFirst, StoppedTree, StoppedBelow, Elements;
      Runs.FitsInv(Model(), log);
      ghost var r := State();
      trace := [r];
      NothingStopped(r);
      var toStop := CollectDescendants(id);
      found := |toStop| > 0;
      if !found || instances[id].status == Stopped {
        return;
      }
      var i := |toStop|;
      NothingGone(toStop);
      NothingDown(r);
      while i > 0
        invariant 0 <= i <= |toStop| && Valid()
        invariant State() == if i > 0 then StoppedBelow(r, Elements(toStop[i..])) else StoppedTree(r, id)
        invariant |trace| > 0 && trace[0] == r && trace[|trace| - 1] == State()
        invariant forall k :: 0 <= k < |trace| ==> LeafFirst(r, trace[k])
      {
        i := i - 1;
        StopNode(r, id, toStop, i);
        StoppedIsLeafFirst(r, Order(), id, toStop, i, State());
        trace := trace + [State()];
      }
      StoppedIsDown(r, Order(), id, toStop);
    }
  }

  lemma RegisteredIsOwn(s: Runs.State, id: string)
    requires Runs.Fits(s, s.log) && id in s.registry.instances
    ensures Runs.IsOwn(s, id, s.registry.instances[id])
  {
  }

  lemma DropKeepsFits(s: Runs.State, id: string, inst: Instance, t: Runs.State)
    requires Runs.Fits(s, s.log) && Runs.Step(s, Runs.Drop(id, inst), t)
    ensures Runs.Fits(t, t.log)
  {
    Runs.StepKeepsFits(s, Runs.Drop(id, inst), t, t.log);
  }

  /** Registering, and when it keeps the invariant. */
  lemma RegisteredFits(s: Runs.State, id: string, inst: Instance, t: Runs.State)
    requires Runs.Fits(s, s.log)
    requires Runs.Step(s, if Runs.IsOwn(s, id, inst) then Runs.Enroll(id, inst) else Runs.Create(id, inst), t)
    ensures Runs.Fits(t, t.log) <==> id !in Kids(s.registry, inst.parentID)
  {
    hide Inv;
    Runs.StepGrowsLog(s, if Runs.IsOwn(s, id, inst) then Runs.Enroll(id, inst) else Runs.Create(id, inst), t);
    Runs.FitsLonger(s, t.log);
    if Runs.IsOwn(s, id, inst) {
      if id in Kids(s.registry, inst.parentID) {
        ListedTwice(s.registry, Runs.Born(t.log), id, inst);
      } else {
        Runs.StepKeepsFits(s, Runs.Enroll(id, inst), t, t.log);
      }
    } else {
      Runs.StepKeepsFits(s, Runs.Create(id, inst), t, t.log);
      Runs.NotRegisteredNotListed(s.registry, Runs.Born(s.log), id, inst.parentID);
    }
  }

  function Elements(s: seq<string>): set<string> { set x | x in s }

  ghost function Descendants(r: Registry, root: string): set<string> {
    set y | y in r.instances && Reaches(r, root, y)
  }

  /** The registry after deleting root: its descendants are gone from both maps, and the list of
      its parent, if it has one, no longer names it. */
  ghost function Deleted(r: Registry, root: string): Registry
    requires root in r.instances
  {
    var gone, p := Descendants(r, root), r.instances[root].parentID;
    Registry(r.instances - gone,
             if p == "" then r.children - gone else (r.children - gone)[p := Without(Kids(r, p), root)])
  }

  /** A deletion leaves no key and no list entry naming a deleted instance. */
  lemma DeletedLeavesNoTrace(r: Registry, born: string -> nat, root: string, d: string)
    requires Inv(r, born) && root in r.instances && d in Descendants(r, root)
    ensures d !in Deleted(r, root).instances && d !in Deleted(r, root).children
    ensures forall q :: q in Deleted(r, root).children ==> d !in Deleted(r, root).children[q]
  {
    InvFacts(r, born);
    var p := r.instances[root].parentID;
    WithoutElements(Kids(r, p), root);
    if p != "" && d == p {
      DescendantsAreYounger(r, born, root, p);
    }
    forall q | q in Deleted(r, root).children ensures d !in Deleted(r, root).children[q] {
      if q in r.children && d in r.children[q] && d != root {
        DescendantHasDescendantParent(r, born, root, d);
        if q == p {
          DescendantsAreYounger(r, born, root, p);
        }
      }
    }
  }

  /** The parent that lists a proper descendant is itself a descendant. */
  lemma DescendantHasDescendantParent(r: Registry, born: string -> nat, root: string, d: string)
    requires Inv(r, born) && root in r.instances && d in Descendants(r, root) && d != root
    ensures r.instances[d].parentID in Descendants(r, root)
  {
    InvFacts(r, born);
    var path :| IsPath(r, path) && path[0] == root && path[|path| - 1] == d;
    var n := |path| - 1;
    var front := path[..n];
    assert path[(n - 1) + 1] in Kids(r, path[n - 1]);
    assert forall i :: 0 <= i < |front| ==> front[i] == path[i];
    forall i | 0 <= i < |front| - 1 ensures front[i + 1] in Kids(r, front[i]) {
      assert path[i + 1] in Kids(r, path[i]);
    }
    assert IsPath(r, front);
    if n > 1 {
      assert path[(n - 2) + 1] in Kids(r, path[n - 2]);
    }
  }

  lemma NothingGone(s: seq<string>)
    ensures Elements(s[|s|..]) == {}
  {
  }

  lemma TornNothing(r: Registry)
    ensures Torn(r, {}) == r
  {
    forall p | p in r.children ensures Minus(r.children[p], {}) == r.children[p] {
      MinusOne(r.children[p], {}, "");
    }
  }

  /** Entry i of the listing is still registered, and its parent is earlier and lists it. */
  lemma NodeToTear(r: Registry, born: string -> nat, root: string, all: seq<string>, i: nat)
    requires Inv(r, born) && Bfs(r, born, root, all, |all|) && 0 < i < |all|
    ensures var p := r.instances[all[i]].parentID;
            && all[i] in Torn(r, Elements(all[i + 1..])).instances
            && p != "" && p in r.children && p != all[i] && p !in Elements(all[i + 1..])
  {
    InvFacts(r, born);
    assert all[i] in all;
    assert HasParentBefore(r, all, i, |all|);
    var a :| 0 <= a < i && a < |all| && all[i] in Kids(r, all[a]);
    assert r.instances[all[i]].parentID == all[a];
  }

  /** Unregistering entry i after all later entries. */
  lemma TearStep(r: Registry, born: string -> nat, root: string, all: seq<string>, i: nat)
    requires Inv(r, born) && Bfs(r, born, root, all, |all|) && i < |all|
    ensures var t := Torn(r, Elements(all[i + 1..]));
            && root in r.instances
            && all[i] in t.instances
            && Unregister(t, all[i], t.instances[all[i]]) ==
               if i > 0 then Torn(r, Elements(all[i..])) else Deleted(r, root)
  {
    hide Inv, Bfs, Unregister, Deleted, Elements;
    EntryIsThere(r, born, root, all, i);
    if i > 0 {
      NodeToTear(r, born, root, all, i);
      OneParent(r, born, all[i]);
      UnregisterTears(r, Elements(all[i + 1..]), all[i], r.instances[all[i]]);
    } else {
      RootTorn(r, born, root, all);
    }
  }

  lemma EntryIsThere(r: Registry, born: string -> nat, root: string, all: seq<string>, i: nat)
    requires Bfs(r, born, root, all, |all|) && i < |all|
    ensures all[0] == root && root in r.instances && all[i] in r.instances
    ensures all[i] !in Elements(all[i + 1..])
    ensures Elements(all[i..]) == Elements(all[i + 1..]) + {all[i]}
  {
    assert all[0] in all && all[i] in all;
    assert all[i..] == [all[i]] + all[i + 1..];
  }

  lemma OneParent(r: Registry, born: string -> nat, id: string)
    requires Inv(r, born) && id in r.instances
    ensures forall p, c :: p in r.children && c in r.children[p] && c == id ==> p == r.instances[id].parentID
  {
    InvFacts(r, born);
  }

  lemma ListedAreDescendants(r: Registry, born: string -> nat, root: string, all: seq<string>)
    requires Bfs(r, born, root, all, |all|)
    ensures Elements(all[1..]) + {root} == Descendants(r, root)
    ensures forall x :: x in all <==> x in Elements(all[1..]) || x == root
  {
    assert all == [root] + all[1..];
    forall y ensures y in all <==> y in Descendants(r, root) {
      BfsIsExact(r, born, root, all, y);
    }
  }

  lemma RootTorn(r: Registry, born: string -> nat, root: string, all: seq<string>)
    requires Inv(r, born) && root in r.instances && Bfs(r, born, root, all, |all|)
    ensures Unregister(Torn(r, Elements(all[1..])), root, r.instances[root]) == Deleted(r, root)
  {
    assert |all| > 0;
    hide Inv, Bfs, Reaches, Descendants, Elements;
    var rest, p := Elements(all[1..]), r.instances[root].parentID;
    EntryIsThere(r, born, root, all, 0);
    ListedAreDescendants(r, born, root, all);
    if p != "" && p in all {
      RootParentIsOlder(r, born, root);
    }
    forall q | q in r.children && q !in rest + {root} ensures Minus(r.children[q], rest) == r.children[q] {
      OutsideKeepsList(r, born, root, all, q);
    }
    UnregisterRoot(r, rest, root);
  }

  lemma RootParentIsOlder(r: Registry, born: string -> nat, root: string)
    requires Inv(r, born) && root in r.instances && r.instances[root].parentID != ""
    ensures r.instances[root].parentID !in Descendants(r, root)
  {
    if Reaches(r, root, r.instances[root].parentID) {
      DescendantsAreYounger(r, born, root, r.instances[root].parentID);
    }
  }

  lemma UnregisterRoot(r: Registry, rest: set<string>, root: string)
    requires root in r.instances && root !in rest
    requires r.instances[root].parentID != "" ==> r.instances[root].parentID !in rest + {root}
    requires forall q :: q in r.children && q !in rest + {root} ==> Minus(r.children[q], rest) == r.children[q]
    ensures var p, gone := r.instances[root].parentID, rest + {root};
            Unregister(Torn(r, rest), root, r.instances[root]) ==
            Registry(r.instances - gone,
                     if p == "" then r.children - gone else (r.children - gone)[p := Without(Kids(r, p), root)])
  {
    hide Minus, Without;
  }

  /** A list outside the deleted set names none of the deleted, except perhaps the root. */
  lemma OutsideKeepsList(r: Registry, born: string -> nat, root: string, all: seq<string>, q: string)
    requires Inv(r, born) && Bfs(r, born, root, all, |all|) && q in r.children && q !in all
    ensures Minus(r.children[q], Elements(all[1..])) == r.children[q]
    ensures forall c :: c in r.children[q] ==> c !in all[1..]
  {
    InvFacts(r, born);
    forall c | c in r.children[q] ensures c !in all[1..] {
      if c in all[1..] {
        var j :| 0 <= j < |all| - 1 && all[1..][j] == c;
        assert all[j + 1] == c && r.instances[c].parentID == q;
        OnlyParent(r, born, all, |all|, j + 1, q);
      }
    }
    MinusOne(r.children[q], Elements(all[1..]), "");
  }

  // ----- Leaf-first stop -----

  function Marked(r: Registry, down: set<string>): Registry {
    r.(instances := map x | x in r.instances ::
         if x in down then r.instances[x].(status := Stopped) else r.instances[x])
  }

  /** Running instances that are not kept when they stop. */
  function Ephemeral(r: Registry, down: set<string>): set<string> {
    set x | x in down && IsRunning(r, x) && !r.instances[x].persistent
  }

  function StoppedBelow(r: Registry, down: set<string>): Registry { Torn(Marked(r, down), Ephemeral(r, down)) }

  /** The registry after stopping root. Removing an ephemeral root leaves an empty list under its
      parent even if the parent had none. */
  ghost function StoppedTree(r: Registry, root: string): Registry
    requires root in r.instances
  {
    var t, p := StoppedBelow(r, Descendants(r, root)), r.instances[root].parentID;
    if root in Ephemeral(r, {root}) && p != "" && p !in r.children then t.(children := t.children[p := []]) else t
  }

  lemma NothingDown(r: Registry)
    ensures StoppedBelow(r, {}) == r
  {
    TornNothing(r);
    assert Marked(r, {}) == r && Ephemeral(r, {}) == {};
  }

  /** What one more teardown does, for each kind of instance. */
  lemma StopStep(r: Registry, born: string -> nat, root: string, all: seq<string>, i: nat, t: Registry)
    requires Inv(r, born) && Bfs(r, born, root, all, |all|) && i < |all|
    requires t == StoppedBelow(r, Elements(all[i + 1..]))
    ensures root in r.instances && all[i] in t.instances && t.instances[all[i]] == r.instances[all[i]]
    ensures var id, inst := all[i], t.instances[all[i]];
            var u := if i > 0 then StoppedBelow(r, Elements(all[i..])) else StoppedTree(r, root);
            if inst.status == Stopped then u == t
            else if inst.persistent then u == t.(instances := t.instances[id := inst.(status := Stopped)])
            else u == Unregister(t, id, inst)
  {
    hide Inv, Bfs, Unregister, Elements, Descendants, Torn;
    EntryIsThere(r, born, root, all, i);
    var down, id := Elements(all[i + 1..]), all[i];
    OneParent(r, born, id);
    StopOne(r, down, id);
    if i > 0 {
      NodeToTear(r, born, root, all, i);
      ParentStays(r, down, id);
    } else {
      ListedAreDescendants(r, born, root, all);
      assert down + {root} == Descendants(r, root);
      RootsParentStays(r, born, root, down);
      if root in Ephemeral(r, {root}) {
        StopEphemeralRoot(r, down, root);
      }
    }
  }

  lemma StopOne(r: Registry, down: set<string>, id: string)
    requires id in r.instances && id !in down
    ensures var t, u, inst := StoppedBelow(r, down), StoppedBelow(r, down + {id}), r.instances[id];
            && id in t.instances && t.instances[id] == inst
            && (inst.status == Stopped ==> u == t)
            && (inst.status == Running && inst.persistent ==>
                  u == t.(instances := t.instances[id := inst.(status := Stopped)]))
            && (inst.status == Running && !inst.persistent ==>
                  Ephemeral(r, down + {id}) == Ephemeral(r, down) + {id}
                  && u == Torn(Marked(r, down), Ephemeral(r, down) + {id}))
  {
    hide Minus;
    var inst, m, n := r.instances[id], Marked(r, down), Marked(r, down + {id});
    var g := Ephemeral(r, down);
    if inst.status == Running && !inst.persistent {
      assert Ephemeral(r, down + {id}) == g + {id};
      assert m.instances - (g + {id}) == n.instances - (g + {id});
    } else {
      assert Ephemeral(r, down + {id}) == g;
      assert n.instances == m.instances[id := inst.(status := Stopped)];
      assert n.instances - g == (m.instances - g)[id := inst.(status := Stopped)];
    }
  }

  /** An ephemeral instance below the root. */
  lemma ParentStays(r: Registry, down: set<string>, id: string)
    requires id in r.instances && id !in down
    requires var p := r.instances[id].parentID; p != "" && p in r.children && p != id && p !in down
    requires forall q, c :: q in r.children && c in r.children[q] && c == id ==> q == r.instances[id].parentID
    ensures Unregister(StoppedBelow(r, down), id, r.instances[id]) == Torn(Marked(r, down), Ephemeral(r, down) + {id})
  {
    UnregisterTears(Marked(r, down), Ephemeral(r, down), id, r.instances[id]);
  }

  lemma RootsParentStays(r: Registry, born: string -> nat, root: string, down: set<string>)
    requires Inv(r, born) && root in r.instances && down + {root} == Descendants(r, root)
    ensures r.instances[root].parentID != "" ==>
              r.instances[root].parentID !in down && r.instances[root].parentID != root
    ensures forall q :: q in r.children && root in r.children[q] ==> q == r.instances[root].parentID != ""
  {
    InvFacts(r, born);
    if r.instances[root].parentID != "" {
      RootParentIsOlder(r, born, root);
    }
  }

  /** An ephemeral root, whose parent may not list it. */
  lemma StopEphemeralRoot(r: Registry, down: set<string>, root: string)
    requires root in r.instances && root !in down && root in Ephemeral(r, {root})
    requires r.instances[root].parentID != "" ==>
               r.instances[root].parentID !in down && r.instances[root].parentID != root
    requires forall q :: q in r.children && root in r.children[q] ==> q == r.instances[root].parentID != ""
    ensures var u, p := Torn(Marked(r, down), Ephemeral(r, down) + {root}), r.instances[root].parentID;
            Unregister(StoppedBelow(r, down), root, r.instances[root]) ==
            if p != "" && p !in r.children then u.(children := u.children[p := []]) else u
  {
    var m, g, inst := Marked(r, down), Ephemeral(r, down), r.instances[root];
    if inst.parentID != "" && inst.parentID in r.children {
      UnregisterTears(m, g, root, inst);
    } else {
      UnlistedTears(m, g, root);
      assert Without([], root) == [];
    }
  }

  lemma UnlistedTears(r: Registry, gone: set<string>, id: string)
    requires forall q :: q in r.children ==> id !in r.children[q]
    ensures Torn(r, gone).instances - {id} == Torn(r, gone + {id}).instances
    ensures Torn(r, gone).children - {id} == Torn(r, gone + {id}).children
  {
    var u, t := Torn(r, gone).children - {id}, Torn(r, gone + {id}).children;
    assert u.Keys == t.Keys;
    forall q | q in t ensures u[q] == t[q] {
      MinusSame(r.children[q], gone, gone + {id});
    }
  }

  /** Who is torn down has stopped running; everybody else is as before. */
  lemma StoppedInstances(r: Registry, down: set<string>)
    ensures var t := StoppedBelow(r, down);
            && (forall x :: x in down ==> !IsRunning(t, x))
            && (forall x :: x !in down ==>
                  (x in t.instances <==> x in r.instances) && (x in t.instances ==> t.instances[x] == r.instances[x]))
  {
    hide Minus;
  }

  lemma StoppedIsDown(r: Registry, born: string -> nat, root: string, all: seq<string>)
    requires Inv(r, born) && root in r.instances && Bfs(r, born, root, all, |all|)
    ensures forall y :: Reaches(r, root, y) ==> !IsRunning(StoppedTree(r, root), y)
  {
    hide Inv, Reaches;
    forall y | Reaches(r, root, y) ensures !IsRunning(StoppedTree(r, root), y) {
      BfsIsExact(r, born, root, all, y);
      assert y in r.instances;
      StoppedInstances(r, Descendants(r, root));
    }
  }

  ghost predicate LeafFirst(r: Registry, t: Registry) {
    forall x, y :: IsRunning(r, x) && !IsRunning(t, x) && Reaches(r, x, y) ==> !IsRunning(t, y)
  }

  lemma NothingStopped(r: Registry)
    ensures LeafFirst(r, r)
  {
  }

  lemma StoppedIsLeafFirst(r: Registry, born: string -> nat, root: string, all: seq<string>, i: nat, t: Registry)
    requires Inv(r, born) && Bfs(r, born, root, all, |all|) && i < |all| && root in r.instances
    requires t == if i > 0 then StoppedBelow(r, Elements(all[i..])) else StoppedTree(r, root)
    ensures LeafFirst(r, t)
  {
    StoppedFromHere(r, born, root, all, i, t);
    hide StoppedTree, StoppedBelow;
    forall x, y | IsRunning(r, x) && !IsRunning(t, x) && Reaches(r, x, y) ensures !IsRunning(t, y) {
      assert x in all[i..];
      var j :| 0 <= j < |all| - i && all[i..][j] == x;
      assert all[i + j] == x;
      var path :| IsPath(r, path) && path[0] == x && path[|path| - 1] == y;
      BelowComesLater(r, born, root, all, path, i + j);
      assert all[i + j..] == all[i..][j..];
    }
  }

  lemma StoppedFromHere(r: Registry, born: string -> nat, root: string, all: seq<string>, i: nat, t: Registry)
    requires Bfs(r, born, root, all, |all|) && i < |all| && root in r.instances
    requires t == if i > 0 then StoppedBelow(r, Elements(all[i..])) else StoppedTree(r, root)
    ensures forall x :: x in all[i..] ==> !IsRunning(t, x)
    ensures forall x :: x !in all[i..] && IsRunning(r, x) ==> IsRunning(t, x)
  {
    hide Bfs, StoppedBelow;
    if i > 0 {
      StoppedInstances(r, Elements(all[i..]));
    } else {
      ListedAreDescendants(r, born, root, all);
      assert all[0..] == all;
      StoppedInstances(r, Descendants(r, root));
    }
  }
}
