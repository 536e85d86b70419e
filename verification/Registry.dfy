/** The manager's registry of instances: what registration and removal do to the two maps, the
    invariant they keep, and reachability through the child lists. */
module Registry {

  datatype Status = Running | Stopped

  datatype Instance = Instance(parentID: string, persistent: bool, status: Status)

  /** instances: id -> instance. children: parent id -> child ids, in order of registration. */
  datatype Registry = Registry(instances: map<string, Instance>, children: map<string, seq<string>>)

  function Kids(r: Registry, p: string): seq<string> { if p in r.children then r.children[p] else [] }

  ghost predicate NoDup<T(!new)>(s: seq<T>) { forall i, j :: 0 <= i < j < |s| ==> s[i] != s[j] }

  function Without(s: seq<string>, id: string): seq<string> {
    if s == [] then [] else (if s[0] == id then [] else [s[0]]) + Without(s[1..], id)
  }

  function Register(r: Registry, id: string, inst: Instance): Registry {
    Registry(r.instances[id := inst],
             if inst.parentID == "" then r.children
             else r.children[inst.parentID := Kids(r, inst.parentID) + [id]])
  }

  /** unregisterLocked with a non-nil instance. The child list of the parent is rewritten even if
      there was none. */
  function Unregister(r: Registry, id: string, inst: Instance): Registry {
    var bare := Registry(r.instances - {id}, r.children - {id});
    if inst.parentID == "" then bare
    else bare.(children := bare.children[inst.parentID := Without(Kids(bare, inst.parentID), id)])
  }

  // ----- The invariant -----

  predicate Lists(r: Registry, p: string, c: string) { p in r.children && c in r.children[p] }

  predicate IsLink(r: Registry, c: string, p: string) {
    c in r.instances && r.instances[c].parentID == p && p != ""
  }

  predicate HasOlderParent(r: Registry, born: string -> nat, c: string)
    requires c in r.instances
  {
    r.instances[c].parentID != "" ==> born(r.instances[c].parentID) < born(c)
  }

  /** A listed child is registered with that parent id and was created after it; lists have no
      repetitions. born orders ids by creation: a parent exists before its child is created. */
  ghost predicate Inv(r: Registry, born: string -> nat) {
    && (forall p, c :: Lists(r, p, c) ==> IsLink(r, c, p))
    && (forall p :: p in r.children ==> NoDup(r.children[p]))
    && (forall c :: c in r.instances ==> HasOlderParent(r, born, c))
  }

  /** The invariant spelled out. */
  lemma InvFacts(r: Registry, born: string -> nat)
    requires Inv(r, born)
    ensures forall p, c :: p in r.children && c in r.children[p] ==>
              c in r.instances && r.instances[c].parentID == p && p != ""
    ensures forall c :: c in r.instances && r.instances[c].parentID != "" ==> born(r.instances[c].parentID) < born(c)
  {
    forall p, c | p in r.children && c in r.children[p]
      ensures c in r.instances && r.instances[c].parentID == p && p != ""
    {
      assert Lists(r, p, c);
    }
    forall c | c in r.instances && r.instances[c].parentID != "" ensures born(r.instances[c].parentID) < born(c) {
      assert HasOlderParent(r, born, c);
    }
  }

  lemma {:induction false} WithoutElements(s: seq<string>, id: string)
    ensures forall x :: x in Without(s, id) <==> x in s && x != id
    ensures NoDup(s) ==> NoDup(Without(s, id))
    ensures id !in s ==> Without(s, id) == s
  {
    if s != [] {
      WithoutElements(s[1..], id);
      assert s == [s[0]] + s[1..];
      if NoDup(s) {
        assert NoDup(s[1..]);
        var w := Without(s[1..], id);
        assert s[0] !in s[1..];
        assert s[0] !in w;
        assert NoDup([s[0]] + w);
      }
    }
  }

  lemma UnregisterKeepsInv(r: Registry, born: string -> nat, id: string, inst: Instance)
    requires Inv(r, born) && (id in r.instances ==> r.instances[id].parentID == inst.parentID)
    ensures Inv(Unregister(r, id, inst), born)
  {
    var t := Unregister(r, id, inst);
    var kids := Kids(Registry(r.instances - {id}, r.children - {id}), inst.parentID);
    WithoutElements(kids, id);
    assert NoDup(kids);
    hide NoDup, Without;
    forall p | p in t.children ensures NoDup(t.children[p]) {
      assert t.children[p] == if p == inst.parentID != "" then Without(kids, id) else r.children[p];
    }
    forall p, c | Lists(t, p, c) ensures IsLink(t, c, p) {
      assert Lists(r, p, c) && IsLink(r, c, p);
    }
    forall c | c in t.instances ensures HasOlderParent(t, born, c) {
      assert HasOlderParent(r, born, c);
    }
  }

  lemma SameParentsKeepInv(r: Registry, born: string -> nat, t: Registry)
    requires Inv(r, born) && t.children == r.children && t.instances.Keys == r.instances.Keys
    requires forall c :: c in t.instances ==> t.instances[c].parentID == r.instances[c].parentID
    ensures Inv(t, born)
  {
    hide NoDup;
    forall p, c | Lists(t, p, c) ensures IsLink(t, c, p) {
      assert Lists(r, p, c);
    }
    forall c | c in t.instances ensures HasOlderParent(t, born, c) {
      assert HasOlderParent(r, born, c);
    }
  }

  /** Registering keeps the invariant exactly when the id is not already listed under its parent.
      Two concurrent restarts of one instance break it: both pass the status check, both register. */
  lemma RegisterKeepsInvExactlyWhenUnlisted(r: Registry, born: string -> nat, id: string, inst: Instance)
    requires Inv(r, born)
    requires inst.parentID != "" ==> born(inst.parentID) < born(id)
    requires id in r.instances ==> r.instances[id].parentID == inst.parentID
    ensures Inv(Register(r, id, inst), born) <==> id !in Kids(r, inst.parentID)
  {
    hide Inv;
    if id in Kids(r, inst.parentID) {
      ListedTwice(r, born, id, inst);
    } else {
      RegisterUnlisted(r, born, id, inst);
    }
  }

  lemma ListedTwice(r: Registry, born: string -> nat, id: string, inst: Instance)
    requires Inv(r, born) && id in Kids(r, inst.parentID)
    ensures !Inv(Register(r, id, inst), born)
  {
    var p, listed := inst.parentID, Kids(r, inst.parentID);
    assert Lists(r, p, id) && IsLink(r, id, p);
    var i :| 0 <= i < |listed| && listed[i] == id;
    var now := listed + [id];
    assert r.instances[id].parentID == p != "";
    assert now[i] == listed[i] && now[|listed|] == id;
    assert !NoDup(now);
    var t := Register(r, id, inst);
    assert p in t.children && t.children[p] == now;
  }

  lemma RegisterUnlisted(r: Registry, born: string -> nat, id: string, inst: Instance)
    requires Inv(r, born) && id !in Kids(r, inst.parentID)
    requires inst.parentID != "" ==> born(inst.parentID) < born(id)
    requires id in r.instances ==> r.instances[id].parentID == inst.parentID
    ensures Inv(Register(r, id, inst), born)
  {
    var t := Register(r, id, inst);
    NoDupSnoc(Kids(r, inst.parentID), id);
    hide NoDup;
    forall p | p in t.children ensures NoDup(t.children[p]) {
      assert t.children[p] == if p == inst.parentID != "" then Kids(r, p) + [id] else r.children[p];
    }
    forall p, c | Lists(t, p, c) ensures IsLink(t, c, p) {
      if !(c == id && p == inst.parentID != "") {
        assert Lists(r, p, c);
      }
    }
    forall c | c in t.instances ensures HasOlderParent(t, born, c) {
      assert c in r.instances && c != id ==> HasOlderParent(r, born, c);
    }
  }

  lemma NoDupSnoc(s: seq<string>, x: string)
    requires NoDup(s) && x !in s
    ensures NoDup(s + [x])
  {
  }

  // ----- Reachability -----

  ghost predicate IsPath(r: Registry, path: seq<string>) {
    |path| > 0 && forall i :: 0 <= i < |path| - 1 ==> path[i + 1] in Kids(r, path[i])
  }

  ghost predicate Reaches(r: Registry, x: string, y: string) {
    exists path :: IsPath(r, path) && path[0] == x && path[|path| - 1] == y
  }

  lemma ReachesSelf(r: Registry, x: string)
    ensures Reaches(r, x, x)
  {
    assert IsPath(r, [x]);
  }

  lemma ReachesKid(r: Registry, x: string, y: string, z: string)
    requires Reaches(r, x, y) && z in Kids(r, y)
    ensures Reaches(r, x, z)
  {
    var path :| IsPath(r, path) && path[0] == x && path[|path| - 1] == y;
    assert IsPath(r, path + [z]);
  }

  lemma PathTail(r: Registry, path: seq<string>)
    requires IsPath(r, path) && |path| > 1
    ensures IsPath(r, path[1..])
  {
    var rest := path[1..];
    forall i | 0 <= i < |rest| - 1 ensures rest[i + 1] in Kids(r, rest[i]) {
      assert path[(i + 1) + 1] in Kids(r, path[i + 1]);
    }
  }

  /** A set closed under children contains everything its members reach. */
  lemma {:induction false} ClosedUnderPath(r: Registry, s: set<string>, path: seq<string>)
    requires IsPath(r, path) && path[0] in s
    requires forall x, k :: x in s && k in Kids(r, x) ==> k in s
    ensures path[|path| - 1] in s
  {
    if |path| > 1 {
      var rest := path[1..];
      assert path[1] in Kids(r, path[0]);
      PathTail(r, path);
      ClosedUnderPath(r, s, rest);
    }
  }

  /** Reachable instances are younger than the root, so the parent links cannot close a cycle. */
  lemma {:induction false} PathGrowsYounger(r: Registry, born: string -> nat, path: seq<string>)
    requires Inv(r, born) && IsPath(r, path)
    ensures |path| > 1 ==> born(path[0]) < born(path[|path| - 1])
  {
    InvFacts(r, born);
    if |path| > 1 {
      var rest := path[1..];
      assert path[1] in Kids(r, path[0]);
      PathTail(r, path);
      assert r.instances[path[1]].parentID == path[0];
      PathGrowsYounger(r, born, rest);
    }
  }

  lemma DescendantsAreYounger(r: Registry, born: string -> nat, x: string, y: string)
    requires Inv(r, born) && Reaches(r, x, y)
    ensures x == y || born(x) < born(y)
  {
    var path :| IsPath(r, path) && path[0] == x && path[|path| - 1] == y;
    PathGrowsYounger(r, born, path);
  }

  /** After a restart (unregister, then register again) the instance reaches nobody else: its former
      children stay registered under its id but are no longer its descendants. */
  lemma RestartForgetsDescendants(r: Registry, born: string -> nat, id: string, inst: Instance, x: string)
    requires Inv(r, born) && id in r.instances && r.instances[id].parentID == inst.parentID
    ensures var t := Register(Unregister(r, id, inst), id, inst);
            && Inv(t, born)
            && (Reaches(t, id, x) ==> x == id)
            && (x in r.instances && x != id ==> x in t.instances && t.instances[x] == r.instances[x])
  {
    InvFacts(r, born);
    var u := Unregister(r, id, inst);
    UnregisterKeepsInv(r, born, id, inst);
    InvFacts(u, born);
    assert id !in u.instances && id !in Kids(u, inst.parentID);
    RegisterKeepsInvExactlyWhenUnlisted(u, born, id, inst);
    var t := Register(u, id, inst);
    assert Kids(t, id) == [] by {
      assert inst.parentID != "" ==> inst.parentID != id;
    }
    if Reaches(t, id, x) {
      var path :| IsPath(t, path) && path[0] == id && path[|path| - 1] == x;
      ClosedUnderPath(t, {id}, path);
    }
  }
}
