/** Context announcements kept as add/remove deltas inside the conversation history itself. The
    history may have lost any of its messages, so what was announced is replayed from what is left,
    and the next delta repairs the difference. */
module DeltaLog {
  import opened Common

  datatype Entry = Entry(contextType: string, added: seq<string>, removed: seq<string>, contentHash: string)

  /** A message; only delta messages carry entries. */
  datatype Message = Message(text: string, replay: Option<seq<Entry>>)

  type History = seq<Message>

  // ----- Replaying -----

  function Elems(names: seq<string>): set<string> { set n | n in names }

  /** Names of an entry are first added and then removed. */
  function Apply(s: set<string>, e: Entry, ty: string): set<string> {
    if e.contextType != ty then s else (s + Elems(e.added)) - Elems(e.removed)
  }

  function ApplyAll(s: set<string>, es: seq<Entry>, ty: string): set<string>
    decreases |es|
  {
    if es == [] then s else ApplyAll(Apply(s, es[0], ty), es[1..], ty)
  }

  function EntriesOf(m: Message): seq<Entry> { if m.replay.Some? then m.replay.value else [] }

  function Entries(h: History): seq<Entry> {
    if h == [] then [] else EntriesOf(h[0]) + Entries(h[1..])
  }

  function Announced(ty: string, h: History): set<string> { ApplyAll({}, Entries(h), ty) }

  lemma {:induction false} ApplyAppend(s: set<string>, a: seq<Entry>, b: seq<Entry>, ty: string)
    ensures ApplyAll(s, a + b, ty) == ApplyAll(ApplyAll(s, a, ty), b, ty)
    decreases |a|
  {
    hide Apply;
    if a == [] {
      assert a + b == b;
    } else {
      assert (a + b)[0] == a[0] && (a + b)[1..] == a[1..] + b;
      ApplyAppend(Apply(s, a[0], ty), a[1..], b, ty);
    }
  }

  lemma {:induction false} EntriesAppend(a: History, b: History)
    ensures Entries(a + b) == Entries(a) + Entries(b)
  {
    hide EntriesOf;
    if a == [] {
      assert a + b == b;
    } else {
      assert (a + b)[0] == a[0] && (a + b)[1..] == a[1..] + b;
      EntriesAppend(a[1..], b);
    }
  }

  lemma EntriesOne(m: Message)
    ensures Entries([m]) == EntriesOf(m) && Entries([]) == []
  {
    assert [m][1..] == [];
    assert Entries([m]) == EntriesOf(m) + Entries([]);
  }

  lemma ApplyOne(s: set<string>, e: Entry, ty: string)
    ensures ApplyAll(s, [e], ty) == Apply(s, e, ty) && ApplyAll(s, [], ty) == s
  {
    assert [e][1..] == [];
    assert ApplyAll(s, [e], ty) == ApplyAll(Apply(s, e, ty), [], ty);
  }

  lemma AnnouncedAppend(ty: string, h: History, m: Message)
    ensures Announced(ty, h + [m]) == ApplyAll(Announced(ty, h), EntriesOf(m), ty)
  {
    EntriesAppend(h, [m]);
    EntriesOne(m);
    ApplyAppend({}, Entries(h), EntriesOf(m), ty);
  }

  /** A name stands iff some entry adds it for good: that entry does not also remove it, and no later
      one does. */
  ghost predicate Stands(name: string, es: seq<Entry>, ty: string) {
    exists i :: 0 <= i < |es| && Adds(es[i], name, ty) && forall j :: i <= j < |es| ==> !Removes(es[j], name, ty)
  }

  predicate Adds(e: Entry, name: string, ty: string) { e.contextType == ty && name in e.added }

  predicate Removes(e: Entry, name: string, ty: string) { e.contextType == ty && name in e.removed }

  lemma {:induction false} AnnouncedExactly(ty: string, es: seq<Entry>, name: string)
    ensures name in ApplyAll({}, es, ty) <==> Stands(name, es, ty)
  {
    if es != [] {
      var n := |es| - 1;
      var front, last := es[..n], es[n];
      assert es == front + [last];
      AnnouncedExactly(ty, front, name);
      ApplyAppend({}, front, [last], ty);
      ApplyOne(ApplyAll({}, front, ty), last, ty);
      hide ApplyAll;
      if Removes(last, name, ty) {
        assert !Stands(name, es, ty);
      } else if Adds(last, name, ty) {
        assert Adds(es[n], name, ty) && !Removes(es[n], name, ty);
      } else {
        StandsFront(name, es, ty);
      }
    }
  }

  lemma StandsFront(name: string, es: seq<Entry>, ty: string)
    requires es != [] && !Adds(es[|es| - 1], name, ty) && !Removes(es[|es| - 1], name, ty)
    ensures Stands(name, es, ty) <==> Stands(name, es[..|es| - 1], ty)
  {
    var front := es[..|es| - 1];
    if Stands(name, front, ty) {
      var i :| 0 <= i < |front| && Adds(front[i], name, ty) && forall j :: i <= j < |front| ==> !Removes(front[j], name, ty);
      assert Adds(es[i], name, ty);
      assert forall j :: i <= j < |front| ==> es[j] == front[j];
    }
    if Stands(name, es, ty) {
      var i :| 0 <= i < |es| && Adds(es[i], name, ty) && forall j :: i <= j < |es| ==> !Removes(es[j], name, ty);
      assert Adds(front[i], name, ty);
      assert forall j :: i <= j < |front| ==> front[j] == es[j];
    }
  }

  /** replayAnnounced. */
  method ReplayAnnounced(ty: string, h: History) returns (announced: set<string>)
    ensures announced == Announced(ty, h)
    ensures forall n :: n in announced <==> Stands(n, Entries(h), ty)
  {
    announced := {};
    for i := 0 to |h|
      invariant announced == Announced(ty, h[..i])
    {
      hide ApplyAll, Entries;
      assert h[..i + 1] == h[..i] + [h[i]];
      AnnouncedAppend(ty, h[..i], h[i]);
      if h[i].replay.Some? {
        announced := ReplayEntries(ty, h[i].replay.value, announced);
      } else {
        ApplyOne(announced, Entry("", [], [], ""), ty);
      }
    }
    assert h[..|h|] == h;
    forall n ensures n in announced <==> Stands(n, Entries(h), ty) {
      AnnouncedExactly(ty, Entries(h), n);
    }
  }

  method ReplayEntries(ty: string, es: seq<Entry>, start: set<string>) returns (announced: set<string>)
    ensures announced == ApplyAll(start, es, ty)
  {
    announced := start;
    for i := 0 to |es|
      invariant announced == ApplyAll(start, es[..i], ty)
    {
      hide ApplyAll;
      assert es[..i + 1] == es[..i] + [es[i]];
      ApplyAppend(start, es[..i], [es[i]], ty);
      ApplyOne(announced, es[i], ty);
      if es[i].contextType == ty {
        for k := 0 to |es[i].added|
          invariant announced == ApplyAll(start, es[..i], ty) + Elems(es[i].added[..k])
        {
          announced := announced + {es[i].added[k]};
        }
        for k := 0 to |es[i].removed|
          invariant announced == (ApplyAll(start, es[..i], ty) + Elems(es[i].added)) - Elems(es[i].removed[..k])
        {
          announced := announced - {es[i].removed[k]};
        }
      }
    }
    assert es[..|es|] == es;
  }

  // ----- Content hashes -----

  predicate Hashes(e: Entry, ty: string) { e.contextType == ty && e.contentHash != "" }

  function LatestIn(es: seq<Entry>, ty: string): string {
    if es == [] then ""
    else if Hashes(es[|es| - 1], ty) then es[|es| - 1].contentHash
    else LatestIn(es[..|es| - 1], ty)
  }

  function LatestHash(ty: string, h: History): string { LatestIn(Entries(h), ty) }

  lemma {:induction false} LatestAppend(a: seq<Entry>, b: seq<Entry>, ty: string)
    ensures LatestIn(a + b, ty) == if LatestIn(b, ty) != "" then LatestIn(b, ty) else LatestIn(a, ty)
    decreases |b|
  {
    if b == [] {
      assert a + b == a;
    } else {
      var n := |b| - 1;
      assert (a + b)[|a + b| - 1] == b[n] && (a + b)[..|a + b| - 1] == a + b[..n];
      LatestAppend(a, b[..n], ty);
    }
  }

  lemma LatestOne(e: Entry, ty: string)
    ensures LatestIn([e], ty) == (if Hashes(e, ty) then e.contentHash else "") && LatestIn([], ty) == ""
  {
    assert [e][..0] == [];
    assert LatestIn([e][..0], ty) == "";
  }

  /** replayLatestHash. */
  method ReplayLatestHash(ty: string, h: History) returns (latest: string)
    ensures latest == LatestHash(ty, h)
  {
    latest := "";
    for i := 0 to |h|
      invariant latest == LatestIn(Entries(h[..i]), ty)
    {
      hide LatestIn, Entries;
      assert h[..i + 1] == h[..i] + [h[i]];
      EntriesAppend(h[..i], [h[i]]);
      EntriesOne(h[i]);
      LatestAppend(Entries(h[..i]), EntriesOf(h[i]), ty);
      latest := LatestOfEntries(ty, EntriesOf(h[i]), latest);
    }
    assert h[..|h|] == h;
  }

  method LatestOfEntries(ty: string, es: seq<Entry>, before: string) returns (latest: string)
    ensures latest == if LatestIn(es, ty) != "" then LatestIn(es, ty) else before
  {
    hide LatestIn;
    latest := before;
    LatestOne(Entry("", [], [], ""), ty);
    for k := 0 to |es|
      invariant latest == if LatestIn(es[..k], ty) != "" then LatestIn(es[..k], ty) else before
    {
      assert es[..k + 1] == es[..k] + [es[k]];
      LatestAppend(es[..k], [es[k]], ty);
      LatestOne(es[k], ty);
      if es[k].contextType == ty && es[k].contentHash != "" {
        latest := es[k].contentHash;
      }
    }
    assert es[..|es|] == es;
  }

  // ----- Sorted listings -----

  /** Go compares strings byte by byte; on UTF-8 that is the order of the code points. */
  predicate Less(a: string, b: string) {
    b != "" && (a == "" || a[0] < b[0] || (a[0] == b[0] && Less(a[1..], b[1..])))
  }

  lemma {:induction false} LessIsTotal(a: string, b: string)
    ensures a == b || Less(a, b) || Less(b, a)
    ensures !(Less(a, b) && Less(b, a)) && !Less(a, a)
  {
    if a != "" && b != "" {
      LessIsTotal(a[1..], b[1..]);
      if a[0] == b[0] && a[1..] == b[1..] {
        assert a == [a[0]] + a[1..] == b;
      }
    }
    if a != "" {
      LessIsTotal(a[1..], a[1..]);
    }
  }

  /** a and b agree up to n, and there a ends or has the smaller character. */
  predicate DiffersAt(a: string, b: string, n: nat) {
    && n <= |a| && n < |b| && a[..n] == b[..n] && (n == |a| || a[n] < b[n])
  }

  lemma {:induction false} LessExactly(a: string, b: string)
    ensures Less(a, b) <==> exists n: nat :: DiffersAt(a, b, n)
  {
    if a == "" || b == "" || a[0] < b[0] {
      assert b != "" ==> DiffersAt(a, b, 0);
    } else {
      LessExactly(a[1..], b[1..]);
      if a[0] == b[0] {
        if n: nat :| DiffersAt(a[1..], b[1..], n) {
          assert a[..n + 1] == [a[0]] + a[1..][..n] && b[..n + 1] == [b[0]] + b[1..][..n];
          assert DiffersAt(a, b, n + 1);
        }
      }
      if n: nat :| DiffersAt(a, b, n) {
        assert n > 0 ==> a[..n][0] == a[0] && b[..n][0] == b[0];
        assert n > 0 && a[1..][..n - 1] == a[..n][1..] && b[1..][..n - 1] == b[..n][1..];
        assert DiffersAt(a[1..], b[1..], n - 1);
      }
    }
  }

  lemma {:induction false} LessIsTransitive(a: string, b: string, c: string)
    requires Less(a, b) && Less(b, c)
    ensures Less(a, c)
  {
    if a != "" && a[0] == b[0] == c[0] {
      LessIsTransitive(a[1..], b[1..], c[1..]);
    }
  }

  /** Each name once, in increasing order. */
  ghost predicate IsListing(l: seq<string>, s: set<string>) {
    && Elems(l) == s
    && forall i, j :: 0 <= i < j < |l| ==> Less(l[i], l[j])
  }

  lemma ListingEmpty(l: seq<string>, s: set<string>)
    requires IsListing(l, s)
    ensures |l| == 0 <==> s == {}
  {
    assert l != [] ==> l[0] in Elems(l);
  }

  /** A set has one listing, so the order in which a map was walked leaves no trace in a delta. */
  lemma {:induction false} ListingIsUnique(a: seq<string>, b: seq<string>, s: set<string>)
    requires IsListing(a, s) && IsListing(b, s)
    ensures a == b
    decreases |a|
  {
    if a == [] {
      ListingEmpty(a, s);
      ListingEmpty(b, s);
    } else {
      assert a[0] in Elems(a) && a[0] in Elems(b);
      assert b[0] in Elems(b) && b[0] in Elems(a);
      SameHead(a, b);
      ListingTail(a, s);
      ListingTail(b, s);
      ListingIsUnique(a[1..], b[1..], s - {a[0]});
    }
  }

  lemma SameHead(a: seq<string>, b: seq<string>)
    requires a != [] && b != [] && a[0] in b && b[0] in a && IsListing(a, Elems(a)) && IsListing(b, Elems(b))
    ensures a[0] == b[0]
  {
    var i :| 0 <= i < |a| && a[i] == b[0];
    var j :| 0 <= j < |b| && b[j] == a[0];
    LessIsTotal(a[0], b[0]);
  }

  lemma ListingTail(l: seq<string>, s: set<string>)
    requires l != [] && IsListing(l, s)
    ensures IsListing(l[1..], s - {l[0]})
  {
    LessIsTotal(l[0], l[0]);
    forall n ensures n in Elems(l[1..]) <==> n in s - {l[0]} {
      if n in l[1..] {
        var i :| 0 <= i < |l| - 1 && l[1..][i] == n;
        assert Less(l[0], l[i + 1]);
      }
      if n in s - {l[0]} {
        var i :| 0 <= i < |l| && l[i] == n;
        assert l[1..][i - 1] == n;
      }
    }
  }

  /** One insertion of sort.Strings. */
  method Insert(l: seq<string>, name: string) returns (r: seq<string>)
    requires IsListing(l, Elems(l)) && name !in l
    ensures IsListing(r, Elems(l) + {name})
  {
    var k := 0;
    while k < |l| && Less(l[k], name)
      invariant k <= |l|
      invariant forall i :: 0 <= i < k ==> Less(l[i], name)
    {
      k := k + 1;
    }
    r := l[..k] + [name] + l[k..];
    InsertedIsListing(l, name, k);
  }

  lemma InsertedIsListing(l: seq<string>, name: string, k: nat)
    requires IsListing(l, Elems(l)) && name !in l && k <= |l|
    requires forall i :: 0 <= i < k ==> Less(l[i], name)
    requires k < |l| ==> !Less(l[k], name)
    ensures IsListing(l[..k] + [name] + l[k..], Elems(l) + {name})
  {
    var r := l[..k] + [name] + l[k..];
    ElemsInserted(l, name, k);
    hide Elems, Less;
    forall i | k <= i < |l| ensures Less(name, l[i]) {
      LessIsTotal(name, l[k]);
      if k < i {
        LessIsTransitive(name, l[k], l[i]);
      }
    }
    forall i, j | 0 <= i < j < |r| ensures Less(r[i], r[j]) {
      assert r[i] == if i < k then l[i] else if i == k then name else l[i - 1];
      assert r[j] == if j < k then l[j] else if j == k then name else l[j - 1];
    }
  }

  lemma ElemsInserted(l: seq<string>, name: string, k: nat)
    requires k <= |l|
    ensures Elems(l[..k] + [name] + l[k..]) == Elems(l) + {name}
  {
    assert l == l[..k] + l[k..];
    assert forall n :: n in l[..k] + [name] + l[k..] <==> n in l || n == name;
  }

  /** The names of one map that the other lacks, in whatever order the map is walked, then sorted. */
  method Missing(from: set<string>, other: set<string>) returns (names: seq<string>)
    ensures IsListing(names, from - other)
  {
    names := [];
    var todo := from;
    while todo != {}
      invariant todo <= from && IsListing(names, (from - todo) - other)
    {
      var n :| n in todo;
      ghost var before := (from - todo) - other;
      todo := todo - {n};
      if n !in other {
        assert n !in Elems(names);
        names := Insert(names, n);
        assert (from - todo) - other == before + {n};
      } else {
        assert (from - todo) - other == before;
      }
    }
    assert (from - {}) - other == from - other;
  }

  // ----- Providers -----

  const OPEN := "<system-reminder>\n"
  const CLOSE := "\n</system-reminder>"

  function Wrap(text: string): string { OPEN + text + CLOSE }

  /** strings.TrimPrefix, then strings.TrimSuffix. */
  function Unwrap(text: string): string {
    var t := if OPEN <= text then text[|OPEN|..] else text;
    if |CLOSE| <= |t| && t[|t| - |CLOSE|..] == CLOSE then t[..|t| - |CLOSE|] else t
  }

  predicate EndsIn(text: string, suffix: string) { |suffix| <= |text| && text[|text| - |suffix|..] == suffix }

  /** Unwrapping undoes wrapping, removes each tag by itself, and leaves a text alone that has neither tag. */
  lemma UnwrapWrap(text: string)
    ensures Unwrap("<system-reminder>\n" + text + "\n</system-reminder>") == text
    ensures Wrap(text) == "<system-reminder>\n" + text + "\n</system-reminder>"
    ensures !EndsIn(text, "\n</system-reminder>") ==> Unwrap("<system-reminder>\n" + text) == text
    ensures !("<system-reminder>\n" <= text + CLOSE) ==> Unwrap(text + "\n</system-reminder>") == text
    ensures !("<system-reminder>\n" <= text) && !EndsIn(text, "\n</system-reminder>") ==> Unwrap(text) == text
  {
    assert (OPEN + text)[|OPEN|..] == text;
    assert Wrap(text)[|OPEN|..] == text + CLOSE;
    assert (text + CLOSE)[|text|..] == CLOSE && (text + CLOSE)[..|text|] == text;
  }

  /** What a named-set provider returns: nothing iff the replayed set is already current. */
  ghost predicate IsNamedDelta(ty: string, current: set<string>, h: History, r: Option<Message>) {
    var was := Announced(ty, h);
    if was == current then r.None?
    else
      && r.Some? && r.value.replay.Some? && |r.value.replay.value| == 1
      && var e := r.value.replay.value[0];
         && e.contextType == ty && e.contentHash == ""
         && IsListing(e.added, current - was) && IsListing(e.removed, was - current)
  }

  /** The diff shared by the skill, secret and agent providers. */
  method NamedSetDelta(ty: string, current: set<string>, h: History,
                       render: (seq<string>, seq<string>, bool) -> string)
    returns (r: Option<Message>)
    ensures IsNamedDelta(ty, current, h, r)
    ensures r.Some? ==>
              var e := r.value.replay.value[0];
              r.value.replay == Some([Entry(ty, e.added, e.removed, "")]) && r.value.text == "<system-reminder>\n" + render(e.added, e.removed, Announced(ty, h) == {}) + "\n</system-reminder>"
  {
    hide Announced, IsListing;
    var announced := ReplayAnnounced(ty, h);
    var added := Missing(current, announced);
    var removed := Missing(announced, current);
    ListingEmpty(added, current - announced);
    ListingEmpty(removed, announced - current);
    if |added| == 0 && |removed| == 0 {
      assert current <= announced <= current;
      return None;
    }
    var text := render(added, removed, announced == {});
    return Some(Message(Wrap(text), Some([Entry(ty, added, removed, "")])));
  }

  /** What a blob provider returns: nothing without content, or if its hash is the latest. */
  ghost predicate IsBlobDelta(ty: string, content: string, hash: string, h: History, r: Option<Message>) {
    if content == "" || LatestHash(ty, h) == hash then r.None?
    else r.Some? && r.value.replay == Some([Entry(ty, [], [], hash)])
  }

  /** The mount, memory and todo providers; the digest is a parameter. */
  method BlobDelta(ty: string, title: string, content: string, digest: string -> string, h: History)
    returns (r: Option<Message>)
    ensures IsBlobDelta(ty, content, digest(content), h, r)
    ensures r.Some? ==> r.value.text == "<system-reminder>\n" + (title + content) + "\n</system-reminder>"
  {
    if content == "" {
      return None;
    }
    var hash := digest(content);
    var latest := ReplayLatestHash(ty, h);
    if latest == hash {
      return None;
    }
    return Some(Message(Wrap(title + content), Some([Entry(ty, [], [], hash)])));
  }

  /** Whatever the history has lost, appending the delta makes the replay current. */
  lemma NamedDeltaHeals(ty: string, current: set<string>, h: History, r: Option<Message>)
    requires IsNamedDelta(ty, current, h, r)
    ensures r.Some? ==> Announced(ty, h + [r.value]) == current
    ensures r.None? <==> Announced(ty, h) == current
  {
    if r.Some? {
      var was := Announced(ty, h);
      AnnouncedAppend(ty, h, r.value);
      assert r.value.replay.value == [r.value.replay.value[0]];
      ApplyOne(was, r.value.replay.value[0], ty);
      hide ApplyAll, Entries;
      assert (was + (current - was)) - (was - current) == current;
    }
  }

  lemma BlobDeltaHeals(ty: string, content: string, hash: string, h: History, r: Option<Message>)
    requires IsBlobDelta(ty, content, hash, h, r) && hash != ""
    ensures r.Some? ==> LatestHash(ty, h + [r.value]) == hash
  {
    if r.Some? {
      EntriesAppend(h, [r.value]);
      EntriesOne(r.value);
      LatestAppend(Entries(h), EntriesOf(r.value), ty);
      LatestOne(Entry(ty, [], [], hash), ty);
    }
  }
}
