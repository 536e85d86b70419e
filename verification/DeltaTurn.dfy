/** One turn: all providers are asked, their deltas merged into a single message, and that message
    appended to the history. */
module DeltaTurn {
  import opened Common
  import opened DeltaLog
  import Text

  // ----- Merging -----

  /** The provider returned a message that carries entries. */
  predicate Emitted(r: Option<Message>) { r.Some? && r.value.replay.Some? }

  function Types(es: seq<Entry>): set<string> { set e | e in es :: e.contextType }

  /** The messages that make it into the merge: a message with a type seen before is skipped whole. */
  function Kept(rs: seq<Option<Message>>, seen: set<string>): History
    decreases |rs|
  {
    if rs == [] then []
    else if Emitted(rs[0]) && Types(EntriesOf(rs[0].value)) !! seen then
      [rs[0].value] + Kept(rs[1..], seen + Types(EntriesOf(rs[0].value)))
    else Kept(rs[1..], seen)
  }

  function Texts(ms: History): seq<string> { seq(|ms|, i requires 0 <= i < |ms| => Unwrap(ms[i].text)) }

  function Merge(rs: seq<Option<Message>>): History {
    var kept := Kept(rs, {});
    if Entries(kept) == [] then [] else [Message(Wrap(Text.Join(Texts(kept), "\n\n")), Some(Entries(kept)))]
  }

  type Provider = History -> Option<Message>

  function Results(providers: seq<Provider>, h: History): seq<Option<Message>> {
    seq(|providers|, i requires 0 <= i < |providers| => providers[i](h))
  }

  /** computeDeltas. */
  method ComputeDeltas(providers: seq<Provider>, h: History) returns (out: History)
    ensures out == Merge(Results(providers, h))
  {
    var texts: seq<string> := [];
    var entries: seq<Entry> := [];
    var seen: set<string> := {};
    ghost var rs := Results(providers, h);
    ghost var kept: History := [];
    for i := 0 to |providers|
      invariant Kept(rs, {}) == kept + Kept(rs[i..], seen)
      invariant texts == Texts(kept) && entries == Entries(kept)
    {
      var r := providers[i](h);
      assert rs[i..][0] == r && rs[i..][1..] == rs[i + 1..];
      if r.None? || r.value.replay.None? {
        continue;
      }
      var es := r.value.replay.value;
      var skip := AnySeen(es, seen);
      if skip {
        continue;
      }
      seen := seen + Types(es);
      texts := texts + [Unwrap(r.value.text)];
      entries := entries + es;
      hide Kept, Entries, Unwrap;
      EntriesAppend(kept, [r.value]);
      EntriesOne(r.value);
      assert kept + ([r.value] + Kept(rs[i + 1..], seen)) == (kept + [r.value]) + Kept(rs[i + 1..], seen);
      kept := kept + [r.value];
    }
    assert rs[|providers|..] == [];
    assert kept + [] == kept;
    if |entries| == 0 {
      return [];
    }
    return [Message(Wrap(Text.Join(texts, "\n\n")), Some(entries))];
  }

  method AnySeen(es: seq<Entry>, seen: set<string>) returns (skip: bool)
    ensures skip <==> !(Types(es) !! seen)
  {
    for i := 0 to |es|
      invariant forall k :: 0 <= k < i ==> es[k].contextType !in seen
    {
      if es[i].contextType in seen {
        assert es[i].contextType in Types(es);
        return true;
      }
    }
    return false;
  }

  /** The one merged message replays like the kept messages, one after the other. */
  lemma MergeReplays(rs: seq<Option<Message>>, h: History, ty: string)
    ensures Announced(ty, h + Merge(rs)) == Announced(ty, h + Kept(rs, {}))
    ensures LatestHash(ty, h + Merge(rs)) == LatestHash(ty, h + Kept(rs, {}))
  {
    var kept, out := Kept(rs, {}), Merge(rs);
    assert Entries(out) == Entries(kept) by {
      if Entries(kept) != [] {
        EntriesOne(out[0]);
      }
    }
    EntriesAppend(h, kept);
    EntriesAppend(h, out);
  }

  // ----- First provider per type -----

  /** Every provider of the program puts exactly one entry into its message. */
  predicate Single(r: Option<Message>) { Emitted(r) ==> |r.value.replay.value| == 1 }

  predicate EmitsType(r: Option<Message>, ty: string) { Emitted(r) && ty in Types(EntriesOf(r.value)) }

  ghost predicate First(rs: seq<Option<Message>>, i: int, ty: string) {
    0 <= i < |rs| && EmitsType(rs[i], ty) && forall j :: 0 <= j < i ==> !EmitsType(rs[j], ty)
  }

  /** Entries of other types do not matter. */
  lemma {:induction false} OtherTypes(s: set<string>, es: seq<Entry>, ty: string)
    requires ty !in Types(es)
    ensures ApplyAll(s, es, ty) == s && LatestIn(es, ty) == ""
    decreases |es|
  {
    if es != [] {
      var n := |es| - 1;
      assert es == es[..n] + [es[n]];
      assert es[n].contextType in Types(es);
      assert Types(es[..n]) <= Types(es);
      OtherTypes(s, es[..n], ty);
      ApplyAppend(s, es[..n], [es[n]], ty);
      ApplyOne(s, es[n], ty);
    }
  }

  lemma TypesAppend(a: seq<Entry>, b: seq<Entry>)
    ensures Types(a + b) == Types(a) + Types(b)
  {
    assert forall e :: e in a + b <==> e in a || e in b;
  }

  /** Types seen before do not appear in what is kept afterwards. */
  lemma {:induction false} KeptAvoidsSeen(rs: seq<Option<Message>>, seen: set<string>)
    ensures Types(Entries(Kept(rs, seen))) !! seen
    decreases |rs|
  {
    if rs != [] {
      if Emitted(rs[0]) && Types(EntriesOf(rs[0].value)) !! seen {
        var es, more := EntriesOf(rs[0].value), seen + Types(EntriesOf(rs[0].value));
        KeptAvoidsSeen(rs[1..], more);
        KeptEntries(rs[0].value, Kept(rs[1..], more));
        TypesAppend(es, Entries(Kept(rs[1..], more)));
      } else {
        KeptAvoidsSeen(rs[1..], seen);
      }
    }
  }

  lemma KeptEntries(m: Message, rest: History)
    ensures Entries([m] + rest) == EntriesOf(m) + Entries(rest)
  {
    EntriesAppend([m], rest);
    EntriesOne(m);
  }

  /** With one entry each, the entries kept of a type are those of its first emitter. */
  lemma {:induction false} KeptEffect(rs: seq<Option<Message>>, seen: set<string>, s: set<string>, i: int, ty: string)
    requires (forall j :: 0 <= j < |rs| ==> Single(rs[j])) && First(rs, i, ty) && ty !in seen
    ensures ApplyAll(s, Entries(Kept(rs, seen)), ty) == ApplyAll(s, EntriesOf(rs[i].value), ty)
    ensures LatestIn(Entries(Kept(rs, seen)), ty) == LatestIn(EntriesOf(rs[i].value), ty)
    decreases |rs|
  {
    var r := rs[0];
    if Emitted(r) && Types(EntriesOf(r.value)) !! seen {
      var es, more := EntriesOf(r.value), seen + Types(EntriesOf(r.value));
      var rest := Entries(Kept(rs[1..], more));
      KeptEntries(r.value, Kept(rs[1..], more));
      ApplyAppend(s, es, rest, ty);
      LatestAppend(es, rest, ty);
      KeptAvoidsSeen(rs[1..], more);
      if i == 0 {
        OtherTypes(ApplyAll(s, es, ty), rest, ty);
      } else {
        assert !EmitsType(r, ty);
        OtherTypes(s, es, ty);
        FirstTail(rs, i, ty);
        KeptEffect(rs[1..], more, s, i - 1, ty);
      }
    } else {
      if i == 0 {
        SingleType(r, ty);
      }
      FirstTail(rs, i, ty);
      KeptEffect(rs[1..], seen, s, i - 1, ty);
    }
  }

  lemma SingleType(r: Option<Message>, ty: string)
    requires Single(r) && EmitsType(r, ty)
    ensures Types(EntriesOf(r.value)) == {ty}
  {
    var es := EntriesOf(r.value);
    assert es == [es[0]];
  }

  lemma FirstTail(rs: seq<Option<Message>>, i: int, ty: string)
    requires First(rs, i, ty) && i > 0
    ensures First(rs[1..], i - 1, ty)
  {
    forall j | 0 <= j < i - 1 ensures !EmitsType(rs[1..][j], ty) {
      assert !EmitsType(rs[j + 1], ty);
    }
  }

  lemma {:induction false} NoEmitterNoEntry(rs: seq<Option<Message>>, seen: set<string>, ty: string)
    requires forall j :: 0 <= j < |rs| ==> !EmitsType(rs[j], ty)
    ensures ty !in Types(Entries(Kept(rs, seen)))
    decreases |rs|
  {
    if rs != [] {
      if Emitted(rs[0]) && Types(EntriesOf(rs[0].value)) !! seen {
        var es, more := EntriesOf(rs[0].value), seen + Types(EntriesOf(rs[0].value));
        NoEmitterNoEntry(rs[1..], more, ty);
        KeptEntries(rs[0].value, Kept(rs[1..], more));
        TypesAppend(es, Entries(Kept(rs[1..], more)));
        assert !EmitsType(rs[0], ty);
      } else {
        NoEmitterNoEntry(rs[1..], seen, ty);
      }
    }
  }

  /** Per type, the merged message has the effect of the first emitter's own message. */
  lemma FirstWins(rs: seq<Option<Message>>, h: History, i: int, ty: string)
    requires (forall j :: 0 <= j < |rs| ==> Single(rs[j])) && First(rs, i, ty)
    ensures Announced(ty, h + Merge(rs)) == Announced(ty, h + [rs[i].value])
    ensures LatestHash(ty, h + Merge(rs)) == LatestHash(ty, h + [rs[i].value])
  {
    MergeReplays(rs, h, ty);
    hide Merge;
    KeptEffect(rs, {}, Announced(ty, h), i, ty);
    AppendEffect(h, Kept(rs, {}), ty);
    AppendEffect(h, [rs[i].value], ty);
    EntriesOne(rs[i].value);
  }

  lemma AppendEffect(h: History, ms: History, ty: string)
    ensures Announced(ty, h + ms) == ApplyAll(Announced(ty, h), Entries(ms), ty)
    ensures LatestHash(ty, h + ms) ==
            if LatestIn(Entries(ms), ty) != "" then LatestIn(Entries(ms), ty) else LatestHash(ty, h)
  {
    EntriesAppend(h, ms);
    ApplyAppend({}, Entries(h), Entries(ms), ty);
    LatestAppend(Entries(h), Entries(ms), ty);
  }

  /** A type nobody emitted is left as it was. */
  lemma NobodyWins(rs: seq<Option<Message>>, h: History, ty: string)
    requires forall j :: 0 <= j < |rs| ==> !EmitsType(rs[j], ty)
    ensures Announced(ty, h + Merge(rs)) == Announced(ty, h) && LatestHash(ty, h + Merge(rs)) == LatestHash(ty, h)
  {
    MergeReplays(rs, h, ty);
    hide Merge;
    NoEmitterNoEntry(rs, {}, ty);
    AppendEffect(h, Kept(rs, {}), ty);
    OtherTypes(Announced(ty, h), Entries(Kept(rs, {})), ty);
  }

  // ----- What the model is shown -----

  /** part stands in text as a block of its own, with a blank line or the end of text on either side. */
  predicate IsBlock(text: string, part: string, a: nat) {
    var b := a + |part|;
    && b <= |text| && text[a..b] == part
    && (a == 0 || (a >= 2 && text[a - 2..a] == "\n\n"))
    && (b == |text| || (b + 2 <= |text| && text[b..b + 2] == "\n\n"))
  }

  ghost predicate Shows(m: Message, part: string) { exists a: nat :: IsBlock(Unwrap(m.text), part, a) }

  /** The merged message is a reminder that holds the kept texts in order, exactly a blank line between
      neighbours, and nothing else. */
  lemma MergedText(rs: seq<Option<Message>>)
    ensures Merge(rs) == [] || |Merge(rs)| == 1
    ensures Merge(rs) != [] ==>
              && Text.IsJoined(Unwrap(Merge(rs)[0].text), Texts(Kept(rs, {})), "\n\n")
              && Merge(rs)[0].text == "<system-reminder>\n" + Unwrap(Merge(rs)[0].text) + "\n</system-reminder>"
  {
    hide Kept, Unwrap, Wrap, Text.IsJoined;
    if Merge(rs) != [] {
      var texts := Texts(Kept(rs, {}));
      UnwrapWrap(Text.Join(texts, "\n\n"));
      Text.JoinExactly(texts, "\n\n", Text.Join(texts, "\n\n"));
    }
  }

  lemma PlacedIsBlock(text: string, parts: seq<string>, starts: seq<nat>, k: nat)
    requires Text.IsPlaced(text, parts, "\n\n", starts) && k < |parts|
    ensures IsBlock(text, parts[k], starts[k])
  {
    assert Text.ItemAt(text, parts, starts, k);
    if k > 0 {
      assert Text.GapAt(text, parts, "\n\n", starts, k - 1);
    }
    if k < |parts| - 1 {
      assert Text.GapAt(text, parts, "\n\n", starts, k);
    }
  }

  lemma KeptIsShown(rs: seq<Option<Message>>, m: Message)
    requires Merge(rs) != [] && m in Kept(rs, {})
    ensures Shows(Merge(rs)[0], Unwrap(m.text))
  {
    MergedText(rs);
    hide Merge, Kept, Unwrap, Text.IsPlaced, IsBlock;
    var kept, texts, text := Kept(rs, {}), Texts(Kept(rs, {})), Unwrap(Merge(rs)[0].text);
    var k :| 0 <= k < |kept| && kept[k] == m;
    var starts :| Text.IsPlaced(text, texts, "\n\n", starts);
    PlacedIsBlock(text, texts, starts, k);
    assert texts[k] == Unwrap(m.text);
  }

  lemma {:induction false} FirstIsKept(rs: seq<Option<Message>>, seen: set<string>, i: int, ty: string)
    requires (forall j :: 0 <= j < |rs| ==> Single(rs[j])) && First(rs, i, ty) && ty !in seen
    ensures rs[i].value in Kept(rs, seen)
    decreases |rs|
  {
    var r := rs[0];
    if i == 0 {
      SingleType(r, ty);
    } else {
      FirstTail(rs, i, ty);
      assert !EmitsType(r, ty);
      var more := if Emitted(r) && Types(EntriesOf(r.value)) !! seen then seen + Types(EntriesOf(r.value)) else seen;
      FirstIsKept(rs[1..], more, i - 1, ty);
    }
  }

  /** A type that some provider emitted is in the merged message, and so is its emitter's text: the
      entries record nothing as announced that was not shown. */
  lemma RecordedIsShown(rs: seq<Option<Message>>, i: int, ty: string)
    requires (forall j :: 0 <= j < |rs| ==> Single(rs[j])) && First(rs, i, ty)
    ensures Merge(rs) != [] && ty in Types(EntriesOf(Merge(rs)[0])) && Shows(Merge(rs)[0], Unwrap(rs[i].value.text))
  {
    FirstIsKept(rs, {}, i, ty);
    hide Kept, Unwrap, Shows;
    KeptHasEntries(Kept(rs, {}), rs[i].value);
    KeptIsShown(rs, rs[i].value);
  }

  lemma {:induction false} KeptHasEntries(kept: History, m: Message)
    requires m in kept
    ensures forall e :: e in EntriesOf(m) ==> e in Entries(kept)
  {
    if kept[0] != m {
      assert m in kept[1..];
      KeptHasEntries(kept[1..], m);
    }
  }

  lemma NoFirst(rs: seq<Option<Message>>, ty: string)
    requires forall w :: !First(rs, w, ty)
    ensures forall j :: 0 <= j < |rs| ==> !EmitsType(rs[j], ty)
  {
    for j := 0 to |rs|
      invariant forall k :: 0 <= k < j ==> !EmitsType(rs[k], ty)
    {
      assert !First(rs, j, ty);
    }
  }

  /** Every type in the merged message was emitted by some provider. */
  lemma RecordedWasEmitted(rs: seq<Option<Message>>, ty: string)
    requires Merge(rs) != [] && ty in Types(EntriesOf(Merge(rs)[0]))
    ensures exists i :: First(rs, i, ty)
  {
    if forall w :: !First(rs, w, ty) {
      NoFirst(rs, ty);
      NoEmitterNoEntry(rs, {}, ty);
      assert false;
    }
  }

  // ----- A turn -----

  /** What a provider watches: a set of names (if its tools are active) or a text with its hash. */
  datatype Source =
    | Named(contextType: string, active: bool, current: set<string>)
    | Blob(contextType: string, content: string, hash: string)

  predicate IsActive(s: Source) {
    match s
    case Named(_, active, _) => active
    case Blob(_, content, _) => content != ""
  }

  ghost predicate Emits(s: Source, h: History, r: Option<Message>) {
    if !IsActive(s) then r.None?
    else
      match s
      case Named(ty, _, current) => IsNamedDelta(ty, current, h, r)
      case Blob(ty, content, hash) => IsBlobDelta(ty, content, hash, h, r)
  }

  /** One provider is asked; a Blob's digest is that of its content. */
  method AskProvider(src: Source, h: History, title: string, digest: string -> string,
                     render: (seq<string>, seq<string>, bool) -> string)
    returns (r: Option<Message>)
    requires src.Blob? ==> src.hash == digest(src.content)
    ensures Emits(src, h, r)
    ensures r.Some? && src.Blob? ==> Unwrap(r.value.text) == title + src.content
    ensures r.Some? && src.Named? ==>
              var e := r.value.replay.value[0];
              Unwrap(r.value.text) == render(e.added, e.removed, Announced(src.contextType, h) == {})
  {
    hide IsListing, Announced, LatestHash, Unwrap;
    match src
    case Named(ty, active, current) =>
      if !active {
        return None;
      }
      r := NamedSetDelta(ty, current, h, render);
      if r.Some? {
        var e := r.value.replay.value[0];
        UnwrapWrap(render(e.added, e.removed, Announced(ty, h) == {}));
      }
    case Blob(ty, content, _) =>
      r := BlobDelta(ty, title, content, digest, h);
      UnwrapWrap(title + content);
  }

  /** The history already says what the source is. */
  predicate Settled(s: Source, h: History) {
    IsActive(s) ==>
      match s
      case Named(ty, _, current) => Announced(ty, h) == current
      case Blob(ty, _, hash) => LatestHash(ty, h) == hash
  }

  predicate Agree(a: Source, b: Source) {
    if a.Named? then b.Named? && a.current == b.current else b.Blob? && a.hash == b.hash
  }

  /** Digests are not empty, and sources of one context type are of one kind. */
  predicate WellFormed(srcs: seq<Source>) {
    && (forall i :: 0 <= i < |srcs| && srcs[i].Blob? ==> srcs[i].hash != "")
    && forall i, j :: 0 <= i < |srcs| && 0 <= j < |srcs| && srcs[i].contextType == srcs[j].contextType
                      ==> srcs[i].Named? == srcs[j].Named?
  }

  ghost predicate AllEmit(srcs: seq<Source>, h: History, rs: seq<Option<Message>>) {
    |rs| == |srcs| && forall i :: 0 <= i < |srcs| ==> Emits(srcs[i], h, rs[i])
  }

  lemma EmissionShape(s: Source, h: History, r: Option<Message>)
    requires Emits(s, h, r)
    ensures Single(r) && (Emitted(r) <==> r.Some?) && (r.Some? <==> !Settled(s, h))
    ensures r.Some? ==> Types(EntriesOf(r.value)) == {s.contextType}
    ensures forall ty :: EmitsType(r, ty) <==> r.Some? && ty == s.contextType
  {
    hide IsListing, Announced, LatestHash;
    if r.Some? {
      var es := r.value.replay.value;
      assert es == [es[0]] && es[0].contextType == s.contextType;
    }
  }

  lemma OwnMessageSettles(s: Source, h: History, r: Option<Message>)
    requires Emits(s, h, r) && r.Some? && (s.Blob? ==> s.hash != "")
    ensures IsActive(s) && Settled(s, h + [r.value])
  {
    match s
    case Named(ty, _, current) => NamedDeltaHeals(ty, current, h, r);
    case Blob(ty, content, hash) => BlobDeltaHeals(ty, content, hash, h, r);
  }

  /** After a turn, from any history whatsoever, a source is announced correctly exactly when it
      agrees with the first source of its type that had something to say. */
  lemma SettledExactly(srcs: seq<Source>, h: History, rs: seq<Option<Message>>, i: nat)
    requires WellFormed(srcs) && AllEmit(srcs, h, rs) && i < |srcs|
    ensures Settled(srcs[i], h + Merge(rs)) <==>
            (IsActive(srcs[i]) ==> forall w :: First(rs, w, srcs[i].contextType) ==> Agree(srcs[w], srcs[i]))
  {
    hide Merge, IsNamedDelta, IsBlobDelta, Announced, LatestHash;
    var ty := srcs[i].contextType;
    forall j | 0 <= j < |rs| ensures Single(rs[j]) && (EmitsType(rs[j], ty) ==> rs[j].Some? && srcs[j].contextType == ty) {
      EmissionShape(srcs[j], h, rs[j]);
    }
    if w :| First(rs, w, ty) {
      FirstWins(rs, h, w, ty);
      OwnMessageSettles(srcs[w], h, rs[w]);
      forall v | First(rs, v, ty) ensures v == w {
      }
    } else {
      NoFirst(rs, ty);
      NobodyWins(rs, h, ty);
      EmissionShape(srcs[i], h, rs[i]);
      assert !EmitsType(rs[i], ty);
    }
  }

  /** Whatever the history does not say about a source, the turn shows: the text of the first source
      of its type that had something to say. */
  lemma UnsettledIsShown(srcs: seq<Source>, h: History, rs: seq<Option<Message>>, i: nat)
    requires AllEmit(srcs, h, rs) && i < |srcs| && !Settled(srcs[i], h)
    ensures exists w :: First(rs, w, srcs[i].contextType) && w <= i
              && Merge(rs) != [] && Shows(Merge(rs)[0], Unwrap(rs[w].value.text))
  {
    hide Merge, Shows, Unwrap, Settled, Emits;
    var ty := srcs[i].contextType;
    forall j | 0 <= j < |rs| ensures Single(rs[j]) {
      EmissionShape(srcs[j], h, rs[j]);
    }
    EmissionShape(srcs[i], h, rs[i]);
    if forall w :: !First(rs, w, ty) {
      NoFirst(rs, ty);
      assert false;
    }
    var w :| First(rs, w, ty);
    RecordedIsShown(rs, w, ty);
  }

  predicate DistinctTypes(srcs: seq<Source>) {
    forall i, j :: 0 <= i < j < |srcs| ==> srcs[i].contextType != srcs[j].contextType
  }

  const PROGRAM_TYPES := ["memory", "todos", "secrets", "agents", "nodes", "skills", "mounts", "subscriptions"]

  lemma ProgramTypesDiffer(i: nat, j: nat)
    requires i < j < 8
    ensures PROGRAM_TYPES[i] != PROGRAM_TYPES[j]
  {
    var a, b := PROGRAM_TYPES[i], PROGRAM_TYPES[j];
    assert |a| != |b| || a[0] != b[0] || a[1] != b[1];
  }

  /** The sources of the program, three of names and five of content by digest, meet both. */
  lemma ProgramSources(srcs: seq<Source>)
    requires |srcs| == 8 && forall i :: 0 <= i < 8 ==> srcs[i].contextType == PROGRAM_TYPES[i]
    requires forall i :: 0 <= i < 8 && srcs[i].Blob? ==> |srcs[i].hash| == 16
    ensures WellFormed(srcs) && DistinctTypes(srcs)
  {
    forall i, j | 0 <= i < j < 8 ensures srcs[i].contextType != srcs[j].contextType {
      ProgramTypesDiffer(i, j);
    }
  }

  /** Self-healing: whatever was evicted or compacted away, one turn settles every source ... */
  lemma TurnHeals(srcs: seq<Source>, h: History, rs: seq<Option<Message>>)
    requires WellFormed(srcs) && DistinctTypes(srcs) && AllEmit(srcs, h, rs)
    ensures forall i :: 0 <= i < |srcs| ==> Settled(srcs[i], h + Merge(rs))
  {
    hide Merge, Settled, IsNamedDelta, IsBlobDelta;
    forall i | 0 <= i < |srcs| ensures Settled(srcs[i], h + Merge(rs)) {
      SettledExactly(srcs, h, rs, i);
      forall w | First(rs, w, srcs[i].contextType) ensures w == i {
        EmissionShape(srcs[w], h, rs[w]);
      }
    }
  }

  /** ... a turn is silent exactly when every source is settled ... */
  lemma SilentExactly(srcs: seq<Source>, h: History, rs: seq<Option<Message>>)
    requires AllEmit(srcs, h, rs)
    ensures Merge(rs) == [] <==> forall i :: 0 <= i < |srcs| ==> Settled(srcs[i], h)
  {
    hide Settled, Emits;
    forall i | 0 <= i < |srcs|
      ensures Emitted(rs[i]) <==> !Settled(srcs[i], h)
      ensures Emitted(rs[i]) ==> EntriesOf(rs[i].value) != []
    {
      EmissionShape(srcs[i], h, rs[i]);
    }
    KeptAnything(rs);
    assert forall i :: 0 <= i < |rs| ==> (Emitted(rs[i]) <==> !Settled(srcs[i], h));
  }

  lemma {:induction false} KeptAnything(rs: seq<Option<Message>>)
    requires forall i :: 0 <= i < |rs| && Emitted(rs[i]) ==> EntriesOf(rs[i].value) != []
    ensures Entries(Kept(rs, {})) == [] <==> forall i :: 0 <= i < |rs| ==> !Emitted(rs[i])
    decreases |rs|
  {
    if rs != [] {
      if Emitted(rs[0]) {
        KeptEntries(rs[0].value, Kept(rs[1..], {} + Types(EntriesOf(rs[0].value))));
      } else {
        KeptAnything(rs[1..]);
        assert forall i :: 0 < i < |rs| ==> rs[i] == rs[1..][i - 1];
      }
    }
  }

  /** ... so the turn after it has nothing to add. */
  lemma SecondTurnIsSilent(srcs: seq<Source>, h: History, rs: seq<Option<Message>>, again: seq<Option<Message>>)
    requires WellFormed(srcs) && DistinctTypes(srcs)
    requires AllEmit(srcs, h, rs) && AllEmit(srcs, h + Merge(rs), again)
    ensures Merge(again) == []
  {
    hide Merge, Settled, Emits;
    TurnHeals(srcs, h, rs);
    SilentExactly(srcs, h + Merge(rs), again);
  }
}
