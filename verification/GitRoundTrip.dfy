/** What reading gives after updating, exactly. */
module GitRoundTrip {
  import opened Sequences
  import opened Text
  import opened GitConfigLines
  import opened GitIdentity
  import opened GitRewrite

  ghost predicate Good(r: Reader, id: Identity) { r.name == Clean(id.name) && r.email == Clean(id.email) }

  /** Reading the updated text succeeds and yields the identity (as the reader cleans it). */
  ghost predicate ReadsBack(src: string, id: Identity) {
    var lines := Lines(Update(src, id));
    AllFit(lines) && Good(ReadAll(lines, FRESH), id)
  }

  lemma WrittenRead(r: Reader, id: Identity)
    ensures ReadLine(r, NameLine(id)) == if r.inUser then r.(name := Clean(id.name)) else r
    ensures ReadLine(r, EmailLine(id)) == if r.inUser then r.(email := Clean(id.email)) else r
    ensures ReadLine(r, "[user]\n") == r.(inUser := true)
  {
    hide LineKind, KeyLine;
    WrittenKinds(id);
  }

  // ----- Reader and updater in step -----

  function SeenAfter(seen: bool, f: Flags, line: string): bool { seen || (f.inUser && LineKind(line).Header?) }

  /** Whether a [user] section has been closed. */
  function EndSeen(lines: seq<string>, f: Flags, seen: bool): bool {
    if lines == [] then seen else EndSeen(lines[1..], After(f, lines[0]), SeenAfter(seen, f, lines[0]))
  }

  /** The reader holds a key's value once a [user] section was closed or the key was written in the
      current one, and nothing before that. */
  ghost predicate Sim(f: Flags, seen: bool, r: Reader, id: Identity) {
    && r.inUser == f.inUser
    && r.name == (if seen || (f.inUser && f.wroteName) then Clean(id.name) else "")
    && r.email == (if seen || (f.inUser && f.wroteEmail) then Clean(id.email) else "")
  }

  lemma ReadTwo(a: string, b: string, r: Reader)
    ensures ReadAll([a], r) == ReadLine(r, a) && ReadAll([a, b], r) == ReadLine(ReadLine(r, a), b)
    ensures ReadAll([], r) == r
  {
    hide ReadLine;
    assert [a, b][1..] == [b] && [b][1..] == [];
    var s := ReadLine(r, a);
    assert ReadAll([a, b], r) == ReadAll([b], s);
    assert ReadAll([b], s) == ReadAll([], ReadLine(s, b));
  }

  /** The missing keys complete the section. */
  lemma ReadMissing(f: Flags, seen: bool, r: Reader, id: Identity)
    requires Sim(f, seen, r, id)
    ensures var s := ReadAll(Missing(f, id), r);
            s.inUser == f.inUser && (f.inUser || seen ==> Good(s, id)) && (!f.inUser ==> s == r)
  {
    hide ReadLine, Clean, KeyLine;
    ReadTwo(NameLine(id), EmailLine(id), r);
    ReadTwo(EmailLine(id), EmailLine(id), r);
    WrittenRead(r, id);
    WrittenRead(r.(name := Clean(id.name)), id);
    assert [NameLine(id)] + [EmailLine(id)] == [NameLine(id), EmailLine(id)];
    assert [NameLine(id)] + [] == [NameLine(id)] && [] + [EmailLine(id)] == [EmailLine(id)];
  }

  lemma SimStep(f: Flags, seen: bool, r: Reader, line: string, id: Identity)
    requires Sim(f, seen, r, id)
    ensures Sim(After(f, line), SeenAfter(seen, f, line), ReadAll(Emit(f, line, id), r), id)
  {
    hide LineKind, Clean, KeyLine, Value, Missing;
    ReadTwo(line, line, r);
    ReadTwo(NameLine(id), EmailLine(id), r);
    ReadTwo(EmailLine(id), EmailLine(id), r);
    WrittenRead(r, id);
    if LineKind(line).Header? {
      ReadMissing(f, seen, r, id);
      var s := ReadAll(Missing(f, id), r);
      ReadAppend(Missing(f, id), [line], r);
      ReadTwo(line, line, s);
    }
  }

  lemma {:induction false} SimBody(lines: seq<string>, f: Flags, seen: bool, r: Reader, id: Identity)
    requires Sim(f, seen, r, id)
    ensures Sim(End(lines, f), EndSeen(lines, f, seen), ReadAll(Body(lines, f, id), r), id)
  {
    hide Sim, Emit, After, SeenAfter, ReadLine;
    if lines == [] {
      ReadTwo("", "", r);
    } else {
      SimStep(f, seen, r, lines[0], id);
      ReadAppend(Emit(f, lines[0], id), Body(lines[1..], After(f, lines[0]), id), r);
      SimBody(lines[1..], After(f, lines[0]), SeenAfter(seen, f, lines[0]), ReadAll(Emit(f, lines[0], id), r), id);
    }
  }

  lemma {:induction false} UserIsSeen(lines: seq<string>, f: Flags, seen: bool)
    ensures HasUser(lines) || f.inUser || seen ==> End(lines, f).inUser || EndSeen(lines, f, seen)
  {
    hide LineKind;
    if lines != [] {
      UserIsSeen(lines[1..], After(f, lines[0]), SeenAfter(seen, f, lines[0]));
      assert lines == [lines[0]] + lines[1..];
    }
  }

  /** Read as the updater wrote them, the pieces carry the identity. */
  lemma PiecesRead(lines: seq<string>, id: Identity)
    requires HasUser(lines)
    ensures Good(ReadAll(Pieces(lines, START, id), FRESH), id)
  {
    hide HasUser, Body, End, EndSeen, Missing, Good;
    SimBody(lines, START, false, FRESH, id);
    UserIsSeen(lines, START, false);
    ReadAppend(Body(lines, START, id), Missing(End(lines, START), id), FRESH);
    ReadMissing(End(lines, START), EndSeen(lines, START, false), ReadAll(Body(lines, START, id), FRESH), id);
  }

  /** A new section alone reads back. */
  lemma NewSectionReads(lines: seq<string>, id: Identity)
    ensures Good(ReadAll(lines + NewSection(id), FRESH), id)
  {
    hide ReadLine, KeyLine;
    ReadAppend(lines, NewSection(id), FRESH);
    var r := ReadAll(lines, FRESH);
    assert NewSection(id) == ["[user]\n"] + [NameLine(id), EmailLine(id)];
    ReadAppend(["[user]\n"], [NameLine(id), EmailLine(id)], r);
    ReadTwo("[user]\n", "", r);
    WrittenRead(r, id);
    var s := r.(inUser := true);
    ReadTwo(NameLine(id), EmailLine(id), s);
    WrittenRead(s, id);
    WrittenRead(s.(name := Clean(id.name)), id);
  }

  // ----- Lines the reader accepts -----

  /** Both written lines are short enough. */
  predicate WrittenFit(id: Identity) { Fits(NameLine(id)) && Fits(EmailLine(id)) }

  /** Every line that the updater keeps is short enough. */
  ghost predicate KeptFit(src: string) { AllFit(Others(Lines(src), false)) }

  lemma {:induction false} ByteLengthConcat(a: string, b: string)
    ensures ByteLength(a + b) == ByteLength(a) + ByteLength(b)
  {
    if a == "" {
      assert a + b == b;
    } else {
      assert (a + b)[0] == a[0] && (a + b)[1..] == a[1..] + b;
      ByteLengthConcat(a[1..], b);
    }
  }

  lemma KeyLineFits(key: string, value: string)
    ensures Fits(KeyLine(key, value)) <==> ByteLength(key) + ByteLength(value) + 4 < 65536
  {
    hide ByteLength;
    var l := KeyLine(key, value);
    assert l[..|l| - 1] == "\t" + key + " = " + value;
    ByteLengthConcat("\t" + key + " = ", value);
    ByteLengthConcat("\t" + key, " = ");
    ByteLengthConcat("\t", key);
    Separators();
  }

  lemma Separators()
    ensures ByteLength("\t") == 1 && ByteLength(" = ") == 3
    ensures ByteLength("name") == 4 && ByteLength("email") == 5
  {
  }

  /** In bytes, for a caller to check. */
  lemma WrittenFitExactly(id: Identity)
    ensures WrittenFit(id) <==> ByteLength(id.name) < 65528 && ByteLength(id.email) < 65527
  {
    hide ByteLength, KeyLine, Fits;
    KeyLineFits("name", id.name);
    KeyLineFits("email", id.email);
    Separators();
  }

  lemma AllFitAppend(a: seq<string>, b: seq<string>)
    ensures AllFit(a + b) <==> AllFit(a) && AllFit(b)
  {
    hide Fits;
    forall l ensures l in a + b <==> l in a || l in b {
    }
  }

  lemma AllFitOne(l: string)
    ensures AllFit([l]) <==> Fits(l)
  {
    hide Fits;
    assert l in [l];
  }

  lemma MissingFit(f: Flags, id: Identity)
    requires WrittenFit(id)
    ensures AllFit(Missing(f, id))
  {
    hide Fits, KeyLine;
  }

  /** What the loop writes besides the two keys are the other lines. */
  lemma EmitFits(f: Flags, line: string, id: Identity)
    requires WrittenFit(id)
    ensures AllFit(Emit(f, line, id)) <==> AllFit(Others([line], f.inUser))
  {
    hide LineKind, Fits, KeyLine, Missing, Others;
    MissingFit(f, id);
    AllFitAppend(Missing(f, id), [line]);
    AllFitOne(line);
    OthersOne(line, f.inUser);
  }

  lemma {:induction false} BodyFits(lines: seq<string>, f: Flags, id: Identity)
    requires WrittenFit(id)
    ensures AllFit(Body(lines, f, id)) <==> AllFit(Others(lines, f.inUser))
  {
    hide Fits, LineKind, Emit, After, WrittenFit, Others, AllFit;
    if lines == [] {
      OthersOne("", f.inUser);
      BodyOne("", f, id);
    } else {
      var g := After(f, lines[0]);
      EmitFits(f, lines[0], id);
      BodyFits(lines[1..], g, id);
      AllFitAppend(Emit(f, lines[0], id), Body(lines[1..], g, id));
      OthersCons(lines[0], lines[1..], f);
      AllFitAppend(Others([lines[0]], f.inUser), Others(lines[1..], g.inUser));
      assert lines == [lines[0]] + lines[1..];
    }
  }

  /** Both keys appear in every text with a [user] section. */
  lemma {:induction false} PiecesHoldKeys(lines: seq<string>, f: Flags, id: Identity)
    ensures var p := Body(lines, f, id) + Missing(End(lines, f), id);
            && (HasUser(lines) || (f.inUser && !f.wroteName) ==> NameLine(id) in p)
            && (HasUser(lines) || (f.inUser && !f.wroteEmail) ==> EmailLine(id) in p)
  {
    hide LineKind, KeyLine;
    if lines != [] {
      var g := After(f, lines[0]);
      PiecesHoldKeys(lines[1..], g, id);
      UserCons(lines[0], lines[1..]);
      assert lines == [lines[0]] + lines[1..];
    }
  }

  lemma PiecesFit(lines: seq<string>, id: Identity)
    requires HasUser(lines)
    ensures AllFit(Pieces(lines, START, id)) <==> AllFit(Others(lines, false)) && WrittenFit(id)
  {
    hide Fits, Body, End, HasUser, Missing, Others;
    PiecesHoldKeys(lines, START, id);
    if WrittenFit(id) {
      BodyFits(lines, START, id);
      MissingFit(End(lines, START), id);
      AllFitAppend(Body(lines, START, id), Missing(End(lines, START), id));
    }
  }

  /** The text that gets a new section: all its lines are kept. */
  lemma AppendedFits(src: string, id: Identity)
    requires OneLine(id) && !HasUser(Lines(src))
    ensures AllFit(Lines(Update(src, id))) <==> KeptFit(src) && WrittenFit(id)
  {
    hide Fits, Lines, HasUser, KeyLine, Update, AllFit, Others, OneLine;
    var text := src + if Terminated(src) then "" else "\n";
    LinesOfAppended(src, id);
    NoUserOthers(Lines(src), false);
    NewlineFits(src);
    AllFitAppend(Lines(text), NewSection(id));
    assert NewSection(id) == ["[user]\n"] + ([NameLine(id)] + [EmailLine(id)]);
    AllFitAppend(["[user]\n"], [NameLine(id)] + [EmailLine(id)]);
    AllFitAppend([NameLine(id)], [EmailLine(id)]);
    AllFitOne("[user]\n");
    AllFitOne(NameLine(id));
    AllFitOne(EmailLine(id));
    HeaderFits();
  }

  lemma HeaderFits()
    ensures Fits("[user]\n")
  {
    assert "[user]\n"[..6] == "[user]";
    assert ByteLength("[user]") == 6;
  }

  /** A final newline does not count. */
  lemma {:induction false} NewlineFits(src: string)
    ensures AllFit(Lines(src + if Terminated(src) then "" else "\n")) <==> AllFit(Lines(src))
    decreases |src|
  {
    hide Lines, Fits, AllFit;
    if Terminated(src) {
      assert src + "" == src;
    } else if '\n' !in src {
      UnterminatedIsText(src);
      OnlyLine(src);
      AllFitOne(src);
      AllFitOne(src + "\n");
      SameFit(src);
    } else {
      var first, rest := SplitFirst(src);
      assert src + "\n" == first + (rest + "\n");
      FirstLine(first, rest + "\n");
      NewlineFits(rest);
      AllFitAppend([first], Lines(rest));
      AllFitAppend([first], Lines(rest + "\n"));
    }
  }

  lemma SameFit(line: string)
    requires '\n' !in line
    ensures Fits(line + "\n") <==> Fits(line)
  {
    hide ByteLength;
    assert (line + "\n")[..|line|] == line;
    assert line != "" ==> line[|line| - 1] in line;
  }

  // ----- The round trip -----

  /** For every text that is empty or ends in a newline: the identity is read back exactly if the
      kept and the written lines are short enough for the reader. */
  lemma UpdateThenRead(src: string, id: Identity)
    requires Terminated(src) && OneLine(id)
    ensures ReadsBack(src, id) <==> KeptFit(src) && WrittenFit(id)
  {
    hide Lines, HasUser, Good, OneLine, AllFit, Others, WrittenFit, Update;
    UpdatedReadsClean(src, id);
    if HasUser(Lines(src)) {
      PiecesFit(Lines(src), id);
      PiecesAreRead(src, id);
    } else {
      AppendedFits(src, id);
    }
  }

  /** Text without a [user] section, terminated or not. */
  lemma AppendedReads(src: string, id: Identity)
    requires OneLine(id) && !HasUser(Lines(src))
    ensures ReadsBack(src, id) <==> KeptFit(src) && WrittenFit(id)
  {
    hide Lines, HasUser, Good, OneLine, AllFit, KeptFit, WrittenFit, Update;
    LinesOfAppended(src, id);
    NewSectionReads(Lines(src + if Terminated(src) then "" else "\n"), id);
    AppendedFits(src, id);
  }

  /** The reader gives back exactly what was asked for iff the values are free of surrounding space
      and quotes. */
  lemma CleanExactly(value: string)
    ensures Clean(value) == value <==> IsTrimmed(value, IsSpace) && IsTrimmed(value, IsQuote)
  {
    TrimTrims(value, IsSpace);
    if IsTrimmed(value, IsSpace) {
      TrimmedIsFixed(value, IsSpace);
      TrimTrims(value, IsQuote);
      if IsTrimmed(value, IsQuote) {
        TrimmedIsFixed(value, IsQuote);
      }
    } else if Clean(value) == value {
      TrimIsShorter(TrimSpace(value), IsQuote);
      TrimIsShorter(value, IsSpace);
      assert false;
    }
  }

  predicate IsPlain(value: string) { IsTrimmed(value, IsSpace) && IsTrimmed(value, IsQuote) }

  /** Hence: the scan succeeds and what was asked for comes back, exactly when moreover it has no
      surrounding space or quotes. */
  lemma RoundTrip(src: string, id: Identity)
    requires Terminated(src) && OneLine(id)
    ensures var lines := Lines(Update(src, id));
            var r := ReadAll(lines, FRESH);
            AllFit(lines) && Identity(r.name, r.email) == id <==>
            KeptFit(src) && WrittenFit(id) && IsPlain(id.name) && IsPlain(id.email)
  {
    hide Update, ReadAll, Lines, Clean, IsTrimmed, OneLine, Terminated, AllFit, KeptFit, WrittenFit;
    UpdateThenRead(src, id);
    UpdatedReadsClean(src, id);
    CleanExactly(id.name);
    CleanExactly(id.email);
  }

  lemma UpdatedReadsClean(src: string, id: Identity)
    requires Terminated(src) && OneLine(id)
    ensures Good(ReadAll(Lines(Update(src, id)), FRESH), id)
  {
    hide Lines, HasUser, Good, OneLine, Update, Pieces;
    if HasUser(Lines(src)) {
      PiecesAreRead(src, id);
      PiecesRead(Lines(src), id);
    } else {
      LinesOfAppended(src, id);
      NewSectionReads(Lines(src + if Terminated(src) then "" else "\n"), id);
    }
  }

  lemma TrimIsShorter(s: string, cut: char -> bool)
    ensures |TrimFunc(s, cut)| <= |s| && (|TrimFunc(s, cut)| == |s| ==> TrimFunc(s, cut) == s)
  {
    hide TrimLeftFunc, TrimRightFunc;
    var l := TrimLeftFunc(s, cut);
    assert |l| == |s| ==> l == s;
  }
}
