/** The updater alone: what it writes is lines again, updating twice is updating once, and no other
    line is touched. */
module GitRewrite {
  import opened Sequences
  import opened Text
  import opened GitConfigLines
  import opened GitIdentity

  /** The API rejects names with newlines; an email that passes its pattern has no space at all. */
  predicate OneLine(id: Identity) { '\n' !in id.name && '\n' !in id.email }

  // ----- The written lines -----

  lemma WrittenKinds(id: Identity)
    ensures LineKind(NameLine(id)) == NameKey && Value(TrimSpace(NameLine(id))) == Clean(id.name)
    ensures LineKind(EmailLine(id)) == EmailKey && Value(TrimSpace(EmailLine(id))) == Clean(id.email)
    ensures LineKind("[user]\n") == Header(true)
  {
    hide KeyLine, Value, Clean, TrimFunc;
    KeyLineReads("name", id.name);
    KeyLineReads("email", id.email);
    UserHeaderKind();
  }

  lemma UserHeaderKind()
    ensures LineKind("[user]\n") == Header(true)
  {
    hide TrimFunc;
    var header := "[user]";
    assert TrimSpace("[user]\n") == header by {
      assert "" + header + "\n" == "[user]\n";
      TrimAround("", header, "\n", IsSpace);
    }
    assert SectionName(header) == "user" by {
      assert "[" + "user" + "]" == header;
      TrimAround("[", "user", "]", IsBracket);
      TrimmedIsFixed("user", IsSpace);
    }
    hide IsSpace, TrimSpace;
    assert IsSectionHeader(header);
  }

  // ----- The pieces are lines -----

  lemma WrittenAreLines(id: Identity)
    requires OneLine(id)
    ensures IsLine(NameLine(id)) && IsLine(EmailLine(id)) && IsLine("[user]\n")
    ensures forall f :: AreLines(Missing(f, id))
  {
    KeyLineIsLine("name", id.name);
    KeyLineIsLine("email", id.email);
    assert "[user]\n"[..6] == "[user]";
    hide IsLine, KeyLine;
  }

  lemma {:induction false} BodyAreLines(lines: seq<string>, f: Flags, id: Identity)
    requires AreLines(lines) && OneLine(id)
    ensures AreLines(Body(lines, f, id))
  {
    hide IsLine, LineKind, Missing, KeyLine, OneLine;
    if lines != [] {
      WrittenAreLines(id);
      BodyAreLines(lines[1..], After(f, lines[0]), id);
    }
  }

  lemma LinesOfPieces(lines: seq<string>, id: Identity)
    requires AreLines(lines) && OneLine(id)
    ensures AreLines(Pieces(lines, START, id)) && Lines(Concat(Pieces(lines, START, id))) == Pieces(lines, START, id)
  {
    hide IsLine, Body, Missing, Lines;
    WrittenAreLines(id);
    BodyAreLines(lines, START, id);
    var p := Pieces(lines, START, id);
    LinesOfConcat(p, "");
    assert Concat(p) + "" == Concat(p) && p + [] == p;
  }

  /** Text without a [user] section gets one; its lines stay as they are. */
  lemma LinesOfAppended(src: string, id: Identity)
    requires OneLine(id) && !HasUser(Lines(src))
    ensures var text := src + if Terminated(src) then "" else "\n";
            && AreLines(Lines(text)) && !HasUser(Lines(text))
            && Update(src, id) == text + Concat(NewSection(id))
            && Lines(Update(src, id)) == Lines(text) + NewSection(id)
  {
    hide LineKind, KeyLine, Concat, HasUser, Lines;
    var text := src + if Terminated(src) then "" else "\n";
    NewlineKeepsKinds(src);
    ConcatLines(text);
    WrittenAreLines(id);
    assert Update(src, id) == text + Concat(NewSection(id)) by {
      if src == "" {
        assert text == "" && "" + Concat(NewSection(id)) == Concat(NewSection(id));
      }
    }
    hide IsLine, Update;
    var ls := Lines(text) + NewSection(id);
    ConcatAppend(Lines(text), NewSection(id));
    LinesOfConcat(ls, "");
    assert Concat(ls) + "" == Concat(ls) && ls + [] == ls;
  }

  /** A final newline makes no line a header that was none. */
  lemma {:induction false} NewlineKeepsKinds(src: string)
    ensures HasUser(Lines(src + if Terminated(src) then "" else "\n")) == HasUser(Lines(src))
    decreases |src|
  {
    hide LineKind, Lines, HasUser;
    if Terminated(src) {
      assert src + "" == src;
    } else if '\n' !in src {
      OnlyLine(src);
      TrailingNewlineKind(src);
      assert [src] == [src] + [] && [src + "\n"] == [src + "\n"] + [];
      UserCons(src, []);
      UserCons(src + "\n", []);
    } else {
      var first, rest := SplitFirst(src);
      assert src + "\n" == first + (rest + "\n");
      FirstLine(first, rest + "\n");
      NewlineKeepsKinds(rest);
      UserCons(first, Lines(rest));
      UserCons(first, Lines(rest + "\n"));
    }
  }

  lemma UserCons(l: string, ls: seq<string>)
    ensures HasUser([l] + ls) <==> LineKind(l) == Header(true) || HasUser(ls)
  {
    hide LineKind;
  }

  lemma TrailingNewlineKind(line: string)
    ensures LineKind(line + "\n") == LineKind(line)
  {
    assert "" + line + "\n" == line + "\n";
    TrimIgnores("", line, "\n", IsSpace);
  }

  lemma UnterminatedIsText(src: string)
    requires !Terminated(src)
    ensures src != ""
  {
  }

  lemma NonEmptyIfUser(src: string)
    requires HasUser(Lines(src))
    ensures src != ""
  {
  }

  // ----- Updating twice -----

  /** Written keys are written again in place, and then nothing is missing. */
  lemma MissingTwice(f: Flags, id: Identity)
    requires f.inUser
    ensures Body(Missing(f, id), f, id) == Missing(f, id) && End(Missing(f, id), f) == Flags(true, true, true)
  {
    hide KeyLine, Body, End, NameLine, EmailLine;
    var n, e := NameLine(id), EmailLine(id);
    var g := f.(wroteName := true);
    KeyTwice(f, id);
    KeyTwice(g, id);
    BodyAppend([n], [e], f, id);
    BodyOne(n, f, id);
    assert [n] + [] == [n] && [] + [e] == [e];
    if !f.wroteName && !f.wroteEmail {
      assert Missing(f, id) == [n] + [e] == Body([n], f, id) + Body([e], g, id);
    }
  }

  lemma KeyTwice(f: Flags, id: Identity)
    requires f.inUser
    ensures Body([NameLine(id)], f, id) == [NameLine(id)] && End([NameLine(id)], f) == f.(wroteName := true)
    ensures Body([EmailLine(id)], f, id) == [EmailLine(id)] && End([EmailLine(id)], f) == f.(wroteEmail := true)
  {
    hide LineKind, KeyLine, Body, End;
    WrittenKinds(id);
    BodyOne(NameLine(id), f, id);
    BodyOne(EmailLine(id), f, id);
  }

  lemma EmitTwice(f: Flags, line: string, id: Identity)
    ensures Body(Emit(f, line, id), f, id) == Emit(f, line, id) && End(Emit(f, line, id), f) == After(f, line)
  {
    hide LineKind, KeyLine, Body, End, Missing;
    BodyOne(line, f, id);
    if LineKind(line).Header? {
      HeaderTwice(f, line, id);
    } else if f.inUser {
      KeyTwice(f, id);
    }
  }

  lemma HeaderTwice(f: Flags, line: string, id: Identity)
    requires LineKind(line).Header?
    ensures var w := Missing(f, id) + [line]; Body(w, f, id) == w && End(w, f) == After(f, line)
  {
    hide LineKind, KeyLine, Body, End;
    var g := End(Missing(f, id), f);
    BodyOne(line, f, id);
    if f.inUser {
      MissingTwice(f, id);
    }
    BodyAppend(Missing(f, id), [line], f, id);
    BodyOne(line, g, id);
  }

  lemma {:induction false} BodyTwice(lines: seq<string>, f: Flags, id: Identity)
    ensures Body(Body(lines, f, id), f, id) == Body(lines, f, id) && End(Body(lines, f, id), f) == End(lines, f)
  {
    hide Emit, After;
    if lines != [] {
      EmitTwice(f, lines[0], id);
      BodyAppend(Emit(f, lines[0], id), Body(lines[1..], After(f, lines[0]), id), f, id);
      BodyTwice(lines[1..], After(f, lines[0]), id);
    }
  }

  lemma PiecesTwice(lines: seq<string>, id: Identity)
    ensures Pieces(Pieces(lines, START, id), START, id) == Pieces(lines, START, id)
  {
    hide Body, End;
    var e := End(lines, START);
    BodyTwice(lines, START, id);
    BodyAppend(Body(lines, START, id), Missing(e, id), START, id);
    BodyOne("", e, id);
    if e.inUser {
      MissingTwice(e, id);
    }
  }

  lemma {:induction false} HeadersStay(lines: seq<string>, f: Flags, id: Identity)
    ensures HasUser(lines) ==> HasUser(Body(lines, f, id))
  {
    hide LineKind, Missing;
    if HasUser(lines) {
      var rest := Body(lines[1..], After(f, lines[0]), id);
      HeadersStay(lines[1..], After(f, lines[0]), id);
      if LineKind(lines[0]) == Header(true) {
        assert lines[0] in Emit(f, lines[0], id);
      } else {
        assert lines == [lines[0]] + lines[1..];
        assert HasUser(lines[1..]);
        var l :| l in rest && LineKind(l) == Header(true);
        assert l in Body(lines, f, id);
      }
    }
  }

  lemma {:induction false} NoUserBody(lines: seq<string>, f: Flags, id: Identity)
    requires !HasUser(lines) && !f.inUser
    ensures Body(lines, f, id) == lines && !End(lines, f).inUser
  {
    hide LineKind;
    if lines != [] {
      assert lines[0] in lines;
      assert forall l :: l in lines[1..] ==> l in lines;
      NoUserBody(lines[1..], After(f, lines[0]), id);
    }
  }

  /** Where a new section starts, and the flags its header leaves. */
  lemma NewSectionStart(lines: seq<string>, id: Identity)
    requires !HasUser(lines)
    ensures var f := End(lines, START);
            && !f.inUser && Body(lines, START, id) == lines
            && Body(["[user]\n"], f, id) == ["[user]\n"] && End(["[user]\n"], f) == Flags(true, false, false)
    ensures NewSection(id) == ["[user]\n"] + Missing(Flags(true, false, false), id)
  {
    hide LineKind, KeyLine, Body, End, Emit, After;
    NoUserBody(lines, START, id);
    UserHeaderLine(End(lines, START), id);
    BodyOne("[user]\n", End(lines, START), id);
  }

  /** Outside a user section its header is copied and starts one. */
  lemma UserHeaderLine(f: Flags, id: Identity)
    requires !f.inUser
    ensures Emit(f, "[user]\n", id) == ["[user]\n"] && After(f, "[user]\n") == Flags(true, false, false)
    ensures NewSection(id) == ["[user]\n"] + Missing(Flags(true, false, false), id)
  {
    hide LineKind, KeyLine;
    UserHeaderKind();
    SectionIsHeaderAndKeys(id);
  }

  lemma SectionIsHeaderAndKeys(id: Identity)
    ensures NewSection(id) == ["[user]\n"] + Missing(Flags(true, false, false), id)
  {
    hide KeyLine;
  }

  lemma NewSectionTwice(lines: seq<string>, id: Identity)
    requires !HasUser(lines)
    ensures Pieces(lines + NewSection(id), START, id) == lines + NewSection(id)
    ensures HasUser(lines + NewSection(id))
  {
    hide LineKind, KeyLine, Body, End, Missing, NewSection;
    NewSectionStart(lines, id);
    var f, u := End(lines, START), Flags(true, false, false);
    BodyAppend(lines, NewSection(id), START, id);
    BodyAppend(["[user]\n"], Missing(u, id), f, id);
    MissingTwice(u, id);
    NothingMissingAtEnd(id);
    UserHeaderKind();
    assert (lines + NewSection(id))[|lines|] == "[user]\n";
  }

  lemma NothingMissingAtEnd(id: Identity)
    ensures Missing(Flags(true, true, true), id) == []
  {
  }

  /** Updating an updated text changes nothing. */
  lemma UpdateTwice(src: string, id: Identity)
    requires Terminated(src) && OneLine(id)
    ensures Update(Update(src, id), id) == Update(src, id)
  {
    hide Lines, HasUser, OneLine, Update, Pieces;
    if HasUser(Lines(src)) {
      PiecesAreRead(src, id);
      TwiceFromPieces(src, id);
    } else {
      TwiceAppended(src, id);
    }
  }

  lemma PiecesAreRead(src: string, id: Identity)
    requires Terminated(src) && OneLine(id) && HasUser(Lines(src))
    ensures Lines(Update(src, id)) == Pieces(Lines(src), START, id)
  {
    hide Lines, HasUser, OneLine, Pieces;
    ConcatLines(src);
    NonEmptyIfUser(src);
    LinesOfPieces(Lines(src), id);
  }

  /** ... whenever the pieces are the lines of the updated text ... */
  lemma TwiceFromPieces(src: string, id: Identity)
    requires HasUser(Lines(src)) && Lines(Update(src, id)) == Pieces(Lines(src), START, id)
    ensures Update(Update(src, id), id) == Update(src, id)
  {
    hide Lines, HasUser, Pieces;
    NonEmptyIfUser(src);
    PiecesTwice(Lines(src), id);
    PiecesHaveUser(Lines(src), id);
    NonEmptyIfUser(Update(src, id));
  }

  /** ... and whenever a section was appended. */
  lemma TwiceAppended(src: string, id: Identity)
    requires OneLine(id) && !HasUser(Lines(src))
    ensures Update(Update(src, id), id) == Update(src, id)
  {
    hide Lines, HasUser, OneLine, AreLines, Pieces, NewSection;
    var text := src + if Terminated(src) then "" else "\n";
    LinesOfAppended(src, id);
    NewSectionTwice(Lines(text), id);
    NonEmptyIfUser(Update(src, id));
    ConcatLines(Update(src, id));
  }

  lemma PiecesHaveUser(lines: seq<string>, id: Identity)
    requires HasUser(lines)
    ensures HasUser(Pieces(lines, START, id))
  {
    hide LineKind, Body, Missing;
    HeadersStay(lines, START, id);
    var l :| l in Body(lines, START, id) && LineKind(l) == Header(true);
    assert l in Pieces(lines, START, id);
  }

  // ----- Other lines -----

  /** Everything but name and email keys inside [user] sections. */
  function Others(lines: seq<string>, inUser: bool): seq<string> {
    if lines == [] then []
    else
      match LineKind(lines[0])
      case Header(user) => [lines[0]] + Others(lines[1..], user)
      case Other => [lines[0]] + Others(lines[1..], inUser)
      case _ => (if inUser then [] else [lines[0]]) + Others(lines[1..], inUser)
  }

  lemma {:induction false} OthersAppend(a: seq<string>, b: seq<string>, f: Flags)
    ensures Others(a + b, f.inUser) == Others(a, f.inUser) + Others(b, End(a, f).inUser)
  {
    hide LineKind, After, Others;
    if a == [] {
      assert a + b == b;
      OthersOne("", f.inUser);
    } else {
      OthersAppend(a[1..], b, After(f, a[0]));
      OthersCons(a[0], a[1..] + b, f);
      OthersCons(a[0], a[1..], f);
      assert a == [a[0]] + a[1..] && a + b == [a[0]] + (a[1..] + b);
    }
  }

  lemma OthersCons(l: string, ls: seq<string>, f: Flags)
    ensures Others([l] + ls, f.inUser) == Others([l], f.inUser) + Others(ls, After(f, l).inUser)
  {
    hide LineKind;
    OthersOne(l, f.inUser);
    assert ([l] + ls)[1..] == ls;
  }

  lemma {:induction false} NoUserOthers(lines: seq<string>, inUser: bool)
    requires !HasUser(lines) && !inUser
    ensures Others(lines, inUser) == lines
  {
    hide LineKind;
    if lines != [] {
      assert lines == [lines[0]] + lines[1..];
      UserCons(lines[0], lines[1..]);
      NoUserOthers(lines[1..], false);
    }
  }

  lemma OthersMissing(f: Flags, id: Identity)
    ensures Others(Missing(f, id), f.inUser) == []
  {
    hide LineKind, KeyLine;
    WrittenKinds(id);
    OthersAppend(if f.wroteName then [] else [NameLine(id)], if f.wroteEmail then [] else [EmailLine(id)], f);
    if f.inUser {
      OthersOne(NameLine(id), true);
      OthersOne(EmailLine(id), true);
      BodyOne(NameLine(id), f, id);
    }
  }

  lemma OthersOne(line: string, inUser: bool)
    ensures Others([line], inUser) ==
            if inUser && (LineKind(line) == NameKey || LineKind(line) == EmailKey) then [] else [line]
    ensures Others([], inUser) == []
  {
    hide LineKind;
    assert [line][1..] == [];
    assert Others([line][1..], true) == [] && Others([line][1..], false) == [];
  }

  lemma OthersEmit(f: Flags, line: string, id: Identity)
    ensures Others(Emit(f, line, id), f.inUser) == Others([line], f.inUser)
  {
    hide LineKind, KeyLine, Missing;
    WrittenKinds(id);
    OthersOne(line, f.inUser);
    OthersOne(NameLine(id), f.inUser);
    OthersOne(EmailLine(id), f.inUser);
    if LineKind(line).Header? {
      OthersMissing(f, id);
      OthersAppend(Missing(f, id), [line], f);
      OthersOne(line, End(Missing(f, id), f).inUser);
    }
  }

  lemma {:induction false} OthersBody(lines: seq<string>, f: Flags, id: Identity)
    ensures Others(Body(lines, f, id), f.inUser) == Others(lines, f.inUser)
  {
    hide LineKind, Emit, After;
    if lines != [] {
      var g := After(f, lines[0]);
      EmitTwice(f, lines[0], id);
      OthersAppend(Emit(f, lines[0], id), Body(lines[1..], g, id), f);
      OthersBody(lines[1..], g, id);
      OthersEmit(f, lines[0], id);
      BodyOne(lines[0], f, id);
      OthersAppend([lines[0]], lines[1..], f);
      assert lines == [lines[0]] + lines[1..];
    }
  }

  /** Every line that is not a name or email key of a [user] section is kept, unchanged and in order;
      at most the header of a new section is added. */
  ghost predicate KeepsOthers(src: string, id: Identity) {
    Others(Lines(Update(src, id)), false) ==
    Others(Lines(src), false) + if HasUser(Lines(src)) then [] else ["[user]\n"]
  }

  lemma UpdateKeepsOtherLines(src: string, id: Identity)
    requires Terminated(src) && OneLine(id)
    ensures KeepsOthers(src, id)
  {
    hide Lines, HasUser, OneLine, AreLines, Others, Update, Pieces;
    if HasUser(Lines(src)) {
      PiecesAreRead(src, id);
      PiecesKeepOthers(Lines(src), id);
      assert Others(Lines(src), false) + [] == Others(Lines(src), false);
    } else {
      LinesOfAppended(src, id);
      assert src + "" == src;
      NewSectionOthers(Lines(src), id);
    }
  }

  lemma PiecesKeepOthers(lines: seq<string>, id: Identity)
    ensures Others(Pieces(lines, START, id), false) == Others(lines, false)
  {
    hide Body, Missing, Others, End;
    OthersAppend(Body(lines, START, id), Missing(End(lines, START), id), START);
    BodyTwice(lines, START, id);
    OthersBody(lines, START, id);
    OthersMissing(End(lines, START), id);
  }

  lemma NewSectionOthers(lines: seq<string>, id: Identity)
    requires !HasUser(lines)
    ensures Others(lines + NewSection(id), false) == Others(lines, false) + ["[user]\n"]
  {
    hide LineKind, KeyLine, Others, Missing, Body, End, NewSection, HasUser;
    NewSectionStart(lines, id);
    var f, u := End(lines, START), Flags(true, false, false);
    OthersAppend(lines, NewSection(id), START);
    OthersAppend(["[user]\n"], Missing(u, id), f);
    UserHeaderKind();
    OthersOne("[user]\n", false);
    OthersMissing(u, id);
  }
}
