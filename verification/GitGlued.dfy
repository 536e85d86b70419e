/** What a glued key does to the other two promises of the updater: that other lines are kept, and
    that updating twice is updating once. */
module GitGlued {
  import opened Sequences
  import opened Text
  import opened GitConfigLines
  import opened GitIdentity
  import opened GitRewrite
  import opened GitUnterminated

  // ----- Other lines -----

  lemma OthersGlued(f: Flags, last: string, m: seq<string>, id: Identity)
    requires (LineKind(last).Header? || LineKind(last).Other?) && m != [] && m == Missing(After(f, last), id)
    ensures Others([last + m[0]] + m[1..], f.inUser) != Others([last] + m, f.inUser)
  {
    hide LineKind, NameLine, EmailLine, Others, Missing;
    var glued, g := last + m[0], After(f, last + m[0]);
    OthersOne(last, f.inUser);
    OthersCons(last, m, f);
    MissingInUser(After(f, last), id);
    OthersMissing(After(f, last), id);
    MissingShape(After(f, last), id);
    OthersOne(glued, f.inUser);
    OthersCons(glued, m[1..], f);
    KeysAreNoOthers(id);
    assert |glued| > |last|;
    assert ([glued] + Others(m[1..], g.inUser))[0] == glued;
    assert [] + Others(m[1..], g.inUser) == Others(m[1..], g.inUser) && [last] + [] == [last];
  }

  lemma MissingInUser(f: Flags, id: Identity)
    requires Missing(f, id) != []
    ensures f.inUser
  {
  }

  lemma KeysAreNoOthers(id: Identity)
    ensures Others([EmailLine(id)], true) == [] && Others([], true) == []
  {
    hide LineKind, KeyLine;
    WrittenKinds(id);
    OthersOne(EmailLine(id), true);
  }

  lemma MissingShape(f: Flags, id: Identity)
    requires Missing(f, id) != []
    ensures var m := Missing(f, id);
            && m[0] != "" && m[0] == (if f.wroteName then EmailLine(id) else NameLine(id))
            && m[1..] == if f.wroteName || f.wroteEmail then [] else [EmailLine(id)]
  {
  }

  lemma GluedChangesOthers(front: seq<string>, last: string, id: Identity)
    requires !Replaced(End(front, START), last) && Missing(End(front + [last], START), id) != []
    ensures Others(Glued(front, last, Missing(End(front + [last], START), id), id), false)
            != Others(front + [last], false)
  {
    hide LineKind, Others, Body, Missing, End, Before, Replaced;
    var m, q := Missing(End(front + [last], START), id), Before(front, last, id);
    var f := End(q, START);
    EndsInKind(front, last, id);
    BodySplit(front, last, id);
    PiecesSplit(front, last, id);
    PiecesKeepOthers(front + [last], id);
    AfterBefore(front, last, id);
    OthersAppend(q, [last] + m, START);
    OthersAppend(q, [last + m[0]] + m[1..], START);
    OthersGlued(f, last, m, id);
    SameEnds(Others(q, false), Others([last] + m, f.inUser), Others([last + m[0]] + m[1..], f.inUser));
  }

  lemma SameEnds<T>(a: seq<T>, b: seq<T>, c: seq<T>)
    ensures a + b == a + c ==> b == c
    ensures b + a == c + a ==> b == c
  {
    assert (a + b)[|a|..] == b && (a + c)[|a|..] == c;
    assert (b + a)[..|b|] == b && (c + a)[..|c|] == c;
  }

  /** The flags behind what precedes a copied last line, as a second update finds them. */
  lemma AfterBefore(front: seq<string>, last: string, id: Identity)
    requires !Replaced(End(front, START), last)
    ensures var q, f := Before(front, last, id), End(front, START);
            && Body(q, START, id) == q
            && End(q, START) == (if LineKind(last).Header? && f.inUser then Flags(true, true, true) else f)
            && After(End(q, START), last) == End(front + [last], START)
  {
    hide LineKind, Body, Missing, End;
    var f := End(front, START);
    BodySplit(front, last, id);
    BodyTwice(front, START, id);
    if LineKind(last).Header? {
      BodyAppend(Body(front, START, id), Missing(f, id), START, id);
      if f.inUser {
        MissingTwice(f, id);
      } else {
        NothingMissing(f, id);
        NoMissing(f, id);
        BodyOne("", f, id);
      }
    } else {
      assert Before(front, last, id) == Body(front, START, id);
    }
  }

  lemma NoMissing(f: Flags, id: Identity)
    requires !f.inUser || (f.wroteName && f.wroteEmail)
    ensures Missing(f, id) == []
  {
  }

  /** The other lines are kept exactly if the text ends in a newline, or has a [user] section and no
      key is glued. */
  lemma KeepsOthersExactly(src: string, id: Identity)
    requires OneLine(id)
    ensures KeepsOthers(src, id) <==> Terminated(src) || (HasUser(Lines(src)) && !Glues(src))
  {
    hide Lines, HasUser, OneLine, Others, Update, Pieces, Missing, End, Glued, LineKind;
    if Terminated(src) {
      UpdateKeepsOtherLines(src, id);
    } else if HasUser(Lines(src)) {
      var front, last := UpdatedLines(src, id);
      assert Others(front + [last], false) + [] == Others(front + [last], false);
      if Glues(src) {
        GluedChangesOthers(front, last, id);
      } else {
        PiecesKeepOthers(front + [last], id);
      }
    } else {
      AppendedChangesOthers(src, id);
    }
  }

  /** A new section behind unterminated text: the last line gets a newline. */
  lemma AppendedChangesOthers(src: string, id: Identity)
    requires OneLine(id) && !HasUser(Lines(src)) && !Terminated(src)
    ensures !KeepsOthers(src, id)
  {
    hide Lines, HasUser, OneLine, Others, Update;
    var text := src + "\n";
    LinesOfAppended(src, id);
    NewSectionOthers(Lines(text), id);
    NoUserOthers(Lines(text), false);
    NoUserOthers(Lines(src), false);
    SameEnds(["[user]\n"], Lines(text), Lines(src));
    ConcatLines(text);
    ConcatLines(src);
    assert |text| == |src| + 1;
  }

  // ----- Updating twice -----

  /** The second update of a glued text, from its glued line on. */
  function Redone(e: Flags, g: seq<string>, id: Identity): seq<string> {
    Body(g, e, id) + Missing(End(g, e), id)
  }

  lemma {:induction false} BodyIsNoShorter(lines: seq<string>, f: Flags, id: Identity)
    ensures |Body(lines, f, id)| >= |lines|
  {
    hide LineKind, KeyLine, Missing;
    if lines != [] {
      BodyIsNoShorter(lines[1..], After(f, lines[0]), id);
    }
  }

  /** In an open section the first missing key is written again: as a line of its own instead of the
      glued one, before the glued line if that is a header now, or at the end. */
  lemma RedoneInSection(e: Flags, last: string, id: Identity)
    requires Missing(e, id) != [] && LineKind(last).Other? && last != ""
    ensures var m := Missing(e, id);
            var g := [last + m[0]] + m[1..];
            Redone(e, g, id) != g
  {
    hide LineKind, KeyLine, Body, End, TrimFunc;
    var m := Missing(e, id);
    var l := last + m[0];
    var g := [l] + m[1..];
    WrittenKinds(id);
    assert m[0] == if e.wroteName then EmailLine(id) else NameLine(id);
    BodyAppend([l], m[1..], e, id);
    BodyOne(l, e, id);
    var f := After(e, l);
    BodyIsNoShorter(m[1..], f, id);
    if TrimSpace(last) == "" {
      GluedBlankKind(last, m[0]);
      assert Redone(e, g, id)[0] == m[0] && g[0] == l;
      assert |l| == |last| + |m[0]|;
    } else {
      KeyNames();
      GluedIsInert(last, "name", id.name);
      GluedIsInert(last, "email", id.email);
      if LineKind(l) == Other {
        StillMissing(e, id);
      }
      assert |Redone(e, g, id)| > |g|;
    }
  }

  /** What is written of the other key does not write the first missing one. */
  lemma StillMissing(e: Flags, id: Identity)
    requires Missing(e, id) != []
    ensures Missing(End(Missing(e, id)[1..], e), id) != []
  {
    hide LineKind, KeyLine, Body, End;
    var m := Missing(e, id);
    WrittenKinds(id);
    assert m[1..] == if e.wroteName || e.wroteEmail then [] else [EmailLine(id)];
    BodyOne(EmailLine(id), e, id);
  }

  lemma GluedBlankKind(last: string, line: string)
    requires TrimSpace(last) == ""
    ensures LineKind(last + line) == LineKind(line)
  {
    hide TrimFunc, IsSpace, KindOf;
    var a, b := TrimSplits(last, IsSpace);
    assert last + line == (a + b) + line + "";
    TrimIgnores(a + b, line, "", IsSpace);
  }

  /** Behind a header that nobody reads any more, nothing changes. */
  lemma RedoneAfterHeader(e: Flags, last: string, id: Identity)
    requires LineKind(last) == Header(true) && TrimSpace(last) != "" && Missing(e, id) == []
    ensures var g := [last + NameLine(id)] + [EmailLine(id)];
            Redone(e, g, id) == g && !HasUser(g)
  {
    hide LineKind, KeyLine, Body, End, TrimFunc, HasUser;
    var l, n := last + NameLine(id), EmailLine(id);
    WrittenKinds(id);
    KeyNames();
    GluedIsInert(last, "name", id.name);
    BodyAppend([l], [n], e, id);
    BodyOne(l, e, id);
    BodyOne(n, After(e, l), id);
    UserCons(l, [n]);
    UserCons(n, []);
    assert [n] + [] == [n] && [] + [l] == [l];
    NobodyIsUser();
  }

  lemma NobodyIsUser()
    ensures !HasUser([])
  {
  }

  lemma {:induction false} HasUserAppend(a: seq<string>, b: seq<string>)
    ensures HasUser(a + b) <==> HasUser(a) || HasUser(b)
  {
    hide LineKind;
    assert forall l :: l in a + b <==> l in a || l in b;
  }

  lemma {:induction false} BodyAddsNoUser(lines: seq<string>, f: Flags, id: Identity)
    requires HasUser(Body(lines, f, id))
    ensures HasUser(lines)
  {
    hide LineKind, KeyLine, HasUser;
    if lines == [] {
      NobodyIsUser();
      assert false;
    } else {
      var g := After(f, lines[0]);
      assert lines == [lines[0]] + lines[1..];
      UserCons(lines[0], lines[1..]);
      EmitAddsNoUser(f, lines[0], id);
      HasUserAppend(Emit(f, lines[0], id), Body(lines[1..], g, id));
      if HasUser(Body(lines[1..], g, id)) {
        BodyAddsNoUser(lines[1..], g, id);
      }
    }
  }

  lemma EmitAddsNoUser(f: Flags, line: string, id: Identity)
    ensures HasUser(Emit(f, line, id)) ==> LineKind(line) == Header(true)
    ensures !HasUser(Missing(f, id))
  {
    hide LineKind, KeyLine, HasUser, Missing;
    MissingNamesNobody(f, id);
    KeyKinds(id);
    HasUserAppend(Missing(f, id), [line]);
    NobodyIsUser();
    UserCons(line, []);
    UserCons(NameLine(id), []);
    UserCons(EmailLine(id), []);
    assert forall l: string :: [l] + [] == [l];
  }

  lemma MissingNamesNobody(f: Flags, id: Identity)
    ensures !HasUser(Missing(f, id))
  {
    hide LineKind, NameLine, EmailLine, HasUser, Missing;
    var m, e := Missing(f, id), EmailLine(id);
    KeyKinds(id);
    NobodyIsUser();
    UserCons(e, []);
    if m != [] {
      MissingShape(f, id);
      UserCons(m[0], m[1..]);
      assert m == [m[0]] + m[1..] && [e] + [] == [e];
    }
  }

  lemma KeyKinds(id: Identity)
    ensures LineKind(NameLine(id)) == NameKey && LineKind(EmailLine(id)) == EmailKey
  {
    hide LineKind;
    WrittenKinds(id);
  }

  /** The lines before a glued one name the user section iff the lines of the text did. */
  lemma BeforeHasUser(front: seq<string>, last: string, id: Identity)
    ensures HasUser(Before(front, last, id)) <==> HasUser(front)
  {
    hide LineKind, Body, Missing, HasUser, End;
    var f := End(front, START);
    EmitAddsNoUser(f, last, id);
    HasUserAppend(Body(front, START, id), if LineKind(last).Header? then Missing(f, id) else []);
    NobodyIsUser();
    HeadersStay(front, START, id);
    if HasUser(Body(front, START, id)) {
      BodyAddsNoUser(front, START, id);
    }
  }

  /** The last line is the header of another [user] section. */
  predicate EndsInLaterUser(src: string) {
    var lines := Lines(src);
    lines != [] && LineKind(lines[|lines| - 1]) == Header(true) && HasUser(lines[..|lines| - 1])
  }

  /** Updating twice is updating once exactly if no key is glued, or it is glued to the header of
      another [user] section. */
  lemma TwiceExactly(src: string, id: Identity)
    requires OneLine(id)
    ensures Update(Update(src, id), id) == Update(src, id) <==> !Glues(src) || EndsInLaterUser(src)
  {
    hide Lines, HasUser, OneLine, Update, Pieces, Missing, End, LineKind, Glued, Replaced, EndsInLaterUser;
    if Terminated(src) {
      UpdateTwice(src, id);
    } else if !HasUser(Lines(src)) {
      TwiceAppended(src, id);
      if Glues(src) {
        GluesHasUser(src);
      }
    } else if Glues(src) {
      GluedTwice(src, id);
    } else {
      var front, last := UpdatedLines(src, id);
      TwiceFromPieces(src, id);
    }
  }

  lemma GluedTwice(src: string, id: Identity)
    requires OneLine(id) && !Terminated(src) && HasUser(Lines(src)) && Glues(src)
    ensures Update(Update(src, id), id) == Update(src, id) <==> EndsInLaterUser(src)
  {
    hide Lines, HasUser, OneLine, Update, Pieces, Missing, End, LineKind, Body, Before, Redone, Replaced, TrimFunc;
    var front, last := UpdatedLines(src, id);
    var q, m := Before(front, last, id), Missing(End(front + [last], START), id);
    var e, g := End(q, START), [last + m[0]] + m[1..];
    assert (front + [last])[..|front|] == front;
    AfterBefore(front, last, id);
    BeforeHasUser(front, last, id);
    EndsInKind(front, last, id);
    HasUserAppend(q, g);
    SecondPieces(q, g, id);
    if LineKind(last).Other? {
      SameFlags(e, last);
      RedoneInSection(e, last, id);
      InUserHasUser(q, START);
      UpdateIsPieces(src, q + g, id);
    } else {
      HeaderFlags(front, last, id);
      HeaderIsVisible(last);
      RedoneAfterHeader(e, last, id);
      if HasUser(front) {
        UpdateIsPieces(src, q + g, id);
      } else {
        UpdateGrows(src, id);
      }
    }
  }

  lemma SameFlags(e: Flags, last: string)
    requires LineKind(last).Other?
    ensures After(e, last) == e
  {
    hide LineKind;
  }

  lemma HeaderFlags(front: seq<string>, last: string, id: Identity)
    requires !Replaced(End(front, START), last) && LineKind(last).Header?
    requires Missing(End(front + [last], START), id) != []
    ensures LineKind(last) == Header(true)
    ensures var m := Missing(End(front + [last], START), id);
            m[0] == NameLine(id) && m[1..] == [EmailLine(id)]
    ensures Missing(End(Before(front, last, id), START), id) == []
  {
    hide LineKind, KeyLine, End, Body, Replaced, Before;
    AfterBefore(front, last, id);
  }

  lemma HeaderIsVisible(last: string)
    requires LineKind(last).Header?
    ensures TrimSpace(last) != "" && last != ""
  {
    hide TrimFunc;
    BlankKind();
    if last == "" {
      TrimmedIsFixed("", IsSpace);
    }
  }

  /** The pieces of the second update, line by line. */
  lemma SecondPieces(q: seq<string>, g: seq<string>, id: Identity)
    requires Body(q, START, id) == q
    ensures Pieces(q + g, START, id) == q + Redone(End(q, START), g, id)
    ensures Pieces(q + g, START, id) == q + g <==> Redone(End(q, START), g, id) == g
  {
    hide Body, End, Missing;
    BodyAppend(q, g, START, id);
    var r := Redone(End(q, START), g, id);
    assert (q + r)[|q|..] == r && (q + g)[|q|..] == g;
  }

  /** Texts of lines are equal iff the lines are. */
  lemma UpdateIsPieces(src: string, lines: seq<string>, id: Identity)
    requires OneLine(id) && Lines(Update(src, id)) == lines && HasUser(lines) && AreLines(lines)
    ensures Update(Update(src, id), id) == Update(src, id) <==> Pieces(lines, START, id) == lines
  {
    hide Lines, HasUser, OneLine, Pieces, AreLines;
    var out := Update(src, id);
    NonEmptyIfUser(out);
    ConcatLines(out);
    LinesOfPieces(lines, id);
  }

  lemma UpdateGrows(src: string, id: Identity)
    requires !HasUser(Lines(Update(src, id)))
    ensures Update(Update(src, id), id) != Update(src, id)
  {
    hide Lines, HasUser;
    var out := Update(src, id);
    NewSectionText(id);
    assert |Update(out, id)| > |out|;
  }
}
