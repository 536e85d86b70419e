/** The round trip on text whose last line has no newline: the missing keys are then glued to that
    line, and exactly when the identity is lost. */
module GitUnterminated {
  import opened Sequences
  import opened Text
  import opened GitConfigLines
  import opened GitIdentity
  import opened GitRewrite
  import opened GitRoundTrip

  // ----- What a glued line is -----

  lemma TrimKeepsIn(s: string, cut: char -> bool, c: char)
    requires c in s && !cut(c)
    ensures c in TrimFunc(s, cut)
  {
    hide TrimFunc;
    var pre, post := TrimSplits(s, cut);
  }

  lemma BracketIsNoKey(t: string)
    requires t != "" && t[0] == '['
    ensures Key(t) != "name" && Key(t) != "email"
  {
    var i := IndexOf(t, '=');
    if i >= 0 {
      hide IndexOf;
      var k := t[..i];
      assert k[0] == '[' && TrimLeftFunc(k, IsSpace) == k;
      var r := TrimSpace(k);
      assert r != "" ==> r[0] == '[';
      assert ToLower(r) != "" ==> ToLower(r)[0] == '[';
    }
  }

  /** An '=' inside the brackets keeps a header from naming the user section. */
  lemma EqualsIsNoUser(t: string)
    requires '=' in t
    ensures !IsUserName(SectionName(t))
  {
    hide TrimFunc;
    TrimKeepsIn(t, IsBracket, '=');
    TrimKeepsIn(TrimFunc(t, IsBracket), IsSpace, '=');
    var s := SectionName(t);
    if |s| == 4 {
      assert s == [s[0], s[1], s[2], s[3]];
    }
  }

  lemma KeyOfPrefix(t: string, x: string)
    requires '=' in t
    ensures Key(t + x) == Key(t)
  {
    hide TrimFunc;
    var i := IndexOf(t, '=');
    assert (t + x)[..i] == t[..i];
    IndexOfFirst(t + x, '=', i);
  }

  /** A tab inside the key. */
  lemma KeyWithTab(t: string, key: string, w: string)
    requires t != "" && !IsSpace(t[0]) && '=' !in t && IsKeyName(key)
    ensures '\t' in Key(t + "\t" + key + " =" + w)
  {
    hide ToLower, TrimFunc, IndexOf;
    var core := t + "\t" + key;
    var T := t + "\t" + key + " =" + w;
    assert T[..|core| + 1] == core + " ";
    IndexOfFirst(T, '=', |core| + 1);
    assert core + " " == "" + core + " ";
    assert IsTrimmed(core, IsSpace);
    TrimAround("", core, " ", IsSpace);
    LowerKeepsTab(core, |t|);
  }

  lemma LowerKeepsTab(s: string, i: nat)
    requires i < |s| && s[i] == '\t'
    ensures '\t' in ToLower(s)
  {
    assert ToLower(s)[i] == '\t';
  }

  lemma GluedTrims(last: string, key: string, value: string) returns (b: string, w: string)
    requires TrimSpace(last) != "" && IsKeyName(key)
    ensures TrimSpace(last + KeyLine(key, value)) == TrimSpace(last) + b + "\t" + key + " =" + w
    ensures (forall i :: 0 <= i < |b| ==> IsSpace(b[i])) && !IsSpace(TrimSpace(last)[0])
  {
    hide TrimFunc, TrimRightFunc, ToLower, KeyLine;
    TrimTrims(last, IsSpace);
    var a: string;
    a, b := TrimSplits(last, IsSpace);
    var t := TrimSpace(last);
    w := TrimRightFunc(" " + value + "\n", IsSpace);
    KeyLineParts(key, value);
    GlueParts(a + t + b, a, t, b, key + " =", " " + value + "\n");
    Associate(t + b + "\t", key, " =");
    TrimTail(a, t + b + "\t" + (key + " ="), " " + value + "\n");
  }

  lemma GlueParts(last: string, a: string, t: string, b: string, key: string, tail: string)
    requires last == a + t + b
    ensures last + ("\t" + key + tail) == a + (t + b + "\t" + key) + tail
  {
  }

  /** After visible text the key is not seen, and the reader enters no [user] section there. */
  lemma GluedIsInert(last: string, key: string, value: string)
    requires TrimSpace(last) != "" && IsKeyName(key)
    requires LineKind(last).Header? || LineKind(last).Other?
    ensures var k := LineKind(last + KeyLine(key, value)); k == Other || k == Header(false)
  {
    hide TrimSpace, Key, IsKeyName, IsSpace, SectionName, IsUserName, KeyLine;
    var b, w := GluedTrims(last, key, value);
    var t := TrimSpace(last);
    var T := t + b + "\t" + key + " =" + w;
    assert T[0] == t[0];
    if t[0] == '[' {
      BracketIsNoKey(T);
      assert T[|t + b + "\t" + key| + 1] == '=';
      EqualsIsNoUser(T);
    } else if '=' in t {
      assert T == t + (b + "\t" + key + " =" + w);
      KeyOfPrefix(t, b + "\t" + key + " =" + w);
    } else {
      SpaceIsNoEquals(b);
      KeyWithTab(t + b, key, w);
    }
  }

  lemma SpaceIsNoEquals(b: string)
    requires forall i :: 0 <= i < |b| ==> IsSpace(b[i])
    ensures '=' !in b
  {
  }

  /** After blanks the key line reads as if it stood alone. */
  lemma GluedToBlanks(last: string, line: string, r: Reader)
    requires TrimSpace(last) == ""
    ensures ReadLine(r, last + line) == ReadLine(r, line) && ReadLine(r, last) == r
  {
    hide TrimFunc, IsSpace, Value;
    var a, b := TrimSplits(last, IsSpace);
    assert last + line == (a + b) + line + "";
    TrimIgnores(a + b, line, "", IsSpace);
    BlankKind();
  }

  lemma BlankKind()
    ensures KindOf("") == Other
  {
  }

  // ----- The text that is written -----

  lemma {:induction false} LastLineOf(src: string) returns (front: seq<string>, last: string)
    requires !Terminated(src)
    ensures Lines(src) == front + [last] && AreLines(front) && last != "" && '\n' !in last
    decreases |src|
  {
    hide Lines, IsLine, Terminated;
    UnterminatedIsText(src);
    if '\n' !in src {
      OnlyLine(src);
      front, last := [], src;
    } else {
      var first, rest := SplitFirst(src);
      front, last := LastLineOf(rest);
      assert [first] + (front + [last]) == ([first] + front) + [last];
      front := [first] + front;
    }
  }

  /** The updater replaces the last line instead of copying it. */
  predicate Replaced(f: Flags, line: string) {
    f.inUser && (LineKind(line) == NameKey || LineKind(line) == EmailKey)
  }

  /** What precedes the copied last line. */
  function Before(front: seq<string>, last: string, id: Identity): seq<string> {
    var f := End(front, START);
    Body(front, START, id) + if LineKind(last).Header? then Missing(f, id) else []
  }

  lemma BodySplit(front: seq<string>, last: string, id: Identity)
    ensures var f := End(front, START);
            && Body(front + [last], START, id) == Body(front, START, id) + Emit(f, last, id)
            && End(front + [last], START) == After(f, last)
            && (!Replaced(f, last) ==> Body(front + [last], START, id) == Before(front, last, id) + [last])
  {
    hide LineKind, Body, End, Missing;
    BodyAppend(front, [last], START, id);
    BodyOne(last, End(front, START), id);
  }

  lemma BeforeAreLines(front: seq<string>, last: string, id: Identity)
    requires AreLines(front) && OneLine(id)
    ensures AreLines(Before(front, last, id))
  {
    hide IsLine, LineKind, Missing, Body, End, OneLine;
    BodyAreLines(front, START, id);
    WrittenAreLines(id);
  }

  /** A replaced last line leaves every piece a line of its own. */
  lemma ReplacedLines(front: seq<string>, last: string, id: Identity)
    requires AreLines(front) && OneLine(id) && Replaced(End(front, START), last)
    ensures var p := Pieces(front + [last], START, id); Lines(Concat(p)) == p
  {
    hide IsLine, LineKind, Missing, Body, End, OneLine, KeyLine, Lines, Concat;
    BodySplit(front, last, id);
    BodyAreLines(front, START, id);
    WrittenAreLines(id);
    var p := Pieces(front + [last], START, id);
    assert AreLines(p);
    LinesOfConcat(p, "");
    assert Concat(p) + "" == Concat(p) && p + [] == p;
  }

  /** The lines of the updated text: the first missing key shares the last line. */
  function Glued(front: seq<string>, last: string, m: seq<string>, id: Identity): seq<string>
    requires m != []
  {
    Before(front, last, id) + ([last + m[0]] + m[1..])
  }

  lemma CopiedLines(front: seq<string>, last: string, id: Identity)
    requires AreLines(front) && OneLine(id) && !Replaced(End(front, START), last)
    requires last != "" && '\n' !in last
    ensures var p, m := Pieces(front + [last], START, id), Missing(End(front + [last], START), id);
            && Lines(Concat(p)) == (if m == [] then p else Glued(front, last, m, id))
            && (m != [] ==> AreLines(Glued(front, last, m, id)))
  {
    hide Missing, Body, End, OneLine, Replaced, Before, Lines, Concat, IsLine, LineKind;
    var q, m := Before(front, last, id), Missing(End(front + [last], START), id);
    BodySplit(front, last, id);
    BeforeAreLines(front, last, id);
    assert Pieces(front + [last], START, id) == (q + [last]) + m;
    if m == [] {
      assert (q + [last]) + m == q + [last];
      LinesWithTail(q, last);
    } else {
      WrittenAreLines(id);
      LinesWithGlue(q, last, m);
    }
  }

  lemma LinesWithTail(q: seq<string>, last: string)
    requires AreLines(q) && last != "" && '\n' !in last
    ensures Lines(Concat(q + [last])) == q + [last]
  {
    hide Lines, Concat, IsLine;
    ConcatAppend(q, [last]);
    ConcatOne(last);
    LinesOfConcat(q, last);
  }

  lemma LinesWithGlue(q: seq<string>, last: string, m: seq<string>)
    requires AreLines(q) && AreLines(m) && m != [] && '\n' !in last
    ensures AreLines(q + ([last + m[0]] + m[1..]))
    ensures Lines(Concat((q + [last]) + m)) == q + ([last + m[0]] + m[1..])
  {
    hide Lines, Concat;
    GlueText(q, last, m);
    GlueIsLine(last, m[0]);
    hide IsLine;
    var g := q + ([last + m[0]] + m[1..]);
    LinesOfConcat(g, "");
    assert Concat(g) + "" == Concat(g) && g + [] == g;
  }

  lemma GlueText(q: seq<string>, last: string, m: seq<string>)
    requires m != []
    ensures Concat((q + [last]) + m) == Concat(q + ([last + m[0]] + m[1..]))
  {
    assert (q + [last]) + m == q + ([last] + m) && m == [m[0]] + m[1..];
    ConcatAppend(q, [last] + m);
    ConcatAppend([last], m);
    ConcatAppend([m[0]], m[1..]);
    ConcatAppend(q, [last + m[0]] + m[1..]);
    ConcatAppend([last + m[0]], m[1..]);
    ConcatOne(last);
    ConcatOne(m[0]);
    ConcatOne(last + m[0]);
    hide Concat;
    Associate(last, m[0], Concat(m[1..]));
  }

  lemma GlueIsLine(a: string, l: string)
    requires '\n' !in a && IsLine(l)
    ensures IsLine(a + l)
  {
    assert (a + l)[..|a + l| - 1] == a + l[..|l| - 1];
  }

  // ----- What is read back -----

  /** The file ends, without a newline, inside a [user] section on a line that is neither key, while
      a key is still missing. */
  predicate Glues(src: string) {
    var lines := Lines(src);
    var f := End(lines, START);
    && !Terminated(src) && lines != []
    && f.inUser && !(f.wroteName && f.wroteEmail)
    && LineKind(lines[|lines| - 1]) != NameKey && LineKind(lines[|lines| - 1]) != EmailKey
  }

  /** Moreover this is the first [user] section, and the line has visible text. */
  predicate Lost(src: string) {
    var lines := Lines(src);
    Glues(src) && !EndSeen(lines, START, false) && TrimSpace(lines[|lines| - 1]) != ""
  }

  /** The line to which the first missing key is glued, if there is one, is short enough with it. */
  predicate GluedFits(src: string, id: Identity) {
    Glues(src) ==>
      var lines := Lines(src);
      Fits(lines[|lines| - 1] + Missing(End(lines, START), id)[0])
  }

  /** Reading the glued lines, from what the reader knows before the last line. */
  lemma GluedReads(last: string, f: Flags, seen: bool, q: Reader, id: Identity)
    requires Sim(f, seen, ReadLine(q, last), id) && Missing(f, id) != []
    requires LineKind(last).Header? || LineKind(last).Other?
    requires TrimSpace(last) != "" && Clean(id.name) != "" && Clean(id.email) != ""
    ensures var m := Missing(f, id);
            Good(ReadAll([last + m[0]] + m[1..], q), id) <==> seen
  {
    hide LineKind, KeyLine, Clean, TrimFunc, IsSpace, Value;
    var m := Missing(f, id);
    KeyNames();
    GluedIsInert(last, "name", id.name);
    GluedIsInert(last, "email", id.email);
    var s := ReadLine(q, last + m[0]);
    assert s.name == ReadLine(q, last).name && s.email == ReadLine(q, last).email;
    ReadTwo(last + m[0], EmailLine(id), q);
    WrittenRead(s, id);
    assert m[1..] == if f.wroteName || f.wroteEmail then [] else [EmailLine(id)];
    assert [last + m[0]] + [] == [last + m[0]] && [last + m[0]] + [EmailLine(id)] == [last + m[0], EmailLine(id)];
  }

  lemma KeyNames()
    ensures IsKeyName("name") && IsKeyName("email")
  {
    assert ToLower("name") == "name" && ToLower("email") == "email";
  }

  lemma BlankGluedReads(last: string, m: seq<string>, q: Reader)
    requires TrimSpace(last) == "" && m != []
    ensures ReadAll([last + m[0]] + m[1..], q) == ReadAll([last] + m, q)
  {
    hide TrimFunc, ReadLine, IsSpace;
    GluedToBlanks(last, m[0], q);
    ReadAppend([last + m[0]], m[1..], q);
    ReadAppend([last], m, q);
    assert m == [m[0]] + m[1..];
    ReadAppend([m[0]], m[1..], q);
    ReadTwo(last + m[0], "", q);
    ReadTwo(last, "", q);
    ReadTwo(m[0], "", q);
  }

  lemma GluedCase(front: seq<string>, last: string, id: Identity)
    requires !Replaced(End(front, START), last)
    requires Clean(id.name) != "" && Clean(id.email) != ""
    requires HasUser(front + [last])
    ensures var lines := front + [last];
            var f := End(lines, START);
            var m := Missing(f, id);
            m != [] ==>
              (Good(ReadAll(Glued(front, last, m, id), FRESH), id) <==>
               EndSeen(lines, START, false) || TrimSpace(last) == "")
  {
    hide Body, End, EndSeen, Missing, Before, LineKind, Clean, Replaced, Good, TrimFunc, HasUser, ReadLine, Sim;
    var lines := front + [last];
    var f, before := End(lines, START), Before(front, last, id);
    var m, q := Missing(f, id), ReadAll(before, FRESH);
    if m != [] {
      EndsInKind(front, last, id);
      ReadAppend(before, [last + m[0]] + m[1..], FRESH);
      if TrimSpace(last) == "" {
        BlankGluedReads(last, m, q);
        PiecesRead(lines, id);
        PiecesSplit(front, last, id);
        ReadAppend(before, [last] + m, FRESH);
      } else {
        SimBefore(front, last, id);
        GluedReads(last, f, EndSeen(lines, START, false), q, id);
      }
    }
  }

  lemma PiecesSplit(front: seq<string>, last: string, id: Identity)
    requires !Replaced(End(front, START), last)
    ensures var m := Missing(End(front + [last], START), id);
            Pieces(front + [last], START, id) == Before(front, last, id) + ([last] + m)
  {
    hide Body, End, Missing, Before, Replaced;
    BodySplit(front, last, id);
  }

  lemma SimBefore(front: seq<string>, last: string, id: Identity)
    requires !Replaced(End(front, START), last)
    ensures var lines := front + [last];
            var q := ReadAll(Before(front, last, id), FRESH);
            Sim(End(lines, START), EndSeen(lines, START, false), ReadLine(q, last), id)
  {
    hide Body, End, EndSeen, Before, Replaced, ReadLine;
    var lines, before := front + [last], Before(front, last, id);
    SimBody(lines, START, false, FRESH, id);
    BodySplit(front, last, id);
    ReadAppend(before, [last], FRESH);
    ReadTwo(last, "", ReadAll(before, FRESH));
  }

  /** Keys can only be missing after a header or an ordinary line. */
  lemma EndsInKind(front: seq<string>, last: string, id: Identity)
    requires !Replaced(End(front, START), last)
    requires Missing(End(front + [last], START), id) != []
    ensures LineKind(last).Header? || LineKind(last).Other?
  {
    hide LineKind, Body, End;
    BodySplit(front, last, id);
  }

  lemma GluesExactly(front: seq<string>, last: string, id: Identity)
    ensures var lines := front + [last];
            var f := End(lines, START);
            (f.inUser && !(f.wroteName && f.wroteEmail) && LineKind(last) != NameKey && LineKind(last) != EmailKey)
            <==> !Replaced(End(front, START), last) && Missing(f, id) != []
  {
    hide LineKind, Body, End;
    BodySplit(front, last, id);
  }

  lemma {:induction false} InUserHasUser(lines: seq<string>, f: Flags)
    requires !f.inUser && End(lines, f).inUser
    ensures HasUser(lines)
  {
    if !HasUser(lines) {
      NoUserBody(lines, f, Identity("", ""));
    }
  }

  lemma GluesHasUser(src: string)
    requires Glues(src)
    ensures HasUser(Lines(src))
  {
    hide Lines, End, HasUser, LineKind;
    InUserHasUser(Lines(src), START);
  }

  /** A glued line is too long if either of its parts is. */
  lemma GlueFits(q: seq<string>, last: string, m: seq<string>)
    requires m != [] && '\n' !in last && IsLine(m[0])
    ensures AllFit(q + ([last + m[0]] + m[1..])) <==> AllFit(q + ([last] + m)) && Fits(last + m[0])
  {
    hide AllFit, Fits, IsLine;
    PartsFit(last, m[0]);
    assert m == [m[0]] + m[1..];
    AllFitAppend(q, [last + m[0]] + m[1..]);
    AllFitAppend([last + m[0]], m[1..]);
    AllFitAppend(q, [last] + m);
    AllFitAppend([last], m);
    AllFitAppend([m[0]], m[1..]);
    AllFitOne(last + m[0]);
    AllFitOne(last);
    AllFitOne(m[0]);
  }

  lemma PartsFit(last: string, line: string)
    requires '\n' !in last && IsLine(line)
    ensures Fits(last + line) ==> Fits(last) && Fits(line)
  {
    hide ByteLength;
    var l := last + line;
    assert l[..|l| - 1] == last + line[..|line| - 1];
    ByteLengthConcat(last, line[..|line| - 1]);
    assert last != "" ==> last[|last| - 1] in last;
  }

  /** For every text: the identity is read back exactly if the text is not of that one shape, and
      every line that is kept, written or glued is short enough for the reader. */
  lemma ReadsBackExactly(src: string, id: Identity)
    requires OneLine(id) && Clean(id.name) != "" && Clean(id.email) != ""
    ensures ReadsBack(src, id) <==> !Lost(src) && KeptFit(src) && WrittenFit(id) && GluedFits(src, id)
  {
    hide Lines, HasUser, OneLine, Clean, ReadsBack, KeptFit, WrittenFit, End, EndSeen, TrimFunc, LineKind, Missing, Fits;
    if Terminated(src) {
      UpdateThenRead(src, id);
    } else if !HasUser(Lines(src)) {
      AppendedReads(src, id);
      if Glues(src) {
        GluesHasUser(src);
      }
    } else {
      UserReadsBack(src, id);
    }
  }

  lemma UserReadsBack(src: string, id: Identity)
    requires !Terminated(src) && HasUser(Lines(src))
    requires OneLine(id) && Clean(id.name) != "" && Clean(id.email) != ""
    ensures ReadsBack(src, id) <==> !Lost(src) && KeptFit(src) && WrittenFit(id) && GluedFits(src, id)
  {
    hide Lines, HasUser, Good, OneLine, AllFit, Clean, EndSeen, End, Missing, TrimFunc, LineKind, Pieces, Fits,
         WrittenFit, Others, Glued, IsLine;
    var front, last := UpdatedLines(src, id);
    var lines := front + [last];
    var p, m := Pieces(lines, START, id), Missing(End(lines, START), id);
    PiecesRead(lines, id);
    PiecesFit(lines, id);
    if Glues(src) {
      GluedCase(front, last, id);
      PiecesSplit(front, last, id);
      WrittenAreLines(id);
      GlueFits(Before(front, last, id), last, m);
      hide Before;
      GluedIs(front, last, m, id);
    }
  }

  lemma GluedIs(front: seq<string>, last: string, m: seq<string>, id: Identity)
    requires m != []
    ensures Glued(front, last, m, id) == Before(front, last, id) + ([last + m[0]] + m[1..])
  {
  }

  /** The lines of the updated text, for a text with a [user] section and no final newline. */
  lemma UpdatedLines(src: string, id: Identity) returns (front: seq<string>, last: string)
    requires !Terminated(src) && HasUser(Lines(src)) && OneLine(id)
    ensures Lines(src) == front + [last] && AreLines(front) && last != "" && '\n' !in last
    ensures var m := Missing(End(front + [last], START), id);
            && (Glues(src) <==> !Replaced(End(front, START), last) && m != [])
            && Lines(Update(src, id)) ==
               (if Glues(src) then Glued(front, last, m, id) else Pieces(front + [last], START, id))
            && (Glues(src) ==> AreLines(Glued(front, last, m, id)))
  {
    hide Lines, HasUser, OneLine, Concat, End, Missing, LineKind, Pieces, IsLine, Glued, Replaced;
    front, last := LastLineOf(src);
    NonEmptyIfUser(src);
    GluesExactly(front, last, id);
    if Replaced(End(front, START), last) {
      ReplacedLines(front, last, id);
    } else {
      CopiedLines(front, last, id);
    }
  }

  /** The shape exists: "[user]" alone, for any identity. */
  lemma LostExample(id: Identity)
    requires OneLine(id) && Clean(id.name) != "" && Clean(id.email) != ""
    ensures !Terminated("[user]") && !ReadsBack("[user]", id)
  {
    hide LineKind, TrimFunc, ReadsBack, Lines, End, EndSeen, Body, Clean, OneLine, KeptFit, WrittenFit, GluedFits;
    var src := "[user]";
    OnlyLine(src);
    assert src + "\n" == "[user]\n";
    UserHeaderKind();
    TrailingNewlineKind(src);
    BodyOne(src, START, id);
    SeenOne(src, START);
    TrimmedIsFixed(src, IsSpace);
    ReadsBackExactly(src, id);
  }

  lemma SeenOne(line: string, f: Flags)
    ensures EndSeen([line], f, false) == (f.inUser && LineKind(line).Header?)
  {
    hide LineKind, After;
    assert [line][1..] == [];
    assert EndSeen([line], f, false) == EndSeen([], After(f, line), SeenAfter(false, f, line));
  }
}
