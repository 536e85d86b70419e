/** Reading and rewriting the [user] section of a gitconfig file. The updater works line by line on
    the text it is given; the reader must find the new identity in whatever it produces. */
module GitIdentity {
  import opened Sequences
  import opened Text
  import opened GitConfigLines

  datatype Identity = Identity(name: string, email: string)

  function NameLine(id: Identity): string { KeyLine("name", id.name) }

  function EmailLine(id: Identity): string { KeyLine("email", id.email) }

  // ----- The updater -----

  /** The updater's flags: inside a [user] section, and which keys it has written there. */
  datatype Flags = Flags(inUser: bool, wroteName: bool, wroteEmail: bool)

  const START := Flags(false, false, false)

  /** The keys still missing when a [user] section ends. */
  function Missing(f: Flags, id: Identity): seq<string> {
    if !f.inUser then []
    else (if f.wroteName then [] else [NameLine(id)]) + (if f.wroteEmail then [] else [EmailLine(id)])
  }

  function Emit(f: Flags, line: string, id: Identity): seq<string> {
    match LineKind(line)
    case Header(_) => Missing(f, id) + [line]
    case NameKey => if f.inUser then [NameLine(id)] else [line]
    case EmailKey => if f.inUser then [EmailLine(id)] else [line]
    case Other => [line]
  }

  function After(f: Flags, line: string): Flags {
    match LineKind(line)
    case Header(user) => if user then Flags(true, false, false)
                         else Flags(false, f.inUser || f.wroteName, f.inUser || f.wroteEmail)
    case NameKey => if f.inUser then f.(wroteName := true) else f
    case EmailKey => if f.inUser then f.(wroteEmail := true) else f
    case Other => f
  }

  /** What the loop writes, and the flags it ends with. */
  function Body(lines: seq<string>, f: Flags, id: Identity): seq<string> {
    if lines == [] then [] else Emit(f, lines[0], id) + Body(lines[1..], After(f, lines[0]), id)
  }

  function End(lines: seq<string>, f: Flags): Flags {
    if lines == [] then f else End(lines[1..], After(f, lines[0]))
  }

  function Pieces(lines: seq<string>, f: Flags, id: Identity): seq<string> {
    Body(lines, f, id) + Missing(End(lines, f), id)
  }

  predicate HasUser(lines: seq<string>) { exists l :: l in lines && LineKind(l) == Header(true) }

  function NewSection(id: Identity): seq<string> { ["[user]\n", NameLine(id), EmailLine(id)] }

  function Update(src: string, id: Identity): string {
    if src == "" then Concat(NewSection(id))
    else if HasUser(Lines(src)) then Concat(Pieces(Lines(src), START, id))
    else src + (if Terminated(src) then "" else "\n") + Concat(NewSection(id))
  }

  method UpdateGitUserSection(src: string, id: Identity) returns (out: string)
    ensures out == Update(src, id)
  {
    if |src| == 0 {
      out := "[user]\n" + NameLine(id) + EmailLine(id);
      NewSectionText(id);
      return;
    }
    var lines := SplitLinesKeepEOL(src);
    var f, foundUser;
    out, f, foundUser := RewriteLines(lines, id);
    hide HasUser, Lines, Body, End, Missing, Concat, KeyLine, NewSection, AreLines;
    var rest := FlushPending(f, id);
    out := out + rest;
    if foundUser {
      PiecesText(lines, id);
    } else {
      ConcatLines(src);
      NothingMissing(f, id);
      assert out == src;
      out := AppendSection(out, id);
    }
  }

  method AppendSection(src: string, id: Identity) returns (out: string)
    requires src != ""
    ensures out == src + (if Terminated(src) then "" else "\n") + Concat(NewSection(id))
  {
    hide Concat, KeyLine, NewSection;
    out := src;
    if |out| > 0 && out[|out| - 1] != '\n' {
      out := out + "\n";
    }
    assert out == src + (if Terminated(src) then "" else "\n");
    NewSectionText(id);
    out := out + ("[user]\n" + NameLine(id) + EmailLine(id));
  }

  lemma NothingMissing(f: Flags, id: Identity)
    ensures !f.inUser ==> Concat(Missing(f, id)) == ""
  {
  }

  /** The loop over the lines. */
  method RewriteLines(lines: seq<string>, id: Identity) returns (out: string, f: Flags, foundUser: bool)
    ensures f == End(lines, START) && out == Concat(Body(lines, START, id))
    ensures foundUser <==> HasUser(lines)
    ensures f.inUser ==> foundUser
    ensures !foundUser ==> out == Concat(lines)
  {
    out, f, foundUser := "", START, false;
    hide LineKind, HasUser, Body, End, Emit, After, Concat;
    RewriteStart(id);
    for i := 0 to |lines|
      invariant f == End(lines[..i], START) && out == Concat(Body(lines[..i], START, id))
      invariant foundUser <==> HasUser(lines[..i])
      invariant f.inUser ==> foundUser
      invariant !foundUser ==> out == Concat(lines[..i])
    {
      BodySnoc(lines, i, START, id);
      if !f.inUser {
        OutsideCopies(f, lines[i], id);
      }
      UserSnoc(lines, i);
      ConcatOne(lines[i]);
      var written, g := RewriteLine(f, lines[i], id);
      out := out + written;
      foundUser := foundUser || LineKind(lines[i]) == Header(true);
      f := g;
    }
    assert lines[..|lines|] == lines;
  }

  lemma RewriteStart(id: Identity)
    ensures End([], START) == START && Concat(Body([], START, id)) == "" && Concat([]) == "" && !HasUser([])
  {
  }

  /** flushPending. */
  method FlushPending(f: Flags, id: Identity) returns (out: string)
    ensures out == Concat(Missing(f, id))
  {
    out := "";
    if f.inUser {
      if !f.wroteName {
        out := out + NameLine(id);
      }
      if !f.wroteEmail {
        out := out + EmailLine(id);
      }
    }
    MissingText(f, id);
  }

  lemma MissingText(f: Flags, id: Identity)
    ensures Concat(Missing(f, id)) ==
            if !f.inUser then ""
            else (if f.wroteName then "" else NameLine(id)) + (if f.wroteEmail then "" else EmailLine(id))
  {
    hide KeyLine;
    ConcatAppend(if f.wroteName then [] else [NameLine(id)], if f.wroteEmail then [] else [EmailLine(id)]);
    ConcatOne(NameLine(id));
    ConcatOne(EmailLine(id));
  }

  /** One iteration of the loop: flush before a header, replace a key, copy anything else. */
  method RewriteLine(f: Flags, line: string, id: Identity) returns (out: string, g: Flags)
    ensures out == Concat(Emit(f, line, id)) && g == After(f, line)
  {
    ConcatOne(line);
    ConcatOne(NameLine(id));
    ConcatOne(EmailLine(id));
    g := f;
    match LineKind(line)
    case Header(user) =>
      var pending := FlushPending(f, id);
      ConcatAppend(Missing(f, id), [line]);
      out := pending + line;
      if f.inUser {
        g := Flags(true, true, true);
      }
      g := if user then Flags(true, false, false) else g.(inUser := false);
    case NameKey =>
      out := line;
      if f.inUser {
        out := NameLine(id);
        g := g.(wroteName := true);
      }
    case EmailKey =>
      out := line;
      if f.inUser {
        out := EmailLine(id);
        g := g.(wroteEmail := true);
      }
    case Other => out := line;
  }

  lemma NewSectionText(id: Identity)
    ensures Concat(NewSection(id)) == "[user]\n" + NameLine(id) + EmailLine(id)
  {
    assert NewSection(id) == ["[user]\n"] + ([NameLine(id)] + [EmailLine(id)]);
    ConcatAppend(["[user]\n"], [NameLine(id)] + [EmailLine(id)]);
    ConcatAppend([NameLine(id)], [EmailLine(id)]);
    ConcatOne("[user]\n");
    ConcatOne(NameLine(id));
    ConcatOne(EmailLine(id));
  }

  lemma PiecesText(lines: seq<string>, id: Identity)
    ensures Concat(Pieces(lines, START, id)) ==
            Concat(Body(lines, START, id)) + Concat(Missing(End(lines, START), id))
  {
    ConcatAppend(Body(lines, START, id), Missing(End(lines, START), id));
  }

  lemma {:induction false} BodyAppend(a: seq<string>, b: seq<string>, f: Flags, id: Identity)
    ensures Body(a + b, f, id) == Body(a, f, id) + Body(b, End(a, f), id)
    ensures End(a + b, f) == End(b, End(a, f))
  {
    hide Emit, After;
    if a == [] {
      assert a + b == b;
    } else {
      assert (a + b)[0] == a[0] && (a + b)[1..] == a[1..] + b;
      BodyAppend(a[1..], b, After(f, a[0]), id);
    }
  }

  lemma BodyOne(line: string, f: Flags, id: Identity)
    ensures Body([line], f, id) == Emit(f, line, id) && End([line], f) == After(f, line)
    ensures Body([], f, id) == [] && End([], f) == f
  {
    hide Emit, After;
    assert [line][1..] == [];
    assert Body([line], f, id) == Emit(f, line, id) + Body([], After(f, line), id);
    assert End([line], f) == End([], After(f, line));
  }

  lemma BodySnoc(lines: seq<string>, i: nat, f: Flags, id: Identity)
    requires i < |lines|
    ensures var g := End(lines[..i], f);
            && Body(lines[..i + 1], f, id) == Body(lines[..i], f, id) + Emit(g, lines[i], id)
            && End(lines[..i + 1], f) == After(g, lines[i])
            && Concat(Body(lines[..i + 1], f, id)) == Concat(Body(lines[..i], f, id)) + Concat(Emit(g, lines[i], id))
            && Concat(lines[..i + 1]) == Concat(lines[..i]) + lines[i]
  {
    var g := End(lines[..i], f);
    hide Body, End, Emit, After, Concat, LineKind;
    assert lines[..i + 1] == lines[..i] + [lines[i]];
    BodyAppend(lines[..i], [lines[i]], f, id);
    BodyOne(lines[i], g, id);
    ConcatAppend(Body(lines[..i], f, id), Emit(g, lines[i], id));
    ConcatAppend(lines[..i], [lines[i]]);
    ConcatOne(lines[i]);
  }

  lemma OutsideCopies(f: Flags, line: string, id: Identity)
    requires !f.inUser
    ensures Emit(f, line, id) == [line]
  {
    hide LineKind;
  }

  lemma UserSnoc(lines: seq<string>, i: nat)
    requires i < |lines|
    ensures HasUser(lines[..i + 1]) <==> HasUser(lines[..i]) || LineKind(lines[i]) == Header(true)
    ensures LineKind(lines[i]) != Header(true) ==> forall f :: After(f, lines[i]).inUser ==> f.inUser
  {
    hide LineKind;
    assert lines[..i + 1] == lines[..i] + [lines[i]];
  }

  // ----- The reader -----

  datatype Reader = Reader(inUser: bool, name: string, email: string)

  const FRESH := Reader(false, "", "")

  function ReadLine(r: Reader, line: string): Reader {
    match LineKind(line)
    case Header(user) => r.(inUser := user)
    case NameKey => if r.inUser then r.(name := Value(TrimSpace(line))) else r
    case EmailKey => if r.inUser then r.(email := Value(TrimSpace(line))) else r
    case Other => r
  }

  function ReadAll(lines: seq<string>, r: Reader): Reader {
    if lines == [] then r else ReadAll(lines[1..], ReadLine(r, lines[0]))
  }

  /** UTF-8 length. */
  function ByteLength(s: string): nat {
    if s == "" then 0
    else
      var n := s[0] as int;
      (if n < 0x80 then 1 else if n < 0x800 then 2 else if n < 0x10000 then 3 else 4) + ByteLength(s[1..])
  }

  /** bufio.Scanner gives up on a line, newline excluded, of 64 KiB or more. */
  predicate Fits(line: string) {
    ByteLength(if line != "" && line[|line| - 1] == '\n' then line[..|line| - 1] else line) < 65536
  }

  predicate AllFit(lines: seq<string>) { forall l :: l in lines ==> Fits(l) }

  /** readGitUser on the text of the file: stops with an error at the first line that is too long. */
  method ReadGitUser(text: string) returns (name: string, email: string, failed: bool)
    ensures failed == !AllFit(Lines(text))
    ensures !failed ==> name == ReadAll(Lines(text), FRESH).name && email == ReadAll(Lines(text), FRESH).email
  {
    var lines := SplitLinesKeepEOL(text);
    var r := FRESH;
    failed := false;
    hide Fits, LineKind;
    for i := 0 to |lines|
      invariant ReadAll(lines[i..], r) == ReadAll(lines, FRESH)
      invariant forall k :: 0 <= k < i ==> Fits(lines[k])
    {
      if !Fits(lines[i]) {
        assert lines[i] in lines;
        return r.name, r.email, true;
      }
      assert lines[i..][0] == lines[i] && lines[i..][1..] == lines[i + 1..];
      ghost var before := r;
      match LineKind(lines[i]) {
        case Header(user) => r := r.(inUser := user);
        case NameKey =>
          if r.inUser {
            r := r.(name := Value(TrimSpace(lines[i])));
          }
        case EmailKey =>
          if r.inUser {
            r := r.(email := Value(TrimSpace(lines[i])));
          }
        case Other =>
      }
      assert r == ReadLine(before, lines[i]);
    }
    name, email := r.name, r.email;
  }

  lemma {:induction false} ReadAppend(a: seq<string>, b: seq<string>, r: Reader)
    ensures ReadAll(a + b, r) == ReadAll(b, ReadAll(a, r))
  {
    hide ReadLine;
    if a == [] {
      assert a + b == b;
    } else {
      assert (a + b)[0] == a[0] && (a + b)[1..] == a[1..] + b;
      ReadAppend(a[1..], b, ReadLine(r, a[0]));
    }
  }
}
