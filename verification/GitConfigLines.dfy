/** Lines of a gitconfig file and what the reader and the updater take them for. Text is a sequence
    of Unicode code points. */
module GitConfigLines {
  import opened Sequences
  import opened Text

  // ----- Lines -----

  /** Lines with their newline kept; only the last may lack one. */
  function Lines(src: string): seq<string> {
    if src == "" then []
    else
      var i := IndexOf(src, '\n');
      if i < 0 then [src] else [src[..i + 1]] + Lines(src[i + 1..])
  }

  /** A line that ends in its only newline. */
  predicate IsLine(l: string) { l != "" && l[|l| - 1] == '\n' && '\n' !in l[..|l| - 1] }

  predicate AreLines(ls: seq<string>) { forall i :: 0 <= i < |ls| ==> IsLine(ls[i]) }

  predicate Terminated(src: string) { src == "" || src[|src| - 1] == '\n' }

  lemma FirstLine(l: string, rest: string)
    requires IsLine(l)
    ensures Lines(l + rest) == [l] + Lines(rest)
  {
    var src := l + rest;
    var i := |l| - 1;
    assert src[..i] == l[..i];
    IndexOfFirst(src, '\n', i);
    assert src[..i + 1] == l && src[i + 1..] == rest;
  }

  lemma OnlyLine(src: string)
    requires src != "" && '\n' !in src
    ensures Lines(src) == [src] && Lines(src + "\n") == [src + "\n"] && !Terminated(src)
  {
    assert (src + "\n")[..|src|] == src;
    FirstLine(src + "\n", "");
    assert src + "\n" + "" == src + "\n";
  }

  lemma SplitFirst(src: string) returns (first: string, rest: string)
    requires '\n' in src
    ensures src == first + rest && IsLine(first) && |rest| < |src| && Lines(src) == [first] + Lines(rest)
    ensures Terminated(rest) <==> Terminated(src)
  {
    hide Lines;
    var i := IndexOf(src, '\n');
    first, rest := src[..i + 1], src[i + 1..];
    assert src == first + rest && first[..i] == src[..i];
    FirstLine(first, rest);
  }

  lemma {:induction false} ConcatLines(src: string)
    ensures Concat(Lines(src)) == src
    ensures Terminated(src) ==> AreLines(Lines(src))
    decreases |src|
  {
    if src != "" {
      hide Lines, IsLine, Terminated, Concat;
      if '\n' !in src {
        OnlyLine(src);
        ConcatOne(src);
      } else {
        var first, rest := SplitFirst(src);
        ConcatLines(rest);
        ConcatCons(first, Lines(rest));
      }
    }
  }

  /** Splitting undoes joining. */
  lemma {:induction false} LinesOfConcat(ls: seq<string>, tail: string)
    requires AreLines(ls) && '\n' !in tail
    ensures Lines(Concat(ls) + tail) == ls + if tail == "" then [] else [tail]
  {
    if ls == [] {
      assert Concat(ls) + tail == tail;
    } else {
      assert Concat(ls) + tail == ls[0] + (Concat(ls[1..]) + tail);
      FirstLine(ls[0], Concat(ls[1..]) + tail);
      LinesOfConcat(ls[1..], tail);
    }
  }

  /** splitLinesKeepEOL. */
  method SplitLinesKeepEOL(src: string) returns (lines: seq<string>)
    ensures lines == Lines(src)
  {
    hide Lines, IndexOf;
    lines := [];
    var start := 0;
    assert src[0..] == src;
    for i := 0 to |src|
      invariant 0 <= start <= i && lines + Lines(src[start..]) == Lines(src)
      invariant '\n' !in src[start..i]
    {
      if src[i] == '\n' {
        LineEndsAt(src, start, i);
        assert lines + ([src[start..i + 1]] + Lines(src[i + 1..])) == (lines + [src[start..i + 1]]) + Lines(src[i + 1..]);
        lines := lines + [src[start..i + 1]];
        start := i + 1;
      }
    }
    LastLine(src, start);
    if start < |src| {
      lines := lines + [src[start..]];
    }
  }

  lemma LastLine(src: string, start: nat)
    requires start <= |src| && '\n' !in src[start..|src|]
    ensures Lines(src[start..]) == if start < |src| then [src[start..]] else []
  {
  }

  lemma LineEndsAt(src: string, start: nat, i: nat)
    requires start <= i < |src| && src[i] == '\n' && '\n' !in src[start..i]
    ensures Lines(src[start..]) == [src[start..i + 1]] + Lines(src[i + 1..])
  {
    var rest := src[start..];
    assert rest[..i - start] == src[start..i];
    IndexOfFirst(rest, '\n', i - start);
    assert rest[..i - start + 1] == src[start..i + 1] && rest[i - start + 1..] == src[i + 1..];
  }

  // ----- What a line is -----

  /** unicode.ToLower as far as it can produce an ASCII letter. */
  function Lower(c: char): char {
    if 'A' <= c <= 'Z' then c + ' '
    else if c == '\U{0130}' then 'i'
    else if c == '\U{212A}' then 'k'
    else c
  }

  function ToLower(s: string): string { seq(|s|, i requires 0 <= i < |s| => Lower(s[i])) }

  /** Simple case folding against a lower-case ASCII letter. */
  predicate FoldsTo(c: char, letter: char) {
    c == letter || ('A' <= c <= 'Z' && c + ' ' == letter) || (letter == 's' && c == '\U{017F}')
  }

  /** strings.EqualFold(s, "user"). */
  predicate IsUserName(s: string) {
    |s| == 4 && FoldsTo(s[0], 'u') && FoldsTo(s[1], 's') && FoldsTo(s[2], 'e') && FoldsTo(s[3], 'r')
  }

  predicate IsBracket(c: char) { c == '[' || c == ']' }

  predicate IsSectionHeader(t: string) { t != "" && t[0] == '[' && t[|t| - 1] == ']' }

  function SectionName(t: string): string { TrimSpace(TrimFunc(t, IsBracket)) }

  predicate IsComment(t: string) { t != "" && (t[0] == '#' || t[0] == ';') }

  /** The key left of the first '=', trimmed and in lower case; "" if there is no '='. */
  function Key(t: string): string {
    var i := IndexOf(t, '=');
    if i < 0 then "" else ToLower(TrimSpace(t[..i]))
  }

  predicate IsQuote(c: char) { c == '"' }

  /** The value right of the first '=', trimmed of space and then of quotes. */
  function Value(t: string): string {
    var i := IndexOf(t, '=');
    if i < 0 then "" else TrimFunc(TrimSpace(t[i + 1..]), IsQuote)
  }

  datatype Kind = Header(user: bool) | NameKey | EmailKey | Other

  function KindOf(t: string): Kind {
    if IsSectionHeader(t) then Header(IsUserName(SectionName(t)))
    else if IsComment(t) then Other
    else if Key(t) == "name" then NameKey
    else if Key(t) == "email" then EmailKey
    else Other
  }

  function LineKind(line: string): Kind { KindOf(TrimSpace(line)) }

  // ----- The two lines the updater writes -----

  function KeyLine(key: string, value: string): string { "\t" + key + " = " + value + "\n" }

  /** What the reader makes of a written value. */
  function Clean(value: string): string { TrimFunc(TrimSpace(value), IsQuote) }

  lemma {:induction false} TrimRightKeeps(a: string, x: string, cut: char -> bool)
    requires a != "" && !cut(a[|a| - 1])
    ensures TrimRightFunc(a + x, cut) == a + TrimRightFunc(x, cut)
    decreases |x|
  {
    if x == "" {
      assert a + x == a;
    } else if cut(x[|x| - 1]) {
      assert (a + x)[..|a| + |x| - 1] == a + x[..|x| - 1];
      TrimRightKeeps(a, x[..|x| - 1], cut);
    }
  }

  lemma TrimSplits(s: string, cut: char -> bool) returns (pre: string, post: string)
    ensures s == pre + TrimFunc(s, cut) + post
    ensures (forall i :: 0 <= i < |pre| ==> cut(pre[i])) && (forall i :: 0 <= i < |post| ==> cut(post[i]))
  {
    hide TrimFunc;
    var l;
    pre, l := LeftSplits(s, cut);
    post := RightSplits(l, cut);
    TrimIs(s, cut);
    Associate(pre, TrimFunc(s, cut), post);
  }

  lemma TrimIs(s: string, cut: char -> bool)
    ensures TrimFunc(s, cut) == TrimRightFunc(TrimLeftFunc(s, cut), cut)
  {
  }

  lemma LeftSplits(s: string, cut: char -> bool) returns (pre: string, l: string)
    ensures l == TrimLeftFunc(s, cut) && s == pre + l && forall i :: 0 <= i < |pre| ==> cut(pre[i])
  {
    hide TrimLeftFunc;
    l := TrimLeftFunc(s, cut);
    pre := s[..|s| - |l|];
  }

  lemma RightSplits(l: string, cut: char -> bool) returns (post: string)
    ensures l == TrimRightFunc(l, cut) + post && forall i :: 0 <= i < |post| ==> cut(post[i])
  {
    hide TrimRightFunc;
    post := l[|TrimRightFunc(l, cut)|..];
  }

  /** Cut characters around any text do not matter. */
  lemma TrimIgnores(pre: string, s: string, post: string, cut: char -> bool)
    requires (forall i :: 0 <= i < |pre| ==> cut(pre[i])) && (forall i :: 0 <= i < |post| ==> cut(post[i]))
    ensures TrimFunc(pre + s + post, cut) == TrimFunc(s, cut)
  {
    var a, b := TrimSplits(s, cut);
    hide TrimFunc;
    var c := TrimFunc(s, cut);
    assert pre + s + post == (pre + a) + c + (b + post);
    TrimTrims(s, cut);
    TrimAround(pre + a, c, b + post, cut);
  }

  lemma TrimAfterTrimRight(s: string, cut: char -> bool)
    ensures TrimFunc(TrimRightFunc(s, cut), cut) == TrimFunc(s, cut)
  {
    hide TrimFunc, TrimRightFunc;
    var r := TrimRightFunc(s, cut);
    assert s == "" + r + s[|r|..];
    TrimIgnores("", r, s[|r|..], cut);
  }

  predicate IsKeyName(key: string) {
    && key != "" && IsTrimmed(key, IsSpace) && ToLower(key) == key
    && '=' !in key && key[0] != '[' && key[0] != '#' && key[0] != ';'
  }

  /** A written line is recognized, and read back as the cleaned value. */
  lemma KeyLineReads(key: string, value: string)
    requires IsKeyName(key)
    ensures var t := TrimSpace(KeyLine(key, value));
            !IsSectionHeader(t) && !IsComment(t) && Key(t) == key && Value(t) == Clean(value)
  {
    hide TrimFunc, TrimRightFunc, IsSpace, IsKeyName, Key, IsSectionHeader, IsComment;
    var w := TrimRightFunc(" " + value + "\n", IsSpace);
    KeyLineTrimmed(key, value);
    KeyAndValue(key, w);
    TrimAfterTrimRight(" " + value + "\n", IsSpace);
    TrimIgnores(" ", value, "\n", IsSpace);
  }

  lemma KeyAndValue(key: string, w: string)
    requires IsKeyName(key)
    ensures var t := key + " =" + w;
            && !IsSectionHeader(t) && !IsComment(t) && Key(t) == key
            && Value(t) == TrimFunc(TrimSpace(w), IsQuote)
  {
    hide ToLower, TrimFunc;
    var t := key + " =" + w;
    assert t[0] == key[0];
    assert t[..|key| + 1] == key + " ";
    IndexOfFirst(t, '=', |key| + 1);
    assert TrimSpace(key + " ") == key by {
      assert key + " " == "" + key + " ";
      TrimAround("", key, " ", IsSpace);
    }
    assert t[|key| + 2..] == w;
  }

  lemma KeyLineParts(key: string, value: string)
    ensures KeyLine(key, value) == "\t" + (key + " =") + (" " + value + "\n")
  {
    assert " = " == " =" + " ";
    Associate("\t" + key, " =", " ");
    Associate("\t", key, " =");
    Associate("\t" + key + " =", " ", value);
    Associate("\t" + key + " =", " " + value, "\n");
  }

  lemma TrimTail(pre: string, head: string, tail: string)
    requires (forall i :: 0 <= i < |pre| ==> IsSpace(pre[i])) && head != "" && IsTrimmed(head, IsSpace)
    ensures TrimSpace(pre + head + tail) == head + TrimRightFunc(tail, IsSpace)
  {
    hide TrimLeftFunc, TrimRightFunc, IsSpace;
    assert (head + tail)[0] == head[0];
    TrimLeftSkips(pre, head + tail, IsSpace);
    Associate(pre, head, tail);
    TrimRightKeeps(head, tail, IsSpace);
  }

  lemma KeyLineTrimmed(key: string, value: string)
    requires IsKeyName(key)
    ensures TrimSpace(KeyLine(key, value)) == key + " =" + TrimRightFunc(" " + value + "\n", IsSpace)
    ensures IsSpace(' ') && IsSpace('\n')
  {
    hide TrimLeftFunc, TrimRightFunc, TrimSpace, ToLower, KeyLine;
    KeyLineParts(key, value);
    TrimTail("\t", key + " =", " " + value + "\n");
  }

  lemma KeyLineIsLine(key: string, value: string)
    requires '\n' !in key && '\n' !in value
    ensures IsLine(KeyLine(key, value))
  {
    var l := KeyLine(key, value);
    assert l[..|l| - 1] == "\t" + key + " = " + value;
  }
}
