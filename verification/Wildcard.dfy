/** Wildcard patterns of tool rules: the two-pointer matcher with one backtrack point decides the
    plain recursive meaning of a pattern. */
module Wildcard {

  datatype Token = Star | Lit(c: char, escaped: bool)

  /** Escapes resolved: \* and \\ (and \ before any character) stand for that character; a final
      lone backslash for itself. */
  function Tokenize(pattern: string): seq<Token> {
    if pattern == "" then []
    else if pattern[0] == '*' then [Star] + Tokenize(pattern[1..])
    else if pattern[0] == '\\' && |pattern| > 1 then [Lit(pattern[1], true)] + Tokenize(pattern[2..])
    else [Lit(pattern[0], false)] + Tokenize(pattern[1..])
  }

  /** The meaning of a pattern: a star stands for any stretch of text. */
  ghost predicate Glob(toks: seq<Token>, text: string)
    decreases toks, text
  {
    if toks == [] then text == ""
    else match toks[0]
      case Star => Glob(toks[1..], text) || (text != "" && Glob(toks, text[1..]))
      case Lit(c, _) => text != "" && text[0] == c && Glob(toks[1..], text[1..])
  }

  // ----- Facts about the meaning -----

  /** A pattern that starts with a star and matches a suffix matches every longer suffix. */
  lemma {:induction false} StarAbsorbs(toks: seq<Token>, text: string, i: nat)
    requires toks != [] && toks[0].Star? && i <= |text| && Glob(toks, text[i..])
    ensures Glob(toks, text)
    decreases i
  {
    if i > 0 {
      assert text[i - 1..][1..] == text[i..];
      StarAbsorbs(toks, text, i - 1);
    } else {
      assert text[0..] == text;
    }
  }

  /** Behind a star, the rest matches somewhere. */
  lemma {:induction false} StarMatchesSomewhere(toks: seq<Token>, text: string) returns (k: nat)
    requires toks != [] && toks[0].Star? && Glob(toks, text)
    ensures k <= |text| && Glob(toks[1..], text[k..])
    decreases |text|
  {
    if Glob(toks[1..], text) {
      k := 0;
      assert text[0..] == text;
    } else {
      var j := StarMatchesSomewhere(toks, text[1..]);
      k := j + 1;
      assert text[1..][j..] == text[k..];
    }
  }

  predicate Literals(toks: seq<Token>) { forall i :: 0 <= i < |toks| ==> toks[i].Lit? }

  /** Leading literals use up one character each. */
  lemma {:induction false} LiteralsConsume(toks: seq<Token>, n: nat, text: string)
    requires n <= |toks| && Literals(toks[..n]) && Glob(toks, text)
    ensures n <= |text| && Glob(toks[n..], text[n..])
    decreases n
  {
    if n > 0 {
      assert toks[0] == toks[..n][0];
      assert toks[1..][..n - 1] == toks[..n][1..];
      LiteralsConsume(toks[1..], n - 1, text[1..]);
      assert toks[1..][n - 1..] == toks[n..] && text[1..][n - 1..] == text[n..];
    }
  }

  lemma {:induction false} StarsMatchEmpty(toks: seq<Token>)
    ensures Glob(toks, "") <==> forall i :: 0 <= i < |toks| ==> toks[i].Star?
  {
    if toks != [] {
      StarsMatchEmpty(toks[1..]);
      assert toks == [toks[0]] + toks[1..];
    }
  }

  // ----- The matcher -----

  /** Some position after `from` at which the tokens after the star match the rest. */
  ghost predicate Later(toks: seq<Token>, sp: nat, text: string, from: int) {
    exists k :: from < k <= |text| && 0 <= k && sp < |toks| && Glob(toks[sp + 1..], text[k..])
  }

  /** patternChar. */
  function PatternChar(pattern: string, px: nat): (char, nat)
    requires px < |pattern|
  {
    if pattern[px] == '\\' && px + 1 < |pattern| then (pattern[px + 1], 2) else (pattern[px], 1)
  }

  /** Position px of the pattern is the beginning of token p. */
  ghost predicate At(pattern: string, px: nat, toks: seq<Token>, p: nat) {
    px <= |pattern| && p <= |toks| && toks[p..] == Tokenize(pattern[px..])
  }

  /** One step of reading the pattern. */
  lemma TokenAt(pattern: string, px: nat, toks: seq<Token>, p: nat)
    requires At(pattern, px, toks, p)
    ensures px == |pattern| <==> p == |toks|
    ensures px < |pattern| && pattern[px] == '*' ==>
              p < |toks| && toks[p] == Star && At(pattern, px + 1, toks, p + 1)
    ensures px < |pattern| && pattern[px] != '*' ==>
              var (c, n) := PatternChar(pattern, px);
              p < |toks| && toks[p].Lit? && toks[p].c == c && At(pattern, px + n, toks, p + 1)
  {
    var rest := pattern[px..];
    if rest != "" {
      assert rest[1..] == pattern[px + 1..];
      if |rest| > 1 {
        assert rest[2..] == pattern[px + 2..];
      }
      assert toks[p..][0] == toks[p] && toks[p..][1..] == toks[p + 1..];
    }
  }

  /** Where the matcher stands: p tokens read, t characters used; since the last star at token sp,
      whose text currently ends at st, only literals were read, one character each. The pattern
      matches iff the current attempt does or the star can be stretched further. */
  ghost predicate Standing(toks: seq<Token>, text: string, p: nat, t: nat, starred: bool, sp: nat, st: nat) {
    && p <= |toks| && t <= |text|
    && (starred ==> sp < p && toks[sp].Star? && st <= t && t - st == p - sp - 1 && Literals(toks[sp + 1..p]))
    && (Glob(toks, text) <==> Glob(toks[p..], text[t..]) || (starred && Later(toks, sp, text, st)))
  }

  /** Reading another star: earlier alternatives are no longer needed, because a later match of the
      stretch between the stars would end later, and this star absorbs the difference. */
  lemma StandingStar(toks: seq<Token>, text: string, p: nat, t: nat, starred: bool, sp: nat, st: nat)
    requires Standing(toks, text, p, t, starred, sp, st) && p < |toks| && toks[p].Star?
    ensures Standing(toks, text, p + 1, t, true, p, t)
  {
    var here := Glob(toks[p..], text[t..]);
    assert toks[p..][1..] == toks[p + 1..];
    if starred && Later(toks, sp, text, st) {
      LaterImpliesHere(toks, text, p, t, sp, st);
    }
    if here {
      var j := StarMatchesSomewhere(toks[p..], text[t..]);
      assert text[t..][j..] == text[t + j..];
      assert j > 0 ==> Later(toks, p, text, t);
    }
    if Glob(toks[p + 1..], text[t..]) {
      assert here;
    }
    if Later(toks, p, text, t) {
      var k :| t < k <= |text| && Glob(toks[p + 1..], text[k..]);
      assert Glob(toks[p..], text[k..]);
      assert text[t..][k - t..] == text[k..];
      StarAbsorbs(toks[p..], text[t..], k - t);
    }
  }

  lemma LaterImpliesHere(toks: seq<Token>, text: string, p: nat, t: nat, sp: nat, st: nat)
    requires sp < p < |toks| && toks[p].Star? && st <= t <= |text| && t - st == p - sp - 1
    requires Literals(toks[sp + 1..p]) && Later(toks, sp, text, st)
    ensures Glob(toks[p..], text[t..])
  {
    var k :| st < k <= |text| && Glob(toks[sp + 1..], text[k..]);
    var n := p - sp - 1;
    assert toks[sp + 1..][..n] == toks[sp + 1..p];
    LiteralsConsume(toks[sp + 1..], n, text[k..]);
    assert toks[sp + 1..][n..] == toks[p..] && text[k..][n..] == text[k + n..];
    assert text[t..][k + n - t..] == text[k + n..];
    StarAbsorbs(toks[p..], text[t..], k + n - t);
  }

  /** A literal that fits. */
  lemma StandingLiteral(toks: seq<Token>, text: string, p: nat, t: nat, starred: bool, sp: nat, st: nat)
    requires Standing(toks, text, p, t, starred, sp, st) && p < |toks| && t < |text|
    requires toks[p].Lit? && toks[p].c == text[t]
    ensures Standing(toks, text, p + 1, t + 1, starred, sp, st)
  {
    assert toks[p..][1..] == toks[p + 1..] && text[t..][1..] == text[t + 1..];
    if starred {
      assert toks[sp + 1..p + 1] == toks[sp + 1..p] + [toks[p]];
    }
  }

  /** A failed attempt: stretch the star by one character. */
  lemma StandingBacktrack(toks: seq<Token>, text: string, p: nat, t: nat, starred: bool, sp: nat, st: nat)
    requires Standing(toks, text, p, t, starred, sp, st) && t < |text|
    requires p == |toks| || (toks[p].Lit? && toks[p].c != text[t])
    ensures !starred ==> !Glob(toks, text)
    ensures starred ==> Standing(toks, text, sp + 1, st + 1, true, sp, st + 1)
  {
    assert !Glob(toks[p..], text[t..]) by {
      if p < |toks| {
        assert toks[p..][0] == toks[p] && text[t..][0] == text[t];
      } else {
        assert toks[p..] == [] && |text[t..]| > 0;
      }
    }
    if starred {
      assert toks[sp + 1..sp + 1] == [];
      if Later(toks, sp, text, st) {
        var k :| st < k <= |text| && Glob(toks[sp + 1..], text[k..]);
        assert k == st + 1 || Later(toks, sp, text, st + 1);
      }
      if Later(toks, sp, text, st + 1) {
        var k :| st + 1 < k <= |text| && Glob(toks[sp + 1..], text[k..]);
        assert Later(toks, sp, text, st);
      }
      if Glob(toks[sp + 1..], text[st + 1..]) {
        assert Later(toks, sp, text, st);
      }
    }
  }

  /** All text used: the star cannot be stretched any further, so the rest must be stars. */
  lemma StandingEnd(toks: seq<Token>, text: string, p: nat, starred: bool, sp: nat, st: nat)
    requires Standing(toks, text, p, |text|, starred, sp, st)
    ensures Glob(toks, text) <==> forall i :: p <= i < |toks| ==> toks[i].Star?
  {
    assert text[|text|..] == "";
    StarsMatchEmpty(toks[p..]);
    assert (forall i :: 0 <= i < |toks[p..]| ==> toks[p..][i].Star?) <==>
           (forall i :: p <= i < |toks| ==> toks[i].Star?) by {
      assert forall i :: p <= i < |toks| ==> toks[i] == toks[p..][i - p];
    }
    if starred && Later(toks, sp, text, st) {
      var k :| st < k <= |text| && Glob(toks[sp + 1..], text[k..]);
      assert toks[sp + 1..][..p - sp - 1] == toks[sp + 1..p];
      LiteralsConsume(toks[sp + 1..], p - sp - 1, text[k..]);
      assert false;
    }
  }

  /** The four variables of matchCore's loop; -1 for no star yet. */
  datatype Cursor = Cursor(px: int, tx: int, starPx: int, starTx: int)

  /** The cursor is at token p, and its star, if any, at token sp. */
  ghost predicate Follows(pattern: string, text: string, c: Cursor, toks: seq<Token>, p: nat, sp: nat) {
    && 0 <= c.px <= |pattern| && 0 <= c.tx <= |text| && At(pattern, c.px, toks, p)
    && (c.starPx == -1 ==> c.starTx == -1 && Standing(toks, text, p, c.tx, false, sp, 0))
    && (c.starPx != -1 ==>
          && 0 <= c.starPx < |pattern| && 0 <= c.starTx <= c.tx
          && At(pattern, c.starPx + 1, toks, sp + 1) && Standing(toks, text, p, c.tx, true, sp, c.starTx))
  }

  /** One iteration of the loop. */
  method Advance(pattern: string, text: string, c: Cursor, ghost toks: seq<Token>, ghost p: nat, ghost sp: nat)
    returns (failed: bool, d: Cursor, ghost p': nat, ghost sp': nat)
    requires Follows(pattern, text, c, toks, p, sp) && c.tx < |text|
    ensures failed ==> !Glob(toks, text)
    ensures !failed ==> Follows(pattern, text, d, toks, p', sp')
    ensures !failed ==> d.starTx > c.starTx || (d.starTx == c.starTx && d.px > c.px)
  {
    hide Glob, Tokenize, Standing, At;
    failed, d, p', sp' := false, c, p, sp;
    ghost var starred, st: nat := c.starPx != -1, if c.starPx != -1 then c.starTx else 0;
    TokenAt(pattern, c.px, toks, p);
    if c.px < |pattern| && pattern[c.px] == '*' {
      StandingStar(toks, text, p, c.tx, starred, sp, st);
      d := Cursor(c.px + 1, c.tx, c.px, c.tx);
      p', sp' := p + 1, p;
      return;
    }
    if c.px < |pattern| {
      var (pc, advance) := PatternChar(pattern, c.px);
      if pc == text[c.tx] {
        StandingLiteral(toks, text, p, c.tx, starred, sp, st);
        AtInRange(pattern, c.px + advance, toks, p + 1);
        d := c.(px := c.px + advance, tx := c.tx + 1);
        p' := p + 1;
        return;
      }
    }
    StandingBacktrack(toks, text, p, c.tx, starred, sp, st);
    if c.starPx != -1 {
      d := Cursor(c.starPx + 1, c.starTx + 1, c.starPx, c.starTx + 1);
      p' := sp + 1;
      return;
    }
    failed := true;
  }

  method MatchCore(pattern: string, text: string) returns (yes: bool)
    ensures yes <==> Glob(Tokenize(pattern), text)
  {
    var c := Cursor(0, 0, -1, -1);
    ghost var toks := Tokenize(pattern);
    ghost var p: nat, sp: nat := 0, 0;
    StandingStart(pattern, text);
    hide Glob, Tokenize, Standing, At;
    while c.tx < |text|
      invariant Follows(pattern, text, c, toks, p, sp)
      decreases |text| - c.starTx, |pattern| - c.px
    {
      var failed, d;
      failed, d, p, sp := Advance(pattern, text, c, toks, p, sp);
      if failed {
        return false;
      }
      c := d;
    }
    StandingEnd(toks, text, p, c.starPx != -1, sp, if c.starPx != -1 then c.starTx else 0);
    yes := OnlyStarsLeft(pattern, c.px, toks, p);
  }

  /** The final loop: the remaining pattern must be all wildcards. */
  method OnlyStarsLeft(pattern: string, start: nat, ghost toks: seq<Token>, ghost first: nat) returns (yes: bool)
    requires start <= |pattern| && At(pattern, start, toks, first)
    ensures yes <==> forall i :: first <= i < |toks| ==> toks[i].Star?
  {
    hide At;
    var px := start;
    ghost var p: nat := first;
    while px < |pattern|
      invariant px <= |pattern| && first <= p && At(pattern, px, toks, p)
      invariant forall i :: first <= i < p && i < |toks| ==> toks[i].Star?
    {
      TokenAt(pattern, px, toks, p);
      if pattern[px] != '*' {
        return false;
      }
      px, p := px + 1, p + 1;
    }
    TokenAt(pattern, px, toks, p);
    return true;
  }

  lemma AtInRange(pattern: string, px: nat, toks: seq<Token>, p: nat)
    requires At(pattern, px, toks, p)
    ensures px <= |pattern| && p <= |toks|
  {
  }

  lemma StandingStart(pattern: string, text: string)
    ensures At(pattern, 0, Tokenize(pattern), 0)
    ensures Standing(Tokenize(pattern), text, 0, 0, false, 0, 0)
  {
    assert pattern[0..] == pattern && text[0..] == text;
  }

  // ----- The optional trailing " *" -----

  /** A sole star at the end, after an unescaped space. */
  predicate Optional(toks: seq<Token>) {
    && |toks| >= 2 && toks[|toks| - 1] == Star && toks[|toks| - 2] == Lit(' ', false)
    && Star !in toks[..|toks| - 1]
  }

  /** What a pattern matches: its meaning, or, with an optional trailing " *", that of the pattern
      without it. */
  ghost predicate Matches(pattern: string, text: string) {
    var toks := Tokenize(pattern);
    Glob(toks, text) || (Optional(toks) && Glob(toks[..|toks| - 2], text))
  }

  function TrailingBackslashes(s: string): nat {
    if s == "" || s[|s| - 1] != '\\' then 0 else 1 + TrailingBackslashes(s[..|s| - 1])
  }

  lemma {:induction false} TrailingAfterFront(s: string, k: nat)
    requires k <= |s| && ((k == 1 && s[0] != '\\') || (k == 2 && s[0] == '\\' && |s| > 2))
    ensures TrailingBackslashes(s) % 2 == TrailingBackslashes(s[k..]) % 2
    decreases |s|
  {
    var n := |s| - 1;
    if s[n] == '\\' && n > k {
      assert s[..n][k..] == s[k..][..n - k];
      TrailingAfterFront(s[..n], k);
    } else if s[n] == '\\' && n == k {
      assert s[k..][..0] == "";
      if k == 2 {
        assert s[..2] == [s[0], s[1]];
        assert s[..2][..1] == [s[0]] && [s[0]][..0] == "";
      } else {
        assert s[..1] == [s[0]];
      }
    } else if n < k {
      assert s[k..] == "";
    }
  }

  /** Tokens of q followed by " *": the space is escaped exactly if q ends in an odd number of
      backslashes. */
  lemma {:induction false} TokenizeSuffix(q: string)
    ensures TrailingBackslashes(q) % 2 == 0 ==> Tokenize(q + " *") == Tokenize(q) + [Lit(' ', false), Star]
    ensures TrailingBackslashes(q) % 2 == 1 ==>
              var toks := Tokenize(q + " *");
              |toks| >= 2 && toks[|toks| - 2] == Lit(' ', true)
    decreases |q|
  {
    ShortTails();
    hide TrailingBackslashes, Tokenize;
    if q == "" {
      SpaceStar("");
    } else if q == "\\" {
      SpaceStar("\\");
    } else if q[0] == '\\' {
      var rest := q[2..];
      assert q == ['\\', q[1]] + rest && q + " *" == ['\\', q[1]] + (rest + " *");
      TokenizeEscape(q[1], rest);
      TokenizeEscape(q[1], rest + " *");
      TokenizeSuffix(rest);
      if |q| > 2 {
        TrailingAfterFront(q, 2);
      } else {
        assert q == ['\\', q[1]] && rest == "";
      }
    } else {
      var rest := q[1..];
      assert q == [q[0]] + rest && q + " *" == [q[0]] + (rest + " *");
      TokenizePlain(q[0], rest);
      TokenizePlain(q[0], rest + " *");
      TokenizeSuffix(rest);
      TrailingAfterFront(q, 1);
    }
  }

  lemma TokenizeEscape(a: char, rest: string)
    ensures Tokenize(['\\', a] + rest) == [Lit(a, true)] + Tokenize(rest)
  {
    assert (['\\', a] + rest)[2..] == rest;
  }

  lemma TokenizePlain(a: char, rest: string)
    requires a != '\\'
    ensures Tokenize([a] + rest) == [if a == '*' then Star else Lit(a, false)] + Tokenize(rest)
  {
    assert ([a] + rest)[1..] == rest;
  }

  lemma SpaceStar(q: string)
    requires q == "" || q == "\\"
    ensures Tokenize(q + " *") == [Lit(' ', q != ""), Star] && Tokenize("") == []
  {
    TokenizePlain('*', "");
    assert ['*'] + "" == "*";
    if q == "" {
      TokenizePlain(' ', "*");
      assert [' '] + "*" == q + " *";
    } else {
      TokenizeEscape(' ', "*");
      assert ['\\', ' '] + "*" == q + " *";
    }
  }

  lemma ShortTails()
    ensures TrailingBackslashes("") == 0 && TrailingBackslashes("\\") == 1
    ensures forall c: char :: TrailingBackslashes(['\\', c]) % 2 == 0
  {
    assert "\\"[..0] == "";
    forall c: char ensures TrailingBackslashes(['\\', c]) % 2 == 0 {
      assert ['\\', c][..1] == "\\";
    }
  }

  /** Tokens that end in an unescaped space and a star come from a pattern that ends in " *". */
  lemma {:induction false} SuffixFromTokens(pattern: string)
    requires var toks := Tokenize(pattern);
             |toks| >= 2 && toks[|toks| - 1] == Star && toks[|toks| - 2] == Lit(' ', false)
    ensures |pattern| >= 2 && pattern[|pattern| - 2..] == " *"
    decreases |pattern|
  {
    var toks := Tokenize(pattern);
    var rest := if pattern[0] == '\\' && |pattern| > 1 then pattern[2..] else pattern[1..];
    assert toks[1..] == Tokenize(rest);
    if |toks| > 2 {
      assert toks[1..][|toks| - 2] == toks[|toks| - 1] && toks[1..][|toks| - 3] == toks[|toks| - 2];
      SuffixFromTokens(rest);
      assert rest[|rest| - 2..] == pattern[|pattern| - 2..];
    } else {
      assert toks[0] == Lit(' ', false) && Tokenize(rest) == [Star];
      OnlyStar(rest);
      assert pattern == " " + rest;
    }
  }

  lemma NonEmptyTokens(s: string)
    ensures s != "" ==> Tokenize(s) != []
  {
  }

  lemma OnlyStar(s: string)
    requires Tokenize(s) == [Star]
    ensures s == "*"
  {
    assert s != "";
    assert s == [s[0]] + s[1..];
    assert Tokenize(s)[0] == Star;
    assert s[0] == '*';
    assert Tokenize(s)[1..] == Tokenize(s[1..]);
    NonEmptyTokens(s[1..]);
  }

  method ContainsUnescapedStar(s: string) returns (yes: bool)
    ensures yes <==> Star in Tokenize(s)
  {
    var i := 0;
    assert s[0..] == s;
    while i < |s|
      invariant 0 <= i && (Star in Tokenize(s) <==> i < |s| && Star in Tokenize(s[i..]))
      decreases |s| - i
    {
      StarFrom(s, i);
      if s[i] == '\\' {
        i := i + 2;
        continue;
      }
      if s[i] == '*' {
        return true;
      }
      i := i + 1;
    }
    return false;
  }

  lemma StarFrom(s: string, i: nat)
    requires i < |s|
    ensures s[i] == '*' ==> Star in Tokenize(s[i..])
    ensures s[i] == '\\' ==> (Star in Tokenize(s[i..]) <==> i + 2 < |s| && Star in Tokenize(s[i + 2..]))
    ensures s[i] != '*' && s[i] != '\\' ==>
              (Star in Tokenize(s[i..]) <==> i + 1 < |s| && Star in Tokenize(s[i + 1..]))
  {
    var rest := s[i..];
    assert rest[1..] == s[i + 1..];
    if |rest| > 1 {
      assert rest[2..] == s[i + 2..];
    }
  }

  method TrailingSpaceStarOptional(pattern: string) returns (yes: bool)
    ensures yes <==> Optional(Tokenize(pattern))
    ensures yes ==> |pattern| >= 2
                    && Tokenize(pattern[..|pattern| - 2]) == Tokenize(pattern)[..|Tokenize(pattern)| - 2]
  {
    ghost var toks := Tokenize(pattern);
    if |pattern| < 2 || pattern[|pattern| - 2..] != " *" {
      if Optional(toks) {
        SuffixFromTokens(pattern);
      }
      return false;
    }
    var q := pattern[..|pattern| - 2];
    assert pattern == q + " *";
    TokenizeSuffix(q);
    var n := CountTrailingBackslashes(q);
    if n % 2 != 0 {
      return false;
    }
    var other := ContainsUnescapedStar(q);
    assert toks[..|toks| - 2] == Tokenize(q);
    assert toks[..|toks| - 1] == Tokenize(q) + [Lit(' ', false)];
    return !other;
  }

  method CountTrailingBackslashes(s: string) returns (n: nat)
    ensures n == TrailingBackslashes(s)
  {
    n := 0;
    var i := |s| - 1;
    assert s[..|s|] == s;
    while i >= 0 && s[i] == '\\'
      invariant -1 <= i < |s| && n + TrailingBackslashes(s[..i + 1]) == TrailingBackslashes(s)
    {
      assert s[..i + 1][..i] == s[..i];
      n := n + 1;
      i := i - 1;
    }
  }

  method MatchWildcard(pattern: string, text: string) returns (yes: bool)
    ensures yes <==> Matches(pattern, text)
  {
    hide Glob, Tokenize;
    yes := MatchCore(pattern, text);
    if yes {
      return;
    }
    var optional := TrailingSpaceStarOptional(pattern);
    if optional {
      yes := MatchCore(pattern[..|pattern| - 2], text);
    }
  }
}
