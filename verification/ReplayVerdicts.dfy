/** The replay filter in bytes: which control sequences and control strings it drops and which it
    keeps, whatever follows them. */
module ReplayVerdicts {
  import opened Common
  import opened Sequences
  import opened ReplayFilter

  /** The first token is dropped or kept, and the rest is filtered by itself. */
  lemma FirstVerdict(t: Token, after: seq<byte>)
    requires WellFormed(t) && Fits(t, after)
    ensures Filtered(Bytes(t) + after) == (if IsQuery(t) then [] else Bytes(t)) + Filtered(after)
  {
    hide WellFormed, Fits, IsQuery, Bytes, Filtered, First;
    FirstComplete(t, after);
    TokenStep(Bytes(t) + after);
    assert (Bytes(t) + after)[|Bytes(t)|..] == after;
    assert [] + Filtered(after) == Filtered(after);
  }

  function Ascii(s: string): seq<byte>
    requires forall k :: 0 <= k < |s| ==> s[k] as int < 256
  {
    seq(|s|, k requires 0 <= k < |s| => s[k] as int as byte)
  }

  // ----- Control sequences -----

  /** ESC [ or the single byte 0x9b. */
  predicate IsCsiIntroducer(intro: seq<byte>) { intro == [0x1b, 0x5b] || intro == [0x9b] }

  predicate Between(s: seq<byte>, lo: byte, hi: byte) { forall k :: 0 <= k < |s| ==> lo <= s[k] <= hi }

  /** Device attributes (c); status reports (n) for parameter 5 or 6 or a private one; mode requests
      ($ p); window reports (t) 11 and 13 to 21. */
  predicate DropsCsi(params: seq<byte>, inter: seq<byte>, final: byte) {
    || final == 'c' as int as byte
    || (final == 'n' as int as byte && (params == Ascii("5") || params == Ascii("6") || Ascii("?") <= params))
    || (final == 'p' as int as byte && inter == Ascii("$"))
    || (final == 't' as int as byte &&
        (params == Ascii("11") || params == Ascii("13") || params == Ascii("14") || params == Ascii("15")
         || params == Ascii("16") || params == Ascii("17") || params == Ascii("18") || params == Ascii("19")
         || params == Ascii("20") || params == Ascii("21")))
  }

  lemma CsiQueryExactly(params: seq<byte>, inter: seq<byte>, final: byte)
    ensures IsCsiQuery(params, inter, final) <==> DropsCsi(params, inter, final)
  {
  }

  /** Every complete control sequence, in front of anything. */
  lemma CsiVerdict(intro: seq<byte>, params: seq<byte>, inter: seq<byte>, final: byte, after: seq<byte>)
    requires IsCsiIntroducer(intro) && Between(params, 0x30, 0x3f) && Between(inter, 0x20, 0x2f) && 0x40 <= final <= 0x7e
    ensures var s := intro + params + inter + [final];
            Filtered(s + after) == (if DropsCsi(params, inter, final) then [] else s) + Filtered(after)
  {
    var t := Escape(intro == [0x9b], Csi(params, inter, final));
    assert Bytes(t) == intro + params + inter + [final];
    CsiQueryExactly(params, inter, final);
    hide IsCsiQuery, DropsCsi, Filtered;
    FirstVerdict(t, after);
  }

  /** A control sequence broken off by a foreign byte is kept, that byte included. */
  lemma BadCsiVerdict(intro: seq<byte>, params: seq<byte>, inter: seq<byte>, bad: byte, after: seq<byte>)
    requires IsCsiIntroducer(intro) && Between(params, 0x30, 0x3f) && Between(inter, 0x20, 0x2f)
    requires bad < 0x20 || bad > 0x7e || (0x30 <= bad <= 0x3f && inter != [])
    ensures var s := intro + params + inter + [bad];
            Filtered(s + after) == s + Filtered(after)
  {
    var t := Escape(intro == [0x9b], BadCsi(params, inter, bad));
    assert Bytes(t) == intro + params + inter + [bad];
    hide Filtered;
    FirstVerdict(t, after);
  }

  /** ... and so is one that the end of the input cuts off. */
  lemma CutCsiVerdict(intro: seq<byte>, params: seq<byte>, inter: seq<byte>)
    requires IsCsiIntroducer(intro) && Between(params, 0x30, 0x3f) && Between(inter, 0x20, 0x2f)
    ensures Filtered(intro + params + inter) == intro + params + inter
  {
    var t := Escape(intro == [0x9b], CutCsi(params, inter));
    assert Bytes(t) == intro + params + inter;
    NoTokens();
    hide Filtered;
    FirstVerdict(t, []);
    assert Bytes(t) + [] == Bytes(t);
  }

  // ----- Control strings -----

  predicate IsOscIntroducer(intro: seq<byte>) { intro == [0x1b, 0x5d] || intro == [0x9d] }

  predicate IsDcsIntroducer(intro: seq<byte>) { intro == [0x1b, 0x50] || intro == [0x90] }

  predicate IsStringEnd(end: seq<byte>) { end == [0x1b, 0x5c] || end == [0x9c] }

  /** No terminator inside; BEL is one for operating system commands only. */
  predicate IsPayload(s: seq<byte>, bel: bool) {
    forall k :: 0 <= k < |s| ==>
      s[k] != 0x9c && (bel ==> s[k] != 0x07) && (s[k] == 0x1b && k + 1 < |s| ==> s[k + 1] != 0x5c)
  }

  /** A lone question mark between a semicolon and another or the end. */
  ghost predicate AsksSomething(payload: seq<byte>) {
    exists a, b :: IsQuestion(payload, a, b)
  }

  predicate IsQuestion(payload: seq<byte>, a: seq<byte>, b: seq<byte>) {
    payload == a + Ascii(";?") + b && (b == [] || b[0] == ';' as int as byte)
  }

  lemma OscQueryExactly(payload: seq<byte>)
    ensures IsOscQuery(payload) <==> AsksSomething(payload)
  {
    hide AsksAt, IsQuestion;
    if i :| 1 <= i < |payload| && AsksAt(payload, i) {
      AsksIsQuestion(payload, i);
    }
    if a, b :| IsQuestion(payload, a, b) {
      QuestionAsks(payload, a, b);
    }
  }

  lemma AsksIsQuestion(payload: seq<byte>, i: nat)
    requires 1 <= i < |payload| && AsksAt(payload, i)
    ensures IsQuestion(payload, payload[..i - 1], payload[i + 1..])
  {
    assert payload == payload[..i - 1] + [payload[i - 1], payload[i]] + payload[i + 1..];
    assert [payload[i - 1], payload[i]] == Ascii(";?");
  }

  lemma QuestionAsks(payload: seq<byte>, a: seq<byte>, b: seq<byte>)
    requires IsQuestion(payload, a, b)
    ensures |a| + 1 < |payload| && AsksAt(payload, |a| + 1)
  {
    var i := |a| + 1;
    assert payload[i - 1] == Ascii(";?")[0] && payload[i] == Ascii(";?")[1];
    assert b != [] ==> payload[i + 1] == b[0];
  }

  /** Every complete operating system command, in front of anything. */
  lemma OscVerdict(intro: seq<byte>, payload: seq<byte>, end: seq<byte>, after: seq<byte>)
    requires IsOscIntroducer(intro) && IsPayload(payload, true) && (IsStringEnd(end) || end == [0x07])
    ensures var s := intro + payload + end;
            Filtered(s + after) == (if AsksSomething(payload) then [] else s) + Filtered(after)
  {
    var term := if end == [0x07] then Bel else if end == [0x9c] then C1 else Backslash;
    var t := Escape(intro == [0x9d], Str(true, payload, term));
    assert Bytes(t) == intro + payload + end;
    OscQueryExactly(payload);
    hide IsOscQuery, AsksSomething, Filtered;
    FirstVerdict(t, after);
  }

  /** Every complete device control string: dropped if it asks for a setting ($q). */
  lemma DcsVerdict(intro: seq<byte>, payload: seq<byte>, end: seq<byte>, after: seq<byte>)
    requires IsDcsIntroducer(intro) && IsPayload(payload, false) && IsStringEnd(end)
    ensures var s := intro + payload + end;
            Filtered(s + after) == (if Ascii("$q") <= payload then [] else s) + Filtered(after)
  {
    var term := if end == [0x9c] then C1 else Backslash;
    var t := Escape(intro == [0x90], Str(false, payload, term));
    assert Bytes(t) == intro + payload + end;
    assert Ascii("$q") == [0x24, 0x71];
    hide Filtered;
    FirstVerdict(t, after);
  }

  /** A control string without its end is kept. */
  lemma CutStringVerdict(intro: seq<byte>, payload: seq<byte>)
    requires (IsOscIntroducer(intro) && IsPayload(payload, true)) || (IsDcsIntroducer(intro) && IsPayload(payload, false))
    ensures Filtered(intro + payload) == intro + payload
  {
    var t := Escape(|intro| == 1, CutStr(IsOscIntroducer(intro), payload));
    assert Bytes(t) == intro + payload;
    NoTokens();
    hide Filtered;
    FirstVerdict(t, []);
    assert Bytes(t) + [] == Bytes(t);
  }

  // ----- Everything else -----

  /** Any other byte is kept: it introduces nothing, or is an ESC before something else. */
  lemma PlainVerdict(b: byte, after: seq<byte>)
    requires b != 0x9b && b != 0x9d && b != 0x90
    requires b == 0x1b && after != [] ==> after[0] != 0x5b && after[0] != 0x5d && after[0] != 0x50
    ensures Filtered([b] + after) == [b] + Filtered(after)
  {
    hide Filtered;
    FirstVerdict(Plain(b), after);
  }
}
