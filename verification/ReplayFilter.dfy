/** Stripping terminal queries from a replayed byte stream. The grammar of control sequences (section
    5.4 of ECMA-48) and control strings (section 5.6) is stated on tokens, apart from the scanner. */
module ReplayFilter {
  import opened Common
  import opened Sequences

  const ESC: byte := 0x1b
  const BEL: byte := 0x07
  const ST: byte := 0x9c

  // ----- The grammar -----

  datatype Terminator = Bel | Backslash | C1

  /** What follows an introducer: a control sequence, or an operating system command or device
      control string. A cut one runs into the end of the input. */
  datatype Sequence =
    | Csi(params: seq<byte>, inter: seq<byte>, final: byte)
    | BadCsi(params: seq<byte>, inter: seq<byte>, final: byte)
    | CutCsi(params: seq<byte>, inter: seq<byte>)
    | Str(osc: bool, payload: seq<byte>, term: Terminator)
    | CutStr(osc: bool, payload: seq<byte>)

  datatype Token = Plain(b: byte) | Escape(eightBit: bool, sequence: Sequence)

  function Introducer(eightBit: bool, q: Sequence): seq<byte> {
    if q.Str? || q.CutStr? then
      if q.osc then (if eightBit then [0x9d] else [ESC, 0x5d]) else if eightBit then [0x90] else [ESC, 0x50]
    else if eightBit then [0x9b] else [ESC, 0x5b]
  }

  function TermBytes(t: Terminator): seq<byte> {
    match t
    case Bel => [BEL]
    case Backslash => [ESC, 0x5c]
    case C1 => [ST]
  }

  function Body(q: Sequence): seq<byte> {
    match q
    case Csi(params, inter, final) => params + inter + [final]
    case BadCsi(params, inter, final) => params + inter + [final]
    case CutCsi(params, inter) => params + inter
    case Str(_, payload, term) => payload + TermBytes(term)
    case CutStr(_, payload) => payload
  }

  function Bytes(t: Token): seq<byte> {
    match t
    case Plain(b) => [b]
    case Escape(eightBit, q) => Introducer(eightBit, q) + Body(q)
  }

  predicate IsParam(b: byte) { 0x30 <= b <= 0x3f }

  predicate IsInter(b: byte) { 0x20 <= b <= 0x2f }

  predicate IsFinal(b: byte) { 0x40 <= b <= 0x7e }

  predicate All(s: seq<byte>, p: byte -> bool) { forall i :: 0 <= i < |s| ==> p(s[i]) }

  /** A terminator of a control string starts at i; BEL ends only operating system commands. */
  predicate TermAt(osc: bool, s: seq<byte>, i: nat)
    requires i < |s|
  {
    s[i] == ST || (osc && s[i] == BEL) || (s[i] == ESC && i + 1 < |s| && s[i + 1] == 0x5c)
  }

  predicate NoTerm(osc: bool, s: seq<byte>) { forall i :: 0 <= i < |s| ==> !TermAt(osc, s, i) }

  predicate Grammatical(q: Sequence) {
    match q
    case Csi(params, inter, final) => All(params, IsParam) && All(inter, IsInter) && IsFinal(final)
    case BadCsi(params, inter, final) =>
      && All(params, IsParam) && All(inter, IsInter) && !IsFinal(final) && !IsInter(final)
      && (inter == [] ==> !IsParam(final))
    case CutCsi(params, inter) => All(params, IsParam) && All(inter, IsInter)
    case Str(osc, payload, term) => NoTerm(osc, payload) && (term == Bel ==> osc)
    case CutStr(osc, payload) => NoTerm(osc, payload)
  }

  predicate WellFormed(t: Token) {
    match t
    case Plain(b) => b != 0x9b && b != 0x9d && b != 0x90
    case Escape(_, q) => Grammatical(q)
  }

  predicate Introduces(b: byte) { b == 0x5b || b == 0x5d || b == 0x50 }

  /** A token may stand before rest: a cut one only at the end, and a lone ESC is not followed by the
      second byte of an introducer. */
  predicate Fits(t: Token, rest: seq<byte>) {
    match t
    case Plain(b) => b == ESC && rest != [] ==> !Introduces(rest[0])
    case Escape(_, q) => q.CutCsi? || q.CutStr? ==> rest == []
  }

  function Flatten(ts: seq<Token>): seq<byte> {
    if ts == [] then [] else Bytes(ts[0]) + Flatten(ts[1..])
  }

  predicate Valid(ts: seq<Token>) {
    ts != [] ==> WellFormed(ts[0]) && Fits(ts[0], Flatten(ts[1..])) && Valid(ts[1..])
  }

  // ----- Reading a token -----

  /** Length of the longest prefix of bytes with p. */
  function Span(s: seq<byte>, p: byte -> bool): (n: nat)
    ensures n <= |s| && All(s[..n], p) && (n < |s| ==> !p(s[n]))
  {
    if s != [] && p(s[0]) then
      var n := Span(s[1..], p) + 1;
      assert s[..n] == [s[0]] + s[1..][..n - 1];
      n
    else 0
  }

  lemma AllSnoc(s: seq<byte>, start: nat, i: nat, p: byte -> bool)
    requires start <= i < |s| && All(s[start..i], p) && p(s[i])
    ensures All(s[start..i + 1], p)
  {
    assert s[start..i + 1] == s[start..i] + [s[i]];
  }

  lemma SpanIs(a: seq<byte>, rest: seq<byte>, p: byte -> bool)
    requires All(a, p) && (rest != [] ==> !p(rest[0]))
    ensures Span(a + rest, p) == |a|
  {
    var s := a + rest;
    var n := Span(s, p);
    hide Span;
    assert forall i :: 0 <= i < n ==> p(s[..n][i]) && s[..n][i] == s[i];
    assert forall i :: 0 <= i < |a| ==> s[i] == a[i];
    assert rest != [] ==> s[|a|] == rest[0];
  }

  function ReadCsi(s: seq<byte>): Sequence {
    var n := Span(s, IsParam);
    var m := n + Span(s[n..], IsInter);
    if m == |s| then CutCsi(s[..n], s[n..m])
    else if IsFinal(s[m]) then Csi(s[..n], s[n..m], s[m])
    else BadCsi(s[..n], s[n..m], s[m])
  }

  /** Position of the first terminator, or the length. */
  function StrEnd(osc: bool, s: seq<byte>): (n: nat)
    ensures n <= |s| && (n < |s| ==> TermAt(osc, s, n)) && forall i :: 0 <= i < n ==> !TermAt(osc, s, i)
  {
    if s == [] || TermAt(osc, s, 0) then 0
    else
      var n := StrEnd(osc, s[1..]) + 1;
      assert forall i :: 1 <= i < |s| ==> TermAt(osc, s, i) == TermAt(osc, s[1..], i - 1);
      n
  }

  function TermOf(b: byte): Terminator { if b == ST then C1 else if b == ESC then Backslash else Bel }

  function ReadStr(osc: bool, s: seq<byte>): Sequence {
    var n := StrEnd(osc, s);
    if n == |s| then CutStr(osc, s) else Str(osc, s[..n], TermOf(s[n]))
  }

  function First(s: seq<byte>): Token
    requires s != []
  {
    if s[0] == ESC && |s| > 1 && s[1] == 0x5b then Escape(false, ReadCsi(s[2..]))
    else if s[0] == ESC && |s| > 1 && s[1] == 0x5d then Escape(false, ReadStr(true, s[2..]))
    else if s[0] == ESC && |s| > 1 && s[1] == 0x50 then Escape(false, ReadStr(false, s[2..]))
    else if s[0] == 0x9b then Escape(true, ReadCsi(s[1..]))
    else if s[0] == 0x9d then Escape(true, ReadStr(true, s[1..]))
    else if s[0] == 0x90 then Escape(true, ReadStr(false, s[1..]))
    else Plain(s[0])
  }

  lemma ReadCsiSound(s: seq<byte>)
    ensures var q := ReadCsi(s);
            !q.Str? && !q.CutStr? && Grammatical(q) && Body(q) <= s && (q.CutCsi? ==> Body(q) == s)
  {
    var n := Span(s, IsParam);
    var m := n + Span(s[n..], IsInter);
    var params, inter := s[..n], s[n..][..m - n];
    assert All(params, IsParam) && All(inter, IsInter);
    hide Span, All;
    assert inter == s[n..m];
    CsiExtent(s, n, m);
    if m < |s| {
      assert s[m] == s[n..][m - n];
    }
  }

  lemma CsiExtent(s: seq<byte>, n: nat, m: nat)
    requires n <= m <= |s|
    ensures s[..n] + s[n..m] == s[..m] && (m < |s| ==> s[..n] + s[n..m] + [s[m]] == s[..m + 1])
  {
  }

  lemma ReadStrSound(osc: bool, s: seq<byte>)
    ensures var q := ReadStr(osc, s);
            && (q.Str? || q.CutStr?) && q.osc == osc
            && Grammatical(q) && Body(q) <= s && (q.CutStr? ==> Body(q) == s)
  {
    var n := StrEnd(osc, s);
    hide StrEnd;
    assert forall i :: 0 <= i < n && TermAt(osc, s[..n], i) ==> TermAt(osc, s, i);
    if n < |s| {
      assert s == s[..n] + [s[n]] + s[n + 1..];
      if s[n] != ST && s[n] == ESC {
        assert s == s[..n] + [s[n], s[n + 1]] + s[n + 2..];
      }
    }
  }

  /** Reading yields a token of the grammar that starts the input and fits what follows. */
  lemma FirstSound(s: seq<byte>)
    requires s != []
    ensures var t := First(s);
            && WellFormed(t) && Bytes(t) != [] && Bytes(t) <= s && Fits(t, s[|Bytes(t)|..])
  {
    hide ReadCsi, ReadStr, Grammatical, Body;
    var t := First(s);
    if t.Escape? {
      var k := if t.eightBit then 1 else 2;
      if s[k - 1] == 0x5b || s[k - 1] == 0x9b {
        ReadCsiSound(s[k..]);
      } else {
        ReadStrSound(s[k - 1] == 0x5d || s[k - 1] == 0x9d, s[k..]);
      }
      assert s[..k] == Introducer(t.eightBit, t.sequence);
      assert s == s[..k] + s[k..];
    }
  }

  lemma ReadCsiParts(params: seq<byte>, inter: seq<byte>, tail: seq<byte>)
    requires All(params, IsParam) && All(inter, IsInter)
    requires tail != [] ==> !IsInter(tail[0]) && (inter == [] ==> !IsParam(tail[0]))
    ensures ReadCsi(params + (inter + tail)) ==
            if tail == [] then CutCsi(params, inter)
            else if IsFinal(tail[0]) then Csi(params, inter, tail[0])
            else BadCsi(params, inter, tail[0])
  {
    hide Span;
    var s := params + (inter + tail);
    var n, m := |params|, |params| + |inter|;
    assert s[..n] == params && s[n..] == inter + tail && s[n..m] == inter;
    assert tail != [] ==> s[m] == tail[0];
    assert inter != [] ==> (inter + tail)[0] == inter[0];
    SpanIs(params, inter + tail, IsParam);
    SpanIs(inter, tail, IsInter);
  }

  lemma ReadCsiComplete(q: Sequence, rest: seq<byte>)
    requires Grammatical(q) && !q.Str? && !q.CutStr? && (q.CutCsi? ==> rest == [])
    ensures ReadCsi(Body(q) + rest) == q
  {
    hide ReadCsi, All;
    var tail := if q.CutCsi? then [] else [q.final] + rest;
    assert Body(q) + rest == q.params + (q.inter + tail);
    ReadCsiParts(q.params, q.inter, tail);
  }

  lemma ReadStrComplete(q: Sequence, rest: seq<byte>)
    requires Grammatical(q) && (q.Str? || q.CutStr?) && (q.CutStr? ==> rest == [])
    ensures ReadStr(q.osc, Body(q) + rest) == q
  {
    var s := Body(q) + rest;
    var n := StrEnd(q.osc, s);
    hide StrEnd;
    var tail := if q.CutStr? then [] else TermBytes(q.term) + rest;
    assert s == q.payload + tail;
    NoTermBefore(q.osc, q.payload, tail);
    if q.Str? {
      assert s[|q.payload|] == TermBytes(q.term)[0];
      if q.term == Backslash {
        assert s[|q.payload| + 1] == 0x5c;
      }
      assert TermAt(q.osc, s, |q.payload|);
    }
    assert n == |q.payload|;
    assert s[..n] == q.payload;
  }

  lemma NoTermBefore(osc: bool, payload: seq<byte>, tail: seq<byte>)
    requires NoTerm(osc, payload) && (tail == [] || tail[0] != 0x5c)
    ensures forall i :: 0 <= i < |payload| ==> !TermAt(osc, payload + tail, i)
  {
    var s := payload + tail;
    forall i | 0 <= i < |payload| ensures !TermAt(osc, s, i) {
      assert !TermAt(osc, payload, i);
      assert s[i] == payload[i];
      if i + 1 < |payload| {
        assert s[i + 1] == payload[i + 1];
      } else if tail != [] {
        assert s[i + 1] == tail[0];
      }
    }
  }

  /** A token that fits is the one that is read. */
  lemma FirstComplete(t: Token, rest: seq<byte>)
    requires WellFormed(t) && Fits(t, rest)
    ensures Bytes(t) != [] && First(Bytes(t) + rest) == t
  {
    hide ReadCsi, ReadStr, Grammatical, Body;
    var s := Bytes(t) + rest;
    match t
    case Plain(b) =>
      assert s == [b] + rest;
    case Escape(eightBit, q) =>
      var intro := Introducer(eightBit, q);
      assert s == intro + (Body(q) + rest);
      assert s[|intro|..] == Body(q) + rest;
      if q.Str? || q.CutStr? {
        ReadStrComplete(q, rest);
      } else {
        ReadCsiComplete(q, rest);
      }
  }

  // ----- Tokens of an input -----

  function Tokenize(s: seq<byte>): seq<Token>
    decreases |s|
  {
    if s == [] then []
    else
      FirstSound(s);
      [First(s)] + Tokenize(s[|Bytes(First(s))|..])
  }

  /** Every input is a valid sequence of tokens ... */
  lemma {:induction false} TokenizeSplits(s: seq<byte>)
    ensures Valid(Tokenize(s)) && Flatten(Tokenize(s)) == s
    decreases |s|
  {
    if s != [] {
      hide First, Bytes, WellFormed, Fits;
      FirstSound(s);
      var t := First(s);
      var rest := s[|Bytes(t)|..];
      assert s == Bytes(t) + rest;
      TokenizeSplits(rest);
      assert Tokenize(s)[1..] == Tokenize(rest);
    }
  }

  /** ... and of only one. */
  lemma {:induction false} TokensAreUnique(ts: seq<Token>)
    requires Valid(ts)
    ensures Tokenize(Flatten(ts)) == ts
  {
    if ts != [] {
      hide First, Bytes, WellFormed, Fits;
      var rest := Flatten(ts[1..]);
      FirstComplete(ts[0], rest);
      var s := Bytes(ts[0]) + rest;
      assert s[|Bytes(ts[0])|..] == rest;
      TokensAreUnique(ts[1..]);
    }
  }

  // ----- Queries -----

  /** DA, DSR, DECRQM, and the XTWINOPS report requests. */
  predicate IsCsiQuery(params: seq<byte>, inter: seq<byte>, final: byte) {
    if final == 0x63 then true
    else if final == 0x6e then (params != [] && params[0] == 0x3f) || params == [0x35] || params == [0x36]
    else if final == 0x70 then inter == [0x24]
    else if final == 0x74 then IsReport(params)
    else false
  }

  /** Decimal 11 or 13 to 21, without leading zeros. */
  predicate IsReport(params: seq<byte>) {
    |params| == 2 && ((params[0] == 0x31 && (params[1] == 0x31 || 0x33 <= params[1] <= 0x39))
                      || (params[0] == 0x32 && 0x30 <= params[1] <= 0x31))
  }

  /** Some parameter after a semicolon is a lone question mark. */
  predicate AsksAt(payload: seq<byte>, i: nat) {
    && 1 <= i < |payload| && payload[i - 1] == 0x3b && payload[i] == 0x3f
    && (i + 1 == |payload| || payload[i + 1] == 0x3b)
  }

  predicate IsOscQuery(payload: seq<byte>) { exists i :: 1 <= i < |payload| && AsksAt(payload, i) }

  predicate IsDcsQuery(payload: seq<byte>) { [0x24, 0x71] <= payload }

  predicate IsQuerySequence(q: Sequence) {
    match q
    case Csi(params, inter, final) => IsCsiQuery(params, inter, final)
    case Str(osc, payload, _) => if osc then IsOscQuery(payload) else IsDcsQuery(payload)
    case _ => false
  }

  predicate IsQuery(t: Token) { t.Escape? && IsQuerySequence(t.sequence) }

  function WithoutQueries(ts: seq<Token>): seq<Token> {
    if ts == [] then []
    else (if IsQuery(ts[0]) then [] else [ts[0]]) + WithoutQueries(ts[1..])
  }

  // ----- The scanner -----

  method ScanCSI(input: seq<byte>, bodyStart: nat) returns (end: nat, drop: bool)
    requires bodyStart <= |input|
    ensures var q := ReadCsi(input[bodyStart..]);
            end == bodyStart + |Body(q)| && drop == IsQuerySequence(q)
  {
    hide ReadCsi, IsCsiQuery, All, IsParam, IsInter;
    var i := bodyStart;
    AllNothing(input, i, IsParam);
    while i < |input| && input[i] >= 0x30 && input[i] <= 0x3f
      invariant bodyStart <= i <= |input| && All(input[bodyStart..i], IsParam)
    {
      InRange(input[i]);
      AllSnoc(input, bodyStart, i, IsParam);
      i := i + 1;
    }
    var params := input[bodyStart..i];
    var interStart := i;
    AllNothing(input, i, IsInter);
    while i < |input| && input[i] >= 0x20 && input[i] <= 0x2f
      invariant interStart <= i <= |input| && All(input[interStart..i], IsInter)
    {
      InRange(input[i]);
      AllSnoc(input, interStart, i, IsInter);
      i := i + 1;
    }
    var inter := input[interStart..i];
    if i < |input| {
      InRange(input[i]);
    }
    CsiScanned(input, bodyStart, interStart, i);
    if i >= |input| {
      return |input|, false;
    }
    var final := input[i];
    i := i + 1;
    if final < 0x40 || final > 0x7e {
      return i, false;
    }
    drop := IsCSIQuery(params, inter, final);
    return i, drop;
  }

  method IsCSIQuery(params: seq<byte>, inter: seq<byte>, final: byte) returns (r: bool)
    ensures r <==> IsCsiQuery(params, inter, final)
  {
    if final == 0x63 {
      return true;
    }
    if final == 0x6e {
      if |params| > 0 && params[0] == 0x3f {
        return true;
      }
      return params == [0x35] || params == [0x36];
    }
    if final == 0x70 {
      return |inter| == 1 && inter[0] == 0x24;
    }
    if final == 0x74 {
      return params == [0x31, 0x31] || params == [0x31, 0x33] || params == [0x31, 0x34] || params == [0x31, 0x35]
        || params == [0x31, 0x36] || params == [0x31, 0x37] || params == [0x31, 0x38] || params == [0x31, 0x39]
        || params == [0x32, 0x30] || params == [0x32, 0x31];
    }
    return false;
  }

  lemma AllNothing(s: seq<byte>, i: nat, p: byte -> bool)
    requires i <= |s|
    ensures All(s[i..i], p)
  {
  }

  lemma InRange(b: byte)
    ensures IsParam(b) <==> 0x30 <= b <= 0x3f
    ensures IsInter(b) <==> 0x20 <= b <= 0x2f
  {
  }

  /** Where the two loops stopped. */
  lemma CsiScanned(input: seq<byte>, a: nat, b: nat, c: nat)
    requires a <= b <= c <= |input| && All(input[a..b], IsParam) && All(input[b..c], IsInter)
    requires c < |input| ==> !IsInter(input[c]) && (b == c ==> !IsParam(input[c]))
    ensures ReadCsi(input[a..]) ==
            if c == |input| then CutCsi(input[a..b], input[b..c])
            else if IsFinal(input[c]) then Csi(input[a..b], input[b..c], input[c])
            else BadCsi(input[a..b], input[b..c], input[c])
  {
    hide All, IsParam, IsInter, ReadCsi;
    assert input[a..] == input[a..b] + (input[b..c] + input[c..]);
    ReadCsiParts(input[a..b], input[b..c], input[c..]);
  }

  method IsOSCQueryLoop(payload: seq<byte>) returns (r: bool)
    ensures r <==> IsOscQuery(payload)
  {
    var i := 1;
    while i < |payload|
      invariant 1 <= i
      invariant forall k :: 1 <= k < i && k < |payload| ==> !AsksAt(payload, k)
    {
      if payload[i] == 0x3f && payload[i - 1] == 0x3b && (i == |payload| - 1 || payload[i + 1] == 0x3b) {
        assert AsksAt(payload, i);
        return true;
      }
      i := i + 1;
    }
    return false;
  }

  method ScanOSC(input: seq<byte>, bodyStart: nat) returns (end: nat, drop: bool)
    requires bodyStart <= |input|
    ensures var q := ReadStr(true, input[bodyStart..]);
            end == bodyStart + |Body(q)| && drop == IsQuerySequence(q)
  {
    hide ReadStr, IsOscQuery;
    var i := bodyStart;
    while i < |input|
      invariant bodyStart <= i <= |input|
      invariant forall k :: 0 <= k < i - bodyStart ==> !TermAt(true, input[bodyStart..], k)
    {
      var b := input[i];
      if b == BEL || b == ST {
        StrFound(true, input, bodyStart, i);
        var query := IsOSCQueryLoop(input[bodyStart..i]);
        return i + 1, query;
      }
      if b == ESC && i + 1 < |input| && input[i + 1] == 0x5c {
        StrFound(true, input, bodyStart, i);
        var query := IsOSCQueryLoop(input[bodyStart..i]);
        return i + 2, query;
      }
      i := i + 1;
    }
    StrNotFound(true, input, bodyStart);
    return |input|, false;
  }

  lemma StrFound(osc: bool, input: seq<byte>, start: nat, i: nat)
    requires start <= i < |input| && TermAt(osc, input[start..], i - start)
    requires forall k :: 0 <= k < i - start ==> !TermAt(osc, input[start..], k)
    ensures ReadStr(osc, input[start..]) == Str(osc, input[start..i], TermOf(input[i]))
  {
    var s := input[start..];
    assert s[..i - start] == input[start..i];
    assert StrEnd(osc, s) == i - start;
  }

  lemma StrNotFound(osc: bool, input: seq<byte>, start: nat)
    requires start <= |input| && forall k :: 0 <= k < |input| - start ==> !TermAt(osc, input[start..], k)
    ensures ReadStr(osc, input[start..]) == CutStr(osc, input[start..])
  {
    assert StrEnd(osc, input[start..]) == |input| - start;
  }

  method ScanDCS(input: seq<byte>, bodyStart: nat) returns (end: nat, drop: bool)
    requires bodyStart <= |input|
    ensures var q := ReadStr(false, input[bodyStart..]);
            end == bodyStart + |Body(q)| && drop == IsQuerySequence(q)
  {
    hide ReadStr, IsDcsQuery;
    var i := bodyStart;
    while i < |input|
      invariant bodyStart <= i <= |input|
      invariant forall k :: 0 <= k < i - bodyStart ==> !TermAt(false, input[bodyStart..], k)
    {
      if input[i] == ST {
        StrFound(false, input, bodyStart, i);
        return i + 1, IsDcsQuery(input[bodyStart..i]);
      }
      if input[i] == ESC && i + 1 < |input| && input[i + 1] == 0x5c {
        StrFound(false, input, bodyStart, i);
        return i + 2, IsDcsQuery(input[bodyStart..i]);
      }
      i := i + 1;
    }
    StrNotFound(false, input, bodyStart);
    return |input|, false;
  }

  // ----- The filter -----

  /** The tokens that are no queries, in order. */
  function Filtered(s: seq<byte>): seq<byte> { Flatten(WithoutQueries(Tokenize(s))) }

  method FilterReplayQueries(input: seq<byte>) returns (out: seq<byte>)
    ensures out == Filtered(input)
    ensures forall ts :: Valid(ts) && Flatten(ts) == input ==> out == Flatten(WithoutQueries(ts))
  {
    hide Filtered, First, Bytes, IsQuery;
    out := [];
    var i := 0;
    assert input[0..] == input;
    while i < |input|
      invariant 0 <= i <= |input|
      invariant out + Filtered(input[i..]) == Filtered(input)
      decreases |input| - i
    {
      var end, drop := NextToken(input, i);
      TokenStep(input[i..]);
      assert input[i..][end - i..] == input[end..];
      if !drop {
        Associate(out, input[i..end], Filtered(input[end..]));
        out := out + input[i..end];
      }
      i := end;
    }
    NoTokens();
    assert input[|input|..] == [];
    hide Valid, Flatten, WithoutQueries, Tokenize;
    forall ts | Valid(ts) && Flatten(ts) == input ensures out == Flatten(WithoutQueries(ts)) {
      FilteredTokens(ts);
    }
  }

  lemma FilteredTokens(ts: seq<Token>)
    requires Valid(ts)
    ensures Filtered(Flatten(ts)) == Flatten(WithoutQueries(ts))
  {
    TokensAreUnique(ts);
  }

  lemma NoTokens()
    ensures Filtered([]) == []
  {
  }

  /** One iteration: the extent of the token at i, and whether to drop it. */
  method NextToken(input: seq<byte>, i: nat) returns (end: nat, drop: bool)
    requires i < |input|
    ensures var t := First(input[i..]);
            i < end <= |input| && end == i + |Bytes(t)| && input[i..end] == Bytes(t) && drop == IsQuery(t)
  {
    hide ReadCsi, ReadStr, IsQuerySequence, Body;
    FirstSound(input[i..]);
    var b := input[i];
    assert i + 1 < |input| ==> input[i..][1] == input[i + 1];
    assert i + 1 < |input| ==> input[i..][2..] == input[i + 2..];
    assert input[i..][1..] == input[i + 1..];
    KindsKept(input[i + 1..]);
    if i + 1 < |input| {
      KindsKept(input[i + 2..]);
    }
    if b == ESC && i + 1 < |input| && input[i + 1] == 0x5b {
      end, drop := ScanCSI(input, i + 2);
    } else if b == ESC && i + 1 < |input| && input[i + 1] == 0x5d {
      end, drop := ScanOSC(input, i + 2);
    } else if b == ESC && i + 1 < |input| && input[i + 1] == 0x50 {
      end, drop := ScanDCS(input, i + 2);
    } else if b == 0x9b {
      end, drop := ScanCSI(input, i + 1);
    } else if b == 0x9d {
      end, drop := ScanOSC(input, i + 1);
    } else if b == 0x90 {
      end, drop := ScanDCS(input, i + 1);
    } else {
      end, drop := i + 1, false;
    }
  }

  lemma KindsKept(s: seq<byte>)
    ensures !ReadCsi(s).Str? && !ReadCsi(s).CutStr?
    ensures forall osc :: var q := ReadStr(osc, s); (q.Str? || q.CutStr?) && q.osc == osc
  {
    hide Span, StrEnd;
  }

  lemma TokenStep(s: seq<byte>)
    requires s != []
    ensures Bytes(First(s)) <= s
    ensures var t := First(s);
            var rest := Filtered(s[|Bytes(t)|..]);
            Filtered(s) == if IsQuery(t) then rest else Bytes(t) + rest
  {
    hide First, IsQuery, Bytes;
    FirstSound(s);
    var t := First(s);
    var more := Tokenize(s[|Bytes(t)|..]);
    assert Tokenize(s) == [t] + more;
    hide Tokenize;
    assert ([t] + more)[1..] == more;
    var kept := WithoutQueries(more);
    assert WithoutQueries([t] + more) == (if IsQuery(t) then [] else [t]) + kept;
    hide WithoutQueries;
    assert ([t] + kept)[1..] == kept && [] + kept == kept;
    assert Flatten([t] + kept) == Bytes(t) + Flatten(kept);
  }

  /** Nothing but queries is touched. */
  lemma {:induction false} NoQueryNoChange(ts: seq<Token>)
    requires forall i :: 0 <= i < |ts| ==> !IsQuery(ts[i])
    ensures WithoutQueries(ts) == ts
  {
    if ts != [] {
      NoQueryNoChange(ts[1..]);
    }
  }

  lemma UnchangedWithoutQueries(input: seq<byte>)
    requires forall t :: t in Tokenize(input) ==> !IsQuery(t)
    ensures Filtered(input) == input
  {
    hide IsQuery, Tokenize;
    NoQueryNoChange(Tokenize(input));
    TokenizeSplits(input);
  }

  // ----- The output as an input -----

  /** Queries only, if any, and then a plain byte that would make a preceding ESC an introducer. */
  predicate LeadsOn(ts: seq<Token>) {
    ts != [] && if IsQuery(ts[0]) then LeadsOn(ts[1..]) else ts[0].Plain? && Introduces(ts[0].b)
  }

  /** Somewhere in the input a lone ESC is parted from such a byte by queries alone. */
  predicate Joins(ts: seq<Token>) {
    ts != [] && ((ts[0] == Plain(ESC) && LeadsOn(ts[1..])) || Joins(ts[1..]))
  }

  lemma {:induction false} LeadsOnKept(ts: seq<Token>)
    ensures var kept := WithoutQueries(ts);
            LeadsOn(ts) <==> kept != [] && kept[0].Plain? && Introduces(kept[0].b)
  {
    if ts != [] {
      hide IsQuery;
      LeadsOnKept(ts[1..]);
      assert [] + WithoutQueries(ts[1..]) == WithoutQueries(ts[1..]);
    }
  }

  lemma {:induction false} KeptTokensFit(ts: seq<Token>)
    requires Valid(ts)
    ensures Valid(WithoutQueries(ts)) <==> !Joins(ts)
  {
    if ts != [] {
      hide IsQuery, WellFormed, Fits, LeadsOn, Flatten;
      KeptTokensFit(ts[1..]);
      var kept := WithoutQueries(ts[1..]);
      if IsQuery(ts[0]) {
        assert [] + kept == kept;
      } else {
        ValidCons(ts[0], kept);
        FitsKept(ts);
      }
    }
  }

  lemma ValidCons(t: Token, ts: seq<Token>)
    ensures Valid([t] + ts) <==> WellFormed(t) && Fits(t, Flatten(ts)) && Valid(ts)
  {
    hide WellFormed, Fits, Flatten;
    assert ([t] + ts)[1..] == ts;
  }

  lemma FitsKept(ts: seq<Token>)
    requires ts != [] && Valid(ts)
    ensures Fits(ts[0], Flatten(WithoutQueries(ts[1..]))) <==> !(ts[0] == Plain(ESC) && LeadsOn(ts[1..]))
  {
    hide IsQuery, WellFormed, Flatten, LeadsOn;
    LeadsOnKept(ts[1..]);
    FirstByte(WithoutQueries(ts[1..]));
    FirstByte(ts[1..]);
  }

  lemma BytesNotEmpty(t: Token)
    ensures Bytes(t) != [] && (Introduces(Bytes(t)[0]) <==> t.Plain? && Introduces(t.b))
  {
    hide Body;
    if t.Escape? {
      assert Bytes(t)[0] == Introducer(t.eightBit, t.sequence)[0];
    }
  }

  lemma FirstByte(ts: seq<Token>)
    ensures ts == [] <==> Flatten(ts) == []
    ensures ts != [] ==> (Introduces(Flatten(ts)[0]) <==> ts[0].Plain? && Introduces(ts[0].b))
  {
    if ts != [] {
      BytesNotEmpty(ts[0]);
    }
  }

  /** Reading the output again finds exactly the kept tokens iff dropping joined no neighbours. */
  lemma OutputTokens(input: seq<byte>)
    ensures Tokenize(Filtered(input)) == WithoutQueries(Tokenize(input)) <==> !Joins(Tokenize(input))
  {
    hide Tokenize, Valid, Joins, Flatten, WithoutQueries;
    TokenizeSplits(input);
    var kept := WithoutQueries(Tokenize(input));
    KeptTokensFit(Tokenize(input));
    if Valid(kept) {
      TokensAreUnique(kept);
    }
    TokenizeSplits(Flatten(kept));
  }

  lemma {:induction false} KeptAreNoQueries(ts: seq<Token>)
    ensures WithoutQueries(WithoutQueries(ts)) == WithoutQueries(ts)
  {
    if ts != [] {
      hide IsQuery;
      KeptAreNoQueries(ts[1..]);
      var kept := WithoutQueries(ts[1..]);
      assert ([ts[0]] + kept)[1..] == kept && [] + kept == kept;
    }
  }

  /** Filtering an output again changes it exactly if the output holds a query; without joined
      neighbours it holds none. */
  lemma FilterTwice(input: seq<byte>)
    ensures Filtered(Filtered(input)) == Filtered(input) <==> forall t :: t in Tokenize(Filtered(input)) ==> !IsQuery(t)
    ensures !Joins(Tokenize(input)) ==> Filtered(Filtered(input)) == Filtered(input)
  {
    hide Tokenize, WithoutQueries, Joins, Flatten, IsQuery;
    var ts := Tokenize(Filtered(input));
    TokenizeSplits(Filtered(input));
    if forall t :: t in ts ==> !IsQuery(t) {
      NoQueryNoChange(ts);
    } else {
      var t :| t in ts && IsQuery(t);
      DroppingShortens(ts, t);
    }
    OutputTokens(input);
    KeptAreNoQueries(Tokenize(input));
  }

  lemma {:induction false} DroppingShortens(ts: seq<Token>, t: Token)
    requires t in ts && IsQuery(t)
    ensures |Flatten(WithoutQueries(ts))| < |Flatten(ts)|
  {
    hide IsQuery, Bytes;
    BytesNotEmpty(ts[0]);
    var kept := WithoutQueries(ts[1..]);
    assert ([ts[0]] + kept)[1..] == kept && [] + kept == kept;
    if t in ts[1..] {
      DroppingShortens(ts[1..], t);
    } else {
      KeptIsNoLonger(ts[1..]);
    }
  }

  lemma {:induction false} KeptIsNoLonger(ts: seq<Token>)
    ensures |Flatten(WithoutQueries(ts))| <= |Flatten(ts)|
  {
    if ts != [] {
      hide IsQuery, Bytes;
      var kept := WithoutQueries(ts[1..]);
      assert ([ts[0]] + kept)[1..] == kept && [] + kept == kept;
      KeptIsNoLonger(ts[1..]);
    }
  }

  /** Tokens that may stand before the bytes r. */
  predicate ValidBefore(ts: seq<Token>, r: seq<byte>) {
    ts != [] ==> WellFormed(ts[0]) && Fits(ts[0], Flatten(ts[1..]) + r) && ValidBefore(ts[1..], r)
  }

  lemma {:induction false} TokenizeBefore(ts: seq<Token>, r: seq<byte>)
    requires ValidBefore(ts, r)
    ensures Tokenize(Flatten(ts) + r) == ts + Tokenize(r)
  {
    hide First, Bytes, WellFormed, Fits;
    if ts == [] {
      assert [] + r == r;
    } else {
      var rest := Flatten(ts[1..]) + r;
      TokenizeBefore(ts[1..], r);
      Associate(Bytes(ts[0]), Flatten(ts[1..]), r);
      hide Flatten, ValidBefore;
      TokenizeCons(ts[0], rest);
      assert ts + Tokenize(r) == [ts[0]] + (ts[1..] + Tokenize(r));
    }
  }

  lemma TokenizeCons(t: Token, rest: seq<byte>)
    requires WellFormed(t) && Fits(t, rest)
    ensures Tokenize(Bytes(t) + rest) == [t] + Tokenize(rest)
  {
    hide First, Bytes, WellFormed, Fits;
    FirstComplete(t, rest);
    assert (Bytes(t) + rest)[|Bytes(t)|..] == rest;
  }

  /** The first joined ESC. */
  lemma {:induction false} FirstJoin(ts: seq<Token>) returns (a: seq<Token>, b: seq<Token>)
    requires Valid(ts) && Joins(ts)
    ensures ts == a + [Plain(ESC)] + b && LeadsOn(b)
    ensures WithoutQueries(ts) == WithoutQueries(a) + [Plain(ESC)] + WithoutQueries(b)
    ensures ValidBefore(WithoutQueries(a), [ESC] + Flatten(WithoutQueries(b)))
  {
    hide IsQuery, WellFormed, Fits, LeadsOn, Flatten, ValidBefore, WithoutQueries;
    WithoutCons(ts[0], ts[1..]);
    assert ts == [ts[0]] + ts[1..];
    if ts[0] == Plain(ESC) && LeadsOn(ts[1..]) {
      a, b := [], ts[1..];
      StandsAlone([ESC] + Flatten(WithoutQueries(b)));
      assert [] + [Plain(ESC)] + b == ts;
    } else {
      FitsKept(ts);
      a, b := FirstJoin(ts[1..]);
      var pre, post := WithoutQueries(a), WithoutQueries(b);
      WithoutCons(ts[0], a);
      if IsQuery(ts[0]) {
        assert [] + pre == pre && [] + WithoutQueries(ts[1..]) == WithoutQueries(ts[1..]);
      } else {
        assert [ts[0]] + (pre + [Plain(ESC)] + post) == ([ts[0]] + pre) + [Plain(ESC)] + post;
        ExtendBefore(ts[0], pre, post);
      }
      assert [ts[0]] + (a + [Plain(ESC)] + b) == ([ts[0]] + a) + [Plain(ESC)] + b;
      a := [ts[0]] + a;
    }
  }

  lemma StandsAlone(r: seq<byte>)
    ensures ValidBefore([], r) && WithoutQueries([]) == [] && !IsQuery(Plain(ESC))
  {
  }

  lemma ExtendBefore(t: Token, pre: seq<Token>, post: seq<Token>)
    requires WellFormed(t) && Fits(t, Flatten(pre + [Plain(ESC)] + post)) && ValidBefore(pre, [ESC] + Flatten(post))
    ensures ValidBefore([t] + pre, [ESC] + Flatten(post))
  {
    hide WellFormed, Fits, Flatten;
    FlattenAround(pre, post);
    assert ([t] + pre)[1..] == pre;
  }

  lemma FlattenAround(pre: seq<Token>, post: seq<Token>)
    ensures Flatten(pre + [Plain(ESC)] + post) == Flatten(pre) + ([ESC] + Flatten(post))
  {
    hide Flatten;
    FlattenAppend(pre, [Plain(ESC)] + post);
    FlattenPlain(ESC, post);
    assert pre + [Plain(ESC)] + post == pre + ([Plain(ESC)] + post);
  }

  lemma {:induction false} FlattenAppend(a: seq<Token>, b: seq<Token>)
    ensures Flatten(a + b) == Flatten(a) + Flatten(b)
  {
    hide Bytes;
    if a == [] {
      assert a + b == b;
    } else {
      FlattenAppend(a[1..], b);
      assert (a + b)[0] == a[0] && (a + b)[1..] == a[1..] + b;
      Associate(Bytes(a[0]), Flatten(a[1..]), Flatten(b));
    }
  }

  /** What a second filtering does: everything before the first joined ESC stays as it is; from there
      on the output is read anew, beginning with an escape sequence, and filtered. */
  lemma SecondFiltering(input: seq<byte>) returns (before: seq<byte>, rest: seq<byte>)
    requires Joins(Tokenize(input))
    ensures Filtered(input) == before + rest && rest != [] && First(rest).Escape?
    ensures Filtered(Filtered(input)) == before + Filtered(rest)
    ensures Filtered(Filtered(input)) == Filtered(input) <==> Filtered(rest) == rest
  {
    hide Tokenize, Valid, Joins, First, Flatten, WithoutQueries;
    TokenizeSplits(input);
    var a, b := FirstJoin(Tokenize(input));
    var pre, post := WithoutQueries(a), WithoutQueries(b);
    before, rest := Flatten(pre), [ESC] + Flatten(post);
    FlattenAround(pre, post);
    JoinedIsEscape(b);
    TokenizeBefore(pre, rest);
    KeptAreNoQueries(a);
    WithoutAppend(pre, Tokenize(rest));
    FlattenAppend(pre, WithoutQueries(Tokenize(rest)));
    assert (before + Filtered(rest))[|before|..] == Filtered(rest) && (before + rest)[|before|..] == rest;
  }

  lemma JoinedIsEscape(b: seq<Token>)
    requires LeadsOn(b)
    ensures First([ESC] + Flatten(WithoutQueries(b))).Escape?
  {
    hide Flatten, WithoutQueries, ReadCsi, ReadStr;
    LeadsOnKept(b);
    FirstByte(WithoutQueries(b));
  }

  lemma {:induction false} WithoutAppend(a: seq<Token>, b: seq<Token>)
    ensures WithoutQueries(a + b) == WithoutQueries(a) + WithoutQueries(b)
  {
    if a == [] {
      assert a + b == b && WithoutQueries(a) == [];
    } else {
      hide IsQuery, WithoutQueries;
      WithoutAppend(a[1..], b);
      assert a == [a[0]] + a[1..] && a + b == [a[0]] + (a[1..] + b);
      WithoutCons(a[0], a[1..] + b);
      WithoutCons(a[0], a[1..]);
    }
  }

  function ControlSequence(final: byte): Token { Escape(false, Csi([], [], final)) }

  /** "ESC [ c" (device attributes) between an ESC and "[" with a final byte. */
  function SplitByQuery(final: byte): seq<Token> {
    [Plain(ESC)] + ([ControlSequence(0x63)] + ([Plain(0x5b)] + ([Plain(final)] + [])))
  }

  /** Joining does happen: dropping the query in the middle forms a new control sequence, which is a
      query again for "c", and none for "m". */
  lemma JoiningFormsSequence(final: byte)
    requires final == 0x63 || final == 0x6d
    ensures var input := Flatten(SplitByQuery(final));
            && Joins(Tokenize(input)) && Tokenize(Filtered(input)) == [ControlSequence(final)]
            && (Filtered(Filtered(input)) == Filtered(input) <==> final == 0x6d)
  {
    hide Flatten, Valid, Bytes, Tokenize, Filtered, Joins, WithoutQueries;
    var ts := SplitByQuery(final);
    SplitIsValid(final);
    TokensAreUnique(ts);
    FilteredTokens(ts);
    SplitKept(final);
    SplitJoins(final);
    SequenceTokens(final);
    FilterTwice(Flatten(ts));
    assert IsQuery(ControlSequence(0x63)) && !IsQuery(ControlSequence(0x6d));
    assert ControlSequence(final) in [ControlSequence(final)];
  }

  lemma SplitIsValid(final: byte)
    requires IsFinal(final)
    ensures Valid(SplitByQuery(final))
  {
    hide Flatten, Bytes, Valid;
    var d := [Plain(final)] + [];
    var c := [Plain(0x5b)] + d;
    FirstByte([ControlSequence(0x63)] + c);
    ValidCons(Plain(ESC), [ControlSequence(0x63)] + c);
    ValidCons(ControlSequence(0x63), c);
    ValidCons(Plain(0x5b), d);
    ValidCons(Plain(final), []);
    assert Valid([]) by {
      NothingIsValid();
    }
  }

  lemma NothingIsValid()
    ensures Valid([])
  {
  }

  lemma SplitKept(final: byte)
    ensures WithoutQueries(SplitByQuery(final)) == [Plain(ESC)] + ([Plain(0x5b)] + ([Plain(final)] + []))
  {
    var d := [Plain(final)] + [];
    var c := [Plain(0x5b)] + d;
    assert WithoutQueries([]) == [];
    hide WithoutQueries;
    WithoutCons(Plain(ESC), [ControlSequence(0x63)] + c);
    WithoutCons(ControlSequence(0x63), c);
    WithoutCons(Plain(0x5b), d);
    WithoutCons(Plain(final), []);
  }

  lemma SplitJoins(final: byte)
    ensures Joins(SplitByQuery(final))
  {
    var c := [Plain(0x5b)] + ([Plain(final)] + []);
    LeadsOnKept([ControlSequence(0x63)] + c);
    WithoutCons(ControlSequence(0x63), c);
    WithoutCons(Plain(0x5b), [Plain(final)] + []);
    hide LeadsOn, WithoutQueries;
    assert SplitByQuery(final)[1..] == [ControlSequence(0x63)] + c;
  }

  /** What is kept of the split input is the text of one control sequence. */
  lemma SequenceTokens(final: byte)
    requires IsFinal(final)
    ensures Tokenize(Flatten([Plain(ESC)] + ([Plain(0x5b)] + ([Plain(final)] + [])))) == [ControlSequence(final)]
  {
    hide Flatten, Valid, Bytes, Tokenize;
    var q := ControlSequence(final);
    SequenceText(final);
    FirstByte([]);
    NothingIsValid();
    ValidCons(q, []);
    FlattenOne(q);
    assert [q] + [] == [q];
    TokensAreUnique([q]);
  }

  lemma SequenceText(final: byte)
    ensures Flatten([Plain(ESC)] + ([Plain(0x5b)] + ([Plain(final)] + []))) == Bytes(ControlSequence(final))
  {
    assert Bytes(ControlSequence(final)) == [ESC, 0x5b, final];
    hide Flatten, Bytes;
    FirstByte([]);
    FlattenPlain(final, []);
    FlattenPlain(0x5b, [Plain(final)] + []);
    FlattenPlain(ESC, [Plain(0x5b)] + ([Plain(final)] + []));
  }

  lemma FlattenOne(t: Token)
    ensures Flatten([t]) == Bytes(t)
  {
    hide Bytes;
    assert [t][1..] == [];
    assert Flatten([t]) == Bytes(t) + Flatten([]);
  }

  lemma FlattenPlain(b: byte, ts: seq<Token>)
    ensures Flatten([Plain(b)] + ts) == [b] + Flatten(ts)
  {
    assert ([Plain(b)] + ts)[1..] == ts;
  }

  lemma WithoutCons(t: Token, ts: seq<Token>)
    ensures WithoutQueries([t] + ts) == (if IsQuery(t) then [] else [t]) + WithoutQueries(ts)
  {
    hide IsQuery;
    assert ([t] + ts)[1..] == ts;
  }
}
