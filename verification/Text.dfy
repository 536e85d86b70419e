/** The string functions of the Go standard library that the modelled code uses, on sequences of
    Unicode code points. */
module Text {

  /** unicode.IsSpace. */
  predicate IsSpace(c: char) {
    var n := c as int;
    n == 0x20 || (0x09 <= n <= 0x0d) || n == 0x85 || n == 0xa0 || n == 0x1680 || (0x2000 <= n <= 0x200a)
    || n == 0x2028 || n == 0x2029 || n == 0x202f || n == 0x205f || n == 0x3000
  }

  /** Trimming a set of characters given by a predicate. */
  function TrimLeftFunc(s: string, cut: char -> bool): (r: string)
    ensures |r| <= |s| && r == s[|s| - |r|..]
    ensures r != "" ==> !cut(r[0])
    ensures forall i :: 0 <= i < |s| - |r| ==> cut(s[i])
  {
    if s != "" && cut(s[0]) then TrimLeftFunc(s[1..], cut) else s
  }

  function TrimRightFunc(s: string, cut: char -> bool): (r: string)
    ensures r <= s
    ensures r != "" ==> !cut(r[|r| - 1])
    ensures forall i :: |r| <= i < |s| ==> cut(s[i])
  {
    if s != "" && cut(s[|s| - 1]) then TrimRightFunc(s[..|s| - 1], cut) else s
  }

  function TrimFunc(s: string, cut: char -> bool): string {
    TrimRightFunc(TrimLeftFunc(s, cut), cut)
  }

  predicate IsTrimmed(s: string, cut: char -> bool) {
    s == "" || (!cut(s[0]) && !cut(s[|s| - 1]))
  }

  lemma TrimmedIsFixed(s: string, cut: char -> bool)
    requires IsTrimmed(s, cut)
    ensures TrimFunc(s, cut) == s
  {
  }

  lemma TrimTrims(s: string, cut: char -> bool)
    ensures IsTrimmed(TrimFunc(s, cut), cut)
  {
    hide TrimLeftFunc, TrimRightFunc;
    var l := TrimLeftFunc(s, cut);
    var r := TrimRightFunc(l, cut);
    if r != "" {
      assert r[0] == l[0];
    }
  }

  lemma TrimKeepsOut(s: string, cut: char -> bool, c: char)
    requires c !in s
    ensures c !in TrimFunc(s, cut)
  {
    var l := TrimLeftFunc(s, cut);
    assert forall i :: 0 <= i < |l| ==> l[i] == s[|s| - |l| + i];
  }

  lemma {:induction false} TrimLeftSkips(pre: string, rest: string, cut: char -> bool)
    requires forall i :: 0 <= i < |pre| ==> cut(pre[i])
    requires rest == "" || !cut(rest[0])
    ensures TrimLeftFunc(pre + rest, cut) == rest
  {
    if pre == "" {
      assert pre + rest == rest;
    } else {
      assert (pre + rest)[1..] == pre[1..] + rest;
      TrimLeftSkips(pre[1..], rest, cut);
    }
  }

  lemma {:induction false} TrimRightSkips(rest: string, post: string, cut: char -> bool)
    requires forall i :: 0 <= i < |post| ==> cut(post[i])
    requires rest == "" || !cut(rest[|rest| - 1])
    ensures TrimRightFunc(rest + post, cut) == rest
  {
    if post == "" {
      assert rest + post == rest;
    } else {
      var n := |post| - 1;
      assert (rest + post)[..|rest| + n] == rest + post[..n];
      TrimRightSkips(rest, post[..n], cut);
    }
  }

  /** Cut characters around a trimmed core disappear. */
  lemma TrimAround(pre: string, core: string, post: string, cut: char -> bool)
    requires forall i :: 0 <= i < |pre| ==> cut(pre[i])
    requires forall i :: 0 <= i < |post| ==> cut(post[i])
    requires IsTrimmed(core, cut)
    ensures TrimFunc(pre + core + post, cut) == core
  {
    hide TrimLeftFunc, TrimRightFunc;
    if core == "" {
      TrimLeftSkips(pre + post, "", cut);
      assert pre + core + post == (pre + post) + "";
      TrimRightSkips("", "", cut);
    } else {
      TrimLeftSkips(pre, core + post, cut);
      assert pre + core + post == pre + (core + post);
      TrimRightSkips(core, post, cut);
    }
  }

  /** core lies at a..b in text, only cut characters are around it, and it neither starts nor ends
      with one. */
  ghost predicate IsCoreAt(text: string, core: string, a: nat, b: nat, cut: char -> bool) {
    && a <= b <= |text| && core == text[a..b] && IsTrimmed(core, cut)
    && (forall k :: 0 <= k < a ==> cut(text[k])) && (forall k :: b <= k < |text| ==> cut(text[k]))
  }

  ghost predicate IsCore(text: string, core: string, cut: char -> bool) {
    exists a: nat, b: nat :: IsCoreAt(text, core, a, b, cut)
  }

  lemma TrimExactly(text: string, core: string, cut: char -> bool)
    ensures TrimFunc(text, cut) == core <==> IsCore(text, core, cut)
  {
    TrimIsCore(text, cut);
    hide TrimFunc, IsCoreAt;
    if a: nat, b: nat :| IsCoreAt(text, core, a, b, cut) {
      CoreIsTrim(text, core, a, b, cut);
    }
  }

  lemma CoreIsTrim(text: string, core: string, a: nat, b: nat, cut: char -> bool)
    requires IsCoreAt(text, core, a, b, cut)
    ensures TrimFunc(text, cut) == core
  {
    var pre, post := text[..a], text[b..];
    assert text == pre + core + post;
    hide TrimFunc, IsTrimmed;
    assert forall i :: 0 <= i < |post| ==> post[i] == text[b + i];
    TrimAround(pre, core, post, cut);
  }

  lemma TrimIsCore(text: string, cut: char -> bool)
    ensures IsCore(text, TrimFunc(text, cut), cut)
  {
    TrimTrims(text, cut);
    var l := TrimLeftFunc(text, cut);
    var r := TrimRightFunc(l, cut);
    hide TrimLeftFunc, TrimRightFunc, IsTrimmed;
    var a := |text| - |l|;
    forall k | a + |r| <= k < |text| ensures cut(text[k]) {
      assert text[k] == l[k - a];
    }
    assert IsCoreAt(text, r, a, a + |r|, cut);
  }

  function TrimSpace(s: string): string { TrimFunc(s, IsSpace) }

  /** strings.IndexByte: the first position of c, or -1. */
  function IndexOf(s: string, c: char): (i: int)
    ensures i == -1 <==> c !in s
    ensures i >= 0 ==> i < |s| && s[i] == c && c !in s[..i]
    ensures i >= -1
  {
    if s == "" then -1
    else if s[0] == c then 0
    else
      var i := IndexOf(s[1..], c);
      if i == -1 then -1 else i + 1
  }

  lemma IndexOfFirst(s: string, c: char, i: nat)
    requires i < |s| && s[i] == c && c !in s[..i]
    ensures IndexOf(s, c) == i
  {
    assert c in s;
  }

  // ----- Splitting -----

  /** strings.Split by a single character. */
  function Split(s: string, c: char): seq<string>
    decreases |s|
  {
    var i := IndexOf(s, c);
    if i < 0 then [s] else [s[..i]] + Split(s[i + 1..], c)
  }

  /** s[i..j] reaches from one c or end of s to the next. */
  predicate IsItem(s: string, c: char, i: nat, j: nat) {
    && i <= j <= |s| && (forall k :: i <= k < j ==> s[k] != c)
    && (i == 0 || s[i - 1] == c) && (j == |s| || s[j] == c)
  }

  /** What splitting yields: exactly the stretches between neighbouring separators or ends. */
  lemma SplitExactly(s: string, c: char, item: string)
    ensures item in Split(s, c) <==> exists i: nat, j: nat :: IsItem(s, c, i, j) && item == s[i..j]
  {
    hide Split;
    if item in Split(s, c) {
      var i, j := SplitYieldsItem(s, c, item);
    }
    if i: nat, j: nat :| IsItem(s, c, i, j) && item == s[i..j] {
      ItemIsYielded(s, c, i, j, item);
    }
  }

  lemma SplitHead(s: string, c: char, item: string)
    ensures var k := IndexOf(s, c);
            item in Split(s, c) <==> if k < 0 then item == s else item == s[..k] || item in Split(s[k + 1..], c)
  {
  }

  lemma {:induction false} SplitYieldsItem(s: string, c: char, item: string) returns (i: nat, j: nat)
    requires item in Split(s, c)
    ensures i <= j <= |s| && IsItem(s, c, i, j) && item == s[i..j]
    decreases |s|
  {
    SplitHead(s, c, item);
    var k := IndexOf(s, c);
    hide Split, IsItem, IndexOf;
    if k < 0 {
      WholeItem(s, c);
      i, j := 0, |s|;
    } else if item == s[..k] {
      FirstItem(s, c, k);
      i, j := 0, k;
    } else {
      i, j := SplitYieldsItem(s[k + 1..], c, item);
      ItemShifts(s, c, k, i, j);
      i, j := i + k + 1, j + k + 1;
    }
  }

  lemma {:induction false} ItemIsYielded(s: string, c: char, i: nat, j: nat, item: string)
    requires i <= j <= |s| && IsItem(s, c, i, j) && item == s[i..j]
    ensures item in Split(s, c)
    decreases |s|
  {
    SplitHead(s, c, item);
    var k := IndexOf(s, c);
    hide Split, IsItem, IndexOf;
    if k < 0 {
      WholeItem(s, c);
    } else if i <= k {
      FirstItemOnly(s, c, k, i, j);
    } else {
      var i', j' := i - k - 1, j - k - 1;
      ItemShifts(s, c, k, i', j');
      assert i' + k + 1 == i && j' + k + 1 == j;
      ItemIsYielded(s[k + 1..], c, i', j', item);
    }
  }

  lemma WholeItem(s: string, c: char)
    requires c !in s
    ensures forall i: nat, j: nat :: IsItem(s, c, i, j) <==> i == 0 && j == |s|
    ensures s[0..|s|] == s
  {
  }

  /** Items after the first separator are the items of the rest. */
  lemma ItemShifts(s: string, c: char, k: nat, i: nat, j: nat)
    requires k < |s| && s[k] == c
    ensures IsItem(s[k + 1..], c, i, j) <==> IsItem(s, c, i + k + 1, j + k + 1)
    ensures i <= j <= |s| - k - 1 ==> s[k + 1..][i..j] == s[i + k + 1..j + k + 1]
  {
    var rest := s[k + 1..];
    if IsItem(rest, c, i, j) {
      forall l | i + k + 1 <= l < j + k + 1 ensures s[l] != c {
        assert rest[l - k - 1] != c;
      }
    }
    if IsItem(s, c, i + k + 1, j + k + 1) {
      forall l | i <= l < j ensures rest[l] != c {
        assert s[l + k + 1] != c;
      }
    }
  }

  lemma FirstItem(s: string, c: char, k: nat)
    requires k < |s| && s[k] == c && c !in s[..k]
    ensures IsItem(s, c, 0, k) && s[0..k] == s[..k]
  {
    assert forall l :: 0 <= l < k ==> s[l] == s[..k][l];
  }

  lemma FirstItemOnly(s: string, c: char, k: nat, i: nat, j: nat)
    requires k < |s| && s[k] == c && c !in s[..k]
    requires IsItem(s, c, i, j) && i <= k
    ensures i == 0 && j == k
  {
    assert forall l :: 0 <= l < k ==> s[l] == s[..k][l];
  }

  /** strings.Join. */
  function Join(items: seq<string>, sep: string): string {
    if items == [] then "" else if |items| == 1 then items[0] else items[0] + sep + Join(items[1..], sep)
  }

  /** Item k of a joined text. */
  predicate ItemAt(text: string, items: seq<string>, starts: seq<nat>, k: nat)
    requires |starts| == |items| && k < |items|
  {
    starts[k] + |items[k]| <= |text| && text[starts[k]..starts[k] + |items[k]|] == items[k]
  }

  /** What stands between item k and the next one. */
  predicate GapAt(text: string, items: seq<string>, sep: string, starts: seq<nat>, k: nat)
    requires |starts| == |items| && k + 1 < |items|
  {
    var end := starts[k] + |items[k]|;
    starts[k + 1] == end + |sep| && starts[k + 1] <= |text| && text[end..starts[k + 1]] == sep
  }

  /** text holds the items in order from its start to its end, with exactly sep between neighbours. */
  ghost predicate IsPlaced(text: string, items: seq<string>, sep: string, starts: seq<nat>) {
    && |starts| == |items| > 0 && starts[0] == 0 && starts[|items| - 1] + |items[|items| - 1]| == |text|
    && (forall k :: 0 <= k < |items| ==> ItemAt(text, items, starts, k))
    && (forall k :: 0 <= k < |items| - 1 ==> GapAt(text, items, sep, starts, k))
  }

  ghost predicate IsJoined(text: string, items: seq<string>, sep: string) {
    exists starts :: IsPlaced(text, items, sep, starts)
  }

  function Shift(starts: seq<nat>, d: nat): seq<nat> { seq(|starts|, k requires 0 <= k < |starts| => starts[k] + d) }

  lemma {:induction false} JoinIsPlaced(items: seq<string>, sep: string) returns (starts: seq<nat>)
    requires items != []
    ensures IsPlaced(Join(items, sep), items, sep, starts)
    decreases |items|
  {
    starts := [0];
    if |items| > 1 {
      var rest := JoinIsPlaced(items[1..], sep);
      starts := PlacedBefore(items[0], Join(items[1..], sep), items[1..], sep, rest);
      assert [items[0]] + items[1..] == items;
    }
  }

  lemma PlacedBefore(first: string, text: string, items: seq<string>, sep: string, starts: seq<nat>)
    returns (more: seq<nat>)
    requires IsPlaced(text, items, sep, starts)
    ensures IsPlaced(first + sep + text, [first] + items, sep, more)
  {
    var d := |first| + |sep|;
    more := [0] + Shift(starts, d);
    var whole, all := first + sep + text, [first] + items;
    forall k | 0 <= k < |all| ensures ItemAt(whole, all, more, k) {
      if k > 0 {
        assert ItemAt(text, items, starts, k - 1);
        assert whole[more[k]..more[k] + |all[k]|] == text[starts[k - 1]..starts[k - 1] + |items[k - 1]|];
      }
    }
    forall k | 0 <= k < |all| - 1 ensures GapAt(whole, all, sep, more, k) {
      if k > 0 {
        assert GapAt(text, items, sep, starts, k - 1);
        assert whole[more[k] + |all[k]|..more[k + 1]] == text[starts[k - 1] + |items[k - 1]|..starts[k]];
      }
    }
  }

  /** Joining yields that text and no other. */
  lemma JoinExactly(items: seq<string>, sep: string, text: string)
    requires items != []
    ensures text == Join(items, sep) <==> IsJoined(text, items, sep)
  {
    var own := JoinIsPlaced(items, sep);
    hide IsPlaced, Join;
    if starts :| IsPlaced(text, items, sep, starts) {
      PlacedIsUnique(text, starts, Join(items, sep), own, items, sep);
    }
  }

  lemma PlacedIsUnique(a: string, starts: seq<nat>, b: string, others: seq<nat>, items: seq<string>, sep: string)
    requires IsPlaced(a, items, sep, starts) && IsPlaced(b, items, sep, others)
    ensures a == b
  {
    SamePlaces(a, starts, b, others, items, sep, |items| - 1);
    var n := |items| - 1;
    assert a == a[..starts[n]] + a[starts[n]..starts[n] + |items[n]|];
    assert b == b[..others[n]] + b[others[n]..others[n] + |items[n]|];
    assert ItemAt(a, items, starts, n) && ItemAt(b, items, others, n);
  }

  lemma {:induction false} SamePlaces(a: string, starts: seq<nat>, b: string, others: seq<nat>, items: seq<string>,
                                      sep: string, k: nat)
    requires IsPlaced(a, items, sep, starts) && IsPlaced(b, items, sep, others) && k < |items|
    ensures starts[k] == others[k] <= |a| && starts[k] <= |b| && a[..starts[k]] == b[..starts[k]]
    decreases k
  {
    if k > 0 {
      SamePlaces(a, starts, b, others, items, sep, k - 1);
      assert ItemAt(a, items, starts, k - 1) && ItemAt(b, items, others, k - 1);
      assert GapAt(a, items, sep, starts, k - 1) && GapAt(b, items, sep, others, k - 1);
      var i, j, l := starts[k - 1], starts[k - 1] + |items[k - 1]|, starts[k];
      assert a[..l] == a[..i] + a[i..j] + a[j..l];
      assert b[..l] == b[..i] + b[i..j] + b[j..l];
    }
  }

  /** Joining by the separator undoes splitting by it ... */
  lemma {:induction false} JoinUndoesSplit(s: string, c: char)
    ensures Join(Split(s, c), [c]) == s && Split(s, c) != []
    ensures forall k :: 0 <= k < |Split(s, c)| ==> c !in Split(s, c)[k]
    decreases |s|
  {
    SplitCons(s, c);
    hide Split;
    var k := IndexOf(s, c);
    if k >= 0 {
      var rest := Split(s[k + 1..], c);
      JoinUndoesSplit(s[k + 1..], c);
      hide IndexOf, Join;
      JoinCons(s[..k], rest, [c]);
      CutAt(s, k);
    }
  }

  lemma SplitCons(s: string, c: char)
    ensures var k := IndexOf(s, c);
            if k < 0 then Split(s, c) == [s]
            else Split(s, c) == [s[..k]] + Split(s[k + 1..], c)
  {
  }

  lemma CutAt(s: string, k: nat)
    requires k < |s|
    ensures s == s[..k] + [s[k]] + s[k + 1..]
  {
  }

  lemma JoinCons(first: string, rest: seq<string>, sep: string)
    requires rest != []
    ensures Join([first] + rest, sep) == first + sep + Join(rest, sep)
  {
    assert ([first] + rest)[1..] == rest;
  }

  /** ... and the other way round. */
  lemma {:induction false} SplitUndoesJoin(items: seq<string>, c: char)
    requires items != [] && forall k :: 0 <= k < |items| ==> c !in items[k]
    ensures Split(Join(items, [c]), c) == items
    decreases |items|
  {
    if |items| > 1 {
      var s, n, rest := Join(items, [c]), |items[0]|, Join(items[1..], [c]);
      SplitUndoesJoin(items[1..], c);
      hide Join;
      assert s == items[0] + [c] + rest by { JoinCons(items[0], items[1..], [c]); assert [items[0]] + items[1..] == items; }
      assert s[..n] == items[0] && s[n] == c && s[n + 1..] == rest;
      IndexOfFirst(s, c, n);
    }
  }
}
