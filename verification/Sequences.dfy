/** Sequences: the most recent elements of a log, as bounded buffers keep them, and concatenation. */
module Sequences {

  /** The last n elements, or all if there are fewer. */
  function Last<T>(s: seq<T>, n: nat): (r: seq<T>)
    ensures |r| == if |s| < n then |s| else n
  {
    if |s| <= n then s else s[|s| - n..]
  }

  lemma LastIsSuffix<T>(s: seq<T>, n: nat)
    ensures s == s[..|s| - |Last(s, n)|] + Last(s, n)
  {
  }

  /** Cutting after every append is cutting once. */
  lemma LastAppend<T>(s: seq<T>, p: seq<T>, n: nat)
    ensures Last(Last(s, n) + p, n) == Last(s + p, n)
  {
    var r := Last(s, n);
    assert s == s[..|s| - |r|] + r;
    assert s + p == s[..|s| - |r|] + (r + p);
    if |r + p| > n {
      assert (s + p)[|s + p| - n..] == (r + p)[|r + p| - n..];
    } else {
      assert |s| <= n || |p| == 0;
      if |s| <= n {
        assert r + p == s + p;
      } else {
        assert r + p == r && s + p == s;
      }
    }
  }

  function Concat<T>(ss: seq<seq<T>>): seq<T> {
    if ss == [] then [] else ss[0] + Concat(ss[1..])
  }

  lemma Associate<T>(a: seq<T>, b: seq<T>, c: seq<T>)
    ensures a + (b + c) == (a + b) + c
  {
  }

  lemma {:induction false} ConcatAppend<T>(a: seq<seq<T>>, b: seq<seq<T>>)
    ensures Concat(a + b) == Concat(a) + Concat(b)
  {
    if a == [] {
      assert a + b == b;
    } else {
      ConcatAppend(a[1..], b);
      assert (a + b)[0] == a[0] && (a + b)[1..] == a[1..] + b;
      Associate(a[0], Concat(a[1..]), Concat(b));
    }
  }

  lemma ConcatOne<T>(s: seq<T>)
    ensures Concat([s]) == s && Concat<T>([]) == []
  {
  }

  lemma ConcatCons<T>(s: seq<T>, ss: seq<seq<T>>)
    ensures Concat([s] + ss) == s + Concat(ss)
  {
    assert ([s] + ss)[1..] == ss;
  }
}
