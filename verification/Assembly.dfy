/** Context assembly: split off the fresh tail, cap it at 80% of the budget, then fill what is left
    from the older items, newest first. The two phases collapse to one line: the longest suffix
    that fits, or the last item alone. */
module Assembly {
  import opened Sequences

  datatype Resolved = Resolved(message: string, tokens: nat)

  function Sum(items: seq<Resolved>): nat {
    if items == [] then 0 else items[0].tokens + Sum(items[1..])
  }

  lemma {:induction false} SumConcat(a: seq<Resolved>, b: seq<Resolved>)
    ensures Sum(a + b) == Sum(a) + Sum(b)
  {
    if a == [] {
      assert a + b == b;
    } else {
      SumConcat(a[1..], b);
      assert (a + b)[1..] == a[1..] + b;
    }
  }

  lemma LastStep(all: seq<Resolved>, n: nat)
    requires n < |all|
    ensures Sum(Last(all, n + 1)) == all[|all| - n - 1].tokens + Sum(Last(all, n))
  {
    assert Last(all, n + 1) == [all[|all| - n - 1]] + Last(all, n);
  }

  lemma {:induction false} LongerIsHeavier(all: seq<Resolved>, m: nat, n: nat)
    requires m <= n <= |all|
    ensures Sum(Last(all, m)) <= Sum(Last(all, n))
  {
    hide Last, Sum;
    if m < n {
      LastStep(all, n - 1);
      LongerIsHeavier(all, m, n - 1);
    }
  }

  predicate Positive(all: seq<Resolved>) { forall i :: 0 <= i < |all| ==> all[i].tokens > 0 }

  /** The specification: n items from the end, the most that fit the budget, but never fewer than
      `least` (1 with any fresh tail at all: the last item stays even if it does not fit). */
  ghost predicate IsLongestFit(all: seq<Resolved>, budget: nat, least: nat, n: nat) {
    && least <= n <= |all|
    && (n > least ==> Sum(Last(all, n)) <= budget)
    && (forall m :: n < m <= |all| ==> Sum(Last(all, m)) > budget)
  }

  lemma LongestFitIsUnique(all: seq<Resolved>, budget: nat, least: nat, m: nat, n: nat)
    requires IsLongestFit(all, budget, least, m) && IsLongestFit(all, budget, least, n)
    ensures m == n
  {
  }

  /** capFreshTail. The source returns the shortened tail, the rest, and the tail's tokens. */
  method CapFreshTail(all: seq<Resolved>, tailCount: nat, budget: nat)
    returns (freshTail: seq<Resolved>, evictable: seq<Resolved>, tailTokens: nat)
    requires tailCount <= |all|
    ensures all == evictable + freshTail && tailTokens == Sum(freshTail)
    ensures |freshTail| <= tailCount && (tailCount > 0 ==> |freshTail| > 0)
    ensures |freshTail| > 1 ==> tailTokens <= budget * 80 / 100
    ensures |freshTail| < tailCount ==> Sum(Last(all, |freshTail| + 1)) > budget * 80 / 100
  {
    hide Last, Sum;
    freshTail := all[|all| - tailCount..];
    evictable := all[..|all| - tailCount];
    TailOf(all, tailCount);
    tailTokens := SumTokens(freshTail);
    var maxTailTokens := budget * 80 / 100;
    if tailTokens > maxTailTokens {
      while |freshTail| > 1 && tailTokens > maxTailTokens
        invariant |freshTail| <= tailCount && freshTail == Last(all, |freshTail|)
        invariant tailTokens == Sum(freshTail) && (tailCount > 0 ==> |freshTail| > 0)
        invariant |freshTail| < tailCount ==> Sum(Last(all, |freshTail| + 1)) > maxTailTokens
        decreases |freshTail|
      {
        ShorterTail(all, |freshTail|);
        tailTokens := tailTokens - freshTail[0].tokens;
        freshTail := freshTail[1..];
      }
      evictable := all[..|all| - |freshTail|];
      TailOf(all, |freshTail|);
    }
  }

  lemma TailOf(all: seq<Resolved>, n: nat)
    requires n <= |all|
    ensures Last(all, n) == all[|all| - n..] && all == all[..|all| - n] + Last(all, n)
  {
  }

  lemma ShorterTail(all: seq<Resolved>, n: nat)
    requires 0 < n <= |all|
    ensures Last(all, n)[1..] == Last(all, n - 1)
    ensures Sum(Last(all, n)) == Last(all, n)[0].tokens + Sum(Last(all, n - 1))
  {
  }

  method SumTokens(items: seq<Resolved>) returns (total: nat)
    ensures total == Sum(items)
  {
    total := 0;
    for i := 0 to |items|
      invariant total == Sum(items[..i])
    {
      SumConcat(items[..i], [items[i]]);
      assert items[..i + 1] == items[..i] + [items[i]];
      total := total + items[i].tokens;
    }
    assert items[..|items|] == items;
  }

  /** fillBudget: newest first while something remains and the next item fits, then back into
      chronological order. */
  method FillBudget(evictable: seq<Resolved>, budget: int) returns (kept: seq<Resolved>)
    ensures |kept| <= |evictable| && kept == Last(evictable, |kept|)
    ensures |kept| > 0 ==> Sum(kept) <= budget
    ensures |kept| < |evictable| ==>
              Sum(kept) >= budget || Sum(Last(evictable, |kept| + 1)) > budget
  {
    var remaining := budget;
    var keptReverse: seq<Resolved> := [];
    var i := |evictable|;
    while i > 0
      invariant 0 <= i <= |evictable| && |keptReverse| == |evictable| - i
      invariant forall k :: 0 <= k < |keptReverse| ==> keptReverse[k] == evictable[|evictable| - 1 - k]
      invariant remaining == budget - Sum(evictable[i..])
      invariant i < |evictable| ==> remaining >= 0
    {
      assert evictable[i - 1..] == [evictable[i - 1]] + evictable[i..];
      if remaining <= 0 || evictable[i - 1].tokens > remaining {
        break;
      }
      keptReverse := keptReverse + [evictable[i - 1]];
      remaining := remaining - evictable[i - 1].tokens;
      i := i - 1;
    }
    kept := Reverse(keptReverse);
    assert kept == evictable[i..];
  }

  method Reverse(s: seq<Resolved>) returns (r: seq<Resolved>)
    ensures |r| == |s| && forall i :: 0 <= i < |s| ==> r[i] == s[|s| - 1 - i]
  {
    r := s;
    for i := 0 to |s|
      invariant |r| == |s| && forall k :: 0 <= k < i ==> r[|s| - 1 - k] == s[k]
    {
      r := r[|s| - 1 - i := s[i]];
    }
  }

  /** Assemble, from the resolved items on. */
  method Assemble(all: seq<Resolved>, freshTailCount: nat, budget: nat)
    returns (messages: seq<Resolved>, estimatedTokens: nat)
    ensures |messages| <= |all| && messages == Last(all, |messages|) && estimatedTokens == Sum(messages)
    ensures |messages| > 1 ==> estimatedTokens <= budget
    ensures |all| > 0 && freshTailCount > 0 ==> |messages| > 0
    ensures Positive(all) ==>
              IsLongestFit(all, budget, if |all| > 0 && freshTailCount > 0 then 1 else 0, |messages|)
  {
    hide Sum, Last, Positive;
    var tailCount := if freshTailCount < |all| then freshTailCount else |all|;
    var freshTail, evictable, tailTokens := CapFreshTail(all, tailCount, budget);
    var kept := FillBudget(evictable, budget - tailTokens);
    messages := kept + freshTail;
    SumConcat(kept, freshTail);
    estimatedTokens := Sum(messages);
    SuffixOfAll(evictable, freshTail, |kept|);
    assert |messages| > 1 ==> estimatedTokens <= budget by {
      NothingWeighsNothing();
    }
    if Positive(all) && |messages| < |all| {
      NextDoesNotFit(all, evictable, freshTail, kept, budget);
      forall m | |messages| < m <= |all| ensures Sum(Last(all, m)) > budget {
        LongerIsHeavier(all, |messages| + 1, m);
      }
    }
  }

  lemma SuffixOfAll(evictable: seq<Resolved>, freshTail: seq<Resolved>, n: nat)
    requires n <= |evictable|
    ensures Last(evictable, n) + freshTail == Last(evictable + freshTail, n + |freshTail|)
  {
  }

  lemma NothingWeighsNothing()
    ensures Sum([]) == 0
  {
  }

  lemma NextDoesNotFit(all: seq<Resolved>, evictable: seq<Resolved>, freshTail: seq<Resolved>,
                       kept: seq<Resolved>, budget: nat)
    requires all == evictable + freshTail && Positive(all) && |kept| < |evictable| && kept == Last(evictable, |kept|)
    requires Sum(kept) >= budget - Sum(freshTail) || Sum(Last(evictable, |kept| + 1)) > budget - Sum(freshTail)
    ensures Sum(Last(all, |kept| + |freshTail| + 1)) > budget
  {
    var n := |kept| + 1;
    SuffixOfAll(evictable, freshTail, n);
    SumConcat(Last(evictable, n), freshTail);
    LastStep(evictable, |kept|);
    assert all[|evictable| - n] == evictable[|evictable| - n];
  }
}
