/** The scheduler's min-heap: container/heap over a slice of entries ordered by next fire time.

    Every operation keeps the heap order and changes the bag of entries exactly as a plain
    multiset would. The entries' `index` field is not modelled: nothing reads it. */
module SubscriptionHeap {
  import opened Common

  datatype TriggerDef = Cron(expr: string) | Once(at: string) | Other(kind: string)

  datatype Subscription = Subscription(id: string, instanceID: string, trigger: TriggerDef)

  /** schedule is the parsed cron expression; a one-shot entry has none. */
  datatype Entry = Entry(sub: Subscription, schedule: Option<string>, nextFire: int)

  predicate Less(a: Entry, b: Entry) { a.nextFire < b.nextFire }

  function Parent(k: nat): nat
    requires k > 0
  {
    (k - 1) / 2
  }

  /** Entry k is no earlier than its parent. */
  predicate InOrder(h: seq<Entry>, k: nat)
    requires 0 < k < |h|
  {
    h[Parent(k)].nextFire <= h[k].nextFire
  }

  ghost predicate IsHeap(h: seq<Entry>) {
    forall k :: 0 < k < |h| ==> InOrder(h, k)
  }

  function Swap(h: seq<Entry>, i: nat, j: nat): seq<Entry>
    requires i < |h| && j < |h|
  {
    h[i := h[j]][j := h[i]]
  }

  lemma SwapKeepsBag(h: seq<Entry>, i: nat, j: nat)
    requires i < |h| && j < |h|
    ensures multiset(Swap(h, i, j)) == multiset(h)
  {
  }

  /** The nodes from lo on form a heap, except that the entry at i may be too late for its
      children (down pending) or, if upToo, too early for its parent. */
  ghost predicate HeapExcept(h: seq<Entry>, lo: nat, i: nat, upToo: bool) {
    && (forall k :: 0 < k < |h| && Parent(k) >= lo && Parent(k) != i && !(upToo && k == i) ==> InOrder(h, k))
    && (forall k :: 0 < k < |h| && Parent(k) == i && i > 0 && Parent(i) >= lo ==>
          h[Parent(i)].nextFire <= h[k].nextFire)
  }

  function EarliestChild(h: seq<Entry>, i: nat): (j: nat)
    requires 2 * i + 1 < |h|
    ensures i < j < |h| && Parent(j) == i
    ensures forall k :: 0 < k < |h| && Parent(k) == i ==> h[j].nextFire <= h[k].nextFire
    ensures h[j].nextFire == h[2 * i + 1].nextFire ==> j == 2 * i + 1
  {
    var j1 := 2 * i + 1;
    var j2 := j1 + 1;
    assert forall k :: 0 < k && Parent(k) == i ==> k == j1 || k == j2;
    if j2 < |h| && Less(h[j2], h[j1]) then j2 else j1
  }

  /** heap.down: sift the entry at i0 towards the leaves. The source passes a bound n and works on
      the first n entries; here h is those entries. */
  method Down(h: seq<Entry>, i0: nat, ghost lo: nat) returns (r: seq<Entry>, moved: bool)
    requires lo <= i0 <= |h|
    requires HeapExcept(h, lo, i0, true)
    ensures |r| == |h| && multiset(r) == multiset(h)
    ensures !moved ==> r == h
    ensures forall k :: 0 < k < |h| && Parent(k) >= lo && (moved || k != i0) ==> InOrder(r, k)
  {
    r := h;
    var i := i0;
    while 2 * i + 1 < |r| && Less(r[EarliestChild(r, i)], r[i])
      invariant i0 <= i <= |h| && |r| == |h| && multiset(r) == multiset(h)
      invariant i == i0 ==> r == h
      invariant HeapExcept(r, lo, i, i == i0)
      decreases |h| - i
    {
      var j := EarliestChild(r, i);
      SwapKeepsBag(r, i, j);
      DownStep(r, lo, i, j, i == i0);
      r := Swap(r, i, j);
      i := j;
    }
    moved := i > i0;
    DownDone(r, lo, i, i == i0);
  }

  lemma DownDone(h: seq<Entry>, lo: nat, i: nat, upToo: bool)
    requires HeapExcept(h, lo, i, upToo)
    requires 2 * i + 1 < |h| ==> !Less(h[EarliestChild(h, i)], h[i])
    ensures forall k :: 0 < k < |h| && Parent(k) >= lo && !(upToo && k == i) ==> InOrder(h, k)
  {
  }

  /** Exchanging the entry at i with its earliest child moves the exception to that child. */
  lemma DownStep(h: seq<Entry>, lo: nat, i: nat, j: nat, upToo: bool)
    requires lo <= i < j < |h| && Parent(j) == i && Less(h[j], h[i])
    requires forall k :: 0 < k < |h| && Parent(k) == i ==> h[j].nextFire <= h[k].nextFire
    requires HeapExcept(h, lo, i, upToo)
    ensures HeapExcept(Swap(h, i, j), lo, j, false)
  {
    var r := Swap(h, i, j);
    forall k | 0 < k < |h| && Parent(k) >= lo && Parent(k) != j ensures InOrder(r, k) {
      if k == i {
      } else if Parent(k) != i {
        assert InOrder(h, k);
      }
    }
    forall k | 0 < k < |h| && Parent(k) == j ensures r[Parent(j)].nextFire <= r[k].nextFire {
      assert InOrder(h, k);
    }
  }

  /** heap.up: sift the entry at j0 towards the root. */
  method Up(h: seq<Entry>, j0: nat) returns (r: seq<Entry>)
    requires j0 < |h|
    requires forall k :: 0 < k < |h| && k != j0 ==> InOrder(h, k)
    requires forall k :: 0 < k < |h| && Parent(k) == j0 && j0 > 0 ==> h[Parent(j0)].nextFire <= h[k].nextFire
    ensures |r| == |h| && multiset(r) == multiset(h) && IsHeap(r)
    ensures j0 == 0 || h[Parent(j0)].nextFire <= h[j0].nextFire ==> r == h
  {
    r := h;
    var j := j0;
    while j > 0 && Less(r[j], r[Parent(j)])
      invariant j <= j0 && |r| == |h| && multiset(r) == multiset(h)
      invariant j == j0 ==> r == h
      invariant j != j0 ==> j0 > 0 && h[j0].nextFire < h[Parent(j0)].nextFire
      invariant forall k :: 0 < k < |h| && k != j ==> InOrder(r, k)
      invariant forall k :: 0 < k < |h| && Parent(k) == j && j > 0 ==> r[Parent(j)].nextFire <= r[k].nextFire
    {
      var i := Parent(j);
      SwapKeepsBag(r, i, j);
      UpStep(r, j);
      r := Swap(r, i, j);
      j := i;
    }
  }

  lemma UpStep(h: seq<Entry>, j: nat)
    requires 0 < j < |h| && Less(h[j], h[Parent(j)])
    requires forall k :: 0 < k < |h| && k != j ==> InOrder(h, k)
    requires forall k :: 0 < k < |h| && Parent(k) == j ==> h[Parent(j)].nextFire <= h[k].nextFire
    ensures var i, r := Parent(j), Swap(h, Parent(j), j);
            && (forall k :: 0 < k < |h| && k != i ==> InOrder(r, k))
            && (forall k :: 0 < k < |h| && Parent(k) == i && i > 0 ==> r[Parent(i)].nextFire <= r[k].nextFire)
  {
    var i, r := Parent(j), Swap(h, Parent(j), j);
    forall k | 0 < k < |h| && k != i ensures InOrder(r, k) {
      if k != j {
        assert InOrder(h, k);
      }
    }
    forall k | 0 < k < |h| && Parent(k) == i && i > 0 ensures r[Parent(i)].nextFire <= r[k].nextFire {
      assert InOrder(h, i);
      if k != j {
        assert InOrder(h, k);
      }
    }
  }

  /** heap.Init on an arbitrary slice. */
  method Init(h: seq<Entry>) returns (r: seq<Entry>)
    ensures |r| == |h| && multiset(r) == multiset(h) && IsHeap(r)
  {
    r := h;
    var i := |h| / 2;
    while i > 0
      invariant i <= |h| / 2 && |r| == |h| && multiset(r) == multiset(h)
      invariant forall k :: 0 < k < |h| && Parent(k) >= i ==> InOrder(r, k)
    {
      i := i - 1;
      var moved;
      r, moved := Down(r, i, i);
      forall k | 0 < k < |h| && Parent(k) >= i ensures InOrder(r, k) {
        assert k != i;
      }
    }
  }

  /** heap.Push: an entry that is no earlier than any other stays last. */
  method Push(h: seq<Entry>, e: Entry) returns (r: seq<Entry>)
    requires IsHeap(h)
    ensures IsHeap(r) && multiset(r) == multiset(h) + multiset{e}
    ensures (forall f :: f in h ==> f.nextFire <= e.nextFire) ==> r == h + [e]
  {
    var g := h + [e];
    forall k | 0 < k < |g| && k != |h| ensures InOrder(g, k) {
      assert InOrder(h, k);
    }
    r := Up(g, |h|);
  }

  /** heap.Pop: takes an earliest entry. */
  method Pop(h: seq<Entry>) returns (e: Entry, r: seq<Entry>)
    requires IsHeap(h) && |h| > 0
    ensures e in h && e == h[0] && forall f :: f in h ==> e.nextFire <= f.nextFire
    ensures IsHeap(r) && multiset(r) + multiset{e} == multiset(h)
  {
    RootIsEarliest(h);
    e, r := Remove(h, 0);
  }

  /** heap.Remove(h, i); Pop is Remove at the root, where up does nothing. */
  method Remove(h: seq<Entry>, i: nat) returns (e: Entry, r: seq<Entry>)
    requires IsHeap(h) && i < |h|
    ensures e == h[i]
    ensures IsHeap(r) && multiset(r) + multiset{e} == multiset(h)
  {
    hide IsHeap;
    e := h[i];
    if i == |h| - 1 {
      LastLeaves(h);
      r := h[..i];
    } else {
      r := FillHole(h, i);
    }
  }

  /** The last entry takes the place of the one at i. */
  method FillHole(h: seq<Entry>, i: nat) returns (r: seq<Entry>)
    requires IsHeap(h) && i < |h| - 1
    ensures IsHeap(r) && multiset(r) + multiset{h[i]} == multiset(h)
  {
    BagWithoutHole(h, i);
    LastToHole(h, i);
    hide Swap, IsHeap, HeapExcept;
    var g := Swap(h, i, |h| - 1)[..|h| - 1];
    r := Fix(g, i);
  }

  /** The entry at i sinks, or else rises. */
  method Fix(h: seq<Entry>, i: nat) returns (r: seq<Entry>)
    requires i < |h| && HeapExcept(h, 0, i, true)
    ensures IsHeap(r) && multiset(r) == multiset(h)
  {
    var moved;
    r, moved := Down(h, i, 0);
    if !moved {
      r := Up(r, i);
    }
  }

  lemma LastLeaves(h: seq<Entry>)
    requires IsHeap(h) && |h| > 0
    ensures IsHeap(h[..|h| - 1]) && multiset(h[..|h| - 1]) + multiset{h[|h| - 1]} == multiset(h)
  {
    var r := h[..|h| - 1];
    assert h == r + [h[|h| - 1]];
    assert forall k :: 0 < k < |r| ==> InOrder(h, k) == InOrder(r, k);
  }

  lemma BagWithoutHole(h: seq<Entry>, i: nat)
    requires i < |h| - 1
    ensures |Swap(h, i, |h| - 1)| == |h| && multiset(Swap(h, i, |h| - 1)[..|h| - 1]) + multiset{h[i]} == multiset(h)
  {
    var g := Swap(h, i, |h| - 1);
    SwapKeepsBag(h, i, |h| - 1);
    assert g == g[..|h| - 1] + [h[i]];
  }

  /** Moving the last entry into position i leaves a heap of the rest, except at i. */
  lemma LastToHole(h: seq<Entry>, i: nat)
    requires IsHeap(h) && i < |h| - 1
    ensures HeapExcept(Swap(h, i, |h| - 1)[..|h| - 1], 0, i, true)
  {
    var g := Swap(h, i, |h| - 1)[..|h| - 1];
    forall k | 0 < k < |g| && Parent(k) != i && k != i ensures InOrder(g, k) {
      assert InOrder(h, k);
    }
    forall k | 0 < k < |g| && Parent(k) == i && i > 0 ensures g[Parent(i)].nextFire <= g[k].nextFire {
      assert InOrder(h, k) && InOrder(h, i);
    }
  }

  /** In a heap no entry is earlier than the root. */
  lemma RootIsEarliest(h: seq<Entry>)
    requires IsHeap(h) && |h| > 0
    ensures forall f :: f in h ==> h[0].nextFire <= f.nextFire
  {
    forall f | f in h ensures h[0].nextFire <= f.nextFire {
      var k :| 0 <= k < |h| && h[k] == f;
      RootIsNotAfter(h, k);
    }
  }

  lemma {:induction false} RootIsNotAfter(h: seq<Entry>, k: nat)
    requires IsHeap(h) && k < |h|
    ensures h[0].nextFire <= h[k].nextFire
  {
    if k > 0 {
      assert InOrder(h, k);
      RootIsNotAfter(h, Parent(k));
    }
  }
}
