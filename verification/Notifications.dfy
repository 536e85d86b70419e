/** The notification queue: any number of producers append and then signal, the pump waits for the
    signal and then drains. */
module Notifications {
  import opened Sequences

  const MAX_NOTIFICATIONS: nat := 1000

  datatype Notification = Notification(content: string, source: string, sessionId: string)

  // ----- The queue -----

  class NotificationQueue {
    var items: seq<Notification>
    /** The buffered channel of capacity one holds a token. */
    var signalled: bool
    /** Everything pushed since the last drain. */
    ghost var since: seq<Notification>

    ghost predicate Valid()
      reads this
    {
      items == Last(since, MAX_NOTIFICATIONS)
    }

    constructor ()
      ensures Valid() && since == [] && !signalled
    {
      items := [];
      signalled := false;
      since := [];
    }

    /** The critical section of Push. */
    method Append(n: Notification)
      requires Valid()
      modifies this
      ensures Valid() && since == old(since) + [n] && signalled == old(signalled)
      ensures items == (if |old(items)| >= 1000 then old(items)[1..] else old(items)) + [n]
    {
      LastAppend(since, [n], MAX_NOTIFICATIONS);
      if |items| >= MAX_NOTIFICATIONS {
        items := items[1..];
      }
      items := items + [n];
      since := since + [n];
    }

    /** The non-blocking send that follows it. */
    method Signal()
      modifies this
      ensures signalled && items == old(items) && since == old(since)
    {
      signalled := true;
    }

    method Push(n: Notification)
      requires Valid()
      modifies this
      ensures Valid() && since == old(since) + [n] && signalled && items == Last(since, 1000)
    {
      Append(n);
      Signal();
    }

    method Drain() returns (batch: seq<Notification>)
      requires Valid()
      modifies this
      ensures Valid() && since == [] && signalled == old(signalled)
      ensures batch == Last(old(since), 1000) && items == []
    {
      batch := items;
      items := [];
      since := [];
    }
  }

  // ----- The protocol -----

  /** What one drain returned, and the part of the push log since the drain before it. */
  datatype Batch = Batch(items: seq<Notification>, from: nat, to: nat)

  /** signalling: producers between append and signal. draining: pumps between receive and drain.
      For the proof: the log of all pushes, and the drained batches. */
  datatype State = State(items: seq<Notification>, token: bool, signalling: nat, draining: nat,
                         log: seq<Notification>, batches: seq<Batch>)

  const EMPTY := State([], false, 0, 0, [], [])

  /** Length of the push log at the k-th drain. */
  function Mark(batches: seq<Batch>, k: nat): nat
    requires k <= |batches|
  {
    if k == 0 then 0 else batches[k - 1].to
  }

  datatype Event = Append(n: Notification) | Signal | Receive | Drain

  ghost predicate Step(s: State, ev: Event, t: State) {
    match ev
    case Append(n) =>
      var rest := if |s.items| >= MAX_NOTIFICATIONS then s.items[1..] else s.items;
      t == s.(items := rest + [n], signalling := s.signalling + 1, log := s.log + [n])
    case Signal => s.signalling > 0 && t == s.(token := true, signalling := s.signalling - 1)
    case Receive => s.token && t == s.(token := false, draining := s.draining + 1)
    case Drain =>
      s.draining > 0
      && t == s.(items := [], draining := s.draining - 1,
                 batches := s.batches + [Batch(s.items, Mark(s.batches, |s.batches|), |s.log|)])
  }

  /** A batch is what was pushed since the drain before, short of what overflowed the bound. */
  ghost predicate BatchFits(log: seq<Notification>, batches: seq<Batch>, i: nat)
    requires i < |batches|
  {
    var b := batches[i];
    b.from == Mark(batches, i) && b.from <= b.to <= |log| && b.items == Last(log[b.from..b.to], MAX_NOTIFICATIONS)
  }

  /** So is every batch, and so are the pending items. */
  ghost predicate Accounted(s: State) {
    var m := Mark(s.batches, |s.batches|);
    && (forall i :: 0 <= i < |s.batches| ==> BatchFits(s.log, s.batches, i))
    && m <= |s.log| && s.items == Last(s.log[m..], MAX_NOTIFICATIONS)
  }

  /** Pending items are on their way: a token waits, or a producer is about to send one, or a pump
      is about to drain. */
  predicate Awaited(s: State) { s.items != [] ==> s.token || s.signalling > 0 || s.draining > 0 }

  lemma AppendAccounted(s: State, n: Notification, t: State)
    requires Accounted(s) && Step(s, Append(n), t)
    ensures Accounted(t)
  {
    var m := Mark(s.batches, |s.batches|);
    LastAppend(s.log[m..], [n], MAX_NOTIFICATIONS);
    assert t.log[m..] == s.log[m..] + [n];
    forall i | 0 <= i < |t.batches| ensures BatchFits(t.log, t.batches, i) {
      assert BatchFits(s.log, s.batches, i);
      var b := s.batches[i];
      assert t.log[b.from..b.to] == s.log[b.from..b.to];
    }
    CutIsLast(s.log[m..], s.items, n);
  }

  /** Dropping the oldest item before appending is cutting after it. */
  lemma CutIsLast(since: seq<Notification>, items: seq<Notification>, n: Notification)
    requires items == Last(since, MAX_NOTIFICATIONS)
    ensures (if |items| >= MAX_NOTIFICATIONS then items[1..] else items) + [n] == Last(since + [n], MAX_NOTIFICATIONS)
  {
    LastAppend(since, [n], MAX_NOTIFICATIONS);
  }

  lemma DrainAccounted(s: State, t: State)
    requires Accounted(s) && Step(s, Drain, t)
    ensures Accounted(t)
  {
    hide BatchFits, Last;
    var m := Mark(s.batches, |s.batches|);
    assert s.log[m..] == s.log[m..|s.log|] && s.log[|s.log|..] == [];
    BatchAdded(s.log, s.batches, Batch(s.items, m, |s.log|));
  }

  lemma BatchAdded(log: seq<Notification>, batches: seq<Batch>, b: Batch)
    requires forall i :: 0 <= i < |batches| ==> BatchFits(log, batches, i)
    requires b.from == Mark(batches, |batches|) <= b.to <= |log|
    requires b.items == Last(log[b.from..b.to], MAX_NOTIFICATIONS)
    ensures forall i :: 0 <= i <= |batches| ==> BatchFits(log, batches + [b], i)
    ensures Mark(batches + [b], |batches| + 1) == b.to
  {
    hide Last;
    var all := batches + [b];
    forall i | 0 <= i <= |batches| ensures BatchFits(log, all, i) {
      assert Mark(all, i) == Mark(batches, i);
      if i < |batches| {
        assert BatchFits(log, batches, i) && all[i] == batches[i];
      }
    }
  }

  lemma StepKeepsInv(s: State, ev: Event, t: State)
    requires Accounted(s) && Awaited(s) && Step(s, ev, t)
    ensures Accounted(t) && Awaited(t)
  {
    match ev
    case Append(n) => AppendAccounted(s, n, t);
    case Signal =>
    case Receive =>
    case Drain => DrainAccounted(s, t);
  }

  ghost predicate IsRun(states: seq<State>, events: seq<Event>) {
    && |states| == |events| + 1 && states[0] == EMPTY
    && forall i :: 0 <= i < |events| ==> Step(states[i], events[i], states[i + 1])
  }

  /** Over every run. */
  lemma {:induction false} RunKeepsInv(states: seq<State>, events: seq<Event>, i: nat)
    requires IsRun(states, events) && i < |states|
    ensures Accounted(states[i]) && Awaited(states[i])
  {
    hide Accounted, Awaited, Step;
    if i == 0 {
      EmptyIsAccounted();
    } else {
      RunKeepsInv(states, events, i - 1);
      assert Step(states[i - 1], events[i - 1], states[i - 1 + 1]);
      StepKeepsInv(states[i - 1], events[i - 1], states[i]);
    }
  }

  lemma EmptyIsAccounted()
    ensures Accounted(EMPTY) && Awaited(EMPTY)
  {
  }

  /** No wakeup is lost: with no producer in its last step and no pump about to drain, pending items
      always have a token to wake the pump. */
  lemma NoLostWakeup(states: seq<State>, events: seq<Event>, i: nat)
    requires IsRun(states, events) && i < |states|
    requires states[i].signalling == 0 && states[i].draining == 0 && states[i].items != []
    ensures states[i].token && Step(states[i], Receive, states[i].(token := false, draining := 1))
  {
    RunKeepsInv(states, events, i);
  }

  /** From any state of any run, with nobody in between: a push and its signal, and the pump's receive
      and drain, are possible, and deliver everything pending with the pushed notification last. */
  lemma PushIsDelivered(states: seq<State>, events: seq<Event>, i: nat, n: Notification)
    returns (appended: State, signalled: State, received: State, drained: State)
    requires IsRun(states, events) && i < |states|
    ensures Step(states[i], Append(n), appended) && Step(appended, Signal, signalled)
    ensures Step(signalled, Receive, received) && Step(received, Drain, drained)
    ensures signalled.token && drained.items == [] && drained.log == states[i].log + [n]
    ensures drained.signalling == states[i].signalling && drained.draining == states[i].draining
    ensures |drained.batches| == |states[i].batches| + 1
    ensures var b := drained.batches[|states[i].batches|];
            && b.to == |drained.log| && b.items != [] && b.items[|b.items| - 1] == n
            && b.items == (if |states[i].items| < 1000 then states[i].items else states[i].items[1..]) + [n]
  {
    var s := states[i];
    var items := (if |s.items| >= 1000 then s.items[1..] else s.items) + [n];
    var log := s.log + [n];
    appended := State(items, s.token, s.signalling + 1, s.draining, log, s.batches);
    signalled := State(items, true, s.signalling, s.draining, log, s.batches);
    received := State(items, false, s.signalling, s.draining + 1, log, s.batches);
    var b := Batch(items, Mark(s.batches, |s.batches|), |log|);
    drained := State([], false, s.signalling, s.draining, log, s.batches + [b]);
  }

  // ----- Order -----

  function Delivered(bs: seq<Batch>): seq<Notification> {
    if bs == [] then [] else Delivered(bs[..|bs| - 1]) + bs[|bs| - 1].items
  }

  /** a is b with some elements left out. */
  predicate IsSubsequence(a: seq<Notification>, b: seq<Notification>) {
    a == [] || (b != [] && (IsSubsequence(a, b[..|b| - 1])
                            || (a[|a| - 1] == b[|b| - 1] && IsSubsequence(a[..|a| - 1], b[..|b| - 1]))))
  }

  /** Where the elements of a subsequence come from. */
  lemma {:induction false} SubsequencePlaces(a: seq<Notification>, b: seq<Notification>) returns (places: seq<nat>)
    requires IsSubsequence(a, b)
    ensures |places| == |a| && forall k :: 0 <= k < |a| ==> places[k] < |b| && a[k] == b[places[k]]
    ensures forall j, k :: 0 <= j < k < |a| ==> places[j] < places[k]
    decreases |b|
  {
    if a == [] {
      places := [];
    } else if IsSubsequence(a, b[..|b| - 1]) {
      places := SubsequencePlaces(a, b[..|b| - 1]);
    } else {
      places := SubsequencePlaces(a[..|a| - 1], b[..|b| - 1]);
      places := places + [|b| - 1];
    }
  }

  /** Leaving out a middle part and keeping an end. */
  lemma {:induction false} SubsequenceGrows(a: seq<Notification>, b: seq<Notification>, skip: seq<Notification>,
                                            keep: seq<Notification>)
    requires IsSubsequence(a, b)
    ensures IsSubsequence(a + keep, b + skip + keep)
    decreases |skip| + |keep|
  {
    var whole := b + skip + keep;
    if keep != [] {
      var k := |keep| - 1;
      SubsequenceGrows(a, b, skip, keep[..k]);
      assert whole[..|whole| - 1] == b + skip + keep[..k];
      assert (a + keep)[..|a + keep| - 1] == a + keep[..k];
    } else if skip != [] {
      var k := |skip| - 1;
      SubsequenceGrows(a, b, skip[..k], []);
      assert whole[..|whole| - 1] == b + skip[..k] + [];
      assert a + [] == a && a + keep == a;
    } else {
      assert a + keep == a && whole == b;
    }
  }

  /** No batch overflowed. */
  predicate AllFit(batches: seq<Batch>) {
    forall i :: 0 <= i < |batches| ==> batches[i].to - batches[i].from <= 1000
  }

  lemma {:induction false} BatchesInOrder(log: seq<Notification>, batches: seq<Batch>)
    requires forall i :: 0 <= i < |batches| ==> BatchFits(log, batches, i)
    ensures var m := Mark(batches, |batches|);
            && m <= |log| && IsSubsequence(Delivered(batches), log[..m])
            && (AllFit(batches) ==> Delivered(batches) == log[..m])
  {
    if batches != [] {
      var k := |batches| - 1;
      var front, last := batches[..k], batches[k];
      forall i | 0 <= i < k ensures BatchFits(log, front, i) {
        assert BatchFits(log, batches, i);
      }
      BatchesInOrder(log, front);
      assert BatchFits(log, batches, k);
      Extend(log, Delivered(front), last.from, last.to, last.items);
    }
  }

  /** One more batch, or the pending items. */
  lemma Extend(log: seq<Notification>, a: seq<Notification>, from: nat, to: nat, items: seq<Notification>)
    requires from <= to <= |log| && IsSubsequence(a, log[..from])
    requires items == Last(log[from..to], MAX_NOTIFICATIONS)
    ensures IsSubsequence(a + items, log[..to])
    ensures a == log[..from] && to - from <= MAX_NOTIFICATIONS ==> a + items == log[..to]
  {
    hide IsSubsequence, Last;
    var part := log[from..to];
    var skip := part[..|part| - |items|];
    LastIsSuffix(part, 1000);
    Pieces(log, from, to, skip, items);
    SubsequenceGrows(a, log[..from], skip, items);
  }

  lemma Pieces(log: seq<Notification>, from: nat, to: nat, skip: seq<Notification>, items: seq<Notification>)
    requires from <= to <= |log| && log[from..to] == skip + items
    ensures log[..from] + skip + items == log[..to]
    ensures skip == [] ==> log[..from] + items == log[..to]
  {
    Associate(log[..from], skip, items);
    assert log[..from] + log[from..to] == log[..to];
  }

  /** Over every run, the drained batches and the pending items are the push log in order, with
      omissions; and the whole of it if at most 1000 pushes fall between drains. */
  lemma DeliveredInOrder(states: seq<State>, events: seq<Event>, i: nat)
    requires IsRun(states, events) && i < |states|
    ensures var s := states[i];
            && |s.items| <= 1000 && |s.items| <= |s.log| && s.items == s.log[|s.log| - |s.items|..]
            && IsSubsequence(Delivered(s.batches) + s.items, s.log)
            && ((forall b :: b in s.batches ==> b.to - b.from <= 1000) && |s.log| - Mark(s.batches, |s.batches|) <= 1000
                ==> Delivered(s.batches) + s.items == s.log)
  {
    RunKeepsInv(states, events, i);
    var s := states[i];
    var m := Mark(s.batches, |s.batches|);
    assert (forall b :: b in s.batches ==> b.to - b.from <= 1000) ==> AllFit(s.batches);
    hide IsSubsequence, Delivered, AllFit, BatchFits, Mark, IsRun;
    BatchesInOrder(s.log, s.batches);
    assert s.log[m..|s.log|] == s.log[m..] && s.log[..|s.log|] == s.log;
    Extend(s.log, Delivered(s.batches), m, |s.log|, s.items);
  }
}
