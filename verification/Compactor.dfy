/** The compactor object: leaf passes, condensation passes and the full sweep over one session's
    tables. Each table operation is atomic. */
module Compactor {
  import opened Conversation
  import opened Sizing
  import opened CompactionSteps

  /** From candidate s on, n candidates lie at adjacent positions. */
  ghost predicate Adjacent(cands: seq<nat>, s: nat, n: nat) {
    s + n <= |cands| && forall k :: s <= k < s + n ==> cands[k] == cands[s] + (k - s)
  }

  /** cands lists, in order, exactly the positions below n that hold a summary at depth d. */
  ghost predicate AreCandidates(st: Store, d: nat, cands: seq<nat>, n: nat) {
    && n <= |st.context|
    && (forall i, j :: 0 <= i < j < |cands| ==> cands[i] < cands[j])
    && (forall i :: 0 <= i < |cands| ==> cands[i] < n && IsSummaryAt(st, st.context[cands[i]], d))
    && (forall p :: 0 <= p < n && IsSummaryAt(st, st.context[p], d) ==> p in cands)
  }

  /** A run of context items is a block of adjacent candidates. */
  lemma {:induction false} RunIsAdjacent(st: Store, d: nat, cands: seq<nat>, x: nat, n: nat) returns (s: nat)
    requires AreCandidates(st, d, cands, |st.context|) && IsRun(st, d, x, n) && n > 0
    ensures Adjacent(cands, s, n) && cands[s] == x
  {
    assert IsSummaryAt(st, st.context[x], d);
    if n == 1 {
      s :| 0 <= s < |cands| && cands[s] == x;
    } else {
      s := RunIsAdjacent(st, d, cands, x, n - 1);
      assert IsSummaryAt(st, st.context[x + n - 1], d);
      var e :| 0 <= e < |cands| && cands[e] == x + n - 1;
      var last := s + n - 2;
      assert cands[last] == x + n - 2;
      assert e > last && cands[last] < cands[last + 1] <= cands[e];
      assert e == last + 1;
    }
  }

  lemma MessageIsLogged(st: Store, i: nat)
    requires Inv(st) && i < |st.context| && st.context[i].MessageItem?
    ensures st.context[i].message < |st.messages|
  {
    assert ItemFits(st, st.context[i]);
  }

  lemma MessagesAreMessages(context: seq<Item>, a: nat)
    requires a <= |context| && forall i :: a <= i < |context| ==> context[i].MessageItem?
    ensures forall i :: a <= i <= |context| ==> AreMessages(context[a..i])
  {
  }

  /** What the summarizer's answers come to: a text to store, within its bound, unless it fails. */
  method Summarize(c: Config, depth: nat, at: Attempt) returns (reply: Reply)
    requires (if depth == 0 then c.leafTargetTokens else c.condenseTargetTokens) > 0
    ensures var target := if depth == 0 then c.leafTargetTokens else c.condenseTargetTokens;
            && (reply.Failed? <==> SummarizerFails(target, at.normal, at.aggressive))
            && (reply.Text? ==> IsStored(target, at.normal, at.aggressive, reply.text)
                                && EstimateTokens(reply.text) <= target * 3 / 2)
  {
    reply := SummarizeWithEscalation(c, depth, at.normal, at.aggressive);
    EscalationExactly(c, depth, at.normal, at.aggressive);
    hide SummarizeWithEscalation, IsStored, EstimateTokens;
    if reply.Text? {
      StoredIsBounded(if depth == 0 then c.leafTargetTokens else c.condenseTargetTokens, at.normal, at.aggressive, reply.text);
    }
  }

  class Session {
    var messages: seq<Message>
    var summaries: map<string, Summary>
    var sources: map<string, seq<nat>>
    var children: map<string, seq<string>>
    var context: seq<Item>

    ghost function State(): Store
      reads this
    {
      Store(messages, summaries, sources, children, context)
    }

    ghost predicate Valid()
      reads this
    {
      Inv(State())
    }

    constructor ()
      ensures Valid() && State() == EMPTY
    {
      messages, summaries, sources, children, context := [], map[], map[], map[], [];
    }

    method AppendMessage(m: Message)
      requires Valid()
      modifies this
      ensures Valid() && State() == Append(old(State()), m)
    {
      AppendKeepsInv(State(), m);
      var ordinal := if |context| == 0 then 0 else context[|context| - 1].ordinal + 1;
      context := context + [MessageItem(ordinal, |messages|)];
      messages := messages + [m];
    }

    method AppendMessages(ms: seq<Message>)
      requires Valid()
      modifies this
      ensures Valid() && State() == AppendAll(old(State()), ms)
    {
      hide Inv;
      var i := 0;
      assert ms[0..] == ms;
      while i < |ms|
        invariant 0 <= i <= |ms| && Valid()
        invariant AppendAll(State(), ms[i..]) == AppendAll(old(State()), ms)
      {
        assert ms[i..][0] == ms[i] && ms[i..][1..] == ms[i + 1..];
        AppendMessage(ms[i]);
        i := i + 1;
      }
    }

    method OldestMessageContextItems(tailSize: nat, maxTokens: nat) returns (items: seq<Item>, ghost a: nat)
      requires Valid()
      ensures IsOldestChunk(State(), tailSize, maxTokens, a, a + |items|)
      ensures items == context[a..a + |items|] && AreMessages(items)
    {
      hide Inv, AreMessages, TokensOf, IsOldestChunk;
      var first := FirstMessage();
      MessagesAreMessages(context, first);
      a := first;
      items := [];
      NoTokens(messages);
      var tokenSum := 0;
      var n := if tailSize < |context| then |context| - tailSize else 0;
      var i := first;
      while i < n
        invariant a <= i && (i <= n || i == a) && items == context[a..i] && tokenSum == TokensOf(messages, items)
        invariant forall k :: a <= k < i ==>
          TokensOf(messages, context[a..k]) == 0 || TokensOf(messages, context[a..k + 1]) <= maxTokens
      {
        MessageIsLogged(State(), i);
        var m := messages[context[i].message];
        TokensSnoc(messages, context, a, i);
        if tokenSum > 0 && tokenSum + m.tokens > maxTokens {
          break;
        }
        tokenSum := tokenSum + m.tokens;
        assert context[a..i + 1] == context[a..i] + [context[i]];
        items := items + [context[i]];
        i := i + 1;
      }
      ChunkFound(State(), tailSize, maxTokens, a, i);
    }

    /** Where the block of messages starts. */
    method FirstMessage() returns (a: nat)
      requires Valid()
      ensures a <= |context| && (forall i :: 0 <= i < a ==> context[i].SummaryItem?)
      ensures forall i :: a <= i < |context| ==> context[i].MessageItem?
    {
      a := 0;
      while a < |context| && context[a].SummaryItem?
        invariant a <= |context| && forall i :: 0 <= i < a ==> context[i].SummaryItem?
      {
        a := a + 1;
      }
    }

    /** The longest run of adjacent summaries at a depth, if it has at least minCount members. */
    method ContiguousSummariesAtDepth(depth: nat, minCount: nat) returns (items: seq<Item>, ghost a: nat)
      requires minCount > 0
      ensures a + |items| <= |context| && items == context[a..a + |items|]
      ensures AreSummariesAt(State(), items, depth)
      ensures items != [] ==> |items| >= minCount
      ensures forall x: nat, n: nat :: IsRun(State(), depth, x, n) && n >= minCount ==> n < |items| || (n == |items| && a <= x)
    {
      items, a := [], 0;
      ghost var st := State();
      var cands := Candidates(depth);
      if |cands| < minCount {
        forall x: nat, n: nat | IsRun(st, depth, x, n) && n >= minCount ensures false {
          var s := RunIsAdjacent(st, depth, cands, x, n);
        }
        return;
      }
      var bestStart, bestLen := LongestAdjacent(cands);
      forall x: nat, n: nat | IsRun(st, depth, x, n) && n > 0
        ensures n < bestLen || (n == bestLen && cands[bestStart] <= x)
      {
        var s := RunIsAdjacent(st, depth, cands, x, n);
        assert s > bestStart ==> cands[bestStart] < cands[s];
      }
      if bestLen < minCount {
        return;
      }
      a := cands[bestStart];
      assert cands[bestStart + bestLen - 1] == a + bestLen - 1;
      items := context[cands[bestStart]..cands[bestStart] + bestLen];
      forall i | 0 <= i < |items| ensures IsSummaryAt(st, items[i], depth) {
        assert cands[bestStart + i] == a + i;
        assert items[i] == context[cands[bestStart + i]];
      }
    }

    method Candidates(depth: nat) returns (cands: seq<nat>)
      ensures AreCandidates(State(), depth, cands, |context|)
    {
      cands := [];
      for idx := 0 to |context|
        invariant AreCandidates(State(), depth, cands, idx)
      {
        if context[idx].SummaryItem? && context[idx].summary in summaries
           && summaries[context[idx].summary].depth == depth {
          cands := cands + [idx];
          assert cands[|cands| - 1] == idx;
        }
      }
    }

    // ----- Writes -----

    /** Fails on a duplicate id. */
    method CreateSummary(id: string, sum: Summary, fails: bool) returns (ok: bool)
      modifies this`summaries
      ensures ok == (!fails && id !in old(summaries))
      ensures summaries == if ok then old(summaries)[id := sum] else old(summaries)
    {
      ok := !fails && id !in summaries;
      if ok {
        summaries := summaries[id := sum];
      }
    }

    method LinkSummaryMessages(id: string, ids: seq<nat>, fails: bool) returns (ok: bool)
      modifies this`sources
      ensures ok == !fails
      ensures sources == if ok then old(sources)[id := ids] else old(sources)
    {
      ok := !fails;
      if ok {
        sources := sources[id := ids];
      }
    }

    method LinkSummaryParents(id: string, ids: seq<string>, fails: bool) returns (ok: bool)
      modifies this`children
      ensures ok == !fails
      ensures children == if ok then old(children)[id := ids] else old(children)
    {
      ok := !fails;
      if ok {
        children := children[id := ids];
      }
    }

    method ReplaceContextItems(startOrd: int, endOrd: int, id: string, fails: bool) returns (ok: bool)
      modifies this`context
      ensures ok == !fails
      ensures context == if ok then Replace(old(context), startOrd, endOrd, id) else old(context)
    {
      ok := !fails;
      if ok {
        context := Below(context, startOrd) + [SummaryItem(startOrd, id)] + Above(context, endOrd);
      }
    }

    // ----- Passes -----

    /** Replaces the oldest run of messages outside the fresh tail by a leaf summary. A pass that
        fails at any point leaves the context as it would be without it. */
    method LeafPass(c: Config, at: Attempt) returns (r: Outcome, ghost a: nat, ghost b: nat)
      requires Valid() && c.leafMinFanout >= MIN_LEAF && c.leafTargetTokens > 0
      modifies this
      ensures Valid() && LeafStep(old(State()), c, at, r, a, b, State())
    {
      hide Inv, ItemFits, AppendAll, Extends, LeafCompacted, OnlyOrphans;
      var items;
      items, a := OldestMessageContextItems(c.freshTailCount, c.leafChunkTokens);
      b := a + |items|;
      if |items| < c.leafMinFanout {
        return Unchanged, a, b;
      }
      ghost var st := State();
      hide EstimateTokens, TokensOf, TimesFit, IsOldestChunk, IsStored, SummarizerFails;
      var reply := Summarize(c, 0, at);
      AppendMessages(at.during);
      ChunkSurvives(st, at.during, c.freshTailCount, c.leafChunkTokens, a, b);
      if reply.Failed? {
        NoOrphans(State());
        return Error, a, b;
      }
      LeafTimes(State(), a, b);
      var sourceTokens := LeafSourceTokens(items);
      var sum := Summary(Leaf, 0, reply.text, EstimateTokens(reply.text),
                         messages[items[0].message].createdAt,
                         messages[items[|items| - 1].message].createdAt, sourceTokens);
      LeafTimesFit(State(), a, b, sum);
      ghost var mid := State();
      var ok := CommitLeaf(at, items, a, b, sum);
      if ok {
        LeafDone(st, c, at, a, b, sum, mid, State());
      }
      r := if ok then Compacted else Error;
    }

    method LeafSourceTokens(items: seq<Item>) returns (total: nat)
      ensures total == TokensOf(messages, items)
    {
      total := 0;
      for i := 0 to |items|
        invariant total == TokensOf(messages, items[..i])
      {
        assert items[..i + 1][..i] == items[..i];
        if items[i].MessageItem? && items[i].message < |messages| {
          total := total + messages[items[i].message].tokens;
        }
      }
      assert items[..|items|] == items;
    }

    method CondensedSourceTokens(items: seq<Item>) returns (total: nat)
      ensures total == SummaryTokens(summaries, items)
    {
      total := 0;
      for i := 0 to |items|
        invariant total == SummaryTokens(summaries, items[..i])
      {
        assert items[..i + 1][..i] == items[..i];
        if items[i].SummaryItem? && items[i].summary in summaries {
          total := total + summaries[items[i].summary].tokens;
        }
      }
      assert items[..|items|] == items;
    }

    /** The three writes of a leaf pass; each may fail. */
    method CommitLeaf(at: Attempt, items: seq<Item>, ghost a: nat, ghost b: nat, sum: Summary) returns (ok: bool)
      requires Valid() && a + MIN_LEAF <= b <= |context| && items == context[a..b] && AreMessages(items)
      requires a > 0 ==> context[a - 1].SummaryItem?
      requires sum.kind == Leaf && sum.depth == 0 && TimesFit(messages, sum, MessageIDs(items))
      modifies this
      ensures Valid() && ok == !WriteFails(at, old(State()))
      ensures !ok ==> OnlyOrphans(old(State()), State())
      ensures ok ==> State() == LeafCommit(old(State()), a, b, at.id, sum)
    {
      hide Inv, TimesFit, Replace, OnlyOrphans;
      ghost var mid := State();
      LeafOrphans(mid, at.id, sum, MessageIDs(items));
      ok := CreateSummary(at.id, sum, at.createFails);
      if !ok {
        return;
      }
      ok := LinkSummaryMessages(at.id, MessageIDs(items), at.linkFails);
      if !ok {
        return;
      }
      ok := ReplaceContextItems(items[0].ordinal, items[|items| - 1].ordinal, at.id, at.replaceFails);
      if !ok {
        return;
      }
      InvAscending(mid);
      ReplaceIsSplice(mid.context, a, b, at.id);
      LeafCommitKeepsInv(mid, a, b, at.id, sum);
    }

    /** Condenses the longest adjacent run of summaries at a depth, if it is long enough. */
    method CondenseAtDepth(c: Config, d: nat, at: Attempt) returns (r: Outcome, ghost a: nat, ghost b: nat)
      requires Valid() && c.condenseMinFanout >= MIN_CONDENSE && c.condenseTargetTokens > 0
      modifies this
      ensures Valid() && CondenseStep(old(State()), c, d, at, r, a, b, State())
    {
      hide Inv, AppendAll, Extends, IsRun, CondenseCompacted, OnlyOrphans;
      var items;
      items, a := ContiguousSummariesAtDepth(d, c.condenseMinFanout);
      b := a + |items|;
      if |items| == 0 {
        return Unchanged, a, b;
      }
      ghost var st := State();
      RunFound(st, d, a, b, c.condenseMinFanout);
      hide EstimateTokens, SummaryTokens, IsStored, SummarizerFails;
      var reply := Summarize(c, d + 1, at);
      AppendMessages(at.during);
      RunSurvives(st, at.during, a, b);
      if reply.Failed? {
        NoOrphans(State());
        return Error, a, b;
      }
      var sourceTokens := CondensedSourceTokens(items);
      var sum := Summary(Condensed, d + 1, reply.text, EstimateTokens(reply.text),
                         summaries[items[0].summary].earliestAt,
                         summaries[items[|items| - 1].summary].latestAt, sourceTokens);
      ghost var mid := State();
      var ok := CommitCondensed(at, items, d, a, b, sum);
      if ok {
        CondenseDone(st, c, d, at, a, b, sum, mid, State());
      }
      r := if ok then Compacted else Error;
    }

    method CommitCondensed(at: Attempt, items: seq<Item>, ghost d: nat, ghost a: nat, ghost b: nat, sum: Summary)
      returns (ok: bool)
      requires Valid() && a + MIN_CONDENSE <= b <= |context| && items == context[a..b]
      requires AreSummariesAt(State(), items, d) && sum.kind == Condensed && sum.depth == d + 1
      requires sum.earliestAt == summaries[items[0].summary].earliestAt
      requires sum.latestAt == summaries[items[b - a - 1].summary].latestAt
      modifies this
      ensures Valid() && ok == !WriteFails(at, old(State()))
      ensures !ok ==> OnlyOrphans(old(State()), State())
      ensures ok ==> State() == CondenseCommit(old(State()), a, b, d, at.id, sum)
    {
      hide Inv, Replace, OnlyOrphans;
      ghost var mid := State();
      CondensedOrphans(mid, at.id, sum, SummaryIDs(mid, items, d));
      ok := CreateSummary(at.id, sum, at.createFails);
      if !ok {
        return;
      }
      var ids := seq(|items|, i requires 0 <= i < |items| => if items[i].SummaryItem? then items[i].summary else "");
      assert ids == SummaryIDs(mid, items, d);
      ok := LinkSummaryParents(at.id, ids, at.linkFails);
      if !ok {
        return;
      }
      ok := ReplaceContextItems(items[0].ordinal, items[|items| - 1].ordinal, at.id, at.replaceFails);
      if !ok {
        return;
      }
      InvAscending(mid);
      ReplaceIsSplice(mid.context, a, b, at.id);
      CondenseCommitKeepsInv(mid, a, b, d, at.id, sum);
    }

    /** The greatest depth of a summary in the context, or -1. */
    method MaxSummaryDepth() returns (depth: int)
      ensures depth == -1 || exists i :: 0 <= i < |context| && depth >= 0 && IsSummaryAt(State(), context[i], depth)
      ensures forall d: nat, i :: 0 <= i < |context| && IsSummaryAt(State(), context[i], d) ==> d <= depth
    {
      depth := -1;
      for i := 0 to |context|
        invariant depth == -1 || exists k :: 0 <= k < i && depth >= 0 && IsSummaryAt(State(), context[k], depth)
        invariant forall d: nat, k :: 0 <= k < i && IsSummaryAt(State(), context[k], d) ==> d <= depth
      {
        if context[i].SummaryItem? && context[i].summary in summaries
           && summaries[context[i].summary].depth > depth {
          depth := summaries[context[i].summary].depth;
        }
      }
    }

    /** One condensation at the lowest depth that has a long enough run, never producing a summary
        deeper than maxSummaryDepth. If nothing changes, there is no such run at any allowed depth. */
    method CondensationPass(c: Config, at: Attempt) returns (r: Outcome, ghost d: nat, ghost a: nat, ghost b: nat)
      requires Valid() && c.condenseMinFanout >= MIN_CONDENSE && c.condenseTargetTokens > 0
      modifies this
      ensures Valid() && CondensationStep(old(State()), c, at, r, d, a, b, State())
    {
      hide Inv, AppendAll, Extends, CondenseStep, HasRun;
      d, a, b := 0, 0, 0;
      var maxDepth := MaxSummaryDepth();
      NoRunAbove(State(), maxDepth, c.condenseMinFanout);
      var maxAllowedDepth := maxDepth;
      if c.maxSummaryDepth > 0 && c.maxSummaryDepth - 1 < maxAllowedDepth {
        maxAllowedDepth := c.maxSummaryDepth - 1;
      }
      var depth := 0;
      while depth <= maxAllowedDepth
        invariant 0 <= depth && State() == old(State()) && Valid()
        invariant forall e: nat :: e < depth ==> !HasRun(State(), e, c.condenseMinFanout)
        decreases maxAllowedDepth - depth
      {
        d := depth;
        ghost var st := State();
        r, a, b := CondenseAtDepth(c, depth, at);
        StepOutcome(st, c, depth, at, r, a, b, State());
        if r != Unchanged {
          return;
        }
        depth := depth + 1;
      }
      r := Unchanged;
    }

    method MessageTokensOutsideTail(tailSize: nat) returns (total: nat)
      ensures total == TokensOf(messages, context[..OutsideTail(context, tailSize)])
    {
      var n := if tailSize < |context| then |context| - tailSize else 0;
      total := 0;
      for i := 0 to n
        invariant total == TokensOf(messages, context[..i])
      {
        assert context[..i + 1][..i] == context[..i];
        if context[i].MessageItem? && context[i].message < |messages| {
          total := total + messages[context[i].message].tokens;
        }
      }
    }

    /** At most ten passes; attempts[i] is what happens during the i-th. The trace holds the tables
        after each. The sweep ends early only on an error, or when there is nothing to condense. */
    method FullSweep(c: Config, attempts: seq<Attempt>)
      returns (failed: bool, ghost trace: seq<Store>, ghost outcomes: seq<Outcome>)
      requires Valid() && |attempts| == 10
      requires c.leafMinFanout >= MIN_LEAF && c.condenseMinFanout >= MIN_CONDENSE
      requires c.leafTargetTokens > 0 && c.condenseTargetTokens > 0
      modifies this
      ensures Valid() && IsSweep(c, attempts, trace, outcomes)
      ensures |trace| == |outcomes| + 1 && trace[0] == old(State()) && trace[|outcomes|] == State()
      ensures |outcomes| > 0 && (failed <==> outcomes[|outcomes| - 1] == Error)
      ensures |outcomes| < 10 ==> Ends(trace[|outcomes| - 1], c, outcomes[|outcomes| - 1])
    {
      hide Inv, SweepStep, TokensOf, LeafStep, CondensationStep, IsSweep;
      SweepStart(c, attempts, State());
      failed, trace, outcomes := false, [State()], [];
      for i := 0 to 10
        invariant Valid() && |outcomes| == i && IsSweep(c, attempts, trace, outcomes)
        invariant |trace| == i + 1 && trace[0] == old(State()) && trace[i] == State()
        invariant i > 0 ==> !Ends(trace[i - 1], c, outcomes[i - 1]) && outcomes[i - 1] != Error
      {
        ghost var st := State();
        var tokensOutside := MessageTokensOutsideTail(c.freshTailCount);
        var r;
        ghost var d, a, b := 0, 0, 0;
        if tokensOutside >= c.leafChunkTokens {
          r, a, b := LeafPass(c, attempts[i]);
        } else {
          r, d, a, b := CondensationPass(c, attempts[i]);
        }
        IsSweepStep(st, c, attempts[i], r, d, a, b, State());
        SweepSnoc(c, attempts, trace, outcomes, r, State());
        trace, outcomes := trace + [State()], outcomes + [r];
        if tokensOutside < c.leafChunkTokens && r == Unchanged {
          break;
        }
        if r == Error {
          failed := true;
          return;
        }
      }
    }
  }

  lemma NoRunAbove(st: Store, maxDepth: int, n: nat)
    requires n > 0 && forall d: nat, i :: 0 <= i < |st.context| && IsSummaryAt(st, st.context[i], d) ==> d <= maxDepth
    ensures forall e: nat :: e > maxDepth ==> !HasRun(st, e, n)
  {
    forall e: nat | HasRun(st, e, n) ensures e <= maxDepth {
      var x: nat :| IsRun(st, e, x, n);
      assert IsSummaryAt(st, st.context[x], e);
    }
  }

  /** What ContiguousSummariesAtDepth found is the longest run. */
  lemma RunFound(st: Store, d: nat, a: nat, b: nat, minCount: nat)
    requires a < b <= |st.context| && AreSummariesAt(st, st.context[a..b], d) && 0 < minCount <= b - a
    requires forall x: nat, n: nat :: IsRun(st, d, x, n) && n >= minCount ==> n < b - a || (n == b - a && a <= x)
    ensures HasRun(st, d, minCount) && IsLongestRun(st, d, a, b)
  {
    forall k | a <= k < b ensures IsSummaryAt(st, st.context[k], d) {
      assert st.context[k] == st.context[a..b][k - a];
    }
    assert IsRun(st, d, a, minCount);
  }

  lemma SweepStart(c: Config, attempts: seq<Attempt>, st: Store)
    ensures IsSweep(c, attempts, [st], [])
  {
  }

  /** A depth without a run is passed over; any other ends the pass. */
  lemma StepOutcome(st: Store, c: Config, d: nat, at: Attempt, r: Outcome, a: nat, b: nat, t: Store)
    requires CondenseStep(st, c, d, at, r, a, b, t)
    ensures r == Unchanged <==> !HasRun(st, d, c.condenseMinFanout)
    ensures r == Unchanged ==> t == st
  {
    hide HasRun, CondenseCompacted, IsLongestRun, PassFails;
  }

  lemma IsSweepStep(st: Store, c: Config, at: Attempt, r: Outcome, d: nat, a: nat, b: nat, t: Store)
    requires
      if TokensOf(st.messages, st.context[..OutsideTail(st.context, c.freshTailCount)]) >= c.leafChunkTokens
      then LeafStep(st, c, at, r, a, b, t)
      else CondensationStep(st, c, at, r, d, a, b, t)
    ensures SweepStep(st, c, at, r, t)
  {
    hide TokensOf, LeafStep, CondensationStep;
  }

  /** A summary row, linked or not, that has not reached the context. */
  lemma LeafOrphans(st: Store, id: string, sum: Summary, ids: seq<nat>)
    requires Inv(st)
    ensures OnlyOrphans(st, st)
    ensures id !in st.summaries ==>
              var t := st.(summaries := st.summaries[id := sum]);
              var u := t.(sources := st.sources[id := ids]);
              Inv(t) && OnlyOrphans(st, t) && Inv(u) && OnlyOrphans(st, u)
  {
    LinksFit(st);
    hide Inv;
    if id !in st.summaries {
      var t := st.(summaries := st.summaries[id := sum]);
      OrphansKeepInv(st, t);
      OrphansKeepInv(st, t.(sources := st.sources[id := ids]));
    }
  }

  lemma CondensedOrphans(st: Store, id: string, sum: Summary, ids: seq<string>)
    requires Inv(st)
    ensures OnlyOrphans(st, st)
    ensures id !in st.summaries ==>
              var t := st.(summaries := st.summaries[id := sum]);
              var u := t.(children := st.children[id := ids]);
              Inv(t) && OnlyOrphans(st, t) && Inv(u) && OnlyOrphans(st, u)
  {
    LinksFit(st);
    hide Inv;
    if id !in st.summaries {
      var t := st.(summaries := st.summaries[id := sum]);
      OrphansKeepInv(st, t);
      OrphansKeepInv(st, t.(children := st.children[id := ids]));
    }
  }

  lemma InvAscending(st: Store)
    requires Inv(st)
    ensures Ascending(st.context)
  {
  }

  lemma ExtendsSelf(st: Store)
    ensures Extends(st, st)
  {
  }

  /** Messages appended while the summarizer runs do not move the run that was read. */
  lemma RunSurvives(st: Store, ms: seq<Message>, a: nat, b: nat)
    requires Inv(st) && a <= b <= |st.context|
    ensures var mid := AppendAll(st, ms);
            && Extends(st, mid) && mid.summaries == st.summaries && mid.messages == st.messages + ms
            && b <= |mid.context| && mid.context[a..b] == st.context[a..b]
            && mid.context[..b] == st.context[..b]
            && |mid.context| == |st.context| + |ms|
  {
    hide Inv, AppendAll;
    AppendAllKeepsInv(st, ms);
  }

  lemma NoOrphans(st: Store)
    requires Inv(st)
    ensures OnlyOrphans(st, st)
  {
    hide Inv;
    ExtendsSelf(st);
    LinksFit(st);
  }

  lemma LeafDone(st: Store, c: Config, at: Attempt, a: nat, b: nat, sum: Summary, mid: Store, t: Store)
    requires mid == AppendAll(st, at.during) && mid.summaries == st.summaries && at.id !in st.summaries
    requires a < b <= |mid.context| && a + c.leafMinFanout <= b <= OutsideTail(st.context, c.freshTailCount)
    requires AreMessages(mid.context[a..b]) && t == LeafCommit(mid, a, b, at.id, sum)
    requires sum.kind == Leaf && sum.depth == 0 && TimesFit(mid.messages, sum, MessageIDs(mid.context[a..b]))
    requires IsStored(c.leafTargetTokens, at.normal, at.aggressive, sum.content)
    requires sum.tokens == EstimateTokens(sum.content) <= c.leafTargetTokens * 3 / 2
    requires sum.sourceTokens == TokensOf(mid.messages, mid.context[a..b])
    ensures LeafCompacted(st, c, at, a, b, t)
  {
    hide AppendAll, TimesFit, TokensOf, IsStored, EstimateTokens, MessageIDs;
  }

  lemma CondenseDone(st: Store, c: Config, d: nat, at: Attempt, a: nat, b: nat, sum: Summary, mid: Store, t: Store)
    requires mid == AppendAll(st, at.during) && mid.summaries == st.summaries && at.id !in st.summaries
    requires a < b <= |mid.context| && a + c.condenseMinFanout <= b
    requires AreSummariesAt(mid, mid.context[a..b], d) && t == CondenseCommit(mid, a, b, d, at.id, sum)
    requires sum.kind == Condensed && sum.depth == d + 1
    requires IsStored(c.condenseTargetTokens, at.normal, at.aggressive, sum.content)
    requires sum.tokens == EstimateTokens(sum.content) <= c.condenseTargetTokens * 3 / 2
    requires sum.sourceTokens == SummaryTokens(mid.summaries, mid.context[a..b])
    requires sum.earliestAt == mid.summaries[mid.context[a..b][0].summary].earliestAt
    requires sum.latestAt == mid.summaries[mid.context[a..b][b - a - 1].summary].latestAt
    ensures CondenseCompacted(st, c, d, at, a, b, t)
  {
    hide AppendAll, SummaryTokens, IsStored, EstimateTokens, SummaryIDs;
  }

  lemma ChunkFound(st: Store, tailSize: nat, maxTokens: nat, a: nat, i: nat)
    requires a <= i <= |st.context| && (i <= OutsideTail(st.context, tailSize) || i == a)
    requires (forall k :: 0 <= k < a ==> st.context[k].SummaryItem?)
    requires (forall k :: a <= k < |st.context| ==> st.context[k].MessageItem?)
    requires forall k :: a <= k < i ==> TokensOf(st.messages, st.context[a..k]) == 0
                                        || TokensOf(st.messages, st.context[a..k + 1]) <= maxTokens
    requires i < OutsideTail(st.context, tailSize) ==>
               TokensOf(st.messages, st.context[a..i]) > 0 && TokensOf(st.messages, st.context[a..i + 1]) > maxTokens
    ensures IsOldestChunk(st, tailSize, maxTokens, a, i)
  {
    hide TokensOf;
  }

  lemma ChunkSurvives(st: Store, ms: seq<Message>, tailSize: nat, maxTokens: nat, a: nat, b: nat)
    requires Inv(st) && IsOldestChunk(st, tailSize, maxTokens, a, b) && a < b
    ensures var mid := AppendAll(st, ms);
            && mid.summaries == st.summaries && b <= |mid.context| && mid.context[a..b] == st.context[a..b]
            && AreMessages(mid.context[a..b]) && (a > 0 ==> mid.context[a - 1].SummaryItem?)
            && b <= OutsideTail(st.context, tailSize)
  {
    hide Inv, AppendAll, TokensOf;
    RunSurvives(st, ms, a, b);
    var mid := AppendAll(st, ms);
    assert a > 0 ==> mid.context[a - 1] == mid.context[..b][a - 1] == st.context[a - 1];
  }

  lemma LeafTimesFit(st: Store, a: nat, b: nat, sum: Summary)
    requires Inv(st) && a < b <= |st.context| && AreMessages(st.context[a..b])
    requires forall i :: 0 <= i < b - a ==> st.context[a..b][i].message < |st.messages|
    requires sum.earliestAt == st.messages[st.context[a..b][0].message].createdAt
    requires sum.latestAt == st.messages[st.context[a..b][b - a - 1].message].createdAt
    ensures TimesFit(st.messages, sum, MessageIDs(st.context[a..b]))
  {
  }

  lemma LeafTimes(st: Store, a: nat, b: nat)
    requires Inv(st) && a < b <= |st.context| && AreMessages(st.context[a..b])
    ensures forall i :: 0 <= i < b - a ==> st.context[a..b][i].message < |st.messages|
  {
    RunFits(st, a, b);
  }

  /** The run-length scan of ContiguousSummariesAtDepth. */
  method LongestAdjacent(cands: seq<nat>) returns (bestStart: nat, bestLen: nat)
    requires cands != []
    ensures bestLen > 0 && Adjacent(cands, bestStart, bestLen)
    ensures forall s: nat, n: nat :: Adjacent(cands, s, n) ==> n < bestLen || (n == bestLen && bestStart <= s)
  {
    bestStart, bestLen := 0, 1;
    var curStart, curLen := 0, 1;
    for i := 1 to |cands|
      invariant curLen > 0 && curStart + curLen == i && Adjacent(cands, curStart, curLen)
      invariant curStart > 0 ==> cands[curStart] != cands[curStart - 1] + 1
      invariant 0 < bestLen <= i && bestStart + bestLen <= i && Adjacent(cands, bestStart, bestLen)
      invariant curLen <= bestLen
      invariant forall s: nat, n: nat :: Adjacent(cands, s, n) && s + n <= i ==>
        n < bestLen || (n == bestLen && bestStart <= s)
    {
      if cands[i] == cands[i - 1] + 1 {
        curLen := curLen + 1;
      } else {
        curStart, curLen := i, 1;
      }
      if curLen > bestLen {
        bestStart, bestLen := curStart, curLen;
      }
    }
  }
}
