/** What one compaction pass does to a session's tables, and what holds over every run of passes and
    appended messages. Between reading its items and committing, a pass calls the summarizer;
    `Attempt` carries what that call returned, the messages other goroutines appended meanwhile, the
    generated id, and which database writes failed. */
module CompactionSteps {
  import opened Conversation
  import opened Sizing

  datatype Attempt = Attempt(normal: Reply, aggressive: Reply, during: seq<Message>, id: string,
                             createFails: bool, linkFails: bool, replaceFails: bool)

  datatype Outcome = Unchanged | Compacted | Error

  function OutsideTail(context: seq<Item>, tailSize: nat): nat {
    if tailSize < |context| then |context| - tailSize else 0
  }

  function TokensOf(messages: seq<Message>, items: seq<Item>): nat {
    if items == [] then 0
    else
      TokensOf(messages, items[..|items| - 1]) +
      match items[|items| - 1]
      case MessageItem(_, m) => if m < |messages| then messages[m].tokens else 0
      case SummaryItem(_, _) => 0
  }

  lemma NoTokens(messages: seq<Message>)
    ensures TokensOf(messages, []) == 0
  {
  }

  lemma TokensSnoc(messages: seq<Message>, context: seq<Item>, a: nat, i: nat)
    requires a <= i < |context| && context[i].MessageItem? && context[i].message < |messages|
    ensures TokensOf(messages, context[a..i + 1]) ==
            TokensOf(messages, context[a..i]) + messages[context[i].message].tokens
  {
    assert context[a..i + 1][..i - a] == context[a..i];
  }

  predicate IsSummaryAt(st: Store, item: Item, d: nat) {
    item.SummaryItem? && item.summary in st.summaries && st.summaries[item.summary].depth == d
  }

  /** Position x starts a run of n context items that are summaries at depth d. */
  ghost predicate IsRun(st: Store, d: nat, x: nat, n: nat) {
    x + n <= |st.context| && forall k :: x <= k < x + n ==> IsSummaryAt(st, st.context[k], d)
  }

  function SummaryTokens(summaries: map<string, Summary>, items: seq<Item>): nat {
    if items == [] then 0
    else
      SummaryTokens(summaries, items[..|items| - 1]) +
      var item := items[|items| - 1];
      if item.SummaryItem? && item.summary in summaries then summaries[item.summary].tokens else 0
  }

  ghost predicate HasRun(st: Store, d: nat, n: nat) { exists x: nat :: IsRun(st, d, x, n) }

  // ----- Steps -----

  /** What OldestMessageContextItems selects: from the first message on, messages outside the last
      tailSize items, each taken while none before it had tokens or the sum stays within maxTokens. */
  ghost predicate IsOldestChunk(st: Store, tailSize: nat, maxTokens: nat, a: nat, b: nat) {
    var n := OutsideTail(st.context, tailSize);
    && a <= b <= |st.context|
    && (forall i :: 0 <= i < a ==> st.context[i].SummaryItem?)
    && (forall i :: a <= i < |st.context| ==> st.context[i].MessageItem?)
    && (a < b ==> b <= n)
    && (forall k :: a <= k < b ==> TokensOf(st.messages, st.context[a..k]) == 0
                                   || TokensOf(st.messages, st.context[a..k + 1]) <= maxTokens)
    && (b < n ==> TokensOf(st.messages, st.context[a..b]) > 0
                  && TokensOf(st.messages, st.context[a..b + 1]) > maxTokens)
  }

  /** The selection is determined. */
  lemma OldestChunkIsUnique(st: Store, tailSize: nat, maxTokens: nat, a: nat, b: nat, x: nat, y: nat)
    requires IsOldestChunk(st, tailSize, maxTokens, a, b) && IsOldestChunk(st, tailSize, maxTokens, x, y)
    ensures a == x && b == y
  {
    hide TokensOf;
    if x < a {
      ChunkStart(st, tailSize, maxTokens, a, b, x);
      assert false;
    }
    if a < x {
      ChunkStart(st, tailSize, maxTokens, x, y, a);
      assert false;
    }
  }

  lemma ChunkStart(st: Store, tailSize: nat, maxTokens: nat, a: nat, b: nat, i: nat)
    requires IsOldestChunk(st, tailSize, maxTokens, a, b) && i < |st.context|
    ensures st.context[i].SummaryItem? <==> i < a
  {
  }

  /** The run a..b is the longest of its depth, and the first of that length. */
  ghost predicate IsLongestRun(st: Store, d: nat, a: nat, b: nat) {
    && a < b && IsRun(st, d, a, b - a)
    && forall x: nat, n: nat :: IsRun(st, d, x, n) ==> n < b - a || (n == b - a && a <= x)
  }

  /** One of the three writes fails, or the generated id is taken. */
  predicate WriteFails(at: Attempt, st: Store) {
    at.createFails || at.linkFails || at.replaceFails || at.id in st.summaries
  }

  predicate PassFails(c: Config, depth: nat, at: Attempt, st: Store) {
    SummarizerFails(if depth == 0 then c.leafTargetTokens else c.condenseTargetTokens, at.normal, at.aggressive)
    || WriteFails(at, st)
  }

  /** Rows may have been added beside the context; messages and context are those of st. */
  ghost predicate OnlyOrphans(st: Store, t: Store) {
    && Extends(st, t) && t.context == st.context && t.messages == st.messages
    && t.sources.Keys <= t.summaries.Keys && t.children.Keys <= t.summaries.Keys
  }

  /** What a successful leaf pass did: the run a..b of messages became the leaf summary at.id, with
      the summarizer's text, its size bound, and the times and tokens of those messages. */
  ghost predicate LeafCompacted(st: Store, c: Config, at: Attempt, a: nat, b: nat, t: Store) {
    var mid := AppendAll(st, at.during);
    && a < b <= |mid.context| && a + c.leafMinFanout <= b <= OutsideTail(st.context, c.freshTailCount)
    && AreMessages(mid.context[a..b])
    && at.id !in st.summaries && at.id in t.summaries
    && t == LeafCommit(mid, a, b, at.id, t.summaries[at.id])
    && var sum := t.summaries[at.id];
       && sum.kind == Leaf && sum.depth == 0
       && IsStored(c.leafTargetTokens, at.normal, at.aggressive, sum.content)
       && sum.tokens == EstimateTokens(sum.content) <= c.leafTargetTokens * 3 / 2
       && sum.sourceTokens == TokensOf(t.messages, mid.context[a..b])
       && TimesFit(mid.messages, sum, MessageIDs(mid.context[a..b]))
  }

  /** What a successful condensation did: the run a..b of summaries of depth d became the bounded
      summary at.id of depth d + 1 over exactly those, in order. */
  ghost predicate CondenseCompacted(st: Store, c: Config, d: nat, at: Attempt, a: nat, b: nat, t: Store) {
    var mid := AppendAll(st, at.during);
    && a < b <= |mid.context| && a + c.condenseMinFanout <= b
    && AreSummariesAt(mid, mid.context[a..b], d)
    && at.id !in st.summaries && at.id in t.summaries
    && t == CondenseCommit(mid, a, b, d, at.id, t.summaries[at.id])
    && var sum := t.summaries[at.id];
       && sum.kind == Condensed && sum.depth == d + 1
       && IsStored(c.condenseTargetTokens, at.normal, at.aggressive, sum.content)
       && sum.tokens == EstimateTokens(sum.content) <= c.condenseTargetTokens * 3 / 2
       && sum.sourceTokens == SummaryTokens(mid.summaries, mid.context[a..b])
       && sum.earliestAt == mid.summaries[mid.context[a..b][0].summary].earliestAt
       && sum.latestAt == mid.summaries[mid.context[a..b][b - a - 1].summary].latestAt
  }

  /** A leaf pass: nothing if the oldest chunk is too short, an error without effect on the context
      if a call fails, and otherwise the chunk compacted. */
  ghost predicate LeafStep(st: Store, c: Config, at: Attempt, r: Outcome, a: nat, b: nat, t: Store) {
    && IsOldestChunk(st, c.freshTailCount, c.leafChunkTokens, a, b)
    && if b - a < c.leafMinFanout then r == Unchanged && t == st
       else if PassFails(c, 0, at, st) then r == Error && OnlyOrphans(AppendAll(st, at.during), t)
       else r == Compacted && LeafCompacted(st, c, at, a, b, t)
  }

  /** The same at one depth of summaries, for the longest adjacent run. */
  ghost predicate CondenseStep(st: Store, c: Config, d: nat, at: Attempt, r: Outcome, a: nat, b: nat, t: Store) {
    if !HasRun(st, d, c.condenseMinFanout) then r == Unchanged && t == st
    else if PassFails(c, d + 1, at, st) then r == Error && OnlyOrphans(AppendAll(st, at.during), t)
    else r == Compacted && IsLongestRun(st, d, a, b) && CondenseCompacted(st, c, d, at, a, b, t)
  }

  /** Depths at which a condensation may start: its summary must not be deeper than the maximum. */
  predicate MayCondense(c: Config, d: nat) { c.maxSummaryDepth > 0 ==> d < c.maxSummaryDepth }

  /** A condensation pass works at the lowest depth that has a long enough run. */
  ghost predicate CondensationStep(st: Store, c: Config, at: Attempt, r: Outcome, d: nat, a: nat, b: nat, t: Store) {
    if r == Unchanged then
      t == st && forall e: nat :: MayCondense(c, e) ==> !HasRun(st, e, c.condenseMinFanout)
    else
      && MayCondense(c, d) && CondenseStep(st, c, d, at, r, a, b, t)
      && forall e: nat :: e < d ==> !HasRun(st, e, c.condenseMinFanout)
  }

  /** One iteration of the sweep. */
  ghost predicate SweepStep(st: Store, c: Config, at: Attempt, r: Outcome, t: Store) {
    if TokensOf(st.messages, st.context[..OutsideTail(st.context, c.freshTailCount)]) >= c.leafChunkTokens
    then exists a: nat, b: nat :: LeafStep(st, c, at, r, a, b, t)
    else exists d: nat, a: nat, b: nat :: CondensationStep(st, c, at, r, d, a, b, t)
  }

  /** The sweep stops after this iteration. */
  predicate Ends(st: Store, c: Config, r: Outcome) {
    r == Error
    || (r == Unchanged &&
        TokensOf(st.messages, st.context[..OutsideTail(st.context, c.freshTailCount)]) < c.leafChunkTokens)
  }

  ghost predicate IsSweep(c: Config, attempts: seq<Attempt>, trace: seq<Store>, outcomes: seq<Outcome>) {
    && |trace| == |outcomes| + 1 && |outcomes| <= |attempts|
    && forall i :: 0 <= i < |outcomes| ==> SweepStep(trace[i], c, attempts[i], outcomes[i], trace[i + 1])
                                           && (i < |outcomes| - 1 ==> !Ends(trace[i], c, outcomes[i]))
  }

  lemma SweepSnoc(c: Config, attempts: seq<Attempt>, trace: seq<Store>, outcomes: seq<Outcome>, r: Outcome, t: Store)
    requires IsSweep(c, attempts, trace, outcomes) && |outcomes| < |attempts|
    requires outcomes != [] ==> !Ends(trace[|outcomes| - 1], c, outcomes[|outcomes| - 1])
    requires SweepStep(trace[|outcomes|], c, attempts[|outcomes|], r, t)
    ensures IsSweep(c, attempts, trace + [t], outcomes + [r])
  {
    hide SweepStep, Ends;
    var ts, rs := trace + [t], outcomes + [r];
    forall i | 0 <= i < |rs|
      ensures SweepStep(ts[i], c, attempts[i], rs[i], ts[i + 1]) && (i < |rs| - 1 ==> !Ends(ts[i], c, rs[i]))
    {
      if i < |outcomes| {
        assert SweepStep(trace[i], c, attempts[i], outcomes[i], trace[i + 1]);
        assert ts[i + 1] == trace[i + 1] && rs[i] == outcomes[i];
      }
    }
  }

  // ----- Every step keeps the conversation whole -----

  /** What the passes rely on; every context window gives such a configuration. */
  predicate Usable(c: Config) { c.leafMinFanout >= MIN_LEAF && c.condenseMinFanout >= MIN_CONDENSE }

  lemma ConfigIsUsable(window: int, c: Config)
    ensures Usable(ConfigForWindow(window))
    ensures c.leafMinFanout >= 4 && c.condenseMinFanout >= 3 ==> Usable(c)
  {
    ConfigIsSound(window);
  }

  lemma LeafStepKeepsInv(st: Store, c: Config, at: Attempt, r: Outcome, a: nat, b: nat, t: Store)
    requires Inv(st) && Usable(c) && LeafStep(st, c, at, r, a, b, t)
    ensures Inv(t) && st.messages <= t.messages
    ensures |t.context| - |t.messages| <= |st.context| - |st.messages|
    ensures r == Compacted ==> |t.context| - |t.messages| < |st.context| - |st.messages|
  {
    hide Inv, AppendAll, Extends, TimesFit, TokensOf, IsStored;
    AppendAllKeepsInv(st, at.during);
    var mid := AppendAll(st, at.during);
    if r == Error {
      OrphansKeepInv(mid, t);
    } else if r == Compacted {
      assert a > 0 ==> mid.context[a - 1] == st.context[a - 1];
      LeafCommitKeepsInv(mid, a, b, at.id, t.summaries[at.id]);
    }
  }

  lemma CondenseStepKeepsInv(st: Store, c: Config, d: nat, at: Attempt, r: Outcome, a: nat, b: nat, t: Store)
    requires Inv(st) && Usable(c) && CondenseStep(st, c, d, at, r, a, b, t)
    ensures Inv(t) && st.messages <= t.messages
    ensures |t.context| - |t.messages| <= |st.context| - |st.messages|
    ensures r == Compacted ==> |t.context| - |t.messages| < |st.context| - |st.messages|
  {
    hide Inv, AppendAll, Extends, SummaryTokens, IsStored, HasRun, IsLongestRun;
    AppendAllKeepsInv(st, at.during);
    var mid := AppendAll(st, at.during);
    if r == Error {
      OrphansKeepInv(mid, t);
    } else if r == Compacted {
      CondenseCommitKeepsInv(mid, a, b, d, at.id, t.summaries[at.id]);
    }
  }

  /** A pass that changes the context strictly shrinks it, up to the messages appended meanwhile; any
      other outcome leaves it no larger than the appends alone would. Messages are only appended. */
  lemma SweepStepKeepsInv(st: Store, c: Config, at: Attempt, r: Outcome, t: Store)
    requires Inv(st) && Usable(c) && SweepStep(st, c, at, r, t)
    ensures Inv(t) && st.messages <= t.messages
    ensures |t.context| - |t.messages| <= |st.context| - |st.messages|
    ensures r == Compacted ==> |t.context| - |t.messages| < |st.context| - |st.messages|
  {
    hide Inv, LeafStep, CondenseStep, TokensOf, HasRun;
    if TokensOf(st.messages, st.context[..OutsideTail(st.context, c.freshTailCount)]) >= c.leafChunkTokens {
      var a: nat, b: nat :| LeafStep(st, c, at, r, a, b, t);
      LeafStepKeepsInv(st, c, at, r, a, b, t);
    } else {
      var d: nat, a: nat, b: nat :| CondensationStep(st, c, at, r, d, a, b, t);
      if r != Unchanged {
        CondenseStepKeepsInv(st, c, d, at, r, a, b, t);
      }
    }
  }

  // ----- Runs -----

  datatype Event = Message(message: Conversation.Message) | Pass(config: Config, attempt: Attempt, outcome: Outcome)

  ghost predicate Step(s: Store, ev: Event, t: Store) {
    match ev
    case Message(m) => t == Append(s, m)
    case Pass(c, at, r) => Usable(c) && SweepStep(s, c, at, r, t)
  }

  ghost predicate IsRunOf(states: seq<Store>, events: seq<Event>) {
    && |states| == |events| + 1 && states[0] == EMPTY
    && forall i :: 0 <= i < |events| ==> Step(states[i], events[i], states[i + 1])
  }

  /** Every append, and every iteration of a sweep with a configuration of some context window, continues
      a run. */
  lemma RunsContinue(states: seq<Store>, events: seq<Event>, ev: Event, t: Store, window: int)
    requires IsRunOf(states, events)
    requires match ev
             case Message(m) => t == Append(states[|events|], m)
             case Pass(c, at, r) => c == ConfigForWindow(window) && SweepStep(states[|events|], c, at, r, t)
    ensures IsRunOf(states + [t], events + [ev])
  {
    ConfigIsUsable(window, ConfigForWindow(window));
    hide SweepStep, Append, Usable, ConfigForWindow;
    var ss, es := states + [t], events + [ev];
    forall i | 0 <= i < |es| ensures Step(ss[i], es[i], ss[i + 1]) {
      if i < |events| {
        assert Step(states[i], events[i], states[i + 1]);
      }
    }
  }

  lemma {:induction false} RunKeepsInv(states: seq<Store>, events: seq<Event>, i: nat)
    requires IsRunOf(states, events) && i < |states|
    ensures Inv(states[i])
  {
    hide Inv, Step;
    if i == 0 {
      EmptyIsWhole();
    } else {
      RunKeepsInv(states, events, i - 1);
      assert Step(states[i - 1], events[i - 1], states[i - 1 + 1]);
      StepKeepsInv(states[i - 1], events[i - 1], states[i]);
    }
  }

  lemma StepKeepsInv(s: Store, ev: Event, t: Store)
    requires Inv(s) && Step(s, ev, t)
    ensures Inv(t) && s.messages <= t.messages
  {
    hide Inv, SweepStep;
    match ev
    case Message(m) => AppendKeepsInv(s, m);
    case Pass(c, at, r) => SweepStepKeepsInv(s, c, at, r, t);
  }

  lemma EmptyIsWhole()
    ensures Inv(EMPTY)
  {
  }

  /** Lossless compaction: in every reachable state the context is a block of summaries followed by a
      block of messages, and expanding the summaries all the way down yields the message log, every
      message exactly once and in order. */
  lemma CompactionIsLossless(states: seq<Store>, events: seq<Event>, i: nat)
    requires IsRunOf(states, events) && i < |states|
    ensures Blocks(states[i].context)
    ensures RecallAll(states[i], states[i].context) == Range(|states[i].messages|)
    ensures forall k :: 0 <= k < |states[i].context| && states[i].context[k].SummaryItem? ==>
              var id := states[i].context[k].summary;
              Complete(states[i], id, DepthOf(states[i], id))
  {
    RunKeepsInv(states, events, i);
    hide RecallAll, Complete;
  }

  /** The fresh tail is untouched by a leaf pass: the last freshTailCount items, and everything
      appended since, stand at the end of the context as they were. */
  lemma FreshTailStaysRaw(st: Store, c: Config, at: Attempt, a: nat, b: nat, t: Store)
    requires Inv(st) && LeafCompacted(st, c, at, a, b, t)
    ensures var mid, k := AppendAll(st, at.during), OutsideTail(st.context, c.freshTailCount);
            && st.context <= mid.context && |mid.context| == |st.context| + |at.during|
            && |mid.context| - k <= |t.context|
            && t.context[|t.context| - (|mid.context| - k)..] == mid.context[k..]
  {
    hide Inv, AppendAll, Extends, TimesFit, TokensOf, EstimateTokens, IsStored;
    AppendAllKeepsInv(st, at.during);
    var mid := AppendAll(st, at.during).context;
    SpliceTail(mid, a, b, at.id, OutsideTail(st.context, c.freshTailCount));
  }

  lemma SpliceTail(context: seq<Item>, a: nat, b: nat, id: string, k: nat)
    requires a < b <= k <= |context|
    ensures var t := Splice(context, a, b, id);
            |context| - k <= |t| && t[|t| - (|context| - k)..] == context[k..]
  {
  }

  /** A condensation replaces no message: the messages of the context are those it had. */
  lemma CondensationKeepsMessages(st: Store, c: Config, d: nat, at: Attempt, a: nat, b: nat, t: Store, item: Item)
    requires CondenseCompacted(st, c, d, at, a, b, t) && item.MessageItem?
    ensures item in t.context <==> item in AppendAll(st, at.during).context
  {
    hide AppendAll, SummaryTokens, EstimateTokens, IsStored;
    var mid := AppendAll(st, at.during).context;
    assert item !in mid[a..b];
    SpliceMembers(mid, a, b, at.id, item);
  }

  lemma SpliceMembers(context: seq<Item>, a: nat, b: nat, id: string, item: Item)
    requires a < b <= |context| && item !in context[a..b] && item.MessageItem?
    ensures item in Splice(context, a, b, id) <==> item in context
  {
    assert context == context[..a] + context[a..b] + context[b..];
  }
}
