/** A conversation in the platform database: the message log, the summary tree, and the ordered
    context view in which compaction replaces runs of items by summaries. */
module Conversation {

  /** A message is known by its position in the log of its session. */
  datatype Message = Message(tokens: nat, createdAt: int)

  datatype Kind = Leaf | Condensed

  datatype Summary = Summary(kind: Kind, depth: nat, content: string, tokens: nat,
                             earliestAt: int, latestAt: int, sourceTokens: nat)

  datatype Item = MessageItem(ordinal: int, message: nat) | SummaryItem(ordinal: int, summary: string)

  /** The tables of one session: messages, summaries, summary_messages (source messages in order),
      summary_parents (children in order) and context_items by ordinal. */
  datatype Store = Store(messages: seq<Message>, summaries: map<string, Summary>,
                         sources: map<string, seq<nat>>, children: map<string, seq<string>>,
                         context: seq<Item>)

  const EMPTY := Store([], map[], map[], map[], [])

  // ----- Table operations -----

  function NextOrdinal(context: seq<Item>): int {
    if context == [] then 0 else context[|context| - 1].ordinal + 1
  }

  function Append(st: Store, m: Message): Store {
    st.(messages := st.messages + [m],
        context := st.context + [MessageItem(NextOrdinal(st.context), |st.messages|)])
  }

  function AppendAll(st: Store, ms: seq<Message>): Store
    decreases ms
  {
    if ms == [] then st else AppendAll(Append(st, ms[0]), ms[1..])
  }

  function Below(context: seq<Item>, ordinal: int): seq<Item> {
    if context == [] then []
    else (if context[0].ordinal < ordinal then [context[0]] else []) + Below(context[1..], ordinal)
  }

  function Above(context: seq<Item>, ordinal: int): seq<Item> {
    if context == [] then []
    else (if context[0].ordinal > ordinal then [context[0]] else []) + Above(context[1..], ordinal)
  }

  /** ReplaceContextItems: delete an inclusive range of ordinals, insert one summary at its start. */
  function Replace(context: seq<Item>, startOrd: int, endOrd: int, id: string): seq<Item> {
    Below(context, startOrd) + [SummaryItem(startOrd, id)] + Above(context, endOrd)
  }

  // ----- What a summary stands for -----

  function Sources(st: Store, id: string): seq<nat> { if id in st.sources then st.sources[id] else [] }

  function Children(st: Store, id: string): seq<string> { if id in st.children then st.children[id] else [] }

  /** Expanding a summary of depth d down to messages, the way HistoryRecall lists sources. */
  function Expand(st: Store, id: string, d: nat): seq<nat>
    decreases d, 0
  {
    if d == 0 then Sources(st, id) else ExpandAll(st, Children(st, id), d - 1)
  }

  function ExpandAll(st: Store, ids: seq<string>, d: nat): seq<nat>
    decreases d, 1, |ids|
  {
    if ids == [] then [] else Expand(st, ids[0], d) + ExpandAll(st, ids[1..], d)
  }

  function DepthOf(st: Store, id: string): nat { if id in st.summaries then st.summaries[id].depth else 0 }

  function Recall(st: Store, item: Item): seq<nat> {
    match item
    case MessageItem(_, m) => [m]
    case SummaryItem(_, id) => Expand(st, id, DepthOf(st, id))
  }

  function RecallAll(st: Store, items: seq<Item>): seq<nat> {
    if items == [] then [] else Recall(st, items[0]) + RecallAll(st, items[1..])
  }

  function Range(n: nat): seq<nat> { seq(n, i => i) }

  // ----- The invariant -----

  const MIN_LEAF: nat := 4
  const MIN_CONDENSE: nat := 3

  /** The time range of a summary is that of the messages it stands for. */
  predicate TimesFit(messages: seq<Message>, s: Summary, expansion: seq<nat>) {
    && expansion != []
    && (forall i :: 0 <= i < |expansion| ==> expansion[i] < |messages|)
    && s.earliestAt == messages[expansion[0]].createdAt
    && s.latestAt == messages[expansion[|expansion| - 1]].createdAt
  }

  /** A summary whose links are all in place: a leaf over enough messages, or a node over enough
      complete summaries one level down. */
  predicate Complete(st: Store, id: string, d: nat)
    decreases d, 0
  {
    && id in st.summaries && st.summaries[id].depth == d
    && TimesFit(st.messages, st.summaries[id], Expand(st, id, d))
    && if d == 0 then st.summaries[id].kind == Leaf && id in st.sources && |st.sources[id]| >= MIN_LEAF
       else st.summaries[id].kind == Condensed && id in st.children && |st.children[id]| >= MIN_CONDENSE
            && AllComplete(st, st.children[id], d - 1)
  }

  predicate AllComplete(st: Store, ids: seq<string>, d: nat)
    decreases d, 1, |ids|
  {
    ids == [] || (Complete(st, ids[0], d) && AllComplete(st, ids[1..], d))
  }

  predicate ItemFits(st: Store, item: Item) {
    match item
    case MessageItem(_, m) => m < |st.messages|
    case SummaryItem(_, id) => Complete(st, id, DepthOf(st, id))
  }

  predicate Ascending(context: seq<Item>) {
    forall i, j :: 0 <= i < j < |context| ==> context[i].ordinal < context[j].ordinal
  }

  /** A block of summaries followed by a block of messages. */
  predicate Blocks(context: seq<Item>) {
    forall i, j :: 0 <= i < j < |context| && context[i].MessageItem? ==> context[j].MessageItem?
  }

  predicate Inv(st: Store) {
    && Ascending(st.context) && Blocks(st.context)
    && (forall i :: 0 <= i < |st.context| ==> ItemFits(st, st.context[i]))
    && RecallAll(st, st.context) == Range(|st.messages|)
    && st.sources.Keys <= st.summaries.Keys && st.children.Keys <= st.summaries.Keys
  }

  // ----- Adding rows changes nothing that is complete -----

  ghost predicate Extends(st: Store, t: Store) {
    && st.messages <= t.messages
    && (forall id :: id in st.summaries ==> id in t.summaries && t.summaries[id] == st.summaries[id])
    && (forall id :: id in st.sources ==> id in t.sources && t.sources[id] == st.sources[id])
    && (forall id :: id in st.children ==> id in t.children && t.children[id] == st.children[id])
  }

  lemma {:induction false} ExtendsComplete(st: Store, t: Store, id: string, d: nat)
    requires Extends(st, t) && Complete(st, id, d)
    ensures Complete(t, id, d) && Expand(t, id, d) == Expand(st, id, d)
    decreases d, 0
  {
    if d > 0 {
      ExtendsAllComplete(st, t, st.children[id], d - 1);
    }
    TimesFitLonger(st.messages, t.messages, st.summaries[id], Expand(st, id, d));
    hide TimesFit, ExpandAll, AllComplete;
  }

  lemma TimesFitLonger(messages: seq<Message>, more: seq<Message>, s: Summary, expansion: seq<nat>)
    requires messages <= more && TimesFit(messages, s, expansion)
    ensures TimesFit(more, s, expansion)
  {
  }

  lemma {:induction false} ExtendsAllComplete(st: Store, t: Store, ids: seq<string>, d: nat)
    requires Extends(st, t) && AllComplete(st, ids, d)
    ensures AllComplete(t, ids, d) && ExpandAll(t, ids, d) == ExpandAll(st, ids, d)
    decreases d, 1, |ids|
  {
    if ids != [] {
      ExtendsComplete(st, t, ids[0], d);
      ExtendsAllComplete(st, t, ids[1..], d);
    }
  }

  lemma ExtendsItem(st: Store, t: Store, item: Item)
    requires Extends(st, t) && ItemFits(st, item)
    ensures ItemFits(t, item) && Recall(t, item) == Recall(st, item)
  {
    if item.SummaryItem? {
      ExtendsComplete(st, t, item.summary, DepthOf(st, item.summary));
    }
  }

  lemma {:induction false} ExtendsItems(st: Store, t: Store, items: seq<Item>)
    requires Extends(st, t) && forall i :: 0 <= i < |items| ==> ItemFits(st, items[i])
    ensures forall i :: 0 <= i < |items| ==> ItemFits(t, items[i])
    ensures RecallAll(t, items) == RecallAll(st, items)
  {
    if items != [] {
      hide ItemFits, Recall;
      ExtendsItem(st, t, items[0]);
      ExtendsItems(st, t, items[1..]);
    }
  }

  lemma {:induction false} RecallConcat(st: Store, a: seq<Item>, b: seq<Item>)
    ensures RecallAll(st, a + b) == RecallAll(st, a) + RecallAll(st, b)
  {
    hide Recall;
    if a == [] {
      assert a + b == b;
    } else {
      RecallConcat(st, a[1..], b);
      assert (a + b)[1..] == a[1..] + b;
    }
  }

  /** Rows added beside the context, such as those of a pass that fails halfway, keep the invariant. */
  lemma OrphansKeepInv(st: Store, t: Store)
    requires Inv(st) && Extends(st, t) && t.context == st.context && t.messages == st.messages
    requires t.sources.Keys <= t.summaries.Keys && t.children.Keys <= t.summaries.Keys
    ensures Inv(t)
  {
    hide ItemFits, Recall, Complete, Expand, ExpandAll;
    ExtendsItems(st, t, st.context);
  }

  // ----- Appending -----

  lemma AppendKeepsInv(st: Store, m: Message)
    requires Inv(st)
    ensures Inv(Append(st, m)) && Extends(st, Append(st, m))
  {
    var t := Append(st, m);
    hide Complete, Expand, ExpandAll;
    ExtendsItems(st, t, st.context);
    RecallConcat(t, st.context, [t.context[|st.context|]]);
    assert RecallAll(t, [t.context[|st.context|]]) == [|st.messages|];
    assert Range(|t.messages|) == Range(|st.messages|) + [|st.messages|];
  }

  lemma {:induction false} AppendAllKeepsInv(st: Store, ms: seq<Message>)
    requires Inv(st)
    ensures var t := AppendAll(st, ms);
            && Inv(t) && Extends(st, t)
            && t.messages == st.messages + ms && st.context <= t.context && |t.context| == |st.context| + |ms|
            && t.summaries == st.summaries && t.sources == st.sources && t.children == st.children
    decreases ms
  {
    hide Inv;
    if ms != [] {
      AppendKeepsInv(st, ms[0]);
      AppendAllKeepsInv(Append(st, ms[0]), ms[1..]);
      assert st.messages + ms == (st.messages + [ms[0]]) + ms[1..];
    }
  }

  // ----- Replacing a run of items -----

  lemma {:induction false} BelowIsPrefix(context: seq<Item>, a: nat)
    requires Ascending(context) && a < |context|
    ensures Below(context, context[a].ordinal) == context[..a]
  {
    if a == 0 {
      NothingBelow(context, context[0].ordinal);
    } else {
      BelowIsPrefix(context[1..], a - 1);
      assert context[..a] == [context[0]] + context[1..][..a - 1];
    }
  }

  lemma {:induction false} NothingBelow(context: seq<Item>, ordinal: int)
    requires forall i :: 0 <= i < |context| ==> context[i].ordinal >= ordinal
    ensures Below(context, ordinal) == []
  {
    if context != [] {
      NothingBelow(context[1..], ordinal);
    }
  }

  lemma {:induction false} AboveIsSuffix(context: seq<Item>, b: nat)
    requires Ascending(context) && b < |context|
    ensures Above(context, context[b].ordinal) == context[b + 1..]
  {
    if b == 0 {
      EverythingAbove(context[1..], context[0].ordinal);
    } else {
      AboveIsSuffix(context[1..], b - 1);
      assert context[b + 1..] == context[1..][b..];
    }
  }

  lemma {:induction false} EverythingAbove(context: seq<Item>, ordinal: int)
    requires forall i :: 0 <= i < |context| ==> context[i].ordinal > ordinal
    ensures Above(context, ordinal) == context
  {
    if context != [] {
      EverythingAbove(context[1..], ordinal);
    }
  }

  /** By ordinals or by positions: the same run is replaced. */
  lemma ReplaceIsSplice(context: seq<Item>, a: nat, b: nat, id: string)
    requires Ascending(context) && a < b <= |context|
    ensures Replace(context, context[a].ordinal, context[b - 1].ordinal, id) ==
            context[..a] + [SummaryItem(context[a].ordinal, id)] + context[b..]
  {
    hide Below, Above, Ascending;
    BelowIsPrefix(context, a);
    AboveIsSuffix(context, b - 1);
  }

  /** Losslessness of one replacement: if the new summary is complete and expands to exactly what
      the replaced items stood for, the whole context still stands for the whole log. */
  lemma SpliceKeepsInv(st: Store, t: Store, a: nat, b: nat, id: string)
    requires Inv(st) && Extends(st, t) && t.messages == st.messages
    requires a < b <= |st.context| && (a > 0 ==> st.context[a - 1].SummaryItem?)
    requires t.context == st.context[..a] + [SummaryItem(st.context[a].ordinal, id)] + st.context[b..]
    requires Complete(t, id, DepthOf(t, id))
    requires Expand(t, id, DepthOf(t, id)) == RecallAll(st, st.context[a..b])
    requires t.sources.Keys <= t.summaries.Keys && t.children.Keys <= t.summaries.Keys
    ensures Inv(t)
  {
    hide Complete, Expand, ExpandAll, Ascending, Blocks, RecallAll;
    SpliceOrder(st.context, a, b, id);
    var left, mid, right := st.context[..a], st.context[a..b], st.context[b..];
    var node := SummaryItem(st.context[a].ordinal, id);
    SpliceRecall(st, t, left, mid, right, node);
    assert st.context == left + mid + right;
    assert ItemFits(t, node);
    hide ItemFits;
    ExtendsItems(st, t, left);
    ExtendsItems(st, t, right);
  }

  lemma SpliceOrder(context: seq<Item>, a: nat, b: nat, id: string)
    requires Ascending(context) && Blocks(context) && a < b <= |context|
    requires a > 0 ==> context[a - 1].SummaryItem?
    ensures var spliced := context[..a] + [SummaryItem(context[a].ordinal, id)] + context[b..];
            Ascending(spliced) && Blocks(spliced)
  {
    var spliced := context[..a] + [SummaryItem(context[a].ordinal, id)] + context[b..];
    assert forall i :: 0 <= i < a ==> spliced[i] == context[i] && context[i].SummaryItem?;
    assert forall i :: a < i < |spliced| ==> spliced[i] == context[i - a - 1 + b];
  }

  lemma SpliceRecall(st: Store, t: Store, left: seq<Item>, mid: seq<Item>, right: seq<Item>, node: Item)
    requires Extends(st, t) && Recall(t, node) == RecallAll(st, mid)
    requires forall i :: 0 <= i < |left| ==> ItemFits(st, left[i])
    requires forall i :: 0 <= i < |right| ==> ItemFits(st, right[i])
    ensures RecallAll(t, left + [node] + right) == RecallAll(st, left + mid + right)
  {
    hide ItemFits, Recall;
    ExtendsItems(st, t, left);
    ExtendsItems(st, t, right);
    RecallConcat(st, left + mid, right);
    RecallConcat(st, left, mid);
    RecallConcat(t, left + [node], right);
    RecallConcat(t, left, [node]);
    assert RecallAll(t, [node]) == Recall(t, node) + RecallAll(t, []);
  }

  // ----- The two kinds of commit -----

  function Splice(context: seq<Item>, a: nat, b: nat, id: string): seq<Item>
    requires a < b <= |context|
  {
    context[..a] + [SummaryItem(context[a].ordinal, id)] + context[b..]
  }

  predicate AreMessages(items: seq<Item>) { forall i :: 0 <= i < |items| ==> items[i].MessageItem? }

  predicate AreSummariesAt(st: Store, items: seq<Item>, d: nat) {
    forall i :: 0 <= i < |items| ==> items[i].SummaryItem? && items[i].summary in st.summaries
                                     && st.summaries[items[i].summary].depth == d
  }

  function MessageIDs(items: seq<Item>): seq<nat>
    requires AreMessages(items)
  {
    seq(|items|, i requires 0 <= i < |items| => items[i].message)
  }

  function SummaryIDs(st: Store, items: seq<Item>, d: nat): seq<string>
    requires AreSummariesAt(st, items, d)
  {
    seq(|items|, i requires 0 <= i < |items| => items[i].summary)
  }

  lemma {:induction false} RecallMessages(st: Store, items: seq<Item>)
    requires AreMessages(items)
    ensures RecallAll(st, items) == MessageIDs(items)
  {
    if items != [] {
      RecallMessages(st, items[1..]);
      assert MessageIDs(items) == [items[0].message] + MessageIDs(items[1..]);
    }
  }

  /** A leaf pass: the run a..b of messages becomes one leaf summary over exactly those messages. */
  function LeafCommit(st: Store, a: nat, b: nat, id: string, sum: Summary): Store
    requires a < b <= |st.context| && AreMessages(st.context[a..b])
  {
    st.(summaries := st.summaries[id := sum], sources := st.sources[id := MessageIDs(st.context[a..b])],
        context := Splice(st.context, a, b, id))
  }

  lemma LeafCommitKeepsInv(st: Store, a: nat, b: nat, id: string, sum: Summary)
    requires Inv(st) && a + MIN_LEAF <= b <= |st.context| && AreMessages(st.context[a..b])
    requires a > 0 ==> st.context[a - 1].SummaryItem?
    requires id !in st.summaries && sum.kind == Leaf && sum.depth == 0
    requires TimesFit(st.messages, sum, MessageIDs(st.context[a..b]))
    ensures Inv(LeafCommit(st, a, b, id, sum))
  {
    hide Inv, Complete, Expand, ItemFits, RecallAll;
    var t, run := LeafCommit(st, a, b, id, sum), st.context[a..b];
    RecallMessages(st, run);
    LinksFit(st);
    LeafIsComplete(t, id, run);
    assert Extends(st, t);
    SpliceKeepsInv(st, t, a, b, id);
  }

  lemma LeafIsComplete(t: Store, id: string, run: seq<Item>)
    requires id in t.summaries && t.summaries[id].depth == 0 && t.summaries[id].kind == Leaf
    requires AreMessages(run) && |run| >= MIN_LEAF && id in t.sources && t.sources[id] == MessageIDs(run)
    requires TimesFit(t.messages, t.summaries[id], MessageIDs(run))
    ensures Complete(t, id, 0) && Expand(t, id, 0) == MessageIDs(run)
  {
  }

  lemma RunFits(st: Store, a: nat, b: nat)
    requires Inv(st) && a <= b <= |st.context|
    ensures forall i :: 0 <= i < b - a ==> ItemFits(st, st.context[a..b][i])
  {
    hide ItemFits;
    var run := st.context[a..b];
    assert forall i :: 0 <= i < |run| ==> run[i] == st.context[a + i];
  }

  lemma LinksFit(st: Store)
    requires Inv(st)
    ensures st.sources.Keys <= st.summaries.Keys && st.children.Keys <= st.summaries.Keys
  {
  }

  /** A condensation: the run a..b of summaries of depth d becomes one summary of depth d + 1. */
  function CondenseCommit(st: Store, a: nat, b: nat, d: nat, id: string, sum: Summary): Store
    requires a < b <= |st.context| && AreSummariesAt(st, st.context[a..b], d)
  {
    st.(summaries := st.summaries[id := sum], children := st.children[id := SummaryIDs(st, st.context[a..b], d)],
        context := Splice(st.context, a, b, id))
  }

  lemma {:induction false} RecallSummaries(st: Store, t: Store, items: seq<Item>, d: nat)
    requires Extends(st, t) && AreSummariesAt(st, items, d)
    requires forall i :: 0 <= i < |items| ==> ItemFits(st, items[i])
    ensures AllComplete(t, SummaryIDs(st, items, d), d)
    ensures ExpandAll(t, SummaryIDs(st, items, d), d) == RecallAll(st, items)
  {
    if items != [] {
      assert ItemFits(st, items[0]);
      hide Complete, Expand, Extends, SummaryIDs, ExpandAll, AllComplete;
      ExtendsComplete(st, t, items[0].summary, d);
      RecallSummaries(st, t, items[1..], d);
      SummaryIDsCons(st, items, d);
      ExpandCons(t, items[0].summary, SummaryIDs(st, items[1..], d), d);
    } else {
      hide Complete, Expand;
      assert SummaryIDs(st, items, d) == [];
    }
  }

  lemma SummaryIDsCons(st: Store, items: seq<Item>, d: nat)
    requires AreSummariesAt(st, items, d) && items != []
    ensures SummaryIDs(st, items, d) == [items[0].summary] + SummaryIDs(st, items[1..], d)
  {
  }

  lemma ExpandCons(t: Store, id: string, ids: seq<string>, d: nat)
    ensures ExpandAll(t, [id] + ids, d) == Expand(t, id, d) + ExpandAll(t, ids, d)
    ensures AllComplete(t, [id] + ids, d) <==> Complete(t, id, d) && AllComplete(t, ids, d)
  {
    hide Complete, Expand;
    assert ([id] + ids)[1..] == ids;
  }

  /** The first and last message of a run of complete summaries carry its first and last times. */
  lemma {:induction false} RunTimes(st: Store, items: seq<Item>, d: nat)
    requires AreSummariesAt(st, items, d) && items != []
    requires forall i :: 0 <= i < |items| ==> ItemFits(st, items[i])
    ensures var e := RecallAll(st, items);
            && e != []
            && (forall i :: 0 <= i < |e| ==> e[i] < |st.messages|)
            && st.messages[e[0]].createdAt == st.summaries[items[0].summary].earliestAt
            && st.messages[e[|e| - 1]].createdAt == st.summaries[items[|items| - 1].summary].latestAt
  {
    hide Expand, AllComplete;
    assert ItemFits(st, items[0]);
    assert TimesFit(st.messages, st.summaries[items[0].summary], Recall(st, items[0]));
    if |items| > 1 {
      RunTimes(st, items[1..], d);
    }
  }

  lemma CondenseCommitKeepsInv(st: Store, a: nat, b: nat, d: nat, id: string, sum: Summary)
    requires Inv(st) && a + MIN_CONDENSE <= b <= |st.context| && AreSummariesAt(st, st.context[a..b], d)
    requires id !in st.summaries && sum.kind == Condensed && sum.depth == d + 1
    requires sum.earliestAt == st.summaries[st.context[a..b][0].summary].earliestAt
    requires sum.latestAt == st.summaries[st.context[a..b][b - a - 1].summary].latestAt
    ensures Inv(CondenseCommit(st, a, b, d, id, sum))
  {
    hide Inv, ItemFits, Complete, Expand, AllComplete, ExpandAll, RecallAll;
    var t, run := CondenseCommit(st, a, b, d, id, sum), st.context[a..b];
    SummaryComesAfterSummary(st, a);
    RunFits(st, a, b);
    LinksFit(st);
    assert Extends(st, t);
    RecallSummaries(st, t, run, d);
    RunTimes(st, run, d);
    CondensedIsComplete(t, id, d);
    SpliceKeepsInv(st, t, a, b, id);
  }

  lemma SummaryComesAfterSummary(st: Store, a: nat)
    requires Inv(st) && a < |st.context|
    ensures a > 0 && st.context[a].SummaryItem? ==> st.context[a - 1].SummaryItem?
  {
  }

  lemma CondensedIsComplete(t: Store, id: string, d: nat)
    requires id in t.summaries && t.summaries[id].depth == d + 1 && t.summaries[id].kind == Condensed
    requires id in t.children && |t.children[id]| >= MIN_CONDENSE && AllComplete(t, t.children[id], d)
    requires TimesFit(t.messages, t.summaries[id], ExpandAll(t, t.children[id], d))
    ensures Complete(t, id, d + 1) && Expand(t, id, d + 1) == ExpandAll(t, t.children[id], d)
  {
  }

  // ----- Shape of the tree -----

  function Pow3(d: nat): nat { if d == 0 then 1 else 3 * Pow3(d - 1) }

  /** A complete summary of depth d stands for at least 4 * 3^d messages. */
  lemma {:induction false} SummaryStandsForMany(st: Store, id: string, d: nat)
    requires Complete(st, id, d)
    ensures |Expand(st, id, d)| >= 4 * Pow3(d)
    decreases d, 0
  {
    if d > 0 {
      SummariesStandForMany(st, st.children[id], d - 1);
      hide Expand, ExpandAll, AllComplete;
      TimesGrows(MIN_CONDENSE, |st.children[id]|, 4 * Pow3(d - 1));
    }
  }

  /** In numbers, up to the greatest depth of any configuration. */
  lemma DepthCounts(st: Store, id: string, d: nat)
    requires Complete(st, id, d) && d <= 8
    ensures |Expand(st, id, d)| >= [4, 12, 36, 108, 324, 972, 2_916, 8_748, 26_244][d]
  {
    SummaryStandsForMany(st, id, d);
    hide Expand, Complete;
    assert Pow3(2) == 9 && Pow3(4) == 81 && Pow3(6) == 729 && Pow3(8) == 6_561;
  }

  lemma TimesGrows(a: nat, b: nat, m: nat)
    requires a <= b
    ensures a * m <= b * m
    ensures b > 0 ==> b * m == m + (b - 1) * m
  {
  }

  lemma {:induction false} SummariesStandForMany(st: Store, ids: seq<string>, d: nat)
    requires AllComplete(st, ids, d)
    ensures |ExpandAll(st, ids, d)| >= |ids| * (4 * Pow3(d))
    decreases d, 1, |ids|
  {
    if ids != [] {
      hide Complete, Expand;
      SummaryStandsForMany(st, ids[0], d);
      SummariesStandForMany(st, ids[1..], d);
      TimesGrows(0, |ids|, 4 * Pow3(d));
    }
  }

  /** Every child of a complete summary is complete, one level down, and its messages are among
      those of the parent. */
  lemma ChildIsOneLevelDown(st: Store, id: string, d: nat, i: nat)
    requires Complete(st, id, d) && d > 0 && i < |st.children[id]|
    ensures var child := st.children[id][i];
            && Complete(st, child, d - 1) && child in st.summaries && st.summaries[child].depth == d - 1
            && st.summaries[child].kind == if d == 1 then Leaf else Condensed
    ensures forall m :: m in Expand(st, st.children[id][i], d - 1) ==> m in Expand(st, id, d)
  {
    MemberOfAll(st, st.children[id], d - 1, i);
  }

  lemma {:induction false} MemberOfAll(st: Store, ids: seq<string>, d: nat, i: nat)
    requires AllComplete(st, ids, d) && i < |ids|
    ensures Complete(st, ids[i], d)
    ensures forall m :: m in Expand(st, ids[i], d) ==> m in ExpandAll(st, ids, d)
    decreases ids
  {
    hide Complete, Expand;
    if i > 0 {
      MemberOfAll(st, ids[1..], d, i - 1);
    }
  }

  /** When messages are in time order, a summary in the context covers the times of all the messages
      it stands for, at any depth. */
  lemma TimeRangeCovers(st: Store, k: nat, m: nat)
    requires forall i, j :: 0 <= i < j < |st.messages| ==> st.messages[i].createdAt <= st.messages[j].createdAt
    requires Inv(st) && k < |st.context| && st.context[k].SummaryItem?
    requires m in Recall(st, st.context[k])
    ensures var s := st.summaries[st.context[k].summary];
            m < |st.messages| && s.earliestAt <= st.messages[m].createdAt <= s.latestAt
  {
    var item := st.context[k];
    var e := Recall(st, item);
    assert ItemFits(st, item);
    assert TimesFit(st.messages, st.summaries[item.summary], e);
    var start := RecallIsContiguous(st, k);
    var i :| 0 <= i < |e| && e[i] == m;
    assert e[0] == start && e[|e| - 1] == start + |e| - 1 && m == start + i;
  }

  /** Each item of the context stands for a contiguous stretch of the log. */
  lemma RecallIsContiguous(st: Store, k: nat) returns (start: nat)
    requires Inv(st) && k < |st.context|
    ensures forall i :: 0 <= i < |Recall(st, st.context[k])| ==> Recall(st, st.context[k])[i] == start + i
  {
    hide Recall, ItemFits;
    var left, right := st.context[..k], st.context[k + 1..];
    var e := Recall(st, st.context[k]);
    assert st.context == left + ([st.context[k]] + right);
    RecallConcat(st, left, [st.context[k]] + right);
    assert RecallAll(st, [st.context[k]] + right) == e + RecallAll(st, right);
    start := |RecallAll(st, left)|;
    var all := Range(|st.messages|);
    assert all == RecallAll(st, left) + (e + RecallAll(st, right));
    forall i | 0 <= i < |e| ensures e[i] == start + i {
      assert e[i] == all[start + i];
    }
  }
}
