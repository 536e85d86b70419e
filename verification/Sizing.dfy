/** Compaction parameters derived from the context window, token estimates, and the escalation that
    bounds a summary whatever the summarizer returns. Strings are byte strings: one char, one byte. */
module Sizing {

  const CHARS_PER_TOKEN: nat := 4
  const DEFAULT_CONTEXT_WINDOW: nat := 200_000

  datatype Config = Config(contextWindow: nat, tokenBudget: nat, freshTailCount: nat,
                           leafChunkTokens: nat, leafTargetTokens: nat, condenseTargetTokens: nat,
                           leafMinFanout: nat, condenseMinFanout: nat, maxSummaryDepth: nat)

  function Min(a: int, b: int): int { if a < b then a else b }

  function Max(a: int, b: int): int { if a < b then b else a }

  function Clamp(lo: int, v: int, hi: int): int { if v < lo then lo else if v > hi then hi else v }

  function ConfigForWindow(window: int): Config {
    var w := if window <= 0 then DEFAULT_CONTEXT_WINDOW else window;
    Config(w,
           Min(Max(1_000, w * 9 / 10), 350_000),
           Max(20, w / 10_000),
           Clamp(500, w / 10, 20_000),
           Clamp(200, w / 50, 4_000),
           Clamp(400, w / 25, 8_000),
           4,
           Clamp(3, w / 100_000, 6),
           Clamp(4, w / 50_000, 8))
  }

  /** 60% and 85% of the window as exact fractions, capped. */
  function SoftThreshold(c: Config): nat { Min(c.contextWindow * 60 / 100, 200_000) }

  function HardThreshold(c: Config): nat { Min(c.contextWindow * 85 / 100, 300_000) }

  /** For every window: soft <= hard <= budget, even an overlong leaf summary is smaller than the
      chunk it replaces, and every fan-out and depth is in its working range. */
  lemma ConfigIsSound(window: int)
    ensures var c := ConfigForWindow(window);
            && SoftThreshold(c) <= HardThreshold(c) <= c.tokenBudget
            && c.leafTargetTokens * 3 / 2 < c.leafChunkTokens
            && c.leafTargetTokens <= c.condenseTargetTokens
            && c.leafMinFanout >= 4 && c.condenseMinFanout >= 3 && c.maxSummaryDepth >= 4
            && c.freshTailCount >= 20
            && c.leafTargetTokens >= 1 && c.condenseTargetTokens >= 1
  {
    var w := ConfigForWindow(window).contextWindow;
    assert w * 85 / 100 <= w * 9 / 10;
  }

  /** Every derived parameter grows with the window. */
  lemma ConfigIsMonotone(v: int, w: int)
    requires 0 < v <= w
    ensures var c, d := ConfigForWindow(v), ConfigForWindow(w);
            && SoftThreshold(c) <= SoftThreshold(d) && HardThreshold(c) <= HardThreshold(d)
            && c.tokenBudget <= d.tokenBudget && c.freshTailCount <= d.freshTailCount
            && c.leafChunkTokens <= d.leafChunkTokens && c.leafTargetTokens <= d.leafTargetTokens
            && c.condenseTargetTokens <= d.condenseTargetTokens
            && c.condenseMinFanout <= d.condenseMinFanout && c.maxSummaryDepth <= d.maxSummaryDepth
  {
    hide Clamp;
    assert v / 10 <= w / 10 && v / 50 <= w / 50 && v / 25 <= w / 25;
    assert v / 100_000 <= w / 100_000 && v / 50_000 <= w / 50_000 && v / 10_000 <= w / 10_000;
    ClampGrows(500, v / 10, w / 10, 20_000);
    ClampGrows(200, v / 50, w / 50, 4_000);
    ClampGrows(400, v / 25, w / 25, 8_000);
    ClampGrows(3, v / 100_000, w / 100_000, 6);
    ClampGrows(4, v / 50_000, w / 50_000, 8);
    assert v * 60 / 100 <= w * 60 / 100 && v * 85 / 100 <= w * 85 / 100 && v * 9 / 10 <= w * 9 / 10;
  }

  lemma ClampGrows(lo: int, v: int, w: int, hi: int)
    requires v <= w && lo <= hi
    ensures Clamp(lo, v, hi) <= Clamp(lo, w, hi)
  {
  }

  /** t is the share w / k, rounded down and brought into [lo, hi]; k is num / den. */
  predicate IsShare(t: int, w: int, num: int, den: int, lo: int, hi: int) {
    lo <= t <= hi && (t > lo ==> t * den <= w * num) && (t < hi ==> w * num < (t + 1) * den)
  }

  /** Every derived parameter by itself: which share of the window it is, and between which bounds. */
  lemma ConfigShares(w: int)
    requires w > 0
    ensures var c := ConfigForWindow(w);
            && c.contextWindow == w && c.leafMinFanout == 4
            && IsShare(c.leafChunkTokens, w, 1, 10, 500, 20_000)
            && IsShare(c.leafTargetTokens, w, 1, 50, 200, 4_000)
            && IsShare(c.condenseTargetTokens, w, 1, 25, 400, 8_000)
            && IsShare(c.condenseMinFanout, w, 1, 100_000, 3, 6)
            && IsShare(c.maxSummaryDepth, w, 1, 50_000, 4, 8)
            && IsShare(c.tokenBudget, w, 9, 10, 1_000, 350_000)
            && (c.freshTailCount == 20 || c.freshTailCount * 10_000 <= w) && c.freshTailCount >= 20
            && w < (c.freshTailCount + 1) * 10_000
            && IsShare(SoftThreshold(c), w, 60, 100, 0, 200_000)
            && IsShare(HardThreshold(c), w, 85, 100, 0, 300_000)
    ensures forall v :: v <= 0 ==> ConfigForWindow(v) == ConfigForWindow(200_000)
  {
    hide Clamp, IsShare;
    SizeShares(w);
    CountShares(w);
    OtherShares(w);
  }

  lemma SizeShares(w: int)
    requires w > 0
    ensures IsShare(Clamp(500, w / 10, 20_000), w, 1, 10, 500, 20_000)
    ensures IsShare(Clamp(200, w / 50, 4_000), w, 1, 50, 200, 4_000)
    ensures IsShare(Clamp(400, w / 25, 8_000), w, 1, 25, 400, 8_000)
  {
  }

  lemma CountShares(w: int)
    requires w > 0
    ensures IsShare(Clamp(3, w / 100_000, 6), w, 1, 100_000, 3, 6)
    ensures IsShare(Clamp(4, w / 50_000, 8), w, 1, 50_000, 4, 8)
  {
  }

  lemma OtherShares(w: int)
    requires w > 0
    ensures var c := ConfigForWindow(w);
            && IsShare(c.tokenBudget, w, 9, 10, 1_000, 350_000)
            && IsShare(SoftThreshold(c), w, 60, 100, 0, 200_000)
            && IsShare(HardThreshold(c), w, 85, 100, 0, 300_000)
  {
    hide Clamp;
  }

  /** The window sizes that the code documents: budget, tail, chunk, both targets, both fan-outs and
      depth, and the thresholds. */
  lemma DocumentedSizes()
    ensures ConfigForWindow(32_000) == Config(32_000, 28_800, 20, 3_200, 640, 1_280, 4, 3, 4)
    ensures ConfigForWindow(200_000) == Config(200_000, 180_000, 20, 20_000, 4_000, 8_000, 4, 3, 4)
    ensures ConfigForWindow(1_000_000) == Config(1_000_000, 350_000, 100, 20_000, 4_000, 8_000, 4, 6, 8)
    ensures ConfigForWindow(2_000_000) == Config(2_000_000, 350_000, 200, 20_000, 4_000, 8_000, 4, 6, 8)
    ensures SoftThreshold(ConfigForWindow(32_000)) == 19_200 && HardThreshold(ConfigForWindow(32_000)) == 27_200
    ensures SoftThreshold(ConfigForWindow(200_000)) == 120_000 && HardThreshold(ConfigForWindow(200_000)) == 170_000
    ensures SoftThreshold(ConfigForWindow(1_000_000)) == 200_000 && HardThreshold(ConfigForWindow(1_000_000)) == 300_000
    ensures SoftThreshold(ConfigForWindow(2_000_000)) == 200_000 && HardThreshold(ConfigForWindow(2_000_000)) == 300_000
  {
  }

  // ----- Token estimates -----

  function EstimateTokens(s: string): nat {
    var n := |s| / CHARS_PER_TOKEN;
    if n == 0 && s != "" then 1 else n
  }

  /** Four bytes to a token, rounded down, but at least one for any text. */
  lemma TokensExactly(s: string)
    ensures |s| >= 4 ==> 4 * EstimateTokens(s) <= |s| < 4 * EstimateTokens(s) + 4
    ensures 0 < |s| < 4 ==> EstimateTokens(s) == 1
    ensures s == "" ==> EstimateTokens(s) == 0
  {
  }

  predicate OccursAt(s: string, sep: string, i: int) {
    0 <= i && i + |sep| <= |s| && s[i..i + |sep|] == sep
  }

  /** sep stands in s at i, character by character. */
  lemma OccursExactly(s: string, sep: string, i: int)
    ensures OccursAt(s, sep, i) <==> 0 <= i <= |s| - |sep| && forall k :: 0 <= k < |sep| ==> s[i + k] == sep[k]
  {
    if 0 <= i <= |s| - |sep| {
      var t := s[i..i + |sep|];
      assert forall k :: 0 <= k < |sep| ==> t[k] == s[i + k];
    }
  }

  /** strings.LastIndex: the last position at which sep occurs, or -1. */
  function LastIndex(s: string, sep: string): (i: int)
    ensures i == -1 || OccursAt(s, sep, i)
    ensures forall j :: OccursAt(s, sep, j) ==> j <= i
  {
    LastIndexUpTo(s, sep, |s| - |sep|)
  }

  function LastIndexUpTo(s: string, sep: string, from: int): (i: int)
    requires from <= |s| - |sep|
    ensures i == -1 || OccursAt(s, sep, i)
    ensures forall j :: OccursAt(s, sep, j) && j <= from ==> j <= i
    decreases from + 1
  {
    if from < 0 then -1
    else if OccursAt(s, sep, from) then from
    else LastIndexUpTo(s, sep, from - 1)
  }

  /** strings.TrimRight(s, "\n "). */
  function TrimRight(s: string): (r: string)
    ensures r <= s
    ensures r != "" ==> r[|r| - 1] != '\n' && r[|r| - 1] != ' '
    ensures forall i :: |r| <= i < |s| ==> s[i] == '\n' || s[i] == ' '
  {
    if s != "" && (s[|s| - 1] == '\n' || s[|s| - 1] == ' ') then TrimRight(s[..|s| - 1]) else s
  }

  function TruncateAtBullet(content: string, maxTokens: nat): string {
    var maxChars := maxTokens * CHARS_PER_TOKEN;
    if |content| <= maxChars then content
    else
      var truncated := content[..maxChars];
      var lastBullet := LastIndex(truncated, "\n- ");
      var lastSpace := LastIndex(truncated, " ");
      TrimRight(if lastBullet > 0 then truncated[..lastBullet]
                else if lastSpace > 0 then truncated[..lastSpace]
                else truncated)
  }

  /** The truncation is a prefix within the budget. If any complete bullet ends inside the budget,
      the cut is right before the last bullet that starts there: no fact is chopped, and no later
      cut at a bullet was possible. */
  lemma TruncationKeepsWholeBullets(content: string, maxTokens: nat, i: nat)
    requires |content| > maxTokens * CHARS_PER_TOKEN
    requires 0 < i <= maxTokens * CHARS_PER_TOKEN - 3 && OccursAt(content, "\n- ", i)
    requires forall j :: OccursAt(content, "\n- ", j) && j <= maxTokens * CHARS_PER_TOKEN - 3 ==> j <= i
    ensures TruncateAtBullet(content, maxTokens) == TrimRight(content[..i])
  {
    var n := maxTokens * CHARS_PER_TOKEN;
    var truncated := content[..n];
    forall j ensures OccursAt(truncated, "\n- ", j) <==> OccursAt(content, "\n- ", j) && j <= n - 3 {
      assert 0 <= j <= n - 3 ==> truncated[j..j + 3] == content[j..j + 3];
    }
    assert LastIndex(truncated, "\n- ") == i;
    assert truncated[..i] == content[..i];
  }

  lemma TruncationFits(content: string, maxTokens: nat)
    requires maxTokens > 0
    ensures TruncateAtBullet(content, maxTokens) <= content
    ensures |content| <= 4 * maxTokens ==> TruncateAtBullet(content, maxTokens) == content
    ensures EstimateTokens(TruncateAtBullet(content, maxTokens)) <= maxTokens
  {
  }

  // ----- Escalation -----

  datatype Reply = Failed | Text(text: string)

  function Target(c: Config, depth: nat): nat {
    if depth > 0 then c.condenseTargetTokens else c.leafTargetTokens
  }

  /** normal and aggressive are what the summarizer answers to the two prompts. */
  function SummarizeWithEscalation(c: Config, depth: nat, normal: Reply, aggressive: Reply): Reply {
    var target := Target(c, depth);
    if normal.Failed? then Failed
    else if EstimateTokens(normal.text) <= target then normal
    else if aggressive.Failed? then Failed
    else if EstimateTokens(aggressive.text) <= target * 3 / 2 then aggressive
    else Text(TruncateAtBullet(aggressive.text, target))
  }

  // ----- What a pass may store -----

  /** The summarizer lets the pass down: its first answer fails, or that answer is over target and the
      second one fails. */
  predicate SummarizerFails(target: nat, normal: Reply, aggressive: Reply) {
    normal.Failed? || (EstimateTokens(normal.text) > target && aggressive.Failed?)
  }

  /** The last position in 1..n at which sep occurs inside the first n bytes. */
  ghost predicate IsLastCut(text: string, sep: string, n: nat, p: nat) {
    && 0 < p && p + |sep| <= n && OccursAt(text, sep, p)
    && forall i :: p < i && i + |sep| <= n ==> !OccursAt(text, sep, i)
  }

  ghost predicate HasCut(text: string, sep: string, n: nat) { exists p: nat :: IsLastCut(text, sep, n, p) }

  /** Before the last bullet inside the budget of n bytes; without one, before the last space; without
      either, at the budget. */
  ghost predicate IsCutPosition(text: string, n: nat, p: nat) {
    if HasCut(text, "\n- ", n) then IsLastCut(text, "\n- ", n, p)
    else if HasCut(text, " ", n) then IsLastCut(text, " ", n, p)
    else p == n
  }

  predicate IsBlank(c: char) { c == '\n' || c == ' ' }

  /** content is text up to p without trailing newlines and spaces. */
  predicate IsTrimmedTo(text: string, p: nat, content: string) {
    && p <= |text| && content <= text[..p]
    && (forall i :: |content| <= i < p ==> IsBlank(text[i]))
    && (content != "" ==> !IsBlank(content[|content| - 1]))
  }

  /** The stored content: the first answer if it is within target, else the second if it is within
      3/2 of the target, else the second one cut. */
  ghost predicate IsStored(target: nat, normal: Reply, aggressive: Reply, content: string) {
    && normal.Text?
    && if EstimateTokens(normal.text) <= target then content == normal.text
       else
         && aggressive.Text?
         && if EstimateTokens(aggressive.text) <= target * 3 / 2 then content == aggressive.text
            else exists p: nat :: IsCutPosition(aggressive.text, 4 * target, p) && IsTrimmedTo(aggressive.text, p, content)
  }

  /** The escalation fails exactly when the summarizer does, and otherwise answers what is stored. */
  lemma EscalationExactly(c: Config, depth: nat, normal: Reply, aggressive: Reply)
    ensures var target := if depth == 0 then c.leafTargetTokens else c.condenseTargetTokens;
            var r := SummarizeWithEscalation(c, depth, normal, aggressive);
            && (r.Failed? <==> SummarizerFails(target, normal, aggressive))
            && (r.Text? ==> IsStored(target, normal, aggressive, r.text))
  {
    var target := if depth == 0 then c.leafTargetTokens else c.condenseTargetTokens;
    var r := SummarizeWithEscalation(c, depth, normal, aggressive);
    if r.Text? && EstimateTokens(normal.text) > target && EstimateTokens(aggressive.text) > target * 3 / 2 {
      var p := TruncationCuts(aggressive.text, target);
    }
  }

  lemma TruncationCuts(text: string, target: nat) returns (p: nat)
    requires |text| > 4 * target
    ensures IsCutPosition(text, 4 * target, p) && IsTrimmedTo(text, p, TruncateAtBullet(text, target))
  {
    hide LastIndex, TrimRight, OccursAt;
    var n := 4 * target;
    var truncated := text[..n];
    var bullet, space := LastIndex(truncated, "\n- "), LastIndex(truncated, " ");
    LastCutIs(text, "\n- ", n, bullet);
    LastCutIs(text, " ", n, space);
    p := if bullet > 0 then bullet else if space > 0 then space else n;
    hide IsLastCut;
    assert TruncateAtBullet(text, target) == TrimRight(text[..p]) by {
      assert bullet > 0 ==> truncated[..bullet] == text[..bullet];
      assert space > 0 ==> truncated[..space] == text[..space];
    }
    TrimmedTo(text, p);
  }

  lemma TrimmedTo(text: string, p: nat)
    requires p <= |text|
    ensures IsTrimmedTo(text, p, TrimRight(text[..p]))
  {
    var r := TrimRight(text[..p]);
    forall i | |r| <= i < p ensures IsBlank(text[i]) {
      assert text[..p][i] == text[i];
    }
  }

  lemma LastCutIs(text: string, sep: string, n: nat, i: int)
    requires n <= |text| && sep != "" && i == LastIndex(text[..n], sep)
    ensures i <= n
    ensures if i > 0 then IsLastCut(text, sep, n, i) && HasCut(text, sep, n) else !HasCut(text, sep, n)
  {
    var t := text[..n];
    forall j | 0 <= j && j + |sep| <= n ensures OccursAt(t, sep, j) <==> OccursAt(text, sep, j) {
      assert t[j..j + |sep|] == text[j..j + |sep|];
    }
    if i > 0 {
      assert OccursAt(t, sep, i);
      assert IsLastCut(text, sep, n, i);
    }
    hide LastIndex;
    forall p: nat | IsLastCut(text, sep, n, p) ensures p <= i {
      assert OccursAt(t, sep, p);
    }
  }

  /** What is stored is determined by the two answers. */
  lemma StoredIsUnique(target: nat, normal: Reply, aggressive: Reply, a: string, b: string)
    requires IsStored(target, normal, aggressive, a) && IsStored(target, normal, aggressive, b)
    ensures a == b
  {
    hide EstimateTokens, IsCutPosition, IsTrimmedTo;
    if EstimateTokens(normal.text) > target && EstimateTokens(aggressive.text) > target * 3 / 2 {
      var text := aggressive.text;
      var p: nat :| IsCutPosition(text, 4 * target, p) && IsTrimmedTo(text, p, a);
      var q: nat :| IsCutPosition(text, 4 * target, q) && IsTrimmedTo(text, q, b);
      CutIsUnique(text, 4 * target, p, q);
      TrimIsUnique(text, p, a, b);
    }
  }

  lemma CutIsUnique(text: string, n: nat, p: nat, q: nat)
    requires IsCutPosition(text, n, p) && IsCutPosition(text, n, q)
    ensures p == q
  {
    hide OccursAt;
  }

  lemma TrimIsUnique(text: string, p: nat, a: string, b: string)
    requires IsTrimmedTo(text, p, a) && IsTrimmedTo(text, p, b)
    ensures a == b
  {
    TrimNotLonger(text, p, a, b);
    TrimNotLonger(text, p, b, a);
    assert a == text[..|a|] && b == text[..|b|];
  }

  lemma TrimNotLonger(text: string, p: nat, a: string, b: string)
    requires IsTrimmedTo(text, p, a) && IsTrimmedTo(text, p, b)
    ensures |a| <= |b|
  {
    if a != "" && !IsBlank(a[|a| - 1]) {
      var i := |a| - 1;
      assert a[i] == text[i];
    }
  }

  /** Whatever the summarizer answers, what is stored is at most 3/2 of its target and a prefix of
      something the summarizer said. */
  lemma StoredIsBounded(target: nat, normal: Reply, aggressive: Reply, content: string)
    requires target > 0 && IsStored(target, normal, aggressive, content)
    ensures EstimateTokens(content) <= target * 3 / 2
    ensures (normal.Text? && content <= normal.text) || (aggressive.Text? && content <= aggressive.text)
  {
    if content != normal.text && content != aggressive.text {
      var text := aggressive.text;
      var p: nat :| IsCutPosition(text, 4 * target, p) && IsTrimmedTo(text, p, content);
      assert p <= 4 * target && |content| <= p;
    }
  }
}
