/** The standard pattern matchers put into the permission algebra: wildcards for most tools, lists of
    wildcards for spawning. What the shell matcher of the Bash tool decides stays a parameter. */
module PermissionPatterns {
  import opened Common
  import opened Text
  import opened ToolRules
  import opened Permissions
  import opened Wildcard

  /** The text a pattern is matched against; no extractor for an unknown tool. */
  type Extractor = (string, string) -> Option<string>

  ghost predicate ItemMatches(item: string, value: string) {
    TrimSpace(item) != "" && Matches(TrimSpace(item), value)
  }

  /** Some stretch of the pattern between neighbouring commas or ends, without the spaces around it,
      is a wildcard that matches; empty stretches match nothing. */
  ghost predicate ListMatches(pattern: string, value: string) {
    exists i: nat, j: nat :: IsItem(pattern, ',', i, j) && ItemMatches(pattern[i..j], value)
  }

  method WildcardMatchFunc(pattern: string, value: string) returns (r: MatchResult)
    ensures r == if Matches(pattern, value) then Match else NoMatch
  {
    var yes := MatchWildcard(pattern, value);
    r := if yes then Match else NoMatch;
  }

  method MatchCommaList(pattern: string, value: string) returns (r: MatchResult)
    ensures r == if ListMatches(pattern, value) then Match else NoMatch
  {
    hide Split, Matches, TrimFunc, IsItem;
    var items := Split(pattern, ',');
    for n := 0 to |items|
      invariant forall k :: 0 <= k < n ==> !ItemMatches(items[k], value)
    {
      var item := TrimSpace(items[n]);
      if item == "" {
        continue;
      }
      var yes := MatchWildcard(item, value);
      if yes {
        assert items[n] in items;
        SplitExactly(pattern, ',', items[n]);
        return Match;
      }
    }
    NoItemMatches(pattern, value);
    return NoMatch;
  }

  lemma NoItemMatches(pattern: string, value: string)
    requires forall k :: 0 <= k < |Split(pattern, ',')| ==> !ItemMatches(Split(pattern, ',')[k], value)
    ensures !ListMatches(pattern, value)
  {
    hide Split, ItemMatches;
    forall i: nat, j: nat | IsItem(pattern, ',', i, j) ensures !ItemMatches(pattern[i..j], value) {
      SplitExactly(pattern, ',', pattern[i..j]);
    }
  }

  ghost predicate PatternMatches(tool: string, pattern: string, value: string) {
    if tool == "SpawnInstance" then ListMatches(pattern, value) else Matches(pattern, value)
  }

  /** matchResult with the default extractors and matchers. */
  ghost function Standard(extract: Extractor, bash: (string, string) -> MatchResult): Matcher {
    (tool, pattern, params) =>
      match extract(tool, params)
      case None => NoMatch
      case Some(value) =>
        if tool == "Bash" then bash(pattern, value)
        else if PatternMatches(tool, pattern, value) then Match else NoMatch
  }

  /** matchResult: what the default checker answers for one rule. */
  method RuleResult(extract: Extractor, bash: (string, string) -> MatchResult, r: Rule, tool: string, params: string)
    returns (result: MatchResult)
    ensures result == RuleMatch(Standard(extract, bash), r, tool, params)
  {
    hide ListMatches, Matches;
    if r.tool != tool {
      return NoMatch;
    }
    if r.pattern == "" {
      return Match;
    }
    match extract(tool, params)
    case None => return NoMatch;
    case Some(value) =>
      if tool == "Bash" {
        return bash(r.pattern, value);
      }
      if tool == "SpawnInstance" {
        result := MatchCommaList(r.pattern, value);
        assert PatternMatches(tool, r.pattern, value) <==> ListMatches(r.pattern, value);
      } else {
        result := WildcardMatchFunc(r.pattern, value);
        assert PatternMatches(tool, r.pattern, value) <==> Matches(r.pattern, value);
      }
  }

  /** The rule covers a call of its tool. */
  ghost predicate Covers(extract: Extractor, r: Rule, params: string) {
    IsWholeTool(r) || (extract(r.tool, params).Some? && PatternMatches(r.tool, r.pattern, extract(r.tool, params).value))
  }

  /** Declarations allow a call in terms of patterns alone: the tool is declared, no deny rule covers
      the call, and if some allow rule of the tool has a pattern, one with a pattern covers it. */
  ghost predicate PatternsAllow(extract: Extractor, own: Declared, tool: string, params: string) {
    && (exists r :: r in own.allow && r.tool == tool)
    && (forall r :: r in own.deny && r.tool == tool ==> !Covers(extract, r, params))
    && (HasParam(own.allow, tool) ==>
          exists r :: r in own.allow && r.tool == tool && !IsWholeTool(r) && Covers(extract, r, params))
  }

  lemma PatternsDecide(extract: Extractor, bash: (string, string) -> MatchResult, own: Declared,
                       tool: string, params: string)
    requires tool != "Bash"
    ensures DeclarationAllows(Standard(extract, bash), own, tool, params) <==> PatternsAllow(extract, own, tool, params)
  {
    hide PatternMatches;
    var m := Standard(extract, bash);
    forall r: Rule | r.tool == tool
      ensures RuleMatch(m, r, tool, params) == (if Covers(extract, r, params) then Match else NoMatch)
      ensures !IsWholeTool(r) ==> m(tool, r.pattern, params) == if Covers(extract, r, params) then Match else NoMatch
    {
    }
  }

  /** Along any chain of instances a tool other than Bash may be called exactly if the patterns of
      every declaration on the chain allow it. */
  lemma ChainOfPatterns(extract: Extractor, bash: (string, string) -> MatchResult, chain: seq<Declared>,
                        tool: string, params: string)
    requires chain != [] && tool != "Bash"
    ensures Permits(Standard(extract, bash), ChainRules(chain), Call(tool, Parsed(params))) <==>
            forall i :: 0 <= i < |chain| ==> PatternsAllow(extract, chain[i], tool, params)
  {
    hide Permits, ChainRules, DeclarationAllows, PatternsAllow, Standard, AllStripped;
    ChainIsConjunction(Standard(extract, bash), chain, tool, params);
    forall i | 0 <= i < |chain|
      ensures DeclarationAllows(Standard(extract, bash), chain[i], tool, params) <==>
              PatternsAllow(extract, chain[i], tool, params)
    {
      PatternsDecide(extract, bash, chain[i], tool, params);
    }
  }
}
