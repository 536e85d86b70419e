/** Tool permission rules: parsing, and the decision of the rule checker. Pattern matching itself is
    a parameter: it depends on the tool, the pattern and the call's parameters. */
module ToolRules {
  import opened Text

  datatype Rule = Rule(tool: string, pattern: string)

  predicate IsWholeTool(r: Rule) { r.pattern == "" }

  datatype Result<T> = Ok(value: T) | Err

  // ----- Parsing -----

  function ParseRule(input: string): Result<Rule> {
    var s := TrimSpace(input);
    if s == "" then Err
    else
      var idx := IndexOf(s, '(');
      if idx < 0 then Ok(Rule(s, ""))
      else if s[|s| - 1] != ')' then Err
      else
        var tool := TrimSpace(s[..idx]);
        if tool == "" then Err
        else
          var pattern := s[idx + 1..|s| - 1];
          if pattern == "" then Err else Ok(Rule(tool, pattern))
  }

  function RuleString(r: Rule): string {
    if r.pattern == "" then r.tool else r.tool + "(" + r.pattern + ")"
  }

  /** Rules that some text denotes. */
  predicate Wellformed(r: Rule) { r.tool != "" && IsTrimmed(r.tool, IsSpace) && '(' !in r.tool }

  /** Parsing yields well-formed rules only. */
  lemma ParsedIsWellformed(input: string)
    ensures ParseRule(input).Ok? ==> Wellformed(ParseRule(input).value)
  {
    hide IsSpace, TrimFunc;
    var s := TrimSpace(input);
    TrimTrims(input, IsSpace);
    var idx := IndexOf(s, '(');
    if idx >= 0 {
      TrimTrims(s[..idx], IsSpace);
      TrimKeepsOut(s[..idx], IsSpace, '(');
    }
  }

  /** Printing a well-formed rule and parsing it again gives the rule back: with ParsedIsWellformed,
      the canonical text of any parsed rule denotes that same rule. */
  lemma ParseUndoesString(r: Rule)
    requires Wellformed(r)
    ensures ParseRule(RuleString(r)) == Ok(r)
  {
    var s := RuleString(r);
    if r.pattern != "" {
      assert s[0] == r.tool[0];
      TrimmedIsFixed(s, IsSpace);
      TrimmedIsFixed(r.tool, IsSpace);
      hide TrimFunc;
      BracketedParses(s, r.tool, r.pattern);
    } else {
      TrimmedIsFixed(s, IsSpace);
    }
  }

  /** input, without the spaces around it, is the tool alone, or the tool, perhaps spaces, and a
      non-empty pattern in parentheses; the tool is everything before the first parenthesis. */
  ghost predicate Denotes(input: string, r: Rule) {
    r.tool != "" && exists lead :: HasForm(input, r, lead)
  }

  ghost predicate HasForm(input: string, r: Rule, lead: string) {
    && IsCore(lead, r.tool, IsSpace) && '(' !in lead
    && IsCore(input, if r.pattern == "" then r.tool else lead + "(" + r.pattern + ")", IsSpace)
  }

  /** A rule is read exactly if the text denotes it; every other text is an error. */
  lemma ParseExactly(input: string, r: Rule)
    ensures ParseRule(input) == Ok(r) <==> Denotes(input, r)
  {
    hide TrimFunc, IsCore, IsSpace;
    var s := TrimSpace(input);
    TrimExactly(input, s, IsSpace);
    if ParseRule(input) == Ok(r) {
      ParsedDenotes(input, r);
    }
    if Denotes(input, r) {
      var lead :| HasForm(input, r, lead);
      DenotedParses(input, r, lead);
    }
  }

  lemma ParsedDenotes(input: string, r: Rule)
    requires ParseRule(input) == Ok(r)
    ensures Denotes(input, r)
  {
    hide TrimFunc, IsCore, IsSpace;
    var s := TrimSpace(input);
    TrimExactly(input, s, IsSpace);
    var idx := IndexOf(s, '(');
    if idx < 0 {
      TrimTrims(input, IsSpace);
      TrimmedIsFixed(s, IsSpace);
      TrimExactly(s, s, IsSpace);
      assert HasForm(input, r, s);
    } else {
      var lead := s[..idx];
      TrimExactly(lead, r.tool, IsSpace);
      Bracketed(s, idx);
      assert HasForm(input, r, lead);
    }
  }

  lemma Bracketed(s: string, idx: nat)
    requires idx < |s| - 1 && s[idx] == '(' && s[|s| - 1] == ')'
    ensures s == s[..idx] + "(" + s[idx + 1..|s| - 1] + ")"
  {
  }

  lemma DenotedParses(input: string, r: Rule, lead: string)
    requires r.tool != "" && HasForm(input, r, lead)
    ensures ParseRule(input) == Ok(r)
  {
    hide TrimFunc, IsSpace, IsCore, IndexOf;
    TrimExactly(lead, r.tool, IsSpace);
    if r.pattern == "" {
      TrimKeepsOut(lead, IsSpace, '(');
      TrimExactly(input, r.tool, IsSpace);
    } else {
      TrimExactly(input, lead + "(" + r.pattern + ")", IsSpace);
      BracketedParses(input, lead, r.pattern);
    }
  }

  lemma BracketedParses(input: string, lead: string, pattern: string)
    requires TrimSpace(input) == lead + "(" + pattern + ")" && '(' !in lead && TrimSpace(lead) != "" && pattern != ""
    ensures ParseRule(input) == Ok(Rule(TrimSpace(lead), pattern))
  {
    hide TrimFunc, IsSpace, IndexOf;
    BracketsAt(lead, pattern);
  }

  lemma BracketsAt(lead: string, pattern: string)
    requires '(' !in lead
    ensures var s := lead + "(" + pattern + ")";
            && IndexOf(s, '(') == |lead| && s[..|lead|] == lead
            && s[|s| - 1] == ')' && s[|lead| + 1..|s| - 1] == pattern
  {
    var s := lead + "(" + pattern + ")";
    assert s[|lead|] == '(' && s[..|lead|] == lead;
    IndexOfFirst(s, '(', |lead|);
  }

  function ParseAll(ss: seq<string>): Result<seq<Rule>> {
    if ss == [] then Ok([])
    else
      match ParseAll(ss[..|ss| - 1])
      case Err => Err
      case Ok(rules) =>
        match ParseRule(ss[|ss| - 1])
        case Err => Err
        case Ok(r) => Ok(rules + [r])
  }

  /** ParseRules: all or nothing. */
  method ParseRules(ss: seq<string>) returns (r: Result<seq<Rule>>)
    ensures r == ParseAll(ss)
    ensures r.Ok? <==> forall i :: 0 <= i < |ss| ==> ParseRule(ss[i]).Ok?
  {
    hide ParseRule;
    var rules: seq<Rule> := [];
    for i := 0 to |ss|
      invariant ParseAll(ss[..i]) == Ok(rules)
      invariant forall k :: 0 <= k < i ==> ParseRule(ss[k]).Ok?
    {
      assert ss[..i + 1][..i] == ss[..i];
      match ParseRule(ss[i])
      case Err =>
        ParseAllFails(ss, i);
        return Err;
      case Ok(rule) =>
        rules := rules + [rule];
    }
    assert ss[..|ss|] == ss;
    r := Ok(rules);
  }

  lemma {:induction false} ParseAllFails(ss: seq<string>, i: nat)
    requires i < |ss| && ParseRule(ss[i]).Err?
    ensures ParseAll(ss).Err?
    decreases |ss|
  {
    hide ParseRule;
    if i < |ss| - 1 {
      ParseAllFails(ss[..|ss| - 1], i);
    }
  }

  // ----- Checking one call -----

  datatype MatchResult = NoMatch | Match | Uncertain

  datatype Decision = Allowed | Denied | Unmatched | NeedsReview

  /** (tool, pattern, parameters) -> result, for a parameterized rule of that tool. */
  type Matcher = (string, string, string) -> MatchResult

  function RuleMatch(m: Matcher, r: Rule, tool: string, params: string): MatchResult {
    if r.tool != tool then NoMatch else if IsWholeTool(r) then Match else m(tool, r.pattern, params)
  }

  ghost predicate SomeRule(m: Matcher, rules: seq<Rule>, tool: string, params: string, result: MatchResult) {
    exists r :: r in rules && r.tool == tool && RuleMatch(m, r, tool, params) == result
  }

  /** What the checker decides, without its loops: a definite deny wins over an uncertain one, an
      uncertain allow over a definite one. */
  ghost function Decide(m: Matcher, tool: string, params: string, allow: seq<Rule>, deny: seq<Rule>): Decision {
    if SomeRule(m, deny, tool, params, Match) then Denied
    else if SomeRule(m, deny, tool, params, Uncertain) then NeedsReview
    else if SomeRule(m, allow, tool, params, Uncertain) then NeedsReview
    else if SomeRule(m, allow, tool, params, Match) then Allowed
    else if SomeRule(m, allow, tool, params, NoMatch) then Denied
    else Unmatched
  }

  method Check(m: Matcher, tool: string, params: string, allow: seq<Rule>, deny: seq<Rule>) returns (d: Decision)
    ensures d == Decide(m, tool, params, allow, deny)
  {
    var denyUncertain := false;
    for i := 0 to |deny|
      invariant !SomeRule(m, deny[..i], tool, params, Match)
      invariant denyUncertain <==> SomeRule(m, deny[..i], tool, params, Uncertain)
    {
      assert deny[..i + 1] == deny[..i] + [deny[i]];
      if deny[i].tool == tool {
        match RuleMatch(m, deny[i], tool, params) {
          case Match =>
            assert deny[i] in deny;
            return Denied;
          case Uncertain => denyUncertain := true;
          case NoMatch =>
        }
      }
    }
    assert deny[..|deny|] == deny;
    if denyUncertain {
      return NeedsReview;
    }
    var hasAllow, allowMatched, allowUncertain := false, false, false;
    for i := 0 to |allow|
      invariant hasAllow <==> exists r :: r in allow[..i] && r.tool == tool
      invariant allowMatched <==> SomeRule(m, allow[..i], tool, params, Match)
      invariant allowUncertain <==> SomeRule(m, allow[..i], tool, params, Uncertain)
    {
      assert allow[..i + 1] == allow[..i] + [allow[i]];
      if allow[i].tool == tool {
        hasAllow := true;
        match RuleMatch(m, allow[i], tool, params) {
          case Match => allowMatched := true;
          case Uncertain => allowUncertain := true;
          case NoMatch =>
        }
      }
    }
    assert allow[..|allow|] == allow;
    if allowUncertain {
      return NeedsReview;
    }
    if allowMatched {
      return Allowed;
    }
    if hasAllow {
      ghost var r :| r in allow && r.tool == tool;
      assert RuleMatch(m, r, tool, params) == NoMatch;
      return Denied;
    }
    return Unmatched;
  }
}
