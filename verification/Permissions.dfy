/** The tool-permission algebra: how an instance's rules are computed from its own declarations and
    its parent's stored rules, and what the result means when a tool is called. */
module Permissions {
  import opened ToolRules

  /** What an instance stores: the names it may use, one layer of allow rules per source, and the
      merged deny rules. */
  datatype Rules = Rules(effective: set<string>, layers: seq<seq<Rule>>, deny: seq<Rule>)

  /** An instance's own declarations, parsed. */
  datatype Declared = Declared(allow: seq<Rule>, deny: seq<Rule>)

  /** Missing: a parent id is given but the parent is not registered or has no tool set. */
  datatype Parent = NoParent | Missing | Present(rules: Rules)

  // ----- Calls -----

  /** Parameters that fail to parse are Unparsable; an empty input counts as parsed. */
  datatype Input = Unparsable | Parsed(params: string)

  datatype Call = Call(tool: string, input: Input)

  ghost predicate DenyPasses(m: Matcher, deny: seq<Rule>, tool: string, params: string) {
    forall r :: r in deny && r.tool == tool ==> RuleMatch(m, r, tool, params) == NoMatch
  }

  ghost predicate LayerPasses(m: Matcher, layer: seq<Rule>, tool: string, params: string) {
    && (forall r :: r in layer && r.tool == tool ==> RuleMatch(m, r, tool, params) != Uncertain)
    && ((exists r :: r in layer && r.tool == tool) ==> SomeRule(m, layer, tool, params, Match))
  }

  ghost predicate RulesPass(m: Matcher, rules: Rules, call: Call) {
    if rules.deny == [] && rules.layers == [] then true
    else
      && call.input.Parsed?
      && DenyPasses(m, rules.deny, call.tool, call.input.params)
      && forall i :: 0 <= i < |rules.layers| ==> LayerPasses(m, rules.layers[i], call.tool, call.input.params)
  }

  /** A call goes through if the tool is in the set and no rule stops it. */
  ghost predicate Permits(m: Matcher, rules: Rules, call: Call) {
    call.tool in rules.effective && RulesPass(m, rules, call)
  }

  /** proxyTool.checkRules. */
  method CheckRules(m: Matcher, rules: Rules, call: Call) returns (pass: bool)
    ensures pass <==> RulesPass(m, rules, call)
  {
    if |rules.deny| == 0 && |rules.layers| == 0 {
      return true;
    }
    if call.input.Unparsable? {
      return false;
    }
    var params := call.input.params;
    if |rules.deny| > 0 {
      var d := Check(m, call.tool, params, [], rules.deny);
      if d == Denied || d == NeedsReview {
        return false;
      }
    }
    assert DenyPasses(m, rules.deny, call.tool, params);
    for i := 0 to |rules.layers|
      invariant forall k :: 0 <= k < i ==> LayerPasses(m, rules.layers[k], call.tool, params)
    {
      var d := Check(m, call.tool, params, rules.layers[i], []);
      DecideLayer(m, rules.layers[i], call.tool, params);
      if d == Denied || d == NeedsReview {
        return false;
      }
    }
    return true;
  }

  lemma DecideLayer(m: Matcher, layer: seq<Rule>, tool: string, params: string)
    ensures var d := Decide(m, tool, params, layer, []);
            LayerPasses(m, layer, tool, params) <==> d != Denied && d != NeedsReview
  {
    if exists r :: r in layer && r.tool == tool {
      var r :| r in layer && r.tool == tool;
      assert SomeRule(m, layer, tool, params, RuleMatch(m, r, tool, params));
    }
  }

  // ----- Computing the rules -----

  function Keep(rules: seq<Rule>, tools: set<string>): seq<Rule> {
    if rules == [] then []
    else Keep(rules[..|rules| - 1], tools) +
         if rules[|rules| - 1].tool in tools then [rules[|rules| - 1]] else []
  }

  method FilterRules(rules: seq<Rule>, tools: set<string>) returns (filtered: seq<Rule>)
    ensures filtered == Keep(rules, tools)
  {
    filtered := [];
    for i := 0 to |rules|
      invariant filtered == Keep(rules[..i], tools)
    {
      assert rules[..i + 1][..i] == rules[..i];
      if rules[i].tool in tools {
        filtered := filtered + [rules[i]];
      }
    }
    assert rules[..|rules|] == rules;
  }

  lemma {:induction false} KeepElements(rules: seq<Rule>, tools: set<string>)
    ensures forall r :: r in Keep(rules, tools) <==> r in rules && r.tool in tools
  {
    if rules != [] {
      KeepElements(rules[..|rules| - 1], tools);
      assert rules == rules[..|rules| - 1] + [rules[|rules| - 1]];
    }
  }

  predicate HasParam(rules: seq<Rule>, tool: string) {
    exists r :: r in rules && r.tool == tool && !IsWholeTool(r)
  }

  method HasParameterized(rules: seq<Rule>) returns (yes: bool)
    ensures yes <==> exists r :: r in rules && !IsWholeTool(r)
  {
    for i := 0 to |rules|
      invariant forall k :: 0 <= k < i ==> IsWholeTool(rules[k])
    {
      if !IsWholeTool(rules[i]) {
        return true;
      }
    }
    return false;
  }

  function DropWhole(rules: seq<Rule>, tools: set<string>): seq<Rule> {
    if rules == [] then []
    else
      var r := rules[|rules| - 1];
      DropWhole(rules[..|rules| - 1], tools) + if IsWholeTool(r) && r.tool in tools then [] else [r]
  }

  function ParamTools(rules: seq<Rule>): set<string> { set r | r in rules && !IsWholeTool(r) :: r.tool }

  function Strip(rules: seq<Rule>): seq<Rule> { DropWhole(rules, ParamTools(rules)) }

  method StripRedundantWholeToolRules(rules: seq<Rule>) returns (result: seq<Rule>)
    ensures result == Strip(rules)
  {
    var hasParam: set<string> := {};
    for i := 0 to |rules|
      invariant hasParam == ParamTools(rules[..i])
    {
      assert rules[..i + 1] == rules[..i] + [rules[i]];
      if !IsWholeTool(rules[i]) {
        hasParam := hasParam + {rules[i].tool};
      }
    }
    assert rules[..|rules|] == rules;
    result := [];
    for i := 0 to |rules|
      invariant result == DropWhole(rules[..i], hasParam)
    {
      assert rules[..i + 1][..i] == rules[..i];
      if !(IsWholeTool(rules[i]) && rules[i].tool in hasParam) {
        result := result + [rules[i]];
      }
    }
  }

  lemma {:induction false} DropWholeElements(rules: seq<Rule>, tools: set<string>)
    ensures forall r :: r in DropWhole(rules, tools) <==> r in rules && !(IsWholeTool(r) && r.tool in tools)
  {
    if rules != [] {
      DropWholeElements(rules[..|rules| - 1], tools);
      assert rules == rules[..|rules| - 1] + [rules[|rules| - 1]];
    }
  }

  /** A stripped layer keeps a tool's whole-tool rule only if the tool has no parameterized one. */
  lemma StripElements(rules: seq<Rule>)
    ensures forall r :: r in Strip(rules) <==> r in rules && !(IsWholeTool(r) && HasParam(rules, r.tool))
  {
    DropWholeElements(rules, ParamTools(rules));
    assert forall t :: t in ParamTools(rules) <==> HasParam(rules, t);
  }

  ghost predicate Stripped(layer: seq<Rule>) {
    forall r, s :: r in layer && s in layer && r.tool == s.tool && IsWholeTool(r) ==> IsWholeTool(s)
  }

  ghost predicate AllStripped(layers: seq<seq<Rule>>) {
    forall i :: 0 <= i < |layers| ==> Stripped(layers[i])
  }

  function CleanLayers(layers: seq<seq<Rule>>, tools: set<string>): seq<seq<Rule>> {
    seq(|layers|, i requires 0 <= i < |layers| => Strip(Keep(layers[i], tools)))
  }

  function Names(rules: seq<Rule>): set<string> { set r | r in rules :: r.tool }

  function WholeDenied(rules: seq<Rule>): set<string> { set r | r in rules && IsWholeTool(r) :: r.tool }

  /** Names, layers and deny rules before cleaning. */
  datatype Merged = Merged(effective: set<string>, layers: seq<seq<Rule>>, deny: seq<Rule>)

  function OwnLayers(own: Declared): seq<seq<Rule>> {
    if exists r :: r in own.allow && !IsWholeTool(r) then [own.allow] else []
  }

  /** intersectParentRules: an absent parent leaves no tool at all. */
  function Merge(own: Declared, parent: Parent): Merged {
    match parent
    case NoParent => Merged(Names(own.allow), OwnLayers(own), own.deny)
    case Missing => Merged({}, OwnLayers(own), own.deny)
    case Present(p) => Merged(Names(own.allow) * p.effective, OwnLayers(own) + p.layers, own.deny + p.deny)
  }

  /** computeEffectiveTools after parsing. */
  function Compute(own: Declared, parent: Parent): Rules {
    var g := Merge(own, parent);
    var remaining := g.effective - WholeDenied(g.deny);
    Rules(remaining, CleanLayers(g.layers, g.effective), Keep(g.deny, remaining))
  }

  method IntersectParentRules(parent: Parent, effective0: set<string>, layers0: seq<seq<Rule>>, deny0: seq<Rule>)
    returns (effective: set<string>, layers: seq<seq<Rule>>, deny: seq<Rule>)
    ensures effective == match parent
                         case NoParent => effective0
                         case Missing => {}
                         case Present(p) => effective0 * p.effective
    ensures layers == if parent.Present? then layers0 + parent.rules.layers else layers0
    ensures deny == if parent.Present? then deny0 + parent.rules.deny else deny0
  {
    effective, layers, deny := effective0, layers0, deny0;
    match parent
    case NoParent =>
    case Missing => effective := {};
    case Present(p) =>
      effective := set t | t in effective0 && t in p.effective;
      layers := layers + p.layers;
      deny := deny + p.deny;
  }

  method CleanAll(layers0: seq<seq<Rule>>, effective: set<string>) returns (layers: seq<seq<Rule>>)
    ensures layers == CleanLayers(layers0, effective)
  {
    layers := layers0;
    for i := 0 to |layers|
      invariant |layers| == |layers0|
      invariant forall k :: 0 <= k < i ==> layers[k] == Strip(Keep(layers0[k], effective))
      invariant forall k :: i <= k < |layers| ==> layers[k] == layers0[k]
    {
      var filtered := FilterRules(layers[i], effective);
      var stripped := StripRedundantWholeToolRules(filtered);
      layers := layers[i := stripped];
    }
  }

  method RemoveWholeDenied(effective0: set<string>, deny: seq<Rule>) returns (effective: set<string>)
    ensures effective == effective0 - WholeDenied(deny)
  {
    effective := effective0;
    for i := 0 to |deny|
      invariant effective == effective0 - WholeDenied(deny[..i])
    {
      assert deny[..i + 1] == deny[..i] + [deny[i]];
      if IsWholeTool(deny[i]) {
        effective := effective - {deny[i].tool};
      }
    }
    assert deny[..|deny|] == deny;
  }

  method ComputeEffectiveTools(allowed: seq<string>, disallowed: seq<string>, parent: Parent)
    returns (r: Result<Rules>)
    ensures r.Ok? <==> ParseAll(allowed).Ok? && ParseAll(disallowed).Ok?
    ensures r.Ok? ==> r.value == Compute(Declared(ParseAll(allowed).value, ParseAll(disallowed).value), parent)
  {
    hide ParseAll, ParseRule, Merge;
    var agentAllow := ParseRules(allowed);
    if agentAllow.Err? {
      return Err;
    }
    var agentDeny := ParseRules(disallowed);
    if agentDeny.Err? {
      return Err;
    }
    var effective := set rule | rule in agentAllow.value :: rule.tool;
    assert effective == Names(agentAllow.value);
    var layers: seq<seq<Rule>> := [];
    var parameterized := HasParameterized(agentAllow.value);
    if parameterized {
      layers := layers + [agentAllow.value];
    }
    assert layers == OwnLayers(Declared(agentAllow.value, agentDeny.value));
    hide ParseAll, ParseRule, CleanLayers, Keep, WholeDenied, OwnLayers, Names;
    var deny;
    effective, layers, deny := IntersectParentRules(parent, effective, layers, agentDeny.value);
    MergedIs(Declared(agentAllow.value, agentDeny.value), parent, Merged(effective, layers, deny));
    layers := CleanAll(layers, effective);
    effective := RemoveWholeDenied(effective, deny);
    deny := FilterRules(deny, effective);
    r := Ok(Rules(effective, layers, deny));
  }

  lemma MergedIs(own: Declared, parent: Parent, g: Merged)
    requires g.effective == match parent
                            case NoParent => Names(own.allow)
                            case Missing => {}
                            case Present(p) => Names(own.allow) * p.effective
    requires g.layers == if parent.Present? then OwnLayers(own) + parent.rules.layers else OwnLayers(own)
    requires g.deny == if parent.Present? then own.deny + parent.rules.deny else own.deny
    ensures g == Merge(own, parent)
  {
    hide Names, OwnLayers;
  }

  // ----- What the declarations alone say -----

  /** A call is allowed by declarations if the tool is declared, no deny rule of the tool matches or
      might match, and, where the tool has parameterized allow rules, none of those is undecided
      and one matches. Layers, filters and inheritance do not appear. */
  ghost predicate DeclarationAllows(m: Matcher, own: Declared, tool: string, params: string) {
    && (exists r :: r in own.allow && r.tool == tool)
    && (forall r :: r in own.deny && r.tool == tool ==> RuleMatch(m, r, tool, params) == NoMatch)
    && ParametersAllow(m, own.allow, tool, params)
  }

  ghost predicate ParametersAllow(m: Matcher, allow: seq<Rule>, tool: string, params: string) {
    && (forall r :: r in allow && r.tool == tool && !IsWholeTool(r) ==> m(tool, r.pattern, params) != Uncertain)
    && (HasParam(allow, tool) ==>
          exists r :: r in allow && r.tool == tool && !IsWholeTool(r) && m(tool, r.pattern, params) == Match)
  }

  lemma StripIsStripped(rules: seq<Rule>)
    ensures Stripped(Strip(rules))
  {
    StripElements(rules);
  }

  /** Rules the function computes always have stripped layers. */
  lemma ComputedIsStripped(own: Declared, parent: Parent)
    ensures AllStripped(Compute(own, parent).layers)
  {
    var layers := Compute(own, parent).layers;
    forall i | 0 <= i < |layers| ensures Stripped(layers[i]) {
      var source :| layers[i] == Strip(source);
      StripIsStripped(source);
    }
  }

  /** Cleaning a layer that is already stripped does not change it for a tool that stays. */
  lemma CleanKeepsStripped(m: Matcher, layer: seq<Rule>, tools: set<string>, tool: string, params: string)
    requires Stripped(layer) && tool in tools
    ensures LayerPasses(m, Strip(Keep(layer, tools)), tool, params) <==> LayerPasses(m, layer, tool, params)
  {
    var clean := Strip(Keep(layer, tools));
    KeepElements(layer, tools);
    StripElements(Keep(layer, tools));
    assert forall r: Rule :: r.tool == tool ==> (r in clean <==> r in layer);
    SameRulesSameLayer(m, layer, clean, tool, params);
  }

  /** A layer's decision on a tool depends only on that tool's rules. */
  lemma SameRulesSameLayer(m: Matcher, a: seq<Rule>, b: seq<Rule>, tool: string, params: string)
    requires forall r: Rule :: r.tool == tool ==> (r in a <==> r in b)
    ensures LayerPasses(m, a, tool, params) <==> LayerPasses(m, b, tool, params)
  {
  }

  /** The own layer, cleaned, says what the declarations say about parameters. */
  lemma OwnLayer(m: Matcher, allow: seq<Rule>, tools: set<string>, tool: string, params: string)
    requires tool in tools && exists r :: r in allow && r.tool == tool
    ensures LayerPasses(m, Strip(Keep(allow, tools)), tool, params) <==>
            ParametersAllow(m, allow, tool, params)
  {
    var clean := Strip(Keep(allow, tools));
    KeepElements(allow, tools);
    StripElements(Keep(allow, tools));
    assert HasParam(Keep(allow, tools), tool) <==> HasParam(allow, tool);
    if HasParam(allow, tool) {
      assert forall r: Rule :: r.tool == tool ==> (r in clean <==> r in allow && !IsWholeTool(r));
    } else {
      assert forall r: Rule :: r.tool == tool ==> (r in clean <==> r in allow);
      var r :| r in allow && r.tool == tool;
      assert RuleMatch(m, r, tool, params) == Match;
    }
  }

  /** The layers of a computed rule set let a call through exactly when the own parameterized rules do
      and, if there is a parent, all of its layers do. */
  lemma ComputedLayers(m: Matcher, own: Declared, parent: Parent, tool: string, params: string)
    requires tool in Merge(own, parent).effective
    requires parent.Present? ==> AllStripped(parent.rules.layers)
    ensures (forall i :: 0 <= i < |Compute(own, parent).layers|
               ==> LayerPasses(m, Compute(own, parent).layers[i], tool, params)) <==>
            && ParametersAllow(m, own.allow, tool, params)
            && (parent.Present? ==>
                  forall i :: 0 <= i < |parent.rules.layers| ==> LayerPasses(m, parent.rules.layers[i], tool, params))
  {
    var g := Merge(own, parent);
    var clean := CleanLayers(g.layers, g.effective);
    var n := |OwnLayers(own)|;
    OwnPart(m, own, clean, g.effective, tool, params);
    assert Compute(own, parent).layers == clean && |clean| == |g.layers|;
    hide LayerPasses, Strip, Keep, ParametersAllow, OwnLayers, AllStripped, Compute;
    if parent.Present? {
      assert g.layers == OwnLayers(own) + parent.rules.layers;
      InheritedLayers(m, g.layers, n, parent.rules.layers, g.effective, tool, params);
    }
  }

  /** Layers taken over from the parent decide as they did there. */
  lemma InheritedLayers(m: Matcher, layers: seq<seq<Rule>>, n: nat, rest: seq<seq<Rule>>, tools: set<string>,
                        tool: string, params: string)
    requires n <= |layers| && layers[n..] == rest && AllStripped(rest) && tool in tools
    ensures var clean := CleanLayers(layers, tools);
            (forall i :: 0 <= i < |clean| ==> LayerPasses(m, clean[i], tool, params)) <==>
            (forall i :: 0 <= i < n ==> LayerPasses(m, clean[i], tool, params)) &&
            (forall i :: 0 <= i < |rest| ==> LayerPasses(m, rest[i], tool, params))
  {
    hide LayerPasses, Strip, Keep, AllStripped;
    var clean := CleanLayers(layers, tools);
    forall i | 0 <= i < |rest|
      ensures LayerPasses(m, clean[n + i], tool, params) <==> LayerPasses(m, rest[i], tool, params)
    {
      assert layers[n + i] == rest[i];
      StrippedAt(rest, i);
      CleanKeepsStripped(m, rest[i], tools, tool, params);
    }
    SplitLayers(m, clean, n, rest, tool, params);
  }

  lemma StrippedAt(layers: seq<seq<Rule>>, i: nat)
    requires AllStripped(layers) && i < |layers|
    ensures Stripped(layers[i])
  {
  }

  /** The layers that come from the own declarations, none or one, at the front of `clean`. */
  lemma OwnPart(m: Matcher, own: Declared, clean: seq<seq<Rule>>, tools: set<string>, tool: string, params: string)
    requires tool in tools && exists r :: r in own.allow && r.tool == tool
    requires |clean| >= |OwnLayers(own)|
    requires forall i :: 0 <= i < |OwnLayers(own)| ==> clean[i] == Strip(Keep(OwnLayers(own)[i], tools))
    ensures (forall i :: 0 <= i < |OwnLayers(own)| ==> LayerPasses(m, clean[i], tool, params)) <==>
            ParametersAllow(m, own.allow, tool, params)
  {
    hide LayerPasses, Strip, Keep;
    if |OwnLayers(own)| == 1 {
      OwnLayer(m, own.allow, tools, tool, params);
      assert clean[0] == Strip(Keep(own.allow, tools));
    }
  }

  /** All of `clean` passes iff its first n do and the rest does, entry by entry, like `rest`. */
  lemma SplitLayers(m: Matcher, clean: seq<seq<Rule>>, n: nat, rest: seq<seq<Rule>>, tool: string, params: string)
    requires |clean| == n + |rest|
    requires forall i :: 0 <= i < |rest| ==>
               (LayerPasses(m, clean[n + i], tool, params) <==> LayerPasses(m, rest[i], tool, params))
    ensures (forall i :: 0 <= i < |clean| ==> LayerPasses(m, clean[i], tool, params)) <==>
            (forall i :: 0 <= i < n ==> LayerPasses(m, clean[i], tool, params)) &&
            (forall i :: 0 <= i < |rest| ==> LayerPasses(m, rest[i], tool, params))
  {
    hide LayerPasses;
    if forall i :: 0 <= i < |clean| ==> LayerPasses(m, clean[i], tool, params) {
      forall i | 0 <= i < |rest| ensures LayerPasses(m, rest[i], tool, params) {
        assert LayerPasses(m, clean[n + i], tool, params);
      }
    }
    if (forall i :: 0 <= i < n ==> LayerPasses(m, clean[i], tool, params)) &&
       (forall i :: 0 <= i < |rest| ==> LayerPasses(m, rest[i], tool, params)) {
      forall i | 0 <= i < |clean| ensures LayerPasses(m, clean[i], tool, params) {
        if i >= n {
          assert LayerPasses(m, rest[i - n], tool, params);
          assert clean[n + (i - n)] == clean[i];
        }
      }
    }
  }

  /** A set, and the deny rules, of a computed rule set: the tool is declared and, if there is a
      parent, in its set; and no deny rule of either source matches or might match. */
  lemma ComputedNamesAndDeny(m: Matcher, own: Declared, parent: Parent, tool: string, params: string)
    requires !parent.Missing?
    ensures var rules := Compute(own, parent);
            tool in rules.effective && DenyPasses(m, rules.deny, tool, params) <==>
            && (exists r :: r in own.allow && r.tool == tool)
            && DenyPasses(m, own.deny, tool, params)
            && (parent.Present? ==> tool in parent.rules.effective && DenyPasses(m, parent.rules.deny, tool, params))
  {
    var g := Merge(own, parent);
    var remaining := g.effective - WholeDenied(g.deny);
    KeepElements(g.deny, remaining);
    assert tool in WholeDenied(g.deny) <==> exists r :: r in g.deny && IsWholeTool(r) && r.tool == tool;
    assert DenyPasses(m, g.deny, tool, params) <==>
           DenyPasses(m, own.deny, tool, params) && (parent.Present? ==> DenyPasses(m, parent.rules.deny, tool, params));
    if tool in WholeDenied(g.deny) {
      var r :| r in g.deny && IsWholeTool(r) && r.tool == tool;
      assert RuleMatch(m, r, tool, params) == Match;
    }
  }

  /** Decomposition. A parsable call is permitted by the computed rules iff the own declarations
      allow it and, if there is a parent, the parent's stored rules permit it. */
  lemma ChildIsOwnAndParent(m: Matcher, own: Declared, parent: Parent, tool: string, params: string)
    requires !parent.Missing? && (parent.Present? ==> AllStripped(parent.rules.layers))
    ensures Permits(m, Compute(own, parent), Call(tool, Parsed(params))) <==>
            && DeclarationAllows(m, own, tool, params)
            && (parent.Present? ==> Permits(m, parent.rules, Call(tool, Parsed(params))))
  {
    ComputedNamesAndDeny(m, own, parent, tool, params);
    hide Strip, Keep, CleanLayers;
    if tool in Merge(own, parent).effective {
      ComputedLayers(m, own, parent, tool, params);
    }
    PassesOnParsed(m, Compute(own, parent), tool, params);
    if parent.Present? {
      PassesOnParsed(m, parent.rules, tool, params);
    }
  }

  /** On parsed input the shortcut for empty rule lists changes nothing. */
  lemma PassesOnParsed(m: Matcher, rules: Rules, tool: string, params: string)
    ensures RulesPass(m, rules, Call(tool, Parsed(params))) <==>
            && DenyPasses(m, rules.deny, tool, params)
            && forall i :: 0 <= i < |rules.layers| ==> LayerPasses(m, rules.layers[i], tool, params)
  {
  }

  /** A parent that cannot be found permits nothing. */
  lemma MissingParentPermitsNothing(m: Matcher, own: Declared, call: Call)
    ensures !Permits(m, Compute(own, Missing), call)
  {
  }

  // ----- Along a chain of ancestors -----

  /** The rules of the last instance of a chain, each computed against the one before. */
  function ChainRules(chain: seq<Declared>): Rules
    requires chain != []
  {
    var n := |chain| - 1;
    if n == 0 then Compute(chain[0], NoParent) else Compute(chain[n], Present(ChainRules(chain[..n])))
  }

  /** The decision along any chain is the conjunction of all declarations on it: nobody can do what
      an ancestor's declarations forbid, and inheritance adds no other restriction. */
  lemma {:induction false} ChainIsConjunction(m: Matcher, chain: seq<Declared>, tool: string, params: string)
    requires chain != []
    ensures AllStripped(ChainRules(chain).layers)
    ensures Permits(m, ChainRules(chain), Call(tool, Parsed(params))) <==>
            forall i :: 0 <= i < |chain| ==> DeclarationAllows(m, chain[i], tool, params)
    decreases |chain|
  {
    hide Compute, Permits, DeclarationAllows, AllStripped;
    var n := |chain| - 1;
    if n == 0 {
      ComputedIsStripped(chain[0], NoParent);
      ChildIsOwnAndParent(m, chain[0], NoParent, tool, params);
    } else {
      var front := chain[..n];
      ChainIsConjunction(m, front, tool, params);
      ComputedIsStripped(chain[n], Present(ChainRules(front)));
      ChildIsOwnAndParent(m, chain[n], Present(ChainRules(front)), tool, params);
      assert forall i :: 0 <= i < n ==> front[i] == chain[i];
    }
  }

  // ----- Input that does not parse -----

  /** What a caller can check beforehand: no rule on either side restricts a tool the child ends up
      with, but some rule restricts another tool. Filtering drops that rule, and with it the refusal
      of input that does not parse. */
  predicate SlipsPast(own: Declared, parent: Rules, call: Call) {
    var tools := Names(own.allow) * parent.effective - WholeDenied(own.deny + parent.deny);
    && call.input.Unparsable? && call.tool in tools
    && (forall r :: r in own.allow ==> IsWholeTool(r)) && parent.layers == []
    && (forall r :: r in own.deny + parent.deny ==> r.tool !in tools)
    && (parent.deny != [] || exists r :: r in own.deny && r.tool in Names(own.allow) - WholeDenied(own.deny))
  }

  /** For every call, parsable or not, what own rules and parent permit, the child permits; and the
      child permits more exactly for the calls that slip past. */
  lemma DecompositionExactly(m: Matcher, own: Declared, parent: Rules, call: Call)
    requires AllStripped(parent.layers)
    ensures var child, alone := Compute(own, Present(parent)), Compute(own, NoParent);
            && (Permits(m, alone, call) && Permits(m, parent, call) ==> Permits(m, child, call))
            && (Permits(m, child, call) && !(Permits(m, alone, call) && Permits(m, parent, call)) <==>
                SlipsPast(own, parent, call))
  {
    if call.input.Parsed? {
      hide Compute, Permits, DeclarationAllows, AllStripped;
      ChildIsOwnAndParent(m, own, Present(parent), call.tool, call.input.params);
      ChildIsOwnAndParent(m, own, NoParent, call.tool, call.input.params);
    } else {
      UnparsableExactly(m, own, parent, call);
    }
  }

  lemma NothingInside(rules: seq<Rule>)
    ensures (forall r :: r !in rules) ==> rules == []
  {
    if rules != [] {
      assert rules[0] in rules;
    }
  }

  /** Input that does not parse passes only where no rule is left at all. */
  predicate Unrestricted(rules: Rules, tool: string) {
    tool in rules.effective && rules.deny == [] && rules.layers == []
  }

  lemma UnparsablePermits(m: Matcher, rules: Rules, call: Call)
    requires call.input.Unparsable?
    ensures Permits(m, rules, call) <==> Unrestricted(rules, call.tool)
  {
  }

  lemma ComputedUnrestricted(own: Declared, parent: Parent, tool: string)
    ensures var g := Merge(own, parent);
            var tools := g.effective - WholeDenied(g.deny);
            Unrestricted(Compute(own, parent), tool) <==>
            tool in tools && g.layers == [] && forall r :: r in g.deny ==> r.tool !in tools
  {
    var g := Merge(own, parent);
    var tools := g.effective - WholeDenied(g.deny);
    KeepElements(g.deny, tools);
    NothingInside(Keep(g.deny, tools));
    hide Keep, Merge, WholeDenied;
    if r :| r in g.deny && r.tool in tools {
      assert r in Keep(g.deny, tools);
    }
  }

  lemma UnparsableExactly(m: Matcher, own: Declared, parent: Rules, call: Call)
    requires call.input.Unparsable?
    ensures var child, alone := Compute(own, Present(parent)), Compute(own, NoParent);
            && (Permits(m, alone, call) && Permits(m, parent, call) ==> Permits(m, child, call))
            && (Permits(m, child, call) && !(Permits(m, alone, call) && Permits(m, parent, call)) <==>
                SlipsPast(own, parent, call))
  {
    hide Compute, Permits, Names;
    UnparsablePermits(m, Compute(own, Present(parent)), call);
    UnparsablePermits(m, Compute(own, NoParent), call);
    UnparsablePermits(m, parent, call);
    ComputedUnrestricted(own, Present(parent), call.tool);
    ComputedUnrestricted(own, NoParent, call.tool);
    WholeDeniedGrows(own.deny, parent.deny);
    assert own.deny + [] == own.deny;
  }

  lemma WholeDeniedGrows(a: seq<Rule>, b: seq<Rule>)
    ensures WholeDenied(a) <= WholeDenied(a + b)
  {
  }

  /** A child without rules of its own accepts unparsable input for a tool for which its parent,
      which restricts another tool, refuses it. */
  lemma UnparsableSlipsThrough(m: Matcher, a: string, b: string)
    requires a != b
    ensures var parent := Compute(Declared([Rule(a, ""), Rule(b, "")], [Rule(b, "x")]), NoParent);
            var child := Compute(Declared([Rule(a, "")], []), Present(parent));
            Permits(m, child, Call(a, Unparsable)) && !Permits(m, parent, Call(a, Unparsable))
  {
    var allow, deny := [Rule(a, ""), Rule(b, "")], [Rule(b, "x")];
    var parent := Compute(Declared(allow, deny), NoParent);
    assert allow[0] in allow && allow[1] in allow && deny[0] in deny;
    assert parent.layers == [];
    KeepElements(deny, parent.effective);
    assert b in parent.effective && deny[0] in parent.deny;
    var own := [Rule(a, "")];
    var child := Compute(Declared(own, []), Present(parent));
    assert own[0] in own && a in child.effective;
    KeepElements([] + parent.deny, child.effective);
    NothingInside(child.deny);
    assert forall r :: r !in child.deny;
  }
}
