/** Which lines of a gitconfig count: the exact texts that are section headers, headers of the user
    section and its keys, and what their values are. */
module GitGrammar {
  import opened Text
  import opened GitConfigLines
  import opened GitIdentity

  // ----- Characters -----

  /** The white space that is trimmed, and the brackets and quotes. */
  lemma CharacterClasses(c: char)
    ensures IsSpace(c) <==>
            c in " \t\n\U{000B}\U{000C}\r\U{0085}\U{00A0}\U{1680}\U{2000}\U{2001}\U{2002}\U{2003}\U{2004}\U{2005}"
            || c in "\U{2006}\U{2007}\U{2008}\U{2009}\U{200A}\U{2028}\U{2029}\U{202F}\U{205F}\U{3000}"
    ensures IsBracket(c) <==> c in "[]"
    ensures IsQuote(c) <==> c in "\""
  {
  }

  /** Character by character one of the choices. */
  predicate IsSpelling(s: string, choices: seq<string>) {
    |s| == |choices| && forall i :: 0 <= i < |s| ==> s[i] in choices[i]
  }

  const USER := ["uU", "sS\U{017F}", "eE", "rR"]
  const NAME := ["nN", "aA", "mM", "eE"]
  const EMAIL := ["eE", "mM", "aA", "iI\U{0130}", "lL"]

  lemma UserSpellings(s: string)
    ensures IsUserName(s) <==> IsSpelling(s, USER)
  {
    if |s| == 4 {
      assert IsSpelling(s, USER) <==> s[0] in USER[0] && s[1] in USER[1] && s[2] in USER[2] && s[3] in USER[3];
    }
  }

  lemma LowerIs(s: string, i: nat, lower: char, choices: string)
    requires i < |s| && forall c: char :: Lower(c) == lower <==> c in choices
    ensures ToLower(s)[i] == lower <==> s[i] in choices
  {
  }

  lemma NameSpellings(s: string)
    ensures ToLower(s) == "name" <==> IsSpelling(s, NAME)
  {
    if |s| == 4 {
      var l := ToLower(s);
      assert l == "name" <==> l[0] == 'n' && l[1] == 'a' && l[2] == 'm' && l[3] == 'e' by {
        assert l == [l[0], l[1], l[2], l[3]];
      }
      LowerIs(s, 0, 'n', "nN");
      LowerIs(s, 1, 'a', "aA");
      LowerIs(s, 2, 'm', "mM");
      LowerIs(s, 3, 'e', "eE");
      hide ToLower;
      assert IsSpelling(s, NAME) <==> s[0] in NAME[0] && s[1] in NAME[1] && s[2] in NAME[2] && s[3] in NAME[3];
    }
  }

  lemma EmailSpellings(s: string)
    ensures ToLower(s) == "email" <==> IsSpelling(s, EMAIL)
  {
    if |s| == 5 {
      var l := ToLower(s);
      assert l == "email" <==> l[0] == 'e' && l[1] == 'm' && l[2] == 'a' && l[3] == 'i' && l[4] == 'l' by {
        assert l == [l[0], l[1], l[2], l[3], l[4]];
      }
      LowerIs(s, 0, 'e', "eE");
      LowerIs(s, 1, 'm', "mM");
      LowerIs(s, 2, 'a', "aA");
      LowerIs(s, 3, 'i', "iI\U{0130}");
      LowerIs(s, 4, 'l', "lL");
      hide ToLower;
      assert IsSpelling(s, EMAIL) <==>
             s[0] in EMAIL[0] && s[1] in EMAIL[1] && s[2] in EMAIL[2] && s[3] in EMAIL[3] && s[4] in EMAIL[4];
    }
  }

  // ----- Headers -----

  /** Anything in brackets, with space around it. */
  predicate IsBracketed(t: string, inner: string) { t == "[" + inner + "]" }

  ghost predicate IsHeader(line: string, inner: string) { IsCore(line, "[" + inner + "]", IsSpace) }

  lemma HeaderExactly(line: string)
    ensures LineKind(line).Header? <==> exists inner :: IsHeader(line, inner)
  {
    hide TrimFunc, IsSpace, IsCore, IsUserName, Key;
    var t := TrimSpace(line);
    TrimExactly(line, t, IsSpace);
    if IsSectionHeader(t) {
      assert t == "[" + t[1..|t| - 1] + "]";
      assert IsHeader(line, t[1..|t| - 1]);
    }
    if inner :| IsHeader(line, inner) {
      TrimExactly(line, "[" + inner + "]", IsSpace);
    }
  }

  /** name is what the brackets hold without further brackets or space around it. */
  ghost predicate Encloses(t: string, name: string) {
    exists rest :: IsCore(t, rest, IsBracket) && IsCore(rest, name, IsSpace)
  }

  lemma SectionNameExactly(t: string, name: string)
    ensures SectionName(t) == name <==> Encloses(t, name)
  {
    hide TrimFunc, IsSpace, IsBracket, IsCore;
    TrimExactly(t, TrimFunc(t, IsBracket), IsBracket);
    TrimExactly(TrimFunc(t, IsBracket), name, IsSpace);
    if rest :| IsCore(t, rest, IsBracket) && IsCore(rest, name, IsSpace) {
      TrimExactly(t, rest, IsBracket);
    }
  }

  /** The user section, in any casing. */
  lemma UserHeaderExactly(line: string)
    ensures LineKind(line) == Header(true) <==>
            exists inner, name :: IsHeader(line, inner) && Encloses("[" + inner + "]", name) && IsSpelling(name, USER)
  {
    hide TrimFunc, IsSpace, IsCore, IsUserName, Key, IsSpelling, Encloses;
    var t := TrimSpace(line);
    TrimExactly(line, t, IsSpace);
    UserSpellings(SectionName(t));
    SectionNameExactly(t, SectionName(t));
    if IsSectionHeader(t) && IsUserName(SectionName(t)) {
      assert t == "[" + t[1..|t| - 1] + "]";
      assert IsHeader(line, t[1..|t| - 1]) && Encloses("[" + t[1..|t| - 1] + "]", SectionName(t));
    }
    if inner, name :| IsHeader(line, inner) && Encloses("[" + inner + "]", name) && IsSpelling(name, USER) {
      TrimExactly(line, "[" + inner + "]", IsSpace);
      SectionNameExactly("[" + inner + "]", name);
    }
  }

  // ----- Keys -----

  /** key, perhaps space, the first equals sign, and the rest, with space around it all. */
  ghost predicate IsAssignment(line: string, key: string, lead: string, rest: string) {
    IsCore(line, lead + "=" + rest, IsSpace) && '=' !in lead && IsCore(lead, key, IsSpace)
  }

  lemma AssignmentReads(line: string, key: string, lead: string, rest: string)
    requires IsAssignment(line, key, lead, rest)
    ensures var t := TrimSpace(line);
            t == lead + "=" + rest && Key(t) == ToLower(key) && Value(t) == TrimFunc(TrimSpace(rest), IsQuote)
    ensures lead != "" ==> key != "" && key[0] == TrimSpace(line)[0]
  {
    hide TrimFunc, IsSpace, IsCore, ToLower;
    var t := lead + "=" + rest;
    TrimExactly(line, t, IsSpace);
    TrimExactly(lead, key, IsSpace);
    assert t[|lead|] == '=' && t[..|lead|] == lead && t[|lead| + 1..] == rest;
    IndexOfFirst(t, '=', |lead|);
    if lead != "" {
      TrimTrims(line, IsSpace);
      NotBlank(lead, key);
    }
  }

  /** A text that does not start with space keeps its first character when trimmed. */
  lemma NotBlank(lead: string, key: string)
    requires lead != "" && !IsSpace(lead[0]) && IsCore(lead, key, IsSpace)
    ensures key != "" && key[0] == lead[0]
  {
    hide IsSpace;
    var a: nat, b: nat :| IsCoreAt(lead, key, a, b, IsSpace);
  }

  /** The assignment a line with an equals sign makes. */
  lemma AssignmentOf(line: string) returns (key: string, lead: string, rest: string)
    requires '=' in TrimSpace(line)
    ensures IsAssignment(line, key, lead, rest) && Key(TrimSpace(line)) == ToLower(key)
  {
    hide TrimFunc, IsSpace, IsCore, ToLower;
    var t := TrimSpace(line);
    var i := IndexOf(t, '=');
    lead, rest := t[..i], t[i + 1..];
    key := TrimSpace(lead);
    assert t == lead + "=" + rest;
    TrimExactly(line, t, IsSpace);
    TrimExactly(lead, key, IsSpace);
  }

  ghost predicate Assigns(line: string, choices: seq<string>) {
    exists key, lead, rest :: IsAssignment(line, key, lead, rest) && IsSpelling(key, choices)
  }

  /** The keys in any casing; a comment is none, because its key would start with the comment sign. */
  lemma KeyExactly(line: string)
    ensures LineKind(line) == NameKey <==> Assigns(line, NAME)
    ensures LineKind(line) == EmailKey <==> Assigns(line, EMAIL)
  {
    hide TrimFunc, IsSpace, IsCore, ToLower, IsSpelling, IsUserName, IsAssignment;
    var t := TrimSpace(line);
    if '=' in t {
      var key, lead, rest := AssignmentOf(line);
      NameSpellings(key);
      EmailSpellings(key);
    }
    if key, lead, rest :| IsAssignment(line, key, lead, rest) && IsSpelling(key, NAME) {
      SpelledKey(line, key, lead, rest, NAME);
      NameSpellings(key);
    }
    if key, lead, rest :| IsAssignment(line, key, lead, rest) && IsSpelling(key, EMAIL) {
      SpelledKey(line, key, lead, rest, EMAIL);
      EmailSpellings(key);
    }
  }

  lemma SpelledKey(line: string, key: string, lead: string, rest: string, choices: seq<string>)
    requires IsAssignment(line, key, lead, rest) && IsSpelling(key, choices) && (choices == NAME || choices == EMAIL)
    ensures !IsSectionHeader(TrimSpace(line)) && !IsComment(TrimSpace(line)) && Key(TrimSpace(line)) == ToLower(key)
  {
    hide TrimFunc, TrimSpace, IsSpace, ToLower, IsSpelling, Key, Value, IsCore;
    AssignmentReads(line, key, lead, rest);
    FirstLetter(key, choices);
    if lead == "" {
      EmptyCore(key);
    }
    hide IsAssignment;
    assert TrimSpace(line)[0] == key[0];
  }

  lemma FirstLetter(key: string, choices: seq<string>)
    requires IsSpelling(key, choices) && (choices == NAME || choices == EMAIL)
    ensures key != "" && key[0] != '[' && key[0] != '#' && key[0] != ';'
  {
    assert key[0] in choices[0];
  }

  lemma EmptyCore(key: string)
    requires IsCore("", key, IsSpace)
    ensures key == ""
  {
  }

  /** The value of an assignment: the rest without the space around it and then without quotes. */
  lemma ValueExactly(line: string, key: string, lead: string, rest: string, value: string)
    requires IsAssignment(line, key, lead, rest)
    ensures Value(TrimSpace(line)) == value <==>
            exists quoted :: IsCore(rest, quoted, IsSpace) && IsCore(quoted, value, IsQuote)
  {
    hide TrimFunc, IsSpace, IsQuote, IsCore;
    AssignmentReads(line, key, lead, rest);
    TrimExactly(rest, TrimSpace(rest), IsSpace);
    TrimExactly(TrimSpace(rest), value, IsQuote);
    if quoted :| IsCore(rest, quoted, IsSpace) && IsCore(quoted, value, IsQuote) {
      TrimExactly(rest, quoted, IsSpace);
    }
  }

  // ----- Bytes -----

  /** The length in UTF-8 (section 3 of RFC 3629): one to four bytes each. */
  lemma {:induction false} ByteLengthExactly(s: string, c: char)
    ensures |s| <= ByteLength(s) <= 4 * |s|
    ensures (forall i :: 0 <= i < |s| ==> s[i] <= '\U{007F}') ==> ByteLength(s) == |s|
    ensures ByteLength([c]) == if c <= '\U{007F}' then 1 else if c <= '\U{07FF}' then 2 else if c <= '\U{FFFF}' then 3 else 4
  {
    assert [c][1..] == "";
    if s != "" {
      ByteLengthExactly(s[1..], c);
    }
  }
}
