/** `{{name}}` placeholders in contract text (packages/contracts/src/generate.ts). */
module Placeholders {
  import opened Common
  import opened Ordering

  const OPEN: CodeUnit := 0x7B
  const CLOSE: CodeUnit := 0x7D
  const NEWLINE: CodeUnit := 0x0A

  ghost predicate IsBrace(c: CodeUnit) { c == OPEN || c == CLOSE }

  function WordRun(s: Text): (n: nat)
    ensures n <= |s|
    ensures forall i :: 0 <= i < n ==> IsWord(s[i])
    ensures n < |s| ==> !IsWord(s[n])
  {
    if s != [] && IsWord(s[0]) then 1 + WordRun(s[1..]) else 0
  }

  /** The length of the name when a placeholder starts the text. */
  function MatchAt(s: Text): (r: Option<nat>)
    ensures r.Some? ==> r.value > 0 && |s| >= r.value + 4
  {
    if |s| < 2 || s[0] != OPEN || s[1] != OPEN then None
    else
      var run := WordRun(s[2..]);
      if run > 0 && |s| >= run + 4 && s[run + 2] == CLOSE && s[run + 3] == CLOSE then Some(run) else None
  }

  datatype Token = Char(c: CodeUnit) | Placeholder(name: Text)

  /** The text as the global regular expression walks it: leftmost matches, not overlapping. */
  function Tokens(s: Text): seq<Token>
    decreases |s|
  {
    if s == [] then []
    else
      match MatchAt(s)
      case Some(run) => [Placeholder(s[2..run + 2])] + Tokens(s[run + 4..])
      case None => [Char(s[0])] + Tokens(s[1..])
  }

  /** `{{name}}` */
  function Braced(name: Text): Text { [OPEN, OPEN] + name + [CLOSE, CLOSE] }

  function RenderToken(token: Token, variables: map<Text, Text>): Text {
    match token
    case Char(c) => [c]
    case Placeholder(name) => if name in variables then variables[name] else Braced(name)
  }

  function Render(tokens: seq<Token>, variables: map<Text, Text>): Text {
    if tokens == [] then [] else RenderToken(tokens[0], variables) + Render(tokens[1..], variables)
  }

  /** `substitute`: an unresolved placeholder is left in place. */
  function Substitute(text: Text, variables: map<Text, Text>): Text {
    Render(Tokens(text), variables)
  }

  predicate HasPlaceholder(text: Text, name: Text) { Placeholder(name) in Tokens(text) }

  // ---------------------------------------------------------------------------
  // Tokens and text
  // ---------------------------------------------------------------------------

  ghost predicate IsName(name: Text) {
    name != [] && forall i :: 0 <= i < |name| ==> IsWord(name[i])
  }

  lemma {:induction false} NamesAreNames(text: Text)
    ensures forall token :: token in Tokens(text) && token.Placeholder? ==> IsName(token.name)
    decreases |text|
  {
    if text != [] {
      match MatchAt(text)
      case Some(run) =>
        NamesAreNames(text[run + 4..]);
        assert forall i :: 0 <= i < run ==> text[2..run + 2][i] == text[2..][i];
      case None => NamesAreNames(text[1..]);
    }
  }

  /** With nothing supplied, nothing changes. */
  lemma {:induction false} NothingSupplied(text: Text)
    ensures Substitute(text, map[]) == text
    decreases |text|
  {
    if text != [] {
      match MatchAt(text)
      case Some(run) =>
        NothingSupplied(text[run + 4..]);
        PlaceholderText(text, run);
        RenderCons(Placeholder(text[2..run + 2]), Tokens(text[run + 4..]), map[]);
      case None =>
        NothingSupplied(text[1..]);
        RenderCons(Char(text[0]), Tokens(text[1..]), map[]);
        assert text == [text[0]] + text[1..];
    }
  }

  lemma RenderCons(token: Token, tokens: seq<Token>, variables: map<Text, Text>)
    ensures Render([token] + tokens, variables) == RenderToken(token, variables) + Render(tokens, variables)
  {
    assert ([token] + tokens)[1..] == tokens;
  }

  lemma PlaceholderText(text: Text, run: nat)
    requires MatchAt(text) == Some(run)
    ensures text == Braced(text[2..run + 2]) + text[run + 4..]
  {
    assert text[..2] == [OPEN, OPEN] && text[run + 2..run + 4] == [CLOSE, CLOSE];
    assert text == text[..2] + text[2..run + 2] + text[run + 2..run + 4] + text[run + 4..];
  }

  ghost predicate BraceFree(text: Text) {
    forall i :: 0 <= i < |text| ==> !IsBrace(text[i])
  }

  function AsChars(text: Text): (tokens: seq<Token>)
    ensures |tokens| == |text|
  {
    seq(|text|, i requires 0 <= i < |text| => Char(text[i]))
  }

  lemma {:induction false} BraceFreeTokens(u: Text, v: Text)
    requires BraceFree(u)
    ensures Tokens(u + v) == AsChars(u) + Tokens(v)
  {
    if u == [] {
      assert u + v == v;
    } else {
      BraceFreeTokens(u[1..], v);
      FirstAndRest(u, v);
    }
  }

  lemma FirstAndRest(u: Text, v: Text)
    requires u != []
    ensures u + v == [u[0]] + (u[1..] + v)
  {
  }

  lemma {:induction false} NameRun(name: Text, v: Text)
    requires forall i :: 0 <= i < |name| ==> IsWord(name[i])
    requires v != [] && !IsWord(v[0])
    ensures WordRun(name + v) == |name|
  {
    if name == [] {
      assert name + v == v;
    } else {
      NameRun(name[1..], v);
      assert (name + v)[1..] == name[1..] + v;
    }
  }

  lemma PlaceholderTokens(name: Text, v: Text)
    requires IsName(name)
    ensures Tokens(Braced(name) + v) == [Placeholder(name)] + Tokens(v)
  {
    var s := Braced(name) + v;
    NameRun(name, [CLOSE, CLOSE] + v);
    assert s[2..] == name + ([CLOSE, CLOSE] + v);
    assert s[2..|name| + 2] == name && s[|name| + 4..] == v;
    assert s[|name| + 2] == CLOSE && s[|name| + 3] == CLOSE;
  }

  // ---------------------------------------------------------------------------
  // What is left after substitution
  // ---------------------------------------------------------------------------

  /** Braces occur only in placeholders. */
  ghost predicate CleanTemplate(text: Text) {
    forall i :: 0 <= i < |Tokens(text)| && Tokens(text)[i].Char? ==> !IsBrace(Tokens(text)[i].c)
  }

  /** The same of a list of tokens, whose names need not come from a text. */
  ghost predicate CleanTokens(tokens: seq<Token>) {
    forall i :: 0 <= i < |tokens| ==> if tokens[i].Char? then !IsBrace(tokens[i].c) else IsName(tokens[i].name)
  }

  lemma CleanTemplateTokens(text: Text)
    ensures CleanTemplate(text) <==> CleanTokens(Tokens(text))
  {
    NamesAreNames(text);
    assert forall i :: 0 <= i < |Tokens(text)| ==> Tokens(text)[i] in Tokens(text);
  }

  ghost predicate BraceFreeValues(variables: map<Text, Text>) {
    forall name :: name in variables ==> BraceFree(variables[name])
  }

  function Expand(tokens: seq<Token>, variables: map<Text, Text>): seq<Token> {
    if tokens == [] then []
    else ExpandToken(tokens[0], variables) + Expand(tokens[1..], variables)
  }

  function ExpandToken(token: Token, variables: map<Text, Text>): seq<Token> {
    if token.Placeholder? && token.name in variables then AsChars(variables[token.name]) else [token]
  }

  lemma {:induction false} RenderedTokens(tokens: seq<Token>, variables: map<Text, Text>)
    requires CleanTokens(tokens) && BraceFreeValues(variables)
    ensures Tokens(Render(tokens, variables)) == Expand(tokens, variables)
  {
    if tokens != [] {
      var rest := Render(tokens[1..], variables);
      RenderedTokens(tokens[1..], variables);
      match tokens[0]
      case Char(c) =>
        BraceFreeTokens([c], rest);
        assert AsChars([c]) == [Char(c)];
      case Placeholder(name) =>
        if name in variables {
          BraceFreeTokens(variables[name], rest);
        } else {
          PlaceholderTokens(name, rest);
        }
    }
  }

  lemma {:induction false} ExpandedPlaceholders(tokens: seq<Token>, variables: map<Text, Text>)
    ensures forall name ::
      Placeholder(name) in Expand(tokens, variables) <==> Placeholder(name) in tokens && name !in variables
  {
    if tokens != [] {
      ExpandedPlaceholders(tokens[1..], variables);
      assert forall name ::
        Placeholder(name) in ExpandToken(tokens[0], variables)
        <==> tokens[0] == Placeholder(name) && name !in variables;
      assert tokens == [tokens[0]] + tokens[1..];
    }
  }

  lemma {:induction false} ExpandedClean(tokens: seq<Token>, variables: map<Text, Text>)
    requires CleanTokens(tokens) && BraceFreeValues(variables)
    ensures CleanTokens(Expand(tokens, variables))
  {
    if tokens != [] {
      ExpandedClean(tokens[1..], variables);
      assert CleanTokens(ExpandToken(tokens[0], variables));
    }
  }

  lemma {:induction false} ExpandedRender(tokens: seq<Token>, variables: map<Text, Text>)
    ensures Render(Expand(tokens, variables), variables) == Render(tokens, variables)
  {
    if tokens != [] {
      var head := ExpandToken(tokens[0], variables);
      ExpandedRender(tokens[1..], variables);
      RenderConcat(head, Expand(tokens[1..], variables), variables);
      ExpandedTokenRender(tokens[0], variables);
    }
  }

  lemma ExpandedTokenRender(token: Token, variables: map<Text, Text>)
    ensures Render(ExpandToken(token, variables), variables) == RenderToken(token, variables)
  {
    if token.Placeholder? && token.name in variables {
      RenderChars(variables[token.name], variables);
    } else {
      RenderOne(token, variables);
    }
  }

  lemma {:induction false} RenderConcat(s: seq<Token>, t: seq<Token>, variables: map<Text, Text>)
    ensures Render(s + t, variables) == Render(s, variables) + Render(t, variables)
  {
    if s == [] {
      assert s + t == t;
    } else {
      RenderConcat(s[1..], t, variables);
      assert (s + t)[1..] == s[1..] + t;
      ConcatAssociates(RenderToken(s[0], variables), Render(s[1..], variables), Render(t, variables));
    }
  }

  lemma ConcatAssociates(a: Text, b: Text, c: Text)
    ensures a + (b + c) == a + b + c
  {}

  lemma {:induction false} RenderChars(text: Text, variables: map<Text, Text>)
    ensures Render(AsChars(text), variables) == text
  {
    if text != [] {
      RenderChars(text[1..], variables);
      assert AsChars(text)[1..] == AsChars(text[1..]);
      assert text == [text[0]] + text[1..];
    }
  }

  /**
   * In a clean template filled with brace-free values, exactly the placeholders without a value
   * remain, and substituting again changes nothing.
   */
  lemma SubstituteLeavesTheUnsupplied(text: Text, variables: map<Text, Text>)
    requires CleanTemplate(text) && BraceFreeValues(variables)
    ensures forall name ::
      HasPlaceholder(Substitute(text, variables), name) <==> HasPlaceholder(text, name) && name !in variables
    ensures CleanTemplate(Substitute(text, variables))
    ensures Substitute(Substitute(text, variables), variables) == Substitute(text, variables)
  {
    CleanTemplateTokens(text);
    CleanTemplateTokens(Substitute(text, variables));
    RenderedTokens(Tokens(text), variables);
    ExpandedPlaceholders(Tokens(text), variables);
    ExpandedClean(Tokens(text), variables);
    ExpandedRender(Tokens(text), variables);
  }

  lemma BracedTokens(name: Text)
    requires IsName(name)
    ensures Tokens(Braced(name)) == [Placeholder(name)]
  {
    PlaceholderTokens(name, []);
    assert Braced(name) + [] == Braced(name);
  }

  /** A value that carries braces can bring a placeholder of its own: `{{a}}` filled with `{{b}}`. */
  lemma ValueCanCarryAPlaceholder()
    ensures var a: Text, b: Text := [0x61], [0x62];
      CleanTemplate(Braced(a)) && !HasPlaceholder(Braced(a), b)
        && HasPlaceholder(Substitute(Braced(a), map[a := Braced(b)]), b)
  {
    var a: Text, b: Text := [0x61], [0x62];
    BracedTokens(a);
    BracedTokens(b);
    RenderOne(Placeholder(a), map[a := Braced(b)]);
  }

  /** Stray braces can close over a value: `{{` `{{a}}` `b}}` filled with `x` reads `{{xb}}`. */
  lemma StrayBracesCanMakeAPlaceholder()
    ensures var a: Text, x: Text, b: Text, xb: Text := [0x61], [0x78], [0x62], [0x78, 0x62];
      var text := [OPEN] + ([OPEN] + (Braced(a) + (b + [CLOSE, CLOSE])));
      BraceFreeValues(map[a := x]) && !HasPlaceholder(text, xb) && HasPlaceholder(Substitute(text, map[a := x]), xb)
  {
    var a: Text, x: Text, b: Text, xb: Text := [0x61], [0x78], [0x62], [0x78, 0x62];
    assert b + [CLOSE, CLOSE] == [0x62, CLOSE, CLOSE];
    StrayTokens(b + [CLOSE, CLOSE]);
    StrayRendered([Char(0x62), Char(CLOSE), Char(CLOSE)], map[a := x]);
    BracedTokens(xb);
    StrayNames(xb);
  }

  lemma StrayNames(name: Text)
    requires |name| == 2
    ensures Placeholder(name) !in [Char(OPEN)]
      + ([Char(OPEN)] + ([Placeholder([0x61])] + [Char(0x62), Char(CLOSE), Char(CLOSE)]))
  {
  }

  lemma StrayTokens(tail: Text)
    requires tail == [0x62, CLOSE, CLOSE]
    ensures Tokens([OPEN] + ([OPEN] + (Braced([0x61]) + tail)))
         == [Char(OPEN)] + ([Char(OPEN)] + ([Placeholder([0x61])] + [Char(0x62), Char(CLOSE), Char(CLOSE)]))
  {
    OpensBefore(Braced([0x61]) + tail);
    PlaceholderTokens([0x61], tail);
    TailTokens();
  }

  lemma StrayRendered(end: seq<Token>, variables: map<Text, Text>)
    requires end == [Char(0x62), Char(CLOSE), Char(CLOSE)] && variables == map[[0x61] := [0x78]]
    ensures Render([Char(OPEN)] + ([Char(OPEN)] + ([Placeholder([0x61])] + end)), variables) == Braced([0x78, 0x62])
  {
    RenderCons(Char(OPEN), [Char(OPEN)] + ([Placeholder([0x61])] + end), variables);
    RenderCons(Char(OPEN), [Placeholder([0x61])] + end, variables);
    RenderCons(Placeholder([0x61]), end, variables);
    assert end == [Char(0x62)] + [Char(CLOSE), Char(CLOSE)];
    RenderCons(Char(0x62), [Char(CLOSE), Char(CLOSE)], variables);
    RenderPair(Char(CLOSE), Char(CLOSE), variables);
  }

  lemma OpensBefore(s: Text)
    requires |s| >= 2 && s[0] == OPEN && s[1] == OPEN
    ensures Tokens([OPEN] + ([OPEN] + s)) == [Char(OPEN)] + ([Char(OPEN)] + Tokens(s))
  {
    OpenBeforeOpens(s);
    OpenBeforeOpens([OPEN] + s);
  }

  lemma OpenBeforeOpens(s: Text)
    requires |s| >= 2 && s[0] == OPEN && s[1] == OPEN
    ensures Tokens([OPEN] + s) == [Char(OPEN)] + Tokens(s)
  {
    var t := [OPEN] + s;
    assert t[1..] == s && t[2] == OPEN;
    assert t[2..][0] == OPEN;
    assert WordRun(t[2..]) == 0;
  }

  lemma TailTokens()
    ensures Tokens([0x62, CLOSE, CLOSE]) == [Char(0x62), Char(CLOSE), Char(CLOSE)]
  {
    var s: Text := [0x62, CLOSE, CLOSE];
    assert s[1..] == [CLOSE, CLOSE] && s[1..][1..] == [CLOSE] && s[1..][1..][1..] == [];
    assert Tokens([CLOSE]) == [Char(CLOSE)];
    assert Tokens([CLOSE, CLOSE]) == [Char(CLOSE)] + Tokens([CLOSE]);
  }

  lemma RenderOne(token: Token, variables: map<Text, Text>)
    ensures Render([token], variables) == RenderToken(token, variables)
  {
    assert [token][1..] == [];
  }

  lemma RenderPair(s: Token, t: Token, variables: map<Text, Text>)
    ensures Render([s, t], variables) == RenderToken(s, variables) + RenderToken(t, variables)
  {
    RenderConcat([s], [t], variables);
    RenderOne(s, variables);
    RenderOne(t, variables);
    assert [s, t] == [s] + [t];
  }

  // ---------------------------------------------------------------------------
  // Placeholders of a whole document
  // ---------------------------------------------------------------------------

  /** `parts.join('\n\n')` */
  function Join(parts: seq<Text>): Text {
    if parts == [] then []
    else if |parts| == 1 then parts[0]
    else parts[0] + [NEWLINE, NEWLINE] + Join(parts[1..])
  }

  /** Placeholders are written in double braces, and parts are set apart by an empty line. */
  lemma BracesAndBlankLine(name: Text, u: Text, v: Text)
    requires IsName(name)
    ensures Tokens([0x7B, 0x7B] + name + [0x7D, 0x7D]) == [Placeholder(name)]
    ensures Join([u, v]) == u + [0x0A, 0x0A] + v
  {
    BracedTokens(name);
    assert Braced(name) == [0x7B, 0x7B] + name + [0x7D, 0x7D];
    assert [u, v][1..] == [v];
  }

  lemma {:induction false} WordRunBeforeBreak(u: Text, v: Text)
    ensures WordRun(u + [NEWLINE] + v) == WordRun(u)
  {
    if u == [] {
      assert (u + [NEWLINE] + v)[0] == NEWLINE;
    } else {
      WordRunBeforeBreak(u[1..], v);
      assert (u + [NEWLINE] + v)[1..] == u[1..] + [NEWLINE] + v;
    }
  }

  lemma MatchBeforeBreak(u: Text, v: Text)
    requires u != []
    ensures MatchAt(u + [NEWLINE] + v) == MatchAt(u)
  {
    var s := u + [NEWLINE] + v;
    if |u| >= 2 {
      assert s[2..] == u[2..] + [NEWLINE] + v;
      WordRunBeforeBreak(u[2..], v);
      var run := WordRun(u[2..]);
      assert run + 2 <= |u|;
      if run + 2 < |u| { assert s[run + 2] == u[run + 2]; }
      assert s[|u|] == NEWLINE;
    }
  }

  /** No placeholder reaches across a line break. */
  lemma {:induction false} TokensAcrossBreak(u: Text, v: Text)
    ensures Tokens(u + [NEWLINE] + v) == Tokens(u) + [Char(NEWLINE)] + Tokens(v)
    decreases |u|
  {
    if u == [] {
      BreakFirst(v);
    } else {
      MatchBeforeBreak(u, v);
      match MatchAt(u)
      case Some(run) =>
        TokensAcrossBreak(u[run + 4..], v);
        MatchAcrossBreak(u, v, run);
      case None =>
        TokensAcrossBreak(u[1..], v);
        CharAcrossBreak(u, v);
    }
  }

  lemma BreakFirst(v: Text)
    ensures Tokens([] + [NEWLINE] + v) == Tokens([]) + [Char(NEWLINE)] + Tokens(v)
  {
    assert [] + [NEWLINE] + v == [NEWLINE] + v && ([NEWLINE] + v)[1..] == v;
  }

  lemma MatchAcrossBreak(u: Text, v: Text, run: nat)
    requires u != [] && MatchAt(u) == MatchAt(u + [NEWLINE] + v) == Some(run)
    requires Tokens(u[run + 4..] + [NEWLINE] + v) == Tokens(u[run + 4..]) + [Char(NEWLINE)] + Tokens(v)
    ensures Tokens(u + [NEWLINE] + v) == Tokens(u) + [Char(NEWLINE)] + Tokens(v)
  {
    var s := u + [NEWLINE] + v;
    assert s[run + 4..] == u[run + 4..] + [NEWLINE] + v;
    assert s[2..run + 2] == u[2..run + 2];
    JoinTokens(Placeholder(u[2..run + 2]), Tokens(u[run + 4..]), Tokens(v));
  }

  lemma CharAcrossBreak(u: Text, v: Text)
    requires u != [] && MatchAt(u).None? && MatchAt(u + [NEWLINE] + v).None?
    requires Tokens(u[1..] + [NEWLINE] + v) == Tokens(u[1..]) + [Char(NEWLINE)] + Tokens(v)
    ensures Tokens(u + [NEWLINE] + v) == Tokens(u) + [Char(NEWLINE)] + Tokens(v)
  {
    var s := u + [NEWLINE] + v;
    assert s[1..] == u[1..] + [NEWLINE] + v;
    JoinTokens(Char(u[0]), Tokens(u[1..]), Tokens(v));
  }

  lemma JoinTokens(first: Token, s: seq<Token>, t: seq<Token>)
    ensures [first] + (s + [Char(NEWLINE)] + t) == ([first] + s) + [Char(NEWLINE)] + t
  {}

  lemma JoinStep(first: Text, rest: Text, name: Text)
    ensures HasPlaceholder(first + [NEWLINE, NEWLINE] + rest, name)
       <==> HasPlaceholder(first, name) || HasPlaceholder(rest, name)
  {
    TokensAcrossBreak(first, [NEWLINE] + rest);
    TokensAcrossBreak([], rest);
    assert [] + [NEWLINE] + rest == [NEWLINE] + rest;
    assert first + [NEWLINE, NEWLINE] + rest == first + [NEWLINE] + ([NEWLINE] + rest);
  }

  ghost predicate InSome(parts: seq<Text>, name: Text) {
    exists i :: 0 <= i < |parts| && HasPlaceholder(parts[i], name)
  }

  lemma InSomeStep(parts: seq<Text>, name: Text)
    requires parts != []
    ensures InSome(parts, name) <==> HasPlaceholder(parts[0], name) || InSome(parts[1..], name)
  {
    assert forall i :: 1 <= i < |parts| ==> parts[i] == parts[1..][i - 1];
    if InSome(parts[1..], name) {
      var i :| 0 <= i < |parts[1..]| && HasPlaceholder(parts[1..][i], name);
      assert HasPlaceholder(parts[i + 1], name);
    }
  }

  /** The placeholders of a document are those of its parts. */
  lemma {:induction false} JoinedPlaceholders(parts: seq<Text>, name: Text)
    ensures HasPlaceholder(Join(parts), name) <==> InSome(parts, name)
  {
    if parts != [] {
      InSomeStep(parts, name);
      if |parts| > 1 {
        JoinedPlaceholders(parts[1..], name);
        JoinStep(parts[0], Join(parts[1..]), name);
      }
    }
  }

  function Itself(text: Text): Text { text }

  /** Placeholders a document still carries, sorted, each once. */
  method UnresolvedPlaceholders(text: Text) returns (names: seq<Text>)
    ensures forall name :: name in names <==> HasPlaceholder(text, name)
    ensures StrictlySorted(names, Itself)
  {
    var tokens := Tokens(text);
    var found: seq<Text> := [];
    for i := 0 to |tokens|
      invariant forall name :: name in found <==> Placeholder(name) in tokens[..i]
      invariant DistinctKeys(found, Itself)
    {
      assert tokens[..i + 1] == tokens[..i] + [tokens[i]];
      if tokens[i].Placeholder? && tokens[i].name !in found {
        found := found + [tokens[i].name];
      }
    }
    assert tokens[..|tokens|] == tokens;
    SortContents(found, Itself);
    SortSorted(found, Itself);
    names := Sort(found, Itself);
  }
}
