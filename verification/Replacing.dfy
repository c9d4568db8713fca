/**
 * Global `String.prototype.replace` with the regular expressions of the
 * notification templates. A rule is one expression together with its
 * replacement; matching eats a prefix of the remaining input, and every
 * expression below is deterministic, so no backtracking is modelled.
 */
module Replacing {
  import opened Wrappers
  import opened Characters

  // ---------- Template variables ----------

  /** A JavaScript value as far as templates can see it: its String and its Boolean. */
  datatype Value = Nullish | Present(display: string, truthy: bool)

  /** `Object.entries` order. */
  type Bindings = seq<(string, Value)>

  /** `variables[name]`; a missing property is undefined. */
  function Lookup(vars: Bindings, name: string): Value {
    if vars == [] then Nullish
    else if vars[0].0 == name then vars[0].1
    else Lookup(vars[1..], name)
  }

  predicate Truthy(vars: Bindings, name: string) {
    var v := Lookup(vars, name);
    v.Present? && v.truthy
  }

  // ---------- Eating prefixes ----------

  function Eat(s: string, p: string): (r: Option<string>)
    ensures r.Some? <==> p <= s
    ensures r.Some? ==> |r.value| == |s| - |p| && s == p + r.value
  {
    if p <= s then Some(s[|p|..]) else None
  }

  function EatSpaces(s: string): (r: string)
    ensures |r| <= |s|
  {
    if s != "" && IsSpace(s[0]) then EatSpaces(s[1..]) else s
  }

  /** The `\w*` prefix of `s`. */
  function WordPrefix(s: string): (w: string)
    ensures w <= s
  {
    if s != "" && IsWord(s[0]) then [s[0]] + WordPrefix(s[1..]) else ""
  }

  /** A literal under the `i` flag. */
  function EatName(s: string, name: string): (r: Option<string>)
    ensures r.Some? ==> |r.value| == |s| - |name|
  {
    if |name| <= |s| && SameName(s[..|name|], name) then Some(s[|name|..]) else None
  }

  /** Where the lazy `[\s\S]*?` before the literal `p` stops. */
  function Find(s: string, p: string): (r: Option<nat>)
    ensures r.Some? ==> r.value + |p| <= |s|
  {
    if p <= s then Some(0)
    else if s == "" then None
    else match Find(s[1..], p)
      case None => None
      case Some(n) => Some(n + 1)
  }

  // ---------- The expressions ----------

  datatype Kind = If | Unless

  function Opener(kind: Kind): string {
    if kind.If? then "{{#if" else "{{#unless"
  }

  function Closer(kind: Kind): string {
    if kind.If? then "{{/if}}" else "{{/unless}}"
  }

  /**
   * Double and Triple hold the escaped name they were built from and a
   * replacement string; Sweep removes left-over holes; Block keeps or drops the
   * content of a conditional; Html and Meta are the two escaping expressions.
   */
  datatype Rule =
    | Double(source: string, replacement: string)
    | Triple(source: string, replacement: string)
    | Sweep
    | Block(kind: Kind, vars: Bindings)
    | Html
    | Meta

  datatype Match = NoMatch | Match(rest: string, name: string, content: string)

  const SPECIAL := ".*+?^${}()|[]\\"

  /** What an expression made only of literals and escaped literals denotes. */
  function Denoted(source: string): Option<string> {
    if source == "" then Some("")
    else if source[0] == '\\' then
      if |source| < 2 || source[1] !in SPECIAL then None
      else match Denoted(source[2..])
        case None => None
        case Some(d) => Some([source[1]] + d)
    else if source[0] in SPECIAL then None
    else match Denoted(source[1..])
      case None => None
      case Some(d) => Some([source[0]] + d)
  }

  /** `open \s* source \s* close` with the g and i flags. */
  function MatchNamed(open: string, source: string, close: string, s: string): (r: Option<string>)
    ensures r.Some? ==> |r.value| <= |s| - |open|
  {
    var name :- Denoted(source);
    var s1 :- Eat(s, open);
    var s2 :- EatName(EatSpaces(s1), name);
    Eat(EatSpaces(s2), close)
  }

  /** `\{\{\{?\s*\w+\s*\}?\}\}` */
  function MatchLeftover(s: string): (r: Option<string>)
    ensures r.Some? ==> |r.value| < |s|
  {
    var s1 :- Eat(s, "{{");
    var s2 := EatSpaces(if "{" <= s1 then s1[1..] else s1);
    var w := WordPrefix(s2);
    if w == "" then None else
    var s3 := EatSpaces(s2[|w|..]);
    if "}}}" <= s3 then Some(s3[3..]) else Eat(s3, "}}")
  }

  /** `([\s\S]*?)\{\{\/if\}\}`, or the same for unless. */
  function MatchContent(kind: Kind, name: string, s: string): (m: Match)
    ensures m.Match? ==> |m.rest| <= |s|
  {
    match Find(s, Closer(kind))
    case None => NoMatch
    case Some(n) => Match(s[n + |Closer(kind)|..], name, s[..n])
  }

  /** `(\w+)\}\}` and what follows. */
  function MatchCondition(kind: Kind, s: string): (m: Match)
    ensures m.Match? ==> |m.rest| <= |s|
  {
    var w := WordPrefix(s);
    if w == "" then NoMatch else
    match Eat(s[|w|..], "}}")
    case None => NoMatch
    case Some(r) => MatchContent(kind, w, r)
  }

  /** `\{\{#if\s+(\w+)\}\}([\s\S]*?)\{\{\/if\}\}`, or the same for unless. */
  function MatchBlock(kind: Kind, s: string): (m: Match)
    ensures m.Match? ==> |m.rest| < |s|
  {
    match Eat(s, Opener(kind))
    case None => NoMatch
    case Some(r) => if EatSpaces(r) == r then NoMatch else MatchCondition(kind, EatSpaces(r))
  }

  const HTML_SPECIAL := "&<>\"'"

  function Entity(c: char): string {
    match c
    case '&' => "&amp;"
    case '<' => "&lt;"
    case '>' => "&gt;"
    case '"' => "&quot;"
    case '\'' => "&#039;"
    case _ => [c]
  }

  function MatchAt(rule: Rule, s: string): (m: Match)
    requires s != ""
    ensures m.Match? ==> |m.rest| < |s|
  {
    match rule
    case Double(source, _) =>
      (match MatchNamed("{{", source, "}}", s)
       case None => NoMatch
       case Some(rest) => Match(rest, "", ""))
    case Triple(source, _) =>
      (match MatchNamed("{{{", source, "}}}", s)
       case None => NoMatch
       case Some(rest) => Match(rest, "", ""))
    case Sweep =>
      (match MatchLeftover(s)
       case None => NoMatch
       case Some(rest) => Match(rest, "", ""))
    case Block(kind, _) => MatchBlock(kind, s)
    case Html => if s[0] in HTML_SPECIAL then Match(s[1..], "", "") else NoMatch
    case Meta => if s[0] in SPECIAL then Match(s[1..], "", "") else NoMatch
  }

  // ---------- Replacement ----------

  /**
   * JavaScript's reading of `$` in a replacement string. None of the
   * expressions used with a string has a capture group, so `$1` and `$<` are literal.
   */
  function Expand(r: string, matched: string, before: string, after: string): string {
    if r == "" then ""
    else if |r| >= 2 && r[0] == '$' && r[1] in "$&`'" then
      (match r[1]
       case '$' => "$"
       case '&' => matched
       case '`' => before
       case _ => after) + Expand(r[2..], matched, before, after)
    else [r[0]] + Expand(r[1..], matched, before, after)
  }

  /** What stands for each pair: a dollar sign, the match, the text before it or the text after it. */
  lemma PairExpands(c: char, r: string, matched: string, before: string, after: string)
    requires c in "$&`'"
    ensures Expand(['$', c] + r, matched, before, after)
         == (if c == '$' then "$" else if c == '&' then matched else if c == '`' then before else after)
            + Expand(r, matched, before, after)
  {
    var s := ['$', c] + r;
    assert s[0] == '$' && s[1] == c && s[2..] == r;
  }

  /** No `$` of `r` is read specially. */
  predicate Plain(r: string) {
    forall i | 0 <= i < |r| - 1 :: r[i] == '$' ==> r[i + 1] !in "$&`'"
  }

  lemma PlainCons(c: char, t: string)
    ensures Plain([c] + t) <==> Plain(t) && (c == '$' && t != "" ==> t[0] !in "$&`'")
  {
    var s := [c] + t;
    assert forall i | 0 <= i < |t| :: s[i + 1] == t[i];
    if Plain(s) {
      forall i | 0 <= i < |t| - 1 && t[i] == '$' ensures t[i + 1] !in "$&`'" {
        assert s[i + 1] == '$';
      }
      if c == '$' && t != "" {
        assert s[0] == '$' && s[0 + 1] == t[0];
      }
    }
    if Plain(t) && (c == '$' && t != "" ==> t[0] !in "$&`'") {
      forall i | 0 <= i < |s| - 1 && s[i] == '$' ensures s[i + 1] !in "$&`'" {
        if i > 0 {
          assert t[i - 1] == '$';
        }
      }
    }
  }

  lemma {:induction false} PlainExpandsToItself(r: string, matched: string, before: string, after: string)
    requires Plain(r)
    ensures Expand(r, matched, before, after) == r
  {
    if r != "" {
      assert r == [r[0]] + r[1..];
      PlainCons(r[0], r[1..]);
      PlainExpandsToItself(r[1..], matched, before, after);
    }
  }

  ghost function Dollars(s: string): nat {
    multiset(s)['$']
  }

  lemma DollarsConcat(a: string, b: string)
    ensures Dollars(a + b) == Dollars(a) + Dollars(b)
  {
  }

  lemma SpecialPairLoses(r: string, matched: string, before: string, after: string)
    requires '$' !in matched && '$' !in before && '$' !in after
    requires |r| >= 2 && r[0] == '$' && r[1] in "$&`'"
    ensures Dollars(Expand(r, matched, before, after)) - Dollars(Expand(r[2..], matched, before, after))
          < Dollars(r) - Dollars(r[2..])
  {
    var rest := Expand(r[2..], matched, before, after);
    assert r == [r[0]] + ([r[1]] + r[2..]);
    DollarsConcat([r[0]], [r[1]] + r[2..]);
    DollarsConcat([r[1]], r[2..]);
    DollarsConcat(matched, rest);
    DollarsConcat(before, rest);
    DollarsConcat(after, rest);
    DollarsConcat("$", rest);
  }

  /** Each pair that is read specially loses a `$`. */
  lemma {:induction false} ExpandLosesDollars(r: string, matched: string, before: string, after: string)
    requires '$' !in matched && '$' !in before && '$' !in after
    ensures Dollars(Expand(r, matched, before, after)) <= Dollars(r)
    ensures !Plain(r) ==> Dollars(Expand(r, matched, before, after)) < Dollars(r)
    decreases |r|
  {
    if r == "" {
    } else if |r| >= 2 && r[0] == '$' && r[1] in "$&`'" {
      SpecialPairLoses(r, matched, before, after);
      ExpandLosesDollars(r[2..], matched, before, after);
    } else {
      assert r == [r[0]] + r[1..];
      PlainCons(r[0], r[1..]);
      DollarsConcat([r[0]], r[1..]);
      DollarsConcat([r[0]], Expand(r[1..], matched, before, after));
      ExpandLosesDollars(r[1..], matched, before, after);
    }
  }

  /** Where nothing around it has a `$`, a replacement string is inserted as it is exactly when it is plain. */
  lemma ExpandsToItselfIff(r: string, matched: string, before: string, after: string)
    requires '$' !in matched && '$' !in before && '$' !in after
    ensures Expand(r, matched, before, after) == r <==> Plain(r)
  {
    if Plain(r) {
      PlainExpandsToItself(r, matched, before, after);
    } else {
      ExpandLosesDollars(r, matched, before, after);
    }
  }

  ghost predicate InsertedAsIs(r: string) {
    forall matched, before, after :: Expand(r, matched, before, after) == r
  }

  /** A replacement string is inserted as it is wherever it goes exactly when it is plain. */
  lemma InsertedAsIsIff(r: string)
    ensures InsertedAsIs(r) <==> Plain(r)
  {
    if Plain(r) {
      forall matched, before, after ensures Expand(r, matched, before, after) == r {
        PlainExpandsToItself(r, matched, before, after);
      }
    } else {
      ExpandsToItselfIff(r, "", "", "");
    }
  }

  function Replacement(rule: Rule, m: Match, before: string, s: string): string
    requires s != "" && m.Match? && |m.rest| < |s|
  {
    var matched := s[..|s| - |m.rest|];
    match rule
    case Double(_, r) => Expand(r, matched, before, m.rest)
    case Triple(_, r) => Expand(r, matched, before, m.rest)
    case Sweep => ""
    case Block(kind, vars) => if Truthy(vars, m.name) == kind.If? then m.content else ""
    case Html => Entity(s[0])
    case Meta => Expand("\\$&", matched, before, m.rest)
  }

  /** Matches are found left to right and what replaces them is not scanned again. */
  function ReplaceAll(rule: Rule, before: string, s: string): string
    decreases |s|
  {
    if s == "" then "" else
    var m := MatchAt(rule, s);
    if m.NoMatch? then [s[0]] + ReplaceAll(rule, before + [s[0]], s[1..])
    else Replacement(rule, m, before, s) + ReplaceAll(rule, before + s[..|s| - |m.rest|], m.rest)
  }

  function Replace(rule: Rule, s: string): string {
    ReplaceAll(rule, "", s)
  }

  lemma CopiesOne(rule: Rule, before: string, c: char, tail: string)
    requires MatchAt(rule, [c] + tail).NoMatch?
    ensures ReplaceAll(rule, before, [c] + tail) == [c] + ReplaceAll(rule, before + [c], tail)
  {
    assert ([c] + tail)[1..] == tail;
  }

  /** What a block leaves. */
  function Kept(rule: Rule, m: Match): string
    requires rule.Block? && m.Match?
  {
    if Truthy(rule.vars, m.name) == rule.kind.If? then m.content else ""
  }

  lemma MatchReplaced(rule: Rule, before: string, s: string, m: Match)
    requires s != "" && MatchAt(rule, s) == m && m.Match?
    ensures ReplaceAll(rule, before, s)
         == Replacement(rule, m, before, s) + ReplaceAll(rule, before + s[..|s| - |m.rest|], m.rest)
  {
  }

  lemma BlockReplacement(rule: Rule, before: string, s: string, m: Match)
    requires rule.Block? && s != "" && m.Match? && |m.rest| < |s|
    ensures Replacement(rule, m, before, s) == Kept(rule, m)
  {
  }

  lemma BlockReplaced(rule: Rule, before: string, s: string, m: Match)
    requires rule.Block? && s != "" && MatchAt(rule, s) == m && m.Match?
    ensures ReplaceAll(rule, before, s)
         == Kept(rule, m) + ReplaceAll(rule, before + s[..|s| - |m.rest|], m.rest)
  {
    MatchReplaced(rule, before, s, m);
    BlockReplacement(rule, before, s, m);
  }

  /** No match starts inside `a`, when `tail` follows it. */
  ghost predicate Unmatched(rule: Rule, a: string, tail: string) {
    a == "" || (MatchAt(rule, a + tail).NoMatch? && Unmatched(rule, a[1..], tail))
  }

  lemma Regroup(a: string, b: string, c: string)
    ensures (a + b) + c == a + (b + c)
  {
  }

  lemma HeadTail(s: string)
    requires s != ""
    ensures s == [s[0]] + s[1..]
  {
  }

  lemma HeadFirst(before: string, a: string, t: string)
    requires a != ""
    ensures a + t == [a[0]] + (a[1..] + t)
    ensures before + [a[0]] + a[1..] == before + a
  {
  }

  /** A stretch in which nothing starts a match is copied. */
  lemma {:induction false} CopiesUnmatched(rule: Rule, before: string, a: string, tail: string)
    requires Unmatched(rule, a, tail)
    ensures ReplaceAll(rule, before, a + tail) == a + ReplaceAll(rule, before + a, tail)
    decreases |a|
  {
    if a == "" {
      assert a + tail == tail && before + a == before;
    } else {
      var h, b := [a[0]], a[1..];
      HeadFirst(before, a, tail);
      HeadFirst(before, a, ReplaceAll(rule, before + a, tail));
      CopiesOne(rule, before, a[0], b + tail);
      CopiesUnmatched(rule, before + h, b, tail);
    }
  }

  // ---------- What the eaters do on known input ----------

  lemma {:induction false} EatSpacesStops(w: string, t: string)
    requires Spaces(w) && (t == "" || !IsSpace(t[0]))
    ensures EatSpaces(w + t) == t
  {
    if w == "" {
      assert w + t == t;
    } else {
      assert (w + t)[1..] == w[1..] + t;
      EatSpacesStops(w[1..], t);
    }
  }

  lemma {:induction false} WordPrefixStops(w: string, t: string)
    requires forall i | 0 <= i < |w| :: IsWord(w[i])
    requires t == "" || !IsWord(t[0])
    ensures WordPrefix(w + t) == w
  {
    if w == "" {
      assert w + t == t;
    } else {
      assert (w + t)[1..] == w[1..] + t;
      WordPrefixStops(w[1..], t);
    }
  }

  lemma EatConcat(p: string, t: string)
    ensures Eat(p + t, p) == Some(t)
  {
    assert (p + t)[|p|..] == t;
  }
}
