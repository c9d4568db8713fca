/** `_escapeHtml` and `_escapeRegex`, and readers that undo them. */
module Escaping {
  import opened Wrappers
  import opened Replacing

  function EscapeHtml(text: string): string {
    Replace(Html, text)
  }

  function EscapeRegex(text: string): string {
    Replace(Meta, text)
  }

  /** The character whose entity `s` starts with. */
  function EntityAt(s: string): (r: Option<char>)
    ensures r.Some? ==> r.value in HTML_SPECIAL && Entity(r.value) <= s
  {
    if "&amp;" <= s then Some('&')
    else if "&lt;" <= s then Some('<')
    else if "&gt;" <= s then Some('>')
    else if "&quot;" <= s then Some('"')
    else if "&#039;" <= s then Some('\'')
    else None
  }

  /** Reads the five entities back; any other character stands for itself. */
  function UnescapeHtml(s: string): string
    decreases |s|
  {
    if s == "" then ""
    else match EntityAt(s)
      case Some(c) => [c] + UnescapeHtml(s[|Entity(c)|..])
      case None => [s[0]] + UnescapeHtml(s[1..])
  }

  lemma HtmlStep(before: string, s: string)
    requires s != ""
    ensures ReplaceAll(Html, before, s) == Entity(s[0]) + ReplaceAll(Html, before + [s[0]], s[1..])
  {
    assert s[..1] == [s[0]];
    if s[0] !in HTML_SPECIAL {
      assert Entity(s[0]) == [s[0]];
    }
  }

  lemma {:induction false} HtmlIgnoresBefore(b1: string, b2: string, s: string)
    ensures ReplaceAll(Html, b1, s) == ReplaceAll(Html, b2, s)
    decreases |s|
  {
    if s != "" {
      HtmlStep(b1, s);
      HtmlStep(b2, s);
      HtmlIgnoresBefore(b1 + [s[0]], b2 + [s[0]], s[1..]);
    }
  }

  /** Escaping works character by character. */
  lemma EscapeHtmlStep(s: string)
    requires s != ""
    ensures EscapeHtml(s) == Entity(s[0]) + EscapeHtml(s[1..])
  {
    HtmlStep("", s);
    HtmlIgnoresBefore("" + [s[0]], "", s[1..]);
  }

  lemma SumParts(a: string, b: string)
    requires a != ""
    ensures (a + b)[0] == a[0] && (a + b)[1..] == a[1..] + b
  {
  }

  lemma {:induction false} EscapeHtmlDistributes(a: string, b: string)
    ensures EscapeHtml(a + b) == EscapeHtml(a) + EscapeHtml(b)
  {
    if a == "" {
      assert a + b == b;
    } else {
      SumParts(a, b);
      EscapeHtmlStep(a + b);
      EscapeHtmlStep(a);
      EscapeHtmlDistributes(a[1..], b);
      Regroup(Entity(a[0]), EscapeHtml(a[1..]), EscapeHtml(b));
    }
  }

  /** Nothing that could open a tag or close an attribute survives. */
  lemma {:induction false} EscapeHtmlEmitsNoMarkup(s: string)
    ensures forall c | c in EscapeHtml(s) :: c !in "<>\"'"
  {
    if s != "" {
      EscapeHtmlStep(s);
      EscapeHtmlEmitsNoMarkup(s[1..]);
      assert forall c | c in Entity(s[0]) :: c !in "<>\"'";
    }
  }

  /** The second character tells the entities apart. */
  function Mark(c: char): char {
    match c
    case '&' => 'a'
    case '<' => 'l'
    case '>' => 'g'
    case '"' => 'q'
    case _ => '#'
  }

  lemma EntityMarked(c: char, s: string)
    requires c in HTML_SPECIAL
    ensures Entity(c) <= s ==> |s| > 1 && s[0] == '&' && s[1] == Mark(c)
  {
    var e := Entity(c);
    assert |e| > 1 && e[0] == '&' && e[1] == Mark(c);
  }

  lemma EntityRecognized(c: char, t: string)
    requires c in HTML_SPECIAL
    ensures EntityAt(Entity(c) + t) == Some(c)
  {
    var s := Entity(c) + t;
    EntityMarked(c, s);
    EntityMarked('&', s);
    EntityMarked('<', s);
    EntityMarked('>', s);
    EntityMarked('"', s);
    EntityMarked('\'', s);
    assert Entity(c) <= s;
  }

  lemma UnescapeEntity(c: char, t: string)
    requires c in HTML_SPECIAL
    ensures UnescapeHtml(Entity(c) + t) == [c] + UnescapeHtml(t)
  {
    EntityRecognized(c, t);
    assert (Entity(c) + t)[|Entity(c)|..] == t;
  }

  lemma UnescapePlain(c: char, t: string)
    requires c !in HTML_SPECIAL
    ensures UnescapeHtml([c] + t) == [c] + UnescapeHtml(t)
  {
    var s := [c] + t;
    if EntityAt(s).Some? {
      EntityMarked(EntityAt(s).value, s);
    }
    assert s[1..] == t;
  }

  lemma UnescapeStep(c: char, t: string)
    ensures UnescapeHtml(Entity(c) + t) == [c] + UnescapeHtml(t)
  {
    if c in HTML_SPECIAL {
      UnescapeEntity(c, t);
    } else {
      UnescapePlain(c, t);
    }
  }

  lemma {:induction false} UnescapeUndoesEscape(s: string)
    ensures UnescapeHtml(EscapeHtml(s)) == s
  {
    if s != "" {
      EscapeHtmlStep(s);
      UnescapeStep(s[0], EscapeHtml(s[1..]));
      UnescapeUndoesEscape(s[1..]);
      HeadTail(s);
    }
  }

  /** Hence distinct texts stay distinct. */
  lemma EscapeHtmlIsInjective(a: string, b: string)
    requires EscapeHtml(a) == EscapeHtml(b)
    ensures a == b
  {
    UnescapeUndoesEscape(a);
    UnescapeUndoesEscape(b);
  }

  lemma ExpandMeta(c: char, before: string, after: string)
    ensures Expand("\\$&", [c], before, after) == ['\\', c]
  {
    var r := "\\$&";
    assert r[1..][2..] == "";
    assert Expand(r[1..], [c], before, after) == [c] + "";
  }

  lemma FirstOf(s: string)
    requires s != ""
    ensures s[..1] == [s[0]] && s[..|s| - |s[1..]|] == [s[0]]
  {
  }

  lemma MetaStep(before: string, s: string)
    requires s != ""
    ensures ReplaceAll(Meta, before, s)
         == (if s[0] in SPECIAL then ['\\', s[0]] else [s[0]]) + ReplaceAll(Meta, before + [s[0]], s[1..])
  {
    FirstOf(s);
    ExpandMeta(s[0], before, s[1..]);
  }

  lemma {:induction false} MetaDenotesInput(before: string, s: string)
    ensures Denoted(ReplaceAll(Meta, before, s)) == Some(s)
    decreases |s|
  {
    if s != "" {
      MetaStep(before, s);
      var rest := ReplaceAll(Meta, before + [s[0]], s[1..]);
      MetaDenotesInput(before + [s[0]], s[1..]);
      var head := if s[0] in SPECIAL then ['\\', s[0]] else [s[0]];
      assert (head + rest)[|head|..] == rest;
      assert s == [s[0]] + s[1..];
    }
  }

  lemma {:induction false} MetaIgnoresBefore(b1: string, b2: string, s: string)
    ensures ReplaceAll(Meta, b1, s) == ReplaceAll(Meta, b2, s)
    decreases |s|
  {
    if s != "" {
      MetaStep(b1, s);
      MetaStep(b2, s);
      MetaIgnoresBefore(b1 + [s[0]], b2 + [s[0]], s[1..]);
    }
  }

  /** The characters that a regular expression reads specially outside of brackets, and the brackets. */
  predicate IsMeta(c: char) {
    || c == '.' || c == '*' || c == '+' || c == '?' || c == '^' || c == '$' || c == '|' || c == '\\'
    || c == '(' || c == ')' || c == '[' || c == ']' || c == '{' || c == '}'
  }

  /** A backslash is put before each of these characters, and nothing else is changed. */
  lemma EscapeRegexStep(c: char, rest: string)
    ensures EscapeRegex([c] + rest) == (if IsMeta(c) then ['\\', c] else [c]) + EscapeRegex(rest)
    ensures EscapeRegex("") == ""
  {
    var s := [c] + rest;
    assert s[1..] == rest;
    MetaStep("", s);
    MetaIgnoresBefore("" + [c], "", rest);
  }

  /** The expression built from an escaped name matches that name literally. */
  lemma EscapeRegexDenotesInput(name: string)
    ensures Denoted(EscapeRegex(name)) == Some(name)
  {
    MetaDenotesInput("", name);
  }

  // ---------- Escaped text as a replacement string ----------

  lemma {:induction false} EscapeHtmlAdds(s: string, c: char)
    requires c in EscapeHtml(s) && c !in s
    ensures c in "&amp;&lt;&gt;&quot;&#039;"
  {
    if s != "" {
      EscapeHtmlStep(s);
      if c in EscapeHtml(s[1..]) {
        EscapeHtmlAdds(s[1..], c);
      }
    }
  }

  /** No `$` of the raw text is followed by a character that is special after escaping. */
  predicate DollarSafe(s: string) {
    forall i | 0 <= i < |s| - 1 :: s[i] == '$' ==> s[i + 1] !in "$`" && s[i + 1] !in HTML_SPECIAL
  }

  lemma EscapeHtmlFirst(s: string)
    requires s != ""
    ensures EscapeHtml(s) != "" && EscapeHtml(s)[0] == if s[0] in HTML_SPECIAL then '&' else s[0]
  {
    EscapeHtmlStep(s);
  }

  lemma {:induction false} PlainAppend(a: string, t: string)
    requires forall c <- a :: c != '$'
    ensures Plain(a + t) <==> Plain(t)
  {
    if a == "" {
      assert a + t == t;
    } else {
      assert a + t == [a[0]] + (a[1..] + t);
      assert a[0] in a && forall c <- a[1..] :: c in a;
      PlainCons(a[0], a[1..] + t);
      PlainAppend(a[1..], t);
    }
  }

  lemma DollarSafeCons(s: string)
    requires s != ""
    ensures DollarSafe(s) <==> DollarSafe(s[1..]) && (s[0] == '$' && |s| > 1 ==> s[1] !in "$`" && s[1] !in HTML_SPECIAL)
  {
    var t := s[1..];
    if DollarSafe(s) {
      forall i | 0 <= i < |t| - 1 && t[i] == '$' ensures t[i + 1] !in "$`" && t[i + 1] !in HTML_SPECIAL {
        assert s[i + 1] == '$';
      }
    }
    if DollarSafe(t) {
      forall i | 1 <= i < |s| - 1 && s[i] == '$' ensures s[i + 1] !in "$`" && s[i + 1] !in HTML_SPECIAL {
        assert t[i - 1] == '$';
      }
    }
  }

  lemma EscapedPlainStep(c: char, t: string)
    ensures Plain(Entity(c) + EscapeHtml(t))
       <==> Plain(EscapeHtml(t)) && (c == '$' && t != "" ==> t[0] !in "$`" && t[0] !in HTML_SPECIAL)
  {
    if c in HTML_SPECIAL {
      PlainAppend(Entity(c), EscapeHtml(t));
    } else {
      PlainCons(c, EscapeHtml(t));
      if t != "" {
        EscapeHtmlFirst(t);
      }
    }
  }

  lemma {:induction false} EscapedPlainIff(s: string)
    ensures Plain(EscapeHtml(s)) <==> DollarSafe(s)
  {
    if s != "" {
      EscapeHtmlStep(s);
      EscapedPlainStep(s[0], s[1..]);
      EscapedPlainIff(s[1..]);
      DollarSafeCons(s);
    }
  }

  /**
   * Escaping turns each of its five characters into one that `replace` reads
   * specially after a `$`. Where nothing around the hole has a `$`, this is exactly
   * when an escaped text is not inserted as it is.
   */
  lemma EscapedInsertedIff(s: string, matched: string, before: string, after: string)
    requires '$' !in matched && '$' !in before && '$' !in after
    ensures Expand(EscapeHtml(s), matched, before, after) == EscapeHtml(s) <==> DollarSafe(s)
  {
    EscapedPlainIff(s);
    ExpandsToItselfIff(EscapeHtml(s), matched, before, after);
  }

  /** Hence these are the texts that are inserted as they are in every place. */
  lemma EscapedAlwaysInsertedIff(s: string)
    ensures InsertedAsIs(EscapeHtml(s)) <==> DollarSafe(s)
  {
    EscapedPlainIff(s);
    InsertedAsIsIff(EscapeHtml(s));
  }
}
