/** Each rewriting pass over a printed template is a transformation of the template itself. */
module TemplatePasses {
  import opened Wrappers
  import opened Characters
  import opened Replacing
  import opened Template

  // ---------- Where a match can start ----------

  lemma PrefixAt(p: string, s: string, i: nat)
    requires i < |p|
    ensures p <= s ==> i < |s| && s[i] == p[i]
  {
  }

  lemma PrefixOfPrefix(p: string, q: string, s: string)
    requires p <= q
    ensures q <= s ==> p <= s
  {
  }

  /** A marker: braces around text that has none. */
  ghost predicate Marker(m: string) {
    4 < |m| && m[..2] == "{{" && m[|m| - 2..] == "}}" && forall i | 2 <= i < |m| :: m[i] != '{'
  }

  lemma BlockMarks(kind: Kind)
    ensures |Opener(kind)| > 4 && Opener(kind)[..2] == "{{" && Opener(kind)[2] == '#'
    ensures Opener(kind)[3] == if kind.If? then 'i' else 'u'
    ensures |Closer(kind)| > 4 && Closer(kind)[..2] == "{{" && Closer(kind)[2] == '/'
    ensures Closer(kind)[3] == if kind.If? then 'i' else 'u'
    ensures forall i | 2 <= i < |Opener(kind)| :: Opener(kind)[i] != '{'
    ensures Marker(Closer(kind))
  {
    match kind
    case If =>
      var c := "{{/if}}";
      assert c[..2] == "{{" && c[|c| - 2..] == "}}";
      assert "{{#if"[..2] == "{{";
    case Unless =>
      var c := "{{/unless}}";
      assert c[..2] == "{{" && c[|c| - 2..] == "}}";
      assert "{{#unless"[..2] == "{{";
  }

  /** Expressions that start with two opening braces. */
  predicate Braced(rule: Rule) {
    !rule.Html? && !rule.Meta?
  }

  lemma NeedsBraces(rule: Rule, s: string)
    requires Braced(rule) && s != "" && !("{{" <= s)
    ensures MatchAt(rule, s).NoMatch?
  {
    match rule
    case Triple(_, _) => PrefixOfPrefix("{{", "{{{", s);
    case Block(kind, _) =>
      BlockMarks(kind);
      PrefixOfPrefix("{{", Opener(kind), s);
    case _ =>
  }

  lemma CalmTail(a: string)
    requires Calm(a) && a != ""
    ensures Calm(a[1..])
  {
    forall i | 0 <= i < |a[1..]| && a[1..][i] == '{' ensures i + 1 < |a[1..]| && a[1..][i + 1] != '{' {
      assert a[i + 1] == '{';
    }
  }

  lemma CalmStart(a: string, tail: string)
    requires Calm(a) && a != ""
    ensures !("{{" <= a + tail)
  {
    PrefixAt("{{", a + tail, 0);
    PrefixAt("{{", a + tail, 1);
  }

  lemma {:induction false} CalmUnmatched(rule: Rule, a: string, tail: string)
    requires Braced(rule) && Calm(a)
    ensures Unmatched(rule, a, tail)
    decreases |a|
  {
    if a != "" {
      CalmStart(a, tail);
      NeedsBraces(rule, a + tail);
      CalmTail(a);
      CalmUnmatched(rule, a[1..], tail);
    }
  }

  lemma MarkerCalm(m: string)
    requires Marker(m)
    ensures Calm(m[1..])
  {
    assert m[0] == '{' && m[1] == '{';
  }

  lemma MarkerUnmatched(rule: Rule, m: string, tail: string)
    requires Braced(rule) && Marker(m) && MatchAt(rule, m + tail).NoMatch?
    ensures Unmatched(rule, m, tail)
  {
    MarkerCalm(m);
    CalmUnmatched(rule, m[1..], tail);
  }

  lemma MarkerParts(open: string, inner: string)
    requires 2 <= |open| && open[..2] == "{{"
    requires forall i | 2 <= i < |open| :: open[i] != '{'
    requires |open| + |inner| > 2 && forall c <- inner :: c != '{'
    ensures Marker(open + (inner + "}}"))
  {
    var m := open + (inner + "}}");
    assert m == (open + inner) + "}}";
    assert m[..2] == open[..2];
    forall i | 2 <= i < |m| ensures m[i] != '{' {
      if i < |open| {
        assert m[i] == open[i];
      } else if i < |open| + |inner| {
        assert m[i] == inner[i - |open|] && m[i] in inner;
      } else {
        assert m[i] == "}}"[i - |open| - |inner|];
      }
    }
  }

  lemma PlainInner(s: string)
    requires Spaces(s) || Name(s)
    ensures forall c <- s :: c != '{'
  {
  }

  lemma HoleIsMarker(lead: string, key: string, trail: string)
    requires Spaces(lead) && Name(key) && Spaces(trail)
    ensures Marker(HoleText(lead, key, trail))
  {
    PlainInner(lead);
    PlainInner(key);
    PlainInner(trail);
    MarkerParts("{{", lead + (key + trail));
    assert HoleText(lead, key, trail) == "{{" + ((lead + (key + trail)) + "}}");
  }

  lemma OpenIsMarker(kind: Kind, gap: string, key: string)
    requires Spaces(gap) && Name(key)
    ensures Marker(OpenText(kind, gap, key))
  {
    PlainInner(gap);
    PlainInner(key);
    BlockMarks(kind);
    MarkerParts(Opener(kind), gap + key);
    assert OpenText(kind, gap, key) == Opener(kind) + ((gap + key) + "}}");
  }

  // ---------- How each expression reads each marker ----------

  lemma WordsAreNotPunctuation(a: char, b: char)
    requires IsWord(a) && !IsWord(b)
    ensures Lower(a) != Lower(b)
  {
  }

  /** The third character tells holes, openers and closers apart. */
  lemma HoleSplits(lead: string, key: string, trail: string, tail: string)
    requires Name(key) && Spaces(lead)
    ensures HoleText(lead, key, trail) + tail == "{{" + (lead + (key + (trail + ("}}" + tail))))
    ensures var c := (HoleText(lead, key, trail) + tail)[2]; IsSpace(c) || IsWord(c)
  {
    assert HoleText(lead, key, trail) + tail == "{{" + (lead + (key + (trail + ("}}" + tail))));
    if lead == "" {
      assert (lead + (key + (trail + ("}}" + tail))))[0] == key[0];
    } else {
      assert (lead + (key + (trail + ("}}" + tail))))[0] == lead[0];
    }
  }

  lemma OpenSplits(kind: Kind, gap: string, key: string, tail: string)
    ensures OpenText(kind, gap, key) + tail == Opener(kind) + (gap + (key + ("}}" + tail)))
    ensures (OpenText(kind, gap, key) + tail)[2] == '#'
    ensures (OpenText(kind, gap, key) + tail)[3] == if kind.If? then 'i' else 'u'
  {
    BlockMarks(kind);
    assert OpenText(kind, gap, key) + tail == Opener(kind) + (gap + (key + ("}}" + tail)));
  }

  lemma NameMatches(name: string, key: string, tail: string)
    requires Name(name) && Name(key) && (tail == "" || !IsWord(tail[0]))
    ensures SameName(key, name) ==> EatName(key + tail, name) == Some(tail)
    ensures !SameName(key, name) ==>
              var r := EatName(key + tail, name);
              r.None? || (r.value != "" && IsWord(r.value[0]))
  {
    var s := key + tail;
    if |name| <= |key| {
      assert s[..|name|] == key[..|name|];
      assert s[|name|..] == key[|name|..] + tail;
      if |name| == |key| {
        assert key[..|name|] == key;
      }
    } else if |name| <= |s| {
      WordsAreNotPunctuation(name[|key|], tail[0]);
      assert s[..|name|][|key|] == tail[0];
    }
  }

  /** An expression for a name between the given braces, on such braces around another name. */
  lemma NamedOnHole(open: string, close: string, source: string, name: string,
                    lead: string, key: string, trail: string, tail: string)
    requires Denoted(source) == Some(name) && Name(name) && close != "" && close[0] == '}'
    requires Spaces(lead) && Name(key) && Spaces(trail)
    ensures MatchNamed(open, source, close, open + (lead + (key + (trail + (close + tail)))))
         == if SameName(key, name) then Some(tail) else None
  {
    var t2 := close + tail;
    var t1 := trail + t2;
    EatConcat(open, lead + (key + t1));
    assert t2[0] == '}' && (trail != "" ==> t1[0] == trail[0]) && (trail == "" ==> t1 == t2);
    EatSpacesStops(lead, key + t1);
    NameMatches(name, key, t1);
    EatSpacesStops(trail, t2);
    EatConcat(close, tail);
    if !SameName(key, name) {
      var r := EatName(key + t1, name);
      if r.Some? {
        assert EatSpaces(r.value) == r.value;
        PrefixAt(close, r.value, 0);
      }
    }
  }

  lemma DoubleOnHole(source: string, name: string, lead: string, key: string, trail: string, tail: string)
    requires Denoted(source) == Some(name) && Name(name)
    requires Spaces(lead) && Name(key) && Spaces(trail)
    ensures MatchNamed("{{", source, "}}", HoleText(lead, key, trail) + tail)
         == if SameName(key, name) then Some(tail) else None
  {
    HoleSplits(lead, key, trail, tail);
    NamedOnHole("{{", "}}", source, name, lead, key, trail, tail);
  }

  lemma BracesSplit(lead: string, key: string, trail: string, tail: string)
    ensures Braces(HoleText(lead, key, trail)) + tail == "{{{" + (lead + (key + (trail + ("}}}" + tail))))
    ensures (Braces(HoleText(lead, key, trail)) + tail)[2] == '{'
  {
    var rest := "}}" + ("}" + tail);
    assert rest == "}}}" + tail;
    assert Braces(HoleText(lead, key, trail)) + tail == "{" + ("{{" + (lead + (key + (trail + rest))));
    assert "{" + ("{{" + (lead + (key + (trail + rest)))) == "{{{" + (lead + (key + (trail + rest)));
  }

  lemma TripleOnHole(source: string, name: string, lead: string, key: string, trail: string, tail: string)
    requires Denoted(source) == Some(name) && Name(name)
    requires Spaces(lead) && Name(key) && Spaces(trail)
    ensures MatchNamed("{{{", source, "}}}", Braces(HoleText(lead, key, trail)) + tail)
         == if SameName(key, name) then Some(tail) else None
  {
    BracesSplit(lead, key, trail, tail);
    NamedOnHole("{{{", "}}}", source, name, lead, key, trail, tail);
  }

  lemma NamedNeedsName(source: string, name: string, s: string)
    requires Denoted(source) == Some(name) && Name(name)
    requires |s| > 2 && !IsSpace(s[2]) && !IsWord(s[2])
    ensures MatchNamed("{{", source, "}}", s).None?
  {
    if "{{" <= s {
      var s1 := s[2..];
      assert EatSpaces(s1) == s1;
      WordsAreNotPunctuation(name[0], s1[0]);
      if |name| <= |s1| {
        assert s1[..|name|][0] == s1[0];
      }
    }
  }

  lemma TripleNeedsBrace(source: string, repl: string, s: string)
    requires |s| > 2 && s[2] != '{'
    ensures MatchAt(Triple(source, repl), s).NoMatch?
  {
    PrefixAt("{{{", s, 2);
  }

  lemma SweepOnHole(lead: string, key: string, trail: string, tail: string)
    requires Spaces(lead) && Name(key) && Spaces(trail)
    requires tail == "" || tail[0] != '}'
    ensures MatchLeftover(HoleText(lead, key, trail) + tail) == Some(tail)
  {
    HoleSplits(lead, key, trail, tail);
    var t2 := "}}" + tail;
    var t1 := trail + t2;
    var s1 := lead + (key + t1);
    EatConcat("{{", s1);
    assert s1[0] == ("{{" + s1)[2];
    assert t2[0] == '}' && (trail != "" ==> t1[0] == trail[0]) && (trail == "" ==> t1 == t2);
    EatSpacesStops(lead, key + t1);
    WordPrefixStops(key, t1);
    assert (key + t1)[|key|..] == t1;
    EatSpacesStops(trail, t2);
    EatConcat("}}", tail);
    PrefixAt("}}}", t2, 2);
  }

  lemma SweepOnTriple(lead: string, key: string, trail: string, tail: string)
    requires Spaces(lead) && Name(key) && Spaces(trail)
    ensures MatchLeftover(Braces(HoleText(lead, key, trail)) + tail) == Some(tail)
  {
    BracesSplit(lead, key, trail, tail);
    var t2 := "}}}" + tail;
    var t1 := trail + t2;
    var s2 := lead + (key + t1);
    assert "{{{" + s2 == "{{" + ("{" + s2) && ("{" + s2)[1..] == s2;
    EatConcat("{{", "{" + s2);
    assert t2[0] == '}' && (trail != "" ==> t1[0] == trail[0]) && (trail == "" ==> t1 == t2);
    EatSpacesStops(lead, key + t1);
    WordPrefixStops(key, t1);
    assert (key + t1)[|key|..] == t1;
    EatSpacesStops(trail, t2);
    assert t2[3..] == tail;
  }

  lemma SweepNeedsWord(s: string)
    requires |s| > 2 && !IsSpace(s[2]) && !IsWord(s[2]) && s[2] != '{'
    ensures MatchLeftover(s).None?
  {
    if "{{" <= s {
      var s1 := s[2..];
      assert s1[0] == s[2];
      assert EatSpaces(s1) == s1;
    }
  }

  lemma BlockNeedsHash(kind: Kind, s: string)
    requires |s| > 3 && (s[2] != '#' || s[3] != (if kind.If? then 'i' else 'u'))
    ensures MatchBlock(kind, s).NoMatch?
  {
    BlockMarks(kind);
    PrefixAt(Opener(kind), s, 2);
    PrefixAt(Opener(kind), s, 3);
  }

  lemma BlockHead(kind: Kind, gap: string, key: string, s3: string)
    requires gap != "" && Spaces(gap) && Name(key)
    ensures var s := OpenText(kind, gap, key) + s3;
            var t := key + ("}}" + s3);
            && Eat(s, Opener(kind)) == Some(gap + t) && EatSpaces(gap + t) == t != gap + t
            && WordPrefix(t) == key && Eat(t[|key|..], "}}") == Some(s3)
  {
    OpenSplits(kind, gap, key, s3);
    var t := key + ("}}" + s3);
    EatConcat(Opener(kind), gap + t);
    assert t[0] == key[0];
    EatSpacesStops(gap, t);
    assert |gap + t| != |t|;
    WordPrefixStops(key, "}}" + s3);
    assert t[|key|..] == "}}" + s3;
    EatConcat("}}", s3);
  }

  lemma Cut3(a: string, b: string, c: string)
    ensures (a + (b + c))[..|a|] == a && (a + (b + c))[|a| + |b|..] == c
  {
  }

  lemma ContentBeforeCloser(kind: Kind, key: string, content: string, tail: string)
    requires Find(content + (Closer(kind) + tail), Closer(kind)) == Some(|content|)
    ensures MatchContent(kind, key, content + (Closer(kind) + tail)) == Match(tail, key, content)
  {
    Cut3(content, Closer(kind), tail);
  }

  lemma ConditionOnName(kind: Kind, key: string, s3: string)
    requires Name(key) && WordPrefix(key + ("}}" + s3)) == key
    requires Eat((key + ("}}" + s3))[|key|..], "}}") == Some(s3)
    ensures MatchCondition(kind, key + ("}}" + s3)) == MatchContent(kind, key, s3)
  {
  }

  lemma BlockOnOpener(kind: Kind, gap: string, key: string, content: string, tail: string)
    requires gap != "" && Spaces(gap) && Name(key)
    requires Find(content + (Closer(kind) + tail), Closer(kind)) == Some(|content|)
    ensures MatchBlock(kind, OpenText(kind, gap, key) + (content + (Closer(kind) + tail)))
         == Match(tail, key, content)
  {
    var s3 := content + (Closer(kind) + tail);
    BlockHead(kind, gap, key, s3);
    ConditionOnName(kind, key, s3);
    ContentBeforeCloser(kind, key, content, tail);
  }

  // ---------- The lazy search for a closer ----------

  /** `p` does not start inside `a`, when `tail` follows it. */
  ghost predicate Absent(p: string, a: string, tail: string) {
    a == "" || (!(p <= a + tail) && Absent(p, a[1..], tail))
  }

  /** The search passes over all of `a`. */
  ghost predicate Passed(p: string, a: string, tail: string) {
    Find(tail, p).Some? ==> Find(a + tail, p) == Some(|a| + Find(tail, p).value)
  }

  lemma PassedConcat(p: string, a: string, b: string, tail: string)
    requires Passed(p, a, b + tail) && Passed(p, b, tail)
    ensures Passed(p, a + b, tail)
  {
    Regroup(a, b, tail);
  }

  lemma FindStep(p: string, c: char, tail: string)
    requires !(p <= [c] + tail)
    ensures Passed(p, [c], tail)
  {
    assert ([c] + tail)[1..] == tail;
  }

  lemma {:induction false} AbsentPassed(p: string, a: string, tail: string)
    requires Absent(p, a, tail)
    ensures Passed(p, a, tail)
    decreases |a|
  {
    if a == "" {
      assert a + tail == tail;
    } else {
      AbsentPassed(p, a[1..], tail);
      assert a == [a[0]] + a[1..];
      Regroup([a[0]], a[1..], tail);
      FindStep(p, a[0], a[1..] + tail);
      PassedConcat(p, [a[0]], a[1..], tail);
    }
  }

  /** A marker's text does not start inside text without two opening braces in a row. */
  lemma {:induction false} CalmAbsent(p: string, a: string, tail: string)
    requires Calm(a) && "{{" <= p
    ensures Absent(p, a, tail)
    decreases |a|
  {
    if a != "" {
      CalmStart(a, tail);
      PrefixOfPrefix("{{", p, a + tail);
      CalmTail(a);
      CalmAbsent(p, a[1..], tail);
    }
  }

  lemma MarkerAbsent(p: string, m: string, tail: string)
    requires Marker(m) && 4 < |p| && "{{" <= p && (m[2] != p[2] || m[3] != p[3])
    ensures Absent(p, m, tail)
  {
    MarkerCalm(m);
    CalmAbsent(p, m[1..], tail);
    PrefixAt(p, m + tail, 2);
    PrefixAt(p, m + tail, 3);
  }

  lemma {:induction false} AbsentConcat(p: string, a: string, b: string, tail: string)
    requires Absent(p, a, b + tail) && Absent(p, b, tail)
    ensures Absent(p, a + b, tail)
    decreases |a|
  {
    if a == "" {
      assert a + b == b;
    } else {
      assert (a + b)[1..] == a[1..] + b;
      Regroup(a, b, tail);
      AbsentConcat(p, a[1..], b, tail);
    }
  }

  /** A hole of either form does not contain the marks of a block. */
  lemma HoleAbsent(p: string, triple: bool, lead: string, key: string, trail: string, tail: string)
    requires 4 < |p| && "{{" <= p && (p[2] == '#' || p[2] == '/')
    requires Spaces(lead) && Name(key) && Spaces(trail)
    ensures Absent(p, Spelled(triple, lead, key, trail), tail)
  {
    var m := HoleText(lead, key, trail);
    HoleIsMarker(lead, key, trail);
    HoleSplits(lead, key, trail, "");
    if triple {
      MarkerAbsent(p, m, "}" + tail);
      CalmAbsent(p, "}", tail);
      AbsentConcat(p, m, "}", tail);
      BracesSplit(lead, key, trail, tail);
      PrefixAt(p, Braces(m) + tail, 2);
      assert Braces(m)[1..] == m + "}";
    } else {
      MarkerAbsent(p, m, tail);
    }
  }

  lemma CalmPassed(kind: Kind, a: string, tail: string)
    requires Calm(a)
    ensures Passed(Closer(kind), a, tail)
  {
    BlockMarks(kind);
    CalmAbsent(Closer(kind), a, tail);
    AbsentPassed(Closer(kind), a, tail);
  }

  lemma OpenAbsent(p: string, k: Kind, gap: string, key: string, tail: string)
    requires Spaces(gap) && Name(key) && 4 < |p| && "{{" <= p && (p[2] != '#' || p[3] != Opener(k)[3])
    ensures Absent(p, OpenText(k, gap, key), tail)
  {
    OpenIsMarker(k, gap, key);
    OpenSplits(k, gap, key, "");
    assert OpenText(k, gap, key) + "" == OpenText(k, gap, key);
    BlockMarks(k);
    MarkerAbsent(p, OpenText(k, gap, key), tail);
  }

  lemma OpenPassed(kind: Kind, k: Kind, gap: string, key: string, tail: string)
    requires Spaces(gap) && Name(key)
    ensures Passed(Closer(kind), OpenText(k, gap, key), tail)
  {
    BlockMarks(kind);
    OpenAbsent(Closer(kind), k, gap, key, tail);
    AbsentPassed(Closer(kind), OpenText(k, gap, key), tail);
  }

  /** The closer of a kind does not start inside a template without blocks of that kind. */
  lemma {:induction false} CloserAbsent(kind: Kind, body: Template, tail: string)
    requires WellFormed(body) && Lacks(kind, body)
    ensures Absent(Closer(kind), Print(body), tail)
    decreases body
  {
    var p := Closer(kind);
    BlockMarks(kind);
    match body
    case End =>
    case Lit(text, next) =>
      CloserAbsent(kind, next, tail);
      CalmAbsent(p, text, Print(next) + tail);
      AbsentConcat(p, text, Print(next), tail);
    case Hole(triple, lead, key, trail, next) =>
      CloserAbsent(kind, next, tail);
      HoleAbsent(p, triple, lead, key, trail, Print(next) + tail);
      AbsentConcat(p, Spelled(triple, lead, key, trail), Print(next), tail);
    case Cond(k, gap, key, inner, next) =>
      var after := Closer(k) + Print(next);
      CloserAbsent(kind, next, tail);
      BlockMarks(k);
      MarkerAbsent(p, Closer(k), Print(next) + tail);
      AbsentConcat(p, Closer(k), Print(next), tail);
      CloserAbsent(kind, inner, after + tail);
      AbsentConcat(p, Print(inner), after, tail);
      OpenAbsent(p, k, gap, key, Print(inner) + after + tail);
      AbsentConcat(p, OpenText(k, gap, key), Print(inner) + after, tail);
  }

  /** Without blocks of its kind inside, a block's own closer is the first one found. */
  lemma FindOwnCloser(kind: Kind, body: Template, tail: string)
    requires WellFormed(body) && Lacks(kind, body)
    ensures Passed(Closer(kind), Print(body), tail)
  {
    CloserAbsent(kind, body, tail);
    AbsentPassed(Closer(kind), Print(body), tail);
  }

  // ---------- The passes ----------

  /** The pass turns `a` into `b` wherever `tail` follows, and goes on with `tail`. */
  ghost predicate Becomes(rule: Rule, a: string, b: string, tail: string) {
    forall before :: ReplaceAll(rule, before, a + tail) == b + ReplaceAll(rule, before + a, tail)
  }

  lemma BecomesConcat(rule: Rule, a1: string, b1: string, a2: string, b2: string, tail: string)
    requires Becomes(rule, a1, b1, a2 + tail) && Becomes(rule, a2, b2, tail)
    ensures Becomes(rule, a1 + a2, b1 + b2, tail)
  {
    forall before
      ensures ReplaceAll(rule, before, (a1 + a2) + tail) == (b1 + b2) + ReplaceAll(rule, before + (a1 + a2), tail)
    {
      Regroup(a1, a2, tail);
      Regroup(before, a1, a2);
      Regroup(b1, b2, ReplaceAll(rule, before + (a1 + a2), tail));
    }
  }

  lemma Copied(rule: Rule, a: string, tail: string)
    requires Unmatched(rule, a, tail)
    ensures Becomes(rule, a, a, tail)
  {
    forall before ensures ReplaceAll(rule, before, a + tail) == a + ReplaceAll(rule, before + a, tail) {
      CopiesUnmatched(rule, before, a, tail);
    }
  }

  lemma MarkerCopied(rule: Rule, m: string, tail: string)
    requires Braced(rule) && Marker(m) && MatchAt(rule, m + tail).NoMatch?
    ensures Becomes(rule, m, m, tail)
  {
    MarkerUnmatched(rule, m, tail);
    Copied(rule, m, tail);
  }

  lemma Replaced(rule: Rule, a: string, b: string, m: Match, tail: string)
    requires a != "" && MatchAt(rule, a + tail) == m && m.Match? && m.rest == tail
    requires forall before :: Replacement(rule, m, before, a + tail) == b
    ensures Becomes(rule, a, b, tail)
  {
    assert (a + tail)[..|a|] == a;
  }

  predicate NoTripleFits(t: Template, name: string) {
    match t
    case End => true
    case Lit(_, next) => NoTripleFits(next, name)
    case Hole(triple, _, key, _, next) => !(triple && SameName(key, name)) && NoTripleFits(next, name)
    case Cond(_, _, _, body, next) => NoTripleFits(body, name) && NoTripleFits(next, name)
  }

  /** What is asked of a rule before its pass is a transformation. */
  ghost predicate Ready(rule: Rule, t: Template, tail: string) {
    match rule
    case Double(source, shown) =>
      Denoted(source).Some? && Name(Denoted(source).value) && Plain(shown)
    case Triple(source, _) =>
      Denoted(source).Some? && Name(Denoted(source).value) && NoTripleFits(t, Denoted(source).value)
    case Sweep => tail == "" || tail[0] != '}'
    case Block(kind, _) => Unnested(kind, t)
    case _ => false
  }

  /** The transformation that a pass performs. */
  ghost function Passes(rule: Rule, t: Template): Template
    requires Ready(rule, t, "")
  {
    match rule
    case Double(source, shown) => Fill(t, Denoted(source).value, shown)
    case Triple(_, _) => t
    case Sweep => DropHoles(t)
    case Block(kind, vars) => Decide(kind, t, vars)
  }

  /** What a pass makes of a hole. */
  ghost function HoleImage(rule: Rule, triple: bool, lead: string, key: string, trail: string): string
    requires rule.Double? ==> Denoted(rule.source).Some?
  {
    if rule.Sweep? then ""
    else if rule.Double? && SameName(key, Denoted(rule.source).value) then Filling(triple, rule.replacement)
    else Spelled(triple, lead, key, trail)
  }

  lemma DoubleHoleBecomes(rule: Rule, lead: string, key: string, trail: string, tail: string)
    requires Ready(rule, End, tail)
    requires Spaces(lead) && Name(key) && Spaces(trail)
    ensures Becomes(rule, HoleText(lead, key, trail), HoleImage(rule, false, lead, key, trail), tail)
  {
    var m := HoleText(lead, key, trail);
    HoleIsMarker(lead, key, trail);
    HoleSplits(lead, key, trail, tail);
    match rule
    case Double(source, shown) =>
      DoubleOnHole(source, Denoted(source).value, lead, key, trail, tail);
      if SameName(key, Denoted(source).value) {
        var hit := Match(tail, "", "");
        forall before ensures Replacement(rule, hit, before, m + tail) == shown {
          PlainExpandsToItself(shown, (m + tail)[..|m + tail| - |tail|], before, tail);
        }
        Replaced(rule, m, shown, Match(tail, "", ""), tail);
      } else {
        MarkerCopied(rule, m, tail);
      }
    case Triple(source, shown) =>
      TripleNeedsBrace(source, shown, m + tail);
      MarkerCopied(rule, m, tail);
    case Sweep =>
      SweepOnHole(lead, key, trail, tail);
      Replaced(rule, m, "", Match(tail, "", ""), tail);
    case Block(kind, _) =>
      BlockNeedsHash(kind, m + tail);
      MarkerCopied(rule, m, tail);
  }

  lemma FirstBraceUnmatched(rule: Rule, lead: string, key: string, trail: string, tail: string)
    requires Ready(rule, Hole(true, lead, key, trail, End), tail) && !rule.Sweep?
    requires Spaces(lead) && Name(key) && Spaces(trail)
    ensures Unmatched(rule, "{", HoleText(lead, key, trail) + "}" + tail)
  {
    var s := Braces(HoleText(lead, key, trail)) + tail;
    BracesSplit(lead, key, trail, tail);
    match rule {
      case Double(source, _) => NamedNeedsName(source, Denoted(source).value, s);
      case Triple(source, _) => TripleOnHole(source, Denoted(source).value, lead, key, trail, tail);
      case Block(kind, _) => BlockNeedsHash(kind, s);
    }
    assert s == "{" + (HoleText(lead, key, trail) + "}" + tail);
    assert "{"[1..] == "";
  }

  lemma BracesBecome(rule: Rule, a: string, b: string, tail: string)
    requires Braced(rule) && Unmatched(rule, "{", a + "}" + tail) && Becomes(rule, a, b, "}" + tail)
    ensures Becomes(rule, Braces(a), Braces(b), tail)
  {
    CalmUnmatched(rule, "}", tail);
    Copied(rule, "}", tail);
    BecomesConcat(rule, a, b, "}", "}", tail);
    Copied(rule, "{", a + "}" + tail);
    BecomesConcat(rule, "{", "{", a + "}", b + "}", tail);
  }

  /** The double-brace rule finds its match inside a triple hole, and the outer braces stay. */
  lemma TripleHoleBecomes(rule: Rule, lead: string, key: string, trail: string, tail: string)
    requires Ready(rule, Hole(true, lead, key, trail, End), tail)
    requires Spaces(lead) && Name(key) && Spaces(trail)
    ensures Becomes(rule, Braces(HoleText(lead, key, trail)), HoleImage(rule, true, lead, key, trail), tail)
  {
    var m := HoleText(lead, key, trail);
    if rule.Sweep? {
      SweepOnTriple(lead, key, trail, tail);
      Replaced(rule, Braces(m), "", Match(tail, "", ""), tail);
    } else {
      FirstBraceUnmatched(rule, lead, key, trail, tail);
      DoubleHoleBecomes(rule, lead, key, trail, "}" + tail);
      BracesBecome(rule, m, HoleImage(rule, false, lead, key, trail), tail);
    }
  }

  lemma HoleBecomes(rule: Rule, triple: bool, lead: string, key: string, trail: string, tail: string)
    requires Ready(rule, Hole(triple, lead, key, trail, End), tail)
    requires Spaces(lead) && Name(key) && Spaces(trail)
    ensures Becomes(rule, Spelled(triple, lead, key, trail), HoleImage(rule, triple, lead, key, trail), tail)
  {
    if triple {
      TripleHoleBecomes(rule, lead, key, trail, tail);
    } else {
      DoubleHoleBecomes(rule, lead, key, trail, tail);
    }
  }

  /** A marker that starts with `{{#` or `{{/` and is not an opener of the rule's own kind. */
  lemma ForeignMarkerCopied(rule: Rule, m: string, tail: string)
    requires Ready(rule, End, "") && Marker(m) && (m[2] == '#' || m[2] == '/')
    requires rule.Block? ==> m[2] == '/' || m[3] != Opener(rule.kind)[3]
    ensures Becomes(rule, m, m, tail)
  {
    var s := m + tail;
    assert s[2] == m[2] && s[3] == m[3];
    match rule {
      case Double(source, _) => NamedNeedsName(source, Denoted(source).value, s);
      case Triple(source, shown) => TripleNeedsBrace(source, shown, s);
      case Sweep => SweepNeedsWord(s);
      case Block(kind, _) =>
        BlockMarks(kind);
        BlockNeedsHash(kind, s);
    }
    MarkerCopied(rule, m, tail);
  }

  lemma FindAtOnce(p: string, tail: string)
    ensures Find(p + tail, p) == Some(0)
  {
  }

  lemma Regroup4(a: string, b: string, c: string, d: string)
    ensures (a + (b + c)) + d == a + (b + (c + d))
    ensures a + (b + (c + d)) == (a + (b + c)) + d
  {
  }

  lemma OwnBlockBecomes(rule: Rule, gap: string, key: string, body: Template, tail: string)
    requires rule.Block? && gap != "" && Spaces(gap) && Name(key)
    requires WellFormed(body) && Lacks(rule.kind, body)
    ensures Becomes(rule, OpenText(rule.kind, gap, key) + (Print(body) + Closer(rule.kind)),
                    if Truthy(rule.vars, key) == rule.kind.If? then Print(body) else "", tail)
  {
    var open, content, close := OpenText(rule.kind, gap, key), Print(body), Closer(rule.kind);
    FindOwnCloser(rule.kind, body, close + tail);
    FindAtOnce(close, tail);
    BlockOnOpener(rule.kind, gap, key, content, tail);
    Regroup4(open, content, close, tail);
    Replaced(rule, open + (content + close),
             if Truthy(rule.vars, key) == rule.kind.If? then content else "", Match(tail, key, content), tail);
  }

  lemma {:induction false} PrintStart(t: Template, tail: string)
    requires WellFormed(t) && (tail == "" || tail[0] != '}')
    ensures Print(t) + tail == "" || (Print(t) + tail)[0] != '}'
  {
    match t
    case End =>
    case Lit(text, next) => PrintStart(next, tail);
    case Hole(_, _, _, _, _) =>
    case Cond(kind, gap, key, _, _) => BlockMarks(kind);
  }

  lemma Regroup5(a: string, b: string, c: string, d: string, e: string)
    ensures (a + (b + (c + d))) + e == a + (b + (c + (d + e)))
  {
  }

  lemma {:induction false} PrintAppend(a: Template, b: Template)
    ensures Print(Append(a, b)) == Print(a) + Print(b)
  {
    match a
    case End =>
      assert "" + Print(b) == Print(b);
    case Lit(text, next) =>
      PrintAppend(next, b);
      Regroup(text, Print(next), Print(b));
    case Hole(triple, lead, key, trail, next) =>
      PrintAppend(next, b);
      Regroup(Spelled(triple, lead, key, trail), Print(next), Print(b));
    case Cond(kind, gap, key, body, next) =>
      PrintAppend(next, b);
      Regroup5(OpenText(kind, gap, key), Print(body), Closer(kind), Print(next), Print(b));
  }

  lemma LitPass(rule: Rule, t: Template, tail: string)
    requires t.Lit? && WellFormed(t) && Ready(rule, t, tail)
    requires Becomes(rule, Print(t.next), Print(Passes(rule, t.next)), tail)
    ensures Becomes(rule, Print(t), Print(Passes(rule, t)), tail)
  {
    CalmUnmatched(rule, t.text, Print(t.next) + tail);
    Copied(rule, t.text, Print(t.next) + tail);
    BecomesConcat(rule, t.text, t.text, Print(t.next), Print(Passes(rule, t.next)), tail);
  }

  lemma HolePass(rule: Rule, t: Template, tail: string)
    requires t.Hole? && WellFormed(t) && Ready(rule, t, tail)
    requires Becomes(rule, Print(t.next), Print(Passes(rule, t.next)), tail)
    ensures Becomes(rule, Print(t), Print(Passes(rule, t)), tail)
  {
    if rule.Sweep? {
      PrintStart(t.next, tail);
    }
    HoleBecomes(rule, t.triple, t.lead, t.key, t.trail, Print(t.next) + tail);
    BecomesConcat(rule, Spelled(t.triple, t.lead, t.key, t.trail), HoleImage(rule, t.triple, t.lead, t.key, t.trail),
                  Print(t.next), Print(Passes(rule, t.next)), tail);
    assert "" + Print(Passes(rule, t.next)) == Print(Passes(rule, t.next));
  }

  lemma BlockAround(rule: Rule, kind: Kind, gap: string, key: string,
                    body: string, body': string, next: string, next': string, tail: string)
    requires Ready(rule, End, "") && Spaces(gap) && Name(key) && (rule.Block? ==> rule.kind != kind)
    requires Becomes(rule, body, body', Closer(kind) + next + tail) && Becomes(rule, next, next', tail)
    ensures Becomes(rule, OpenText(kind, gap, key) + (body + (Closer(kind) + next)),
                    OpenText(kind, gap, key) + (body' + (Closer(kind) + next')), tail)
  {
    var open, close := OpenText(kind, gap, key), Closer(kind);
    BlockMarks(kind);
    if rule.Block? {
      BlockMarks(rule.kind);
    }
    ForeignMarkerCopied(rule, close, next + tail);
    BecomesConcat(rule, close, close, next, next', tail);
    BecomesConcat(rule, body, body', close + next, close + next', tail);
    OpenIsMarker(kind, gap, key);
    OpenSplits(kind, gap, key, "");
    assert open + "" == open;
    ForeignMarkerCopied(rule, open, body + (close + next) + tail);
    BecomesConcat(rule, open, open, body + (close + next), body' + (close + next'), tail);
  }

  /** Around a block of no concern to the rule both markers are copied. */
  lemma ForeignBlockPass(rule: Rule, t: Template, tail: string)
    requires t.Cond? && WellFormed(t) && Ready(rule, t, tail) && (rule.Block? ==> rule.kind != t.kind)
    requires Becomes(rule, Print(t.body), Print(Passes(rule, t.body)), Closer(t.kind) + Print(t.next) + tail)
    requires Becomes(rule, Print(t.next), Print(Passes(rule, t.next)), tail)
    ensures Becomes(rule, Print(t), Print(Passes(rule, t)), tail)
  {
    BlockAround(rule, t.kind, t.gap, t.key, Print(t.body), Print(Passes(rule, t.body)),
                Print(t.next), Print(Passes(rule, t.next)), tail);
  }

  lemma EmptyBecomesEmpty(rule: Rule, tail: string)
    ensures Becomes(rule, "", "", tail)
  {
    forall before ensures ReplaceAll(rule, before, "" + tail) == "" + ReplaceAll(rule, before + "", tail) {
      assert "" + tail == tail && before + "" == before;
    }
  }

  lemma CloseStarts(kind: Kind, next: string, tail: string)
    ensures (Closer(kind) + next + tail)[0] == '{'
  {
  }

  lemma OwnBlockPass(rule: Rule, t: Template, tail: string)
    requires t.Cond? && rule.Block? && rule.kind == t.kind && WellFormed(t) && Unnested(rule.kind, t)
    requires Becomes(rule, Print(t.next), Print(Decide(rule.kind, t.next, rule.vars)), tail)
    ensures Becomes(rule, Print(t), Print(Decide(rule.kind, t, rule.vars)), tail)
  {
    var rest := Decide(rule.kind, t.next, rule.vars);
    var block := OpenText(t.kind, t.gap, t.key) + (Print(t.body) + Closer(t.kind));
    var kept := if Truthy(rule.vars, t.key) == rule.kind.If? then Print(t.body) else "";
    OwnBlockBecomes(rule, t.gap, t.key, t.body, Print(t.next) + tail);
    BecomesConcat(rule, block, kept, Print(t.next), Print(rest), tail);
    Regroup4(OpenText(t.kind, t.gap, t.key), Print(t.body), Closer(t.kind), Print(t.next));
    PrintAppend(t.body, rest);
    assert "" + Print(rest) == Print(rest);
  }

  lemma {:induction false} PassTransforms(rule: Rule, t: Template, tail: string)
    requires WellFormed(t) && Ready(rule, t, tail)
    ensures Becomes(rule, Print(t), Print(Passes(rule, t)), tail)
    decreases t
  {
    match t
    case End =>
      EmptyBecomesEmpty(rule, tail);
    case Lit(_, next) =>
      PassTransforms(rule, next, tail);
      LitPass(rule, t, tail);
    case Hole(_, _, _, _, next) =>
      PassTransforms(rule, next, tail);
      HolePass(rule, t, tail);
    case Cond(kind, _, _, body, next) =>
      PassTransforms(rule, next, tail);
      if rule.Block? && rule.kind == kind {
        OwnBlockPass(rule, t, tail);
      } else {
        CloseStarts(kind, Print(next), tail);
        PassTransforms(rule, body, Closer(kind) + Print(next) + tail);
        ForeignBlockPass(rule, t, tail);
      }
  }

  /** A whole printed template under one pass. */
  lemma PassOnTemplate(rule: Rule, t: Template)
    requires WellFormed(t) && Ready(rule, t, "")
    ensures Replace(rule, Print(t)) == Print(Passes(rule, t))
  {
    PassTransforms(rule, t, "");
    assert Print(t) + "" == Print(t);
    assert ReplaceAll(rule, "", Print(t) + "") == Print(Passes(rule, t)) + ReplaceAll(rule, "" + Print(t), "");
  }
}
