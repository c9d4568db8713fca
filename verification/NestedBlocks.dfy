/**
 * Blocks nested in blocks of their own kind: an outer block ends at the closer of
 * an inner one, and a closer stays in the text. With this the renderer is
 * correct on exactly the templates that nest no kind in itself.
 */
module NestedBlocks {
  import opened Wrappers
  import opened Characters
  import opened Replacing
  import opened Escaping
  import opened Template
  import opened TemplatePasses
  import opened NotificationTemplate

  // ---------- Counting marks ----------

  /** The number of places where `p` starts in `s`. */
  ghost function Count(p: string, s: string): nat {
    if s == "" then 0 else (if p <= s then 1 else 0) + Count(p, s[1..])
  }

  lemma {:induction false} CountConcat(p: string, a: string, b: string)
    ensures Count(p, a + b) >= Count(p, a) + Count(p, b)
    decreases |a|
  {
    if a == "" {
      assert a + b == b;
    } else {
      assert (a + b)[1..] == a[1..] + b;
      CountConcat(p, a[1..], b);
    }
  }

  lemma CountSuffix(p: string, s: string, i: nat)
    requires i <= |s|
    ensures Count(p, s) >= Count(p, s[i..])
  {
    assert s == s[..i] + s[i..];
    CountConcat(p, s[..i], s[i..]);
  }

  lemma {:induction false} CountAbsent(p: string, a: string, tail: string)
    requires Absent(p, a, tail)
    ensures Count(p, a + tail) == Count(p, tail)
    decreases |a|
  {
    if a == "" {
      assert a + tail == tail;
    } else {
      assert (a + tail)[1..] == a[1..] + tail;
      CountAbsent(p, a[1..], tail);
    }
  }

  lemma CountMarker(p: string, m: string, tail: string)
    requires Marker(m) && "{{" <= p
    ensures Count(p, m + tail) == (if p <= m + tail then 1 else 0) + Count(p, tail)
  {
    MarkerCalm(m);
    CalmAbsent(p, m[1..], tail);
    CountAbsent(p, m[1..], tail);
    assert (m + tail)[1..] == m[1..] + tail;
  }

  lemma CountCloser(kind: Kind, tail: string)
    ensures Count(Closer(kind), Closer(kind) + tail) == 1 + Count(Closer(kind), tail)
  {
    BlockMarks(kind);
    CountMarker(Closer(kind), Closer(kind), tail);
  }

  /** The closer that the lazy search finds is the first. */
  lemma {:induction false} CountFound(p: string, s: string, n: nat)
    requires p != "" && Find(s, p) == Some(n) && Calm(p[1..]) && "{{" <= p
    ensures Count(p, s) == 1 + Count(p, s[n + |p|..])
    decreases |s|
  {
    if p <= s {
      var tail := s[|p|..];
      assert s[1..] == p[1..] + tail;
      CalmAbsent(p, p[1..], tail);
      CountAbsent(p, p[1..], tail);
    } else {
      CountFound(p, s[1..], n - 1);
      assert s[1..][n - 1 + |p|..] == s[n + |p|..];
    }
  }

  // ---------- Marks of a printed template ----------

  function Blocks(kind: Kind, t: Template): nat {
    match t
    case End => 0
    case Lit(_, next) => Blocks(kind, next)
    case Hole(_, _, _, _, next) => Blocks(kind, next)
    case Cond(k, _, _, body, next) => (if k == kind then 1 else 0) + Blocks(kind, body) + Blocks(kind, next)
  }

  /** An opener or a closer of the kind. */
  ghost predicate Mark(p: string, kind: Kind) {
    p == Opener(kind) || p == Closer(kind)
  }

  lemma MarksOfCloser(kind: Kind, p: string, k: Kind, tail: string)
    requires Mark(p, kind)
    ensures Count(p, Closer(k) + tail) == (if p == Closer(k) then 1 else 0) + Count(p, tail)
  {
    BlockMarks(kind);
    BlockMarks(k);
    if p == Closer(k) {
      CountCloser(k, tail);
    } else {
      MarkerAbsent(p, Closer(k), tail);
      CountAbsent(p, Closer(k), tail);
    }
  }

  lemma MarksOfOpener(kind: Kind, p: string, k: Kind, gap: string, key: string, tail: string)
    requires Mark(p, kind) && Spaces(gap) && Name(key)
    ensures Count(p, OpenText(k, gap, key) + tail) == (if p == Opener(k) then 1 else 0) + Count(p, tail)
  {
    BlockMarks(kind);
    BlockMarks(k);
    if p == Opener(k) {
      OpenIsMarker(k, gap, key);
      OpenSplits(k, gap, key, tail);
      CountMarker(p, OpenText(k, gap, key), tail);
    } else {
      OpenAbsent(p, k, gap, key, tail);
      CountAbsent(p, OpenText(k, gap, key), tail);
    }
  }

  lemma MarksOfHole(kind: Kind, p: string, triple: bool, lead: string, key: string, trail: string, tail: string)
    requires Mark(p, kind) && Spaces(lead) && Name(key) && Spaces(trail)
    ensures Count(p, Spelled(triple, lead, key, trail) + tail) == Count(p, tail)
  {
    BlockMarks(kind);
    HoleAbsent(p, triple, lead, key, trail, tail);
    CountAbsent(p, Spelled(triple, lead, key, trail), tail);
  }

  lemma MarksOfText(kind: Kind, p: string, a: string, tail: string)
    requires Mark(p, kind) && Calm(a)
    ensures Count(p, a + tail) == Count(p, tail)
  {
    BlockMarks(kind);
    CalmAbsent(p, a, tail);
    CountAbsent(p, a, tail);
  }

  lemma MarksAround(kind: Kind, p: string, k: Kind, gap: string, key: string, body: string, next: string, tail: string)
    requires Mark(p, kind) && Spaces(gap) && Name(key)
    requires Count(p, body + (Closer(k) + (next + tail))) >= Count(p, Closer(k) + (next + tail))
    ensures Count(p, (OpenText(k, gap, key) + (body + (Closer(k) + next))) + tail)
         == (if k == kind then 1 else 0) + Count(p, next + tail)
            + (Count(p, body + (Closer(k) + (next + tail))) - Count(p, Closer(k) + (next + tail)))
  {
    MarksOfCloser(kind, p, k, next + tail);
    MarksOfOpener(kind, p, k, gap, key, body + (Closer(k) + (next + tail)));
    Regroup5(OpenText(k, gap, key), body, Closer(k), next, tail);
    BlockMarks(k);
    BlockMarks(kind);
  }

  /** A printed template has one opener and one closer for each of its blocks. */
  lemma {:induction false} PrintMarks(kind: Kind, p: string, t: Template, tail: string)
    requires WellFormed(t) && Mark(p, kind)
    ensures Count(p, Print(t) + tail) == Blocks(kind, t) + Count(p, tail)
    decreases t
  {
    match t
    case End =>
      assert "" + tail == tail;
    case Lit(text, next) =>
      PrintMarks(kind, p, next, tail);
      MarksOfText(kind, p, text, Print(next) + tail);
      Regroup(text, Print(next), tail);
    case Hole(triple, lead, key, trail, next) =>
      PrintMarks(kind, p, next, tail);
      MarksOfHole(kind, p, triple, lead, key, trail, Print(next) + tail);
      Regroup(Spelled(triple, lead, key, trail), Print(next), tail);
    case Cond(k, gap, key, body, next) =>
      var after := Closer(k) + (Print(next) + tail);
      PrintMarks(kind, p, next, tail);
      PrintMarks(kind, p, body, after);
      MarksAround(kind, p, k, gap, key, Print(body), Print(next), tail);
  }

  // ---------- An opener before the closer ----------

  /** An opener comes before any closer. */
  ghost predicate Reopened(kind: Kind, s: string) {
    s != "" && (Opener(kind) <= s || (!(Closer(kind) <= s) && Reopened(kind, s[1..])))
  }

  /** After some opener, another one comes before any closer. */
  ghost predicate Crossed(kind: Kind, s: string) {
    s != "" && ((Opener(kind) <= s && Reopened(kind, s[1..])) || Crossed(kind, s[1..]))
  }

  lemma {:induction false} ReopenedAfter(kind: Kind, a: string, s: string)
    requires Absent(Closer(kind), a, s) && Reopened(kind, s)
    ensures Reopened(kind, a + s)
    decreases |a|
  {
    if a == "" {
      assert a + s == s;
    } else {
      assert (a + s)[1..] == a[1..] + s;
      ReopenedAfter(kind, a[1..], s);
    }
  }

  lemma {:induction false} CrossedAfter(kind: Kind, a: string, s: string)
    requires Crossed(kind, s)
    ensures Crossed(kind, a + s)
    decreases |a|
  {
    if a == "" {
      assert a + s == s;
    } else {
      assert (a + s)[1..] == a[1..] + s;
      CrossedAfter(kind, a[1..], s);
    }
  }

  lemma ReopenedAfterCloser(kind: Kind, k: Kind, s: string)
    requires k != kind && Reopened(kind, s)
    ensures Reopened(kind, Closer(k) + s)
  {
    BlockMarks(k);
    BlockMarks(kind);
    MarkerAbsent(Closer(kind), Closer(k), s);
    ReopenedAfter(kind, Closer(k), s);
  }

  lemma {:induction false} OpenerAhead(kind: Kind, t: Template, tail: string)
    requires WellFormed(t) && !Lacks(kind, t)
    ensures Reopened(kind, Print(t) + tail)
    decreases t
  {
    var p := Closer(kind);
    BlockMarks(kind);
    match t
    case Lit(text, next) =>
      OpenerAhead(kind, next, tail);
      CalmAbsent(p, text, Print(next) + tail);
      ReopenedAfter(kind, text, Print(next) + tail);
      Regroup(text, Print(next), tail);
    case Hole(triple, lead, key, trail, next) =>
      OpenerAhead(kind, next, tail);
      HoleAbsent(p, triple, lead, key, trail, Print(next) + tail);
      ReopenedAfter(kind, Spelled(triple, lead, key, trail), Print(next) + tail);
      Regroup(Spelled(triple, lead, key, trail), Print(next), tail);
    case Cond(k, gap, key, body, next) =>
      var after := Closer(k) + (Print(next) + tail);
      Regroup5(OpenText(k, gap, key), Print(body), Closer(k), Print(next), tail);
      if k == kind {
        OpenSplits(k, gap, key, Print(body) + after);
      } else {
        if Lacks(kind, body) {
          OpenerAhead(kind, next, tail);
          ReopenedAfterCloser(kind, k, Print(next) + tail);
          CloserAbsent(kind, body, after);
          ReopenedAfter(kind, Print(body), after);
        } else {
          OpenerAhead(kind, body, after);
        }
        OpenAbsent(p, k, gap, key, Print(body) + after);
        ReopenedAfter(kind, OpenText(k, gap, key), Print(body) + after);
      }
  }

  lemma MarkerThenReopened(kind: Kind, open: string, s: string)
    requires Marker(open) && Opener(kind) <= open + s && Reopened(kind, s)
    ensures Crossed(kind, open + s)
  {
    MarkerCalm(open);
    BlockMarks(kind);
    CalmAbsent(Closer(kind), open[1..], s);
    ReopenedAfter(kind, open[1..], s);
    assert (open + s)[1..] == open[1..] + s;
  }

  lemma OpenerThenReopened(kind: Kind, gap: string, key: string, s: string)
    requires Spaces(gap) && Name(key) && Reopened(kind, s)
    ensures Crossed(kind, OpenText(kind, gap, key) + s)
  {
    OpenIsMarker(kind, gap, key);
    OpenSplits(kind, gap, key, s);
    MarkerThenReopened(kind, OpenText(kind, gap, key), s);
  }

  /** A block nested in one of its own kind is seen in the printed text. */
  lemma {:induction false} NestedCrosses(kind: Kind, t: Template, tail: string)
    requires WellFormed(t) && !Unnested(kind, t)
    ensures Crossed(kind, Print(t) + tail)
    decreases t
  {
    match t
    case Lit(text, next) =>
      NestedCrosses(kind, next, tail);
      CrossedAfter(kind, text, Print(next) + tail);
      Regroup(text, Print(next), tail);
    case Hole(triple, lead, key, trail, next) =>
      NestedCrosses(kind, next, tail);
      CrossedAfter(kind, Spelled(triple, lead, key, trail), Print(next) + tail);
      Regroup(Spelled(triple, lead, key, trail), Print(next), tail);
    case Cond(k, gap, key, body, next) =>
      var open, after := OpenText(k, gap, key), Closer(k) + (Print(next) + tail);
      Regroup5(open, Print(body), Closer(k), Print(next), tail);
      if k == kind && !Lacks(kind, body) {
        OpenerAhead(kind, body, after);
        OpenerThenReopened(kind, gap, key, Print(body) + after);
      } else if k != kind && !Unnested(kind, body) {
        NestedCrosses(kind, body, after);
        CrossedAfter(kind, open, Print(body) + after);
      } else {
        NestedCrosses(kind, next, tail);
        CrossedAfter(kind, Closer(k), Print(next) + tail);
        CrossedAfter(kind, Print(body), after);
        CrossedAfter(kind, open, Print(body) + after);
      }
  }

  // ---------- Matches of a pass ----------

  /** How many matches a pass makes. */
  ghost function Matches(rule: Rule, s: string): nat
    decreases |s|
  {
    if s == "" then 0
    else match MatchAt(rule, s)
      case NoMatch => Matches(rule, s[1..])
      case Match(rest, _, _) => 1 + Matches(rule, rest)
  }

  lemma {:induction false} MatchesUnmatched(rule: Rule, a: string, tail: string)
    requires Unmatched(rule, a, tail)
    ensures Matches(rule, a + tail) == Matches(rule, tail)
    decreases |a|
  {
    if a == "" {
      assert a + tail == tail;
    } else {
      assert (a + tail)[1..] == a[1..] + tail;
      MatchesUnmatched(rule, a[1..], tail);
    }
  }

  lemma {:induction false} EatSpacesParts(s: string) returns (gap: string)
    ensures Spaces(gap) && s == gap + EatSpaces(s)
  {
    gap := "";
    if s != "" && IsSpace(s[0]) {
      var rest := EatSpacesParts(s[1..]);
      gap := [s[0]] + rest;
      SpacesConcat([s[0]], rest);
    }
  }

  lemma {:induction false} WordPrefixIsWord(s: string)
    ensures forall i | 0 <= i < |WordPrefix(s)| :: IsWord(WordPrefix(s)[i])
  {
    if s != "" && IsWord(s[0]) {
      WordPrefixIsWord(s[1..]);
    }
  }

  lemma {:induction false} FindIsThere(s: string, p: string)
    requires Find(s, p).Some?
    ensures p <= s[Find(s, p).value..]
  {
    if !(p <= s) {
      FindIsThere(s[1..], p);
      var n := Find(s[1..], p).value;
      assert s[1..][n..] == s[n + 1..];
    }
  }

  lemma SplitAt(s: string, p: string, n: nat)
    requires n <= |s| && p <= s[n..]
    ensures n + |p| <= |s| && s == s[..n] + (p + s[n + |p|..])
  {
    assert s[n..] == p + s[n..][|p|..];
  }

  lemma ContentParts(kind: Kind, name: string, s: string)
    requires MatchContent(kind, name, s).Match?
    ensures var m := MatchContent(kind, name, s);
            s == m.content + (Closer(kind) + m.rest) && m.name == name && Find(s, Closer(kind)) == Some(|m.content|)
  {
    FindIsThere(s, Closer(kind));
    SplitAt(s, Closer(kind), Find(s, Closer(kind)).value);
  }

  lemma ConditionSplits(kind: Kind, s: string) returns (r: string)
    requires MatchCondition(kind, s).Match?
    ensures var w := WordPrefix(s);
            Name(w) && s == w + ("}}" + r) && MatchCondition(kind, s) == MatchContent(kind, w, r)
  {
    var w := WordPrefix(s);
    WordPrefixIsWord(s);
    r := Eat(s[|w|..], "}}").value;
    assert s == w + s[|w|..];
  }

  lemma ConditionParts(kind: Kind, s: string)
    requires MatchCondition(kind, s).Match?
    ensures var m := MatchCondition(kind, s);
            && Name(m.name) && s == m.name + ("}}" + (m.content + (Closer(kind) + m.rest)))
            && Find(m.content + (Closer(kind) + m.rest), Closer(kind)) == Some(|m.content|)
  {
    var r := ConditionSplits(kind, s);
    ContentParts(kind, WordPrefix(s), r);
  }

  /** An opening marker of the kind, up to the first closer after it and what follows. */
  ghost predicate Parts(kind: Kind, open: string, content: string, rest: string) {
    && Marker(open) && Opener(kind) <= open
    && Find(content + (Closer(kind) + rest), Closer(kind)) == Some(|content|)
  }

  ghost function Whole(kind: Kind, open: string, content: string, rest: string): string {
    open + (content + (Closer(kind) + rest))
  }

  /** Every match of a pass over blocks has the form that printing gives a block. */
  lemma BlockParts(kind: Kind, s: string, m: Match) returns (open: string)
    requires MatchBlock(kind, s) == m && m.Match?
    ensures Parts(kind, open, m.content, m.rest) && s == Whole(kind, open, m.content, m.rest)
  {
    var r := Eat(s, Opener(kind)).value;
    var gap := EatSpacesParts(r);
    ConditionParts(kind, EatSpaces(r));
    OpenSplits(kind, gap, m.name, m.content + (Closer(kind) + m.rest));
    OpenIsMarker(kind, gap, m.name);
    open := OpenText(kind, gap, m.name);
  }

  lemma WholeTail(kind: Kind, open: string, content: string, rest: string)
    requires open != ""
    ensures var s := Whole(kind, open, content, rest);
            && s != "" && s[1..] == open[1..] + (content + (Closer(kind) + rest))
            && |s[1..]| >= |rest| && s[1..][|s[1..]| - |rest|..] == rest
  {
  }

  // ---------- Fewer matches than blocks ----------

  lemma {:induction false} ReopenedCounts(kind: Kind, s: string, n: nat)
    requires Reopened(kind, s) && Find(s, Closer(kind)) == Some(n)
    ensures Count(Opener(kind), s) >= 1 + Count(Opener(kind), s[n + |Closer(kind)|..])
    decreases |s|
  {
    var p, e := Closer(kind), n + |Closer(kind)|;
    assert s[1..][e - 1..] == s[e..];
    if Opener(kind) <= s {
      CountSuffix(Opener(kind), s[1..], e - 1);
    } else {
      ReopenedCounts(kind, s[1..], n - 1);
    }
  }

  lemma {:induction false} CrossedSuffix(kind: Kind, s: string, i: nat)
    requires Crossed(kind, s) && i <= |s|
    ensures Count(Opener(kind), s) > Count(Opener(kind), s[i..]) || Crossed(kind, s[i..])
    decreases i
  {
    if i == 0 {
      assert s[i..] == s;
    } else {
      assert s[1..][i - 1..] == s[i..];
      CountSuffix(Opener(kind), s[1..], i - 1);
      if !(Opener(kind) <= s) {
        CrossedSuffix(kind, s[1..], i - 1);
      }
    }
  }

  lemma FindInWhole(kind: Kind, open: string, content: string, rest: string)
    requires Parts(kind, open, content, rest)
    ensures var s, n := Whole(kind, open, content, rest), |open[1..]| + |content|;
            s != "" && Find(s[1..], Closer(kind)) == Some(n) && n + |Closer(kind)| == |s[1..]| - |rest|
  {
    WholeTail(kind, open, content, rest);
    MarkerCalm(open);
    CalmPassed(kind, open[1..], content + (Closer(kind) + rest));
  }

  /** Up to the first closer there is a second opener, or the crossing is in the rest. */
  lemma CrossedTail(kind: Kind, s: string, n: nat)
    requires s != "" && Crossed(kind, s) && Find(s[1..], Closer(kind)) == Some(n)
    ensures var rest := s[1..][n + |Closer(kind)|..];
            Count(Opener(kind), s[1..]) > Count(Opener(kind), rest) || Crossed(kind, rest)
  {
    if Reopened(kind, s[1..]) {
      ReopenedCounts(kind, s[1..], n);
    } else {
      CrossedSuffix(kind, s[1..], n + |Closer(kind)|);
    }
  }

  /** A block that crosses swallows a second opener. */
  lemma CrossedFound(kind: Kind, s: string, n: nat, rest: string)
    requires s != "" && Crossed(kind, s) && Find(s[1..], Closer(kind)) == Some(n)
    requires s[1..][n + |Closer(kind)|..] == rest
    ensures Crossed(kind, rest) || Count(Opener(kind), s[1..]) > Count(Opener(kind), rest)
  {
    CrossedTail(kind, s, n);
  }

  lemma CrossedWhole(kind: Kind, open: string, content: string, rest: string)
    requires Parts(kind, open, content, rest) && Crossed(kind, Whole(kind, open, content, rest))
    ensures Crossed(kind, rest)
            || Count(Opener(kind), Whole(kind, open, content, rest)[1..]) > Count(Opener(kind), rest)
  {
    WholeTail(kind, open, content, rest);
    FindInWhole(kind, open, content, rest);
    CrossedFound(kind, Whole(kind, open, content, rest), |open[1..]| + |content|, rest);
  }

  lemma CrossedMatch(kind: Kind, s: string, m: Match)
    requires s != "" && MatchBlock(kind, s) == m && m.Match? && Crossed(kind, s)
    ensures Count(Opener(kind), s[1..]) > Count(Opener(kind), m.rest) || Crossed(kind, m.rest)
  {
    var open := BlockParts(kind, s, m);
    CrossedWhole(kind, open, m.content, m.rest);
  }

  lemma SuffixOfWhole(kind: Kind, open: string, content: string, rest: string)
    requires Parts(kind, open, content, rest)
    ensures var s := Whole(kind, open, content, rest);
            s != "" && Count(Opener(kind), s[1..]) >= Count(Opener(kind), rest)
  {
    var s := Whole(kind, open, content, rest);
    WholeTail(kind, open, content, rest);
    CountSuffix(Opener(kind), s[1..], |s[1..]| - |rest|);
  }

  lemma SuffixOfMatch(kind: Kind, s: string, m: Match)
    requires s != "" && MatchBlock(kind, s) == m && m.Match?
    ensures Opener(kind) <= s && Count(Opener(kind), s[1..]) >= Count(Opener(kind), m.rest)
  {
    var open := BlockParts(kind, s, m);
    SuffixOfWhole(kind, open, m.content, m.rest);
  }

  /** Every match takes an opener; one that swallows another leaves fewer matches than openers. */
  lemma {:induction false} MatchesBounded(rule: Rule, s: string)
    requires rule.Block?
    ensures Matches(rule, s) <= Count(Opener(rule.kind), s)
    ensures Crossed(rule.kind, s) ==> Matches(rule, s) < Count(Opener(rule.kind), s)
    decreases |s|
  {
    if s != "" {
      var m := MatchBlock(rule.kind, s);
      if m.NoMatch? {
        MatchesBounded(rule, s[1..]);
      } else {
        MatchesBounded(rule, m.rest);
        SuffixOfMatch(rule.kind, s, m);
        if Crossed(rule.kind, s) {
          CrossedMatch(rule.kind, s, m);
        }
      }
    }
  }

  // ---------- A pass takes one closer a match ----------

  lemma ClosersInWhole(kind: Kind, open: string, content: string, rest: string)
    requires Parts(kind, open, content, rest)
    ensures Count(Closer(kind), Whole(kind, open, content, rest)) == 1 + Count(Closer(kind), rest)
  {
    var p, after := Closer(kind), content + (Closer(kind) + rest);
    BlockMarks(kind);
    MarkerCalm(p);
    CountFound(p, after, |content|);
    Cut3(content, p, rest);
    assert open[2] == '#';
    MarkerAbsent(p, open, after);
    CountAbsent(p, open, after);
  }

  lemma ClosersInMatch(kind: Kind, s: string, m: Match)
    requires MatchBlock(kind, s) == m && m.Match?
    ensures Count(Closer(kind), s) == 1 + Count(Closer(kind), m.rest)
  {
    var open := BlockParts(kind, s, m);
    ClosersInWhole(kind, open, m.content, m.rest);
  }

  lemma CloserCopied(rule: Rule, kind: Kind, before: string, tail: string)
    requires rule.Block?
    ensures ReplaceAll(rule, before, Closer(kind) + tail)
         == Closer(kind) + ReplaceAll(rule, before + Closer(kind), tail)
    ensures Matches(rule, Closer(kind) + tail) == Matches(rule, tail)
  {
    BlockMarks(kind);
    BlockNeedsHash(rule.kind, Closer(kind) + tail);
    MarkerUnmatched(rule, Closer(kind), tail);
    CopiesUnmatched(rule, before, Closer(kind), tail);
    MatchesUnmatched(rule, Closer(kind), tail);
  }

  lemma CloserStays(rule: Rule, before: string, tail: string)
    requires rule.Block?
    requires var p := Closer(rule.kind);
             Count(p, ReplaceAll(rule, before + p, tail)) + Matches(rule, tail) >= Count(p, tail)
    ensures var p := Closer(rule.kind);
            Count(p, ReplaceAll(rule, before, p + tail)) + Matches(rule, p + tail) >= Count(p, p + tail)
  {
    var p := Closer(rule.kind);
    CloserCopied(rule, rule.kind, before, tail);
    CountCloser(rule.kind, tail);
    CountCloser(rule.kind, ReplaceAll(rule, before + p, tail));
  }

  lemma MatchTakesOne(rule: Rule, before: string, s: string, m: Match)
    requires rule.Block? && s != "" && MatchAt(rule, s) == m && m.Match?
    requires var p, b := Closer(rule.kind), before + s[..|s| - |m.rest|];
             Count(p, ReplaceAll(rule, b, m.rest)) + Matches(rule, m.rest) >= Count(p, m.rest)
    ensures var p := Closer(rule.kind);
            Count(p, ReplaceAll(rule, before, s)) + Matches(rule, s) >= Count(p, s)
  {
    var b := before + s[..|s| - |m.rest|];
    ClosersInMatch(rule.kind, s, m);
    BlockReplaced(rule, before, s, m);
    CountConcat(Closer(rule.kind), Kept(rule, m), ReplaceAll(rule, b, m.rest));
  }

  lemma {:induction false} ClosersLeft(rule: Rule, before: string, s: string)
    requires rule.Block?
    ensures Count(Closer(rule.kind), ReplaceAll(rule, before, s)) + Matches(rule, s) >= Count(Closer(rule.kind), s)
    decreases |s|
  {
    var p := Closer(rule.kind);
    if p <= s {
      var tail := s[|p|..];
      assert s == p + tail;
      ClosersLeft(rule, before + p, tail);
      CloserStays(rule, before, tail);
    } else if s != "" {
      var m := MatchBlock(rule.kind, s);
      if m.NoMatch? {
        ClosersLeft(rule, before + [s[0]], s[1..]);
        CountConcat(p, [s[0]], ReplaceAll(rule, before + [s[0]], s[1..]));
      } else {
        ClosersLeft(rule, before + s[..|s| - |m.rest|], m.rest);
        MatchTakesOne(rule, before, s, m);
      }
    }
  }

  /**
   * Whatever the variables are, the pass of a kind over a template that nests
   * this kind in itself leaves a closer of the kind in the text.
   */
  lemma NestingLeavesCloser(kind: Kind, t: Template, vars: Bindings)
    requires WellFormed(t) && !Unnested(kind, t)
    ensures Count(Closer(kind), Replace(Block(kind, vars), Print(t))) > 0
  {
    var rule := Block(kind, vars);
    assert Print(t) + "" == Print(t);
    NestedCrosses(kind, t, "");
    MatchesBounded(rule, Print(t));
    PrintMarks(kind, Opener(kind), t, "");
    PrintMarks(kind, Closer(kind), t, "");
    ClosersLeft(rule, "", Print(t));
  }

  // ---------- The other pass ----------

  lemma EndsInside(p: string, u: string, q: string, rest: string)
    requires u != "" && 4 < |p| && p[..2] == "{{" && forall i | 2 <= i < |p| :: p[i] != '{'
    requires Marker(q)
    ensures p <= u + (q + rest) ==> p <= u
  {
    var s := u + (q + rest);
    assert s[|u|] == '{' && s[|u| + 1] == '{';
    if |u| < |p| {
      PrefixAt(p, s, |u|);
      if |u| == 1 {
        PrefixAt(p, s, 2);
      }
    }
  }

  /** A closer that starts in `u` before another kind's closer ends there too. */
  lemma {:induction false} NoStraddle(p: string, u: string, q: string, rest: string)
    requires 4 < |p| && p[..2] == "{{" && p[2] != '{' && forall i | 2 <= i < |p| :: p[i] != '{'
    requires Marker(q) && (q[2] != p[2] || q[3] != p[3])
    ensures Count(p, u + (q + rest)) <= Count(p, u) + Count(p, rest)
    decreases |u|
  {
    if u == "" {
      assert u + (q + rest) == q + rest;
      MarkerAbsent(p, q, rest);
      CountAbsent(p, q, rest);
    } else {
      assert (u + (q + rest))[1..] == u[1..] + (q + rest);
      NoStraddle(p, u[1..], q, rest);
      EndsInside(p, u, q, rest);
    }
  }

  lemma OtherClosersInWhole(kind: Kind, other: Kind, open: string, content: string, rest: string)
    requires Parts(kind, open, content, rest) && other != kind
    ensures Count(Closer(other), Whole(kind, open, content, rest))
         <= Count(Closer(other), content) + Count(Closer(other), rest)
  {
    var p, after := Closer(other), content + (Closer(kind) + rest);
    BlockMarks(kind);
    BlockMarks(other);
    NoStraddle(p, content, Closer(kind), rest);
    assert open[2] == '#';
    MarkerAbsent(p, open, after);
    CountAbsent(p, open, after);
  }

  /** A pass that drops no content. */
  ghost predicate Keeping(rule: Rule) {
    rule.Block? && forall name :: Truthy(rule.vars, name) == rule.kind.If?
  }

  lemma OtherCloserStays(rule: Rule, other: Kind, before: string, tail: string)
    requires rule.Block?
    requires Count(Closer(other), ReplaceAll(rule, before + Closer(other), tail)) >= Count(Closer(other), tail)
    ensures Count(Closer(other), ReplaceAll(rule, before, Closer(other) + tail))
         >= Count(Closer(other), Closer(other) + tail)
  {
    CloserCopied(rule, other, before, tail);
    CountCloser(other, tail);
    CountCloser(other, ReplaceAll(rule, before + Closer(other), tail));
  }

  lemma KeptInMatch(rule: Rule, other: Kind, before: string, s: string, m: Match)
    requires Keeping(rule) && other != rule.kind && s != "" && MatchAt(rule, s) == m && m.Match?
    requires Count(Closer(other), ReplaceAll(rule, before + s[..|s| - |m.rest|], m.rest))
          >= Count(Closer(other), m.rest)
    ensures Count(Closer(other), ReplaceAll(rule, before, s)) >= Count(Closer(other), s)
  {
    var open := BlockParts(rule.kind, s, m);
    OtherClosersInWhole(rule.kind, other, open, m.content, m.rest);
    BlockReplaced(rule, before, s, m);
    CountConcat(Closer(other), m.content, ReplaceAll(rule, before + s[..|s| - |m.rest|], m.rest));
  }

  /** A pass that drops no content leaves the closers of the other kind. */
  lemma {:induction false} KeptClosers(rule: Rule, other: Kind, before: string, s: string)
    requires Keeping(rule) && other != rule.kind
    ensures Count(Closer(other), ReplaceAll(rule, before, s)) >= Count(Closer(other), s)
    decreases |s|
  {
    var p := Closer(other);
    if p <= s {
      var tail := s[|p|..];
      assert s == p + tail;
      KeptClosers(rule, other, before + p, tail);
      OtherCloserStays(rule, other, before, tail);
    } else if s != "" {
      var m := MatchBlock(rule.kind, s);
      if m.NoMatch? {
        KeptClosers(rule, other, before + [s[0]], s[1..]);
        CountConcat(p, [s[0]], ReplaceAll(rule, before + [s[0]], s[1..]));
      } else {
        KeptClosers(rule, other, before + s[..|s| - |m.rest|], m.rest);
        KeptInMatch(rule, other, before, s, m);
      }
    }
  }

  // ---------- Evaluation prints no closer ----------

  lemma ValueHasNoCloser(kind: Kind, t: Template, vars: Bindings, config: Config, tail: string)
    requires t.Hole? && WellFormed(t) && Suits(vars, t, config)
    ensures Count(Closer(kind), HoleValue(t.triple, t.lead, t.key, t.trail, vars, config) + tail)
         == Count(Closer(kind), tail)
  {
    if FirstFit(vars, t.key).Some? {
      FillingInert(vars, t, config);
      MarksOfText(kind, Closer(kind), Filling(t.triple, Shown(FirstFit(vars, t.key).value, config)), tail);
    } else {
      MarksOfHole(kind, Closer(kind), t.triple, t.lead, t.key, t.trail, tail);
      assert "" + tail == tail;
    }
  }

  lemma {:induction false} EvalHasNoCloser(kind: Kind, t: Template, vars: Bindings, config: Config, tail: string)
    requires WellFormed(t) && Suits(vars, t, config)
    ensures Count(Closer(kind), Eval(t, vars, config) + tail) == Count(Closer(kind), tail)
    decreases t
  {
    match t
    case End =>
      assert "" + tail == tail;
    case Lit(text, next) =>
      EvalHasNoCloser(kind, next, vars, config, tail);
      MarksOfText(kind, Closer(kind), text, Eval(next, vars, config) + tail);
      Regroup(text, Eval(next, vars, config), tail);
    case Hole(triple, lead, key, trail, next) =>
      EvalHasNoCloser(kind, next, vars, config, tail);
      ValueHasNoCloser(kind, t, vars, config, Eval(next, vars, config) + tail);
      Regroup(HoleValue(triple, lead, key, trail, vars, config), Eval(next, vars, config), tail);
    case Cond(k, _, key, body, next) =>
      var kept := if Truthy(vars, key) == k.If? then Eval(body, vars, config) else "";
      EvalHasNoCloser(kind, next, vars, config, tail);
      EvalHasNoCloser(kind, body, vars, config, Eval(next, vars, config) + tail);
      assert "" + (Eval(next, vars, config) + tail) == Eval(next, vars, config) + tail;
      Regroup(kept, Eval(next, vars, config), tail);
  }

  // ---------- Outer whitespace ----------

  lemma {:induction false} CountBeforeSpace(kind: Kind, s: string, w: string)
    requires Spaces(w)
    ensures Count(Closer(kind), s + w) == Count(Closer(kind), s)
    decreases |s|
  {
    if s == "" {
      assert s + w == w == w + "";
      MarksOfText(kind, Closer(kind), w, "");
    } else {
      MarksHaveNoSpace(kind);
      EatBeforeSpace(s, w, Closer(kind));
      assert (s + w)[1..] == s[1..] + w;
      CountBeforeSpace(kind, s[1..], w);
    }
  }

  lemma CountAroundSpace(kind: Kind, lead: string, s: string, trail: string)
    requires Spaces(lead) && Spaces(trail)
    ensures Count(Closer(kind), lead + s + trail) == Count(Closer(kind), s)
  {
    CountBeforeSpace(kind, lead + s, trail);
    MarksOfText(kind, Closer(kind), lead, s);
  }

  lemma TrimKeepsCount(kind: Kind, s: string)
    ensures Count(Closer(kind), Trim(s)) == Count(Closer(kind), s)
  {
    var lead, trail := TrimSplits(s);
    CountAroundSpace(kind, lead, Trim(s), trail);
  }

  // ---------- When rendering is evaluation ----------

  /** The renderer prints what the template means. */
  ghost predicate AsIntended(t: Template, vars: Bindings, config: Config) {
    Rendered(Print(t), vars, config) == Trim(Eval(t, vars, config))
  }

  /** A closer that the passes leave shows in the result, and evaluation prints none. */
  lemma CloserShows(kind: Kind, t: Template, vars: Bindings, config: Config)
    requires WellFormed(t) && Suits(vars, t, config)
    requires Count(Closer(kind), Conditioned(Print(Prepared(t, vars, config)), vars)) > 0
    ensures !AsIntended(t, vars, config)
  {
    var s := Print(Prepared(t, vars, config));
    var out := Conditioned(Trim(s), vars);
    InterpolationMeaning(t, vars, config);
    var lead, trail := TrimSplits(s);
    ConditionedAroundSpace(lead, Trim(s), trail, vars);
    CountAroundSpace(kind, lead, out, trail);
    TrimKeepsCount(kind, out);
    var value := Eval(t, vars, config);
    EvalHasNoCloser(kind, t, vars, config, "");
    assert value + "" == value;
    TrimKeepsCount(kind, value);
  }

  /** A nested if shows without any variables. */
  lemma NestedIfShows(t: Template, config: Config)
    requires WellFormed(t) && !Unnested(If, t)
    ensures Object([]) && Suits([], t, config) && !AsIntended(t, [], config)
  {
    var u := Prepared(t, [], config);
    PreparedKeeps(t, [], config);
    NestingLeavesCloser(If, u, []);
    KeptClosers(Block(Unless, []), If, "", Replace(Block(If, []), Print(u)));
    CloserShows(If, t, [], config);
  }

  const YES := Present("x", true)

  /** `vars` with a truthy value for the condition of every block. */
  function AllTruthy(t: Template, vars: Bindings): Bindings {
    match t
    case End => vars
    case Lit(_, next) => AllTruthy(next, vars)
    case Hole(_, _, _, _, next) => AllTruthy(next, vars)
    case Cond(_, _, key, body, next) => AllTruthy(next, AllTruthy(body, Put(vars, (key, YES))))
  }

  /** An object whose properties have word names and all are YES. */
  ghost predicate Yeses(vars: Bindings) {
    Object(vars) && forall b <- vars :: Name(b.0) && b.1 == YES
  }

  lemma {:induction false} PutMembers(vars: Bindings, b: (string, Value), x: (string, Value))
    ensures x in Put(vars, b) ==> x == b || x in vars
    ensures x == b ==> x in Put(vars, b)
    ensures x in vars && x.0 != b.0 ==> x in Put(vars, b)
  {
    if vars != [] {
      assert vars == [vars[0]] + vars[1..];
      PutMembers(vars[1..], b, x);
    }
  }

  lemma {:induction false} PutObject(vars: Bindings, b: (string, Value))
    requires Object(vars)
    ensures Object(Put(vars, b))
  {
    if vars != [] && vars[0].0 != b.0 {
      var rest := vars[1..];
      PutObject(rest, b);
      forall x | x in Put(rest, b) ensures x.0 != vars[0].0 {
        PutMembers(rest, b, x);
      }
      assert forall j | 0 <= j < |Put(rest, b)| :: Put(rest, b)[j] in Put(rest, b);
    }
  }

  lemma PutYes(vars: Bindings, name: string)
    requires Yeses(vars) && Name(name)
    ensures Yeses(Put(vars, (name, YES))) && (name, YES) in Put(vars, (name, YES))
    ensures forall b <- vars :: b in Put(vars, (name, YES))
  {
    PutObject(vars, (name, YES));
    forall x ensures x in Put(vars, (name, YES)) <==> x == (name, YES) || x in vars {
      PutMembers(vars, (name, YES), x);
    }
  }

  ghost predicate AllHold(t: Template, vars: Bindings) {
    match t
    case End => true
    case Lit(_, next) => AllHold(next, vars)
    case Hole(_, _, _, _, next) => AllHold(next, vars)
    case Cond(_, _, key, body, next) => Truthy(vars, key) && AllHold(body, vars) && AllHold(next, vars)
  }

  lemma {:induction false} LookupYes(vars: Bindings, name: string)
    requires (name, YES) in vars && forall b <- vars :: b.1 == YES
    ensures Truthy(vars, name)
  {
    if vars[0].0 != name {
      LookupYes(vars[1..], name);
    }
  }

  ghost predicate AllNamed(t: Template, vars: Bindings) {
    match t
    case End => true
    case Lit(_, next) => AllNamed(next, vars)
    case Hole(_, _, _, _, next) => AllNamed(next, vars)
    case Cond(_, _, key, body, next) => (key, YES) in vars && AllNamed(body, vars) && AllNamed(next, vars)
  }

  lemma {:induction false} MoreNamed(t: Template, vars: Bindings, more: Bindings)
    requires AllNamed(t, vars) && forall b <- vars :: b in more
    ensures AllNamed(t, more)
  {
    match t
    case End =>
    case Lit(_, next) => MoreNamed(next, vars, more);
    case Hole(_, _, _, _, next) => MoreNamed(next, vars, more);
    case Cond(_, _, _, body, next) =>
      MoreNamed(body, vars, more);
      MoreNamed(next, vars, more);
  }

  lemma {:induction false} AllTruthyNames(t: Template, vars: Bindings)
    requires WellFormed(t) && Yeses(vars)
    ensures var all := AllTruthy(t, vars); Yeses(all) && AllNamed(t, all) && forall b <- vars :: b in all
  {
    match t
    case End =>
    case Lit(_, next) => AllTruthyNames(next, vars);
    case Hole(_, _, _, _, next) => AllTruthyNames(next, vars);
    case Cond(_, _, key, body, next) =>
      var here := Put(vars, (key, YES));
      var inner := AllTruthy(body, here);
      PutYes(vars, key);
      AllTruthyNames(body, here);
      AllTruthyNames(next, inner);
      MoreNamed(body, inner, AllTruthy(next, inner));
  }

  lemma {:induction false} NamedHold(t: Template, vars: Bindings)
    requires Yeses(vars) && AllNamed(t, vars)
    ensures AllHold(t, vars)
  {
    match t
    case End =>
    case Lit(_, next) => NamedHold(next, vars);
    case Hole(_, _, _, _, next) => NamedHold(next, vars);
    case Cond(_, _, key, body, next) =>
      LookupYes(vars, key);
      NamedHold(body, vars);
      NamedHold(next, vars);
  }

  lemma YesesSuit(vars: Bindings, t: Template, config: Config)
    requires Yeses(vars)
    ensures Suits(vars, t, config)
  {
    assert EscapeHtml("x") == "x" + EscapeHtml("") == "x";
  }

  lemma AllTruthySuits(t: Template, config: Config)
    requires WellFormed(t)
    ensures var vars := AllTruthy(t, []); Object(vars) && Suits(vars, t, config) && AllHold(t, vars)
  {
    AllTruthyNames(t, []);
    YesesSuit(AllTruthy(t, []), t, config);
    NamedHold(t, AllTruthy(t, []));
  }

  lemma {:induction false} PreparedHolds(t: Template, vars: Bindings, all: Bindings, config: Config)
    requires AllHold(t, all)
    ensures AllHold(Prepared(t, vars, config), all)
  {
    match t
    case End =>
    case Lit(_, next) => PreparedHolds(next, vars, all, config);
    case Hole(_, _, _, _, next) => PreparedHolds(next, vars, all, config);
    case Cond(_, _, _, body, next) =>
      PreparedHolds(body, vars, all, config);
      PreparedHolds(next, vars, all, config);
  }

  /** When every condition holds, deciding the ifs drops nothing. */
  lemma {:induction false} DecideIfKeepsNesting(t: Template, vars: Bindings)
    requires AllHold(t, vars)
    ensures Lacks(Unless, Decide(If, t, vars)) <==> Lacks(Unless, t)
    ensures Unnested(If, t) ==> (Unnested(Unless, Decide(If, t, vars)) <==> Unnested(Unless, t))
  {
    match t
    case End =>
    case Lit(_, next) => DecideIfKeepsNesting(next, vars);
    case Hole(_, _, _, _, next) => DecideIfKeepsNesting(next, vars);
    case Cond(_, _, _, body, next) =>
      DecideIfKeepsNesting(body, vars);
      DecideIfKeepsNesting(next, vars);
      AppendKeeps(body, Decide(If, next, vars));
  }

  /** A nested unless shows when every condition holds, so that the if pass drops nothing. */
  lemma NestedUnlessShows(t: Template, config: Config)
    requires WellFormed(t) && Unnested(If, t) && !Unnested(Unless, t)
    ensures var vars := AllTruthy(t, []); Object(vars) && Suits(vars, t, config) && !AsIntended(t, vars, config)
  {
    var vars := AllTruthy(t, []);
    AllTruthySuits(t, config);
    var u := Prepared(t, vars, config);
    PreparedKeeps(t, vars, config);
    PassOnTemplate(Block(If, vars), u);
    DecideKeeps(If, u, vars);
    PreparedHolds(t, vars, vars, config);
    DecideIfKeepsNesting(u, vars);
    NestingLeavesCloser(Unless, Decide(If, u, vars), vars);
    CloserShows(Unless, t, vars, config);
  }

  /**
   * A template is rendered as intended for all variables that can be filled into
   * it exactly when it nests neither kind of block in itself.
   */
  lemma RendersAsIntendedIff(t: Template, config: Config)
    requires WellFormed(t)
    ensures (forall vars | Object(vars) && Suits(vars, t, config) :: AsIntended(t, vars, config))
       <==> Unnested(If, t) && Unnested(Unless, t)
  {
    if !Unnested(If, t) {
      NestedIfShows(t, config);
    } else if !Unnested(Unless, t) {
      NestedUnlessShows(t, config);
    } else {
      forall vars | Object(vars) && Suits(vars, t, config) ensures AsIntended(t, vars, config) {
        RenderingIsEvaluation(t, vars, config);
      }
    }
  }

  // ---------- One if in another ----------

  function NestedIf(a: string, b: string, inner: string, outer: string): Template {
    Cond(If, " ", a, Cond(If, " ", b, Lit(inner, End), Lit(outer, End)), End)
  }

  lemma InnerCloserIsFirst(b: string, inner: string, rest: string)
    requires Name(b) && Inert(inner)
    ensures var content := OpenText(If, " ", b) + inner;
            Find(content + (Closer(If) + rest), Closer(If)) == Some(|content|)
  {
    var close := Closer(If);
    CalmPassed(If, inner, close + rest);
    OpenPassed(If, If, " ", b, inner + (close + rest));
    PassedConcat(close, OpenText(If, " ", b), inner, close + rest);
    FindAtOnce(close, rest);
  }

  /** A block ends at the first closer after it. */
  lemma BlockWithContent(kind: Kind, key: string, content: string, rest: string, vars: Bindings)
    requires Name(key) && Find(content + (Closer(kind) + rest), Closer(kind)) == Some(|content|)
    ensures Becomes(Block(kind, vars), OpenText(kind, " ", key) + (content + Closer(kind)),
                    if Truthy(vars, key) == kind.If? then content else "", rest)
  {
    var open, close := OpenText(kind, " ", key), Closer(kind);
    BlockOnOpener(kind, " ", key, content, rest);
    Regroup4(open, content, close, rest);
    Replaced(Block(kind, vars), open + (content + close),
             if Truthy(vars, key) == kind.If? then content else "", Match(rest, key, content), rest);
  }

  lemma InnerCloserEndsOuter(a: string, b: string, inner: string, rest: string, vars: Bindings)
    requires Name(a) && Name(b) && Inert(inner)
    ensures var content := OpenText(If, " ", b) + inner;
            Becomes(Block(If, vars), OpenText(If, " ", a) + (content + Closer(If)),
                    if Truthy(vars, a) then content else "", rest)
  {
    InnerCloserIsFirst(b, inner, rest);
    BlockWithContent(If, a, OpenText(If, " ", b) + inner, rest, vars);
  }

  lemma BecomesWhole(rule: Rule, a: string, b: string)
    requires Becomes(rule, a, b, "")
    ensures Replace(rule, a) == b
  {
    assert a + "" == a;
    assert ReplaceAll(rule, "", a + "") == b + ReplaceAll(rule, "" + a, "");
  }

  lemma NestedPrint(a: string, b: string, inner: string, outer: string)
    ensures Print(NestedIf(a, b, inner, outer))
         == (OpenText(If, " ", a) + ((OpenText(If, " ", b) + inner) + Closer(If))) + (outer + Closer(If))
  {
    assert Print(Lit(inner, End)) == inner + "" == inner;
    assert Print(Lit(outer, End)) == outer + "" == outer;
    var body := Cond(If, " ", b, Lit(inner, End), Lit(outer, End));
    assert Print(body) == OpenText(If, " ", b) + (inner + (Closer(If) + outer));
    assert Closer(If) + "" == Closer(If);
  }

  /**
   * What becomes of an if right inside an if: the outer block ends at the inner
   * closer, and the outer closer stays in the text.
   */
  lemma NestedIfLeavesItsCloser(a: string, b: string, inner: string, outer: string, vars: Bindings)
    requires Name(a) && Name(b) && Inert(inner) && Inert(outer)
    ensures Replace(Block(If, vars), Print(NestedIf(a, b, inner, outer)))
         == (if Truthy(vars, a) then OpenText(If, " ", b) + inner else "") + (outer + Closer(If))
  {
    var rule, close := Block(If, vars), Closer(If);
    var content := OpenText(If, " ", b) + inner;
    var hit := OpenText(If, " ", a) + (content + close);
    var kept := if Truthy(vars, a) then content else "";
    NestedPrint(a, b, inner, outer);
    InnerCloserEndsOuter(a, b, inner, outer + close, vars);
    CalmUnmatched(rule, outer, close + "");
    Copied(rule, outer, close + "");
    BlockMarks(If);
    ForeignMarkerCopied(rule, close, "");
    BecomesConcat(rule, outer, outer, close, close, "");
    assert (outer + close) + "" == outer + close;
    BecomesConcat(rule, hit, kept, outer + close, outer + close, "");
    BecomesWhole(rule, hit + (outer + close), kept + (outer + close));
  }
}
