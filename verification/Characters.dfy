/** The character classes of JavaScript regular expressions and String.prototype.trim. */
module Characters {

  /** `\s`, which is also the set of characters that `trim` removes. */
  predicate IsSpace(c: char) {
    var n := c as int;
    || 9 <= n <= 13 || n == 0x20 || n == 0xA0 || n == 0x1680
    || 0x2000 <= n <= 0x200A || n == 0x2028 || n == 0x2029
    || n == 0x202F || n == 0x205F || n == 0x3000 || n == 0xFEFF
  }

  /** `\w` */
  predicate IsWord(c: char) {
    'a' <= c <= 'z' || 'A' <= c <= 'Z' || '0' <= c <= '9' || c == '_'
  }

  predicate Spaces(s: string) {
    forall i | 0 <= i < |s| :: IsSpace(s[i])
  }

  /** A `\w+` name. */
  predicate Name(s: string) {
    s != "" && forall i | 0 <= i < |s| :: IsWord(s[i])
  }

  function Lower(c: char): char {
    if 'A' <= c <= 'Z' then c - 'A' + 'a' else c
  }

  /** Equality of names under the `i` flag. */
  predicate SameName(a: string, b: string) {
    |a| == |b| && forall i | 0 <= i < |a| :: Lower(a[i]) == Lower(b[i])
  }

  function TrimStart(s: string): string {
    if s != "" && IsSpace(s[0]) then TrimStart(s[1..]) else s
  }

  function TrimEnd(s: string): string {
    if s != "" && IsSpace(s[|s| - 1]) then TrimEnd(s[..|s| - 1]) else s
  }

  function Trim(s: string): string {
    TrimEnd(TrimStart(s))
  }

  lemma {:induction false} TrimStartSkips(w: string, s: string)
    requires Spaces(w)
    ensures TrimStart(w + s) == TrimStart(s)
  {
    if w == "" {
      assert w + s == s;
    } else {
      assert (w + s)[1..] == w[1..] + s;
      TrimStartSkips(w[1..], s);
    }
  }

  lemma {:induction false} TrimEndSkips(s: string, w: string)
    requires Spaces(w)
    ensures TrimEnd(s + w) == TrimEnd(s)
  {
    if w == "" {
      assert s + w == s;
    } else {
      var v := w[..|w| - 1];
      assert (s + w)[..|s + w| - 1] == s + v;
      TrimEndSkips(s, v);
    }
  }

  lemma SpacesConcat(a: string, b: string)
    requires Spaces(a) && Spaces(b)
    ensures Spaces(a + b)
  {
  }

  lemma {:induction false} TrimStartSplits(s: string) returns (lead: string)
    ensures Spaces(lead) && s == lead + TrimStart(s)
  {
    lead := "";
    if s != "" && IsSpace(s[0]) {
      var rest := TrimStartSplits(s[1..]);
      lead := [s[0]] + rest;
      SpacesConcat([s[0]], rest);
    }
  }

  lemma {:induction false} TrimEndSplits(s: string) returns (trail: string)
    ensures Spaces(trail) && s == TrimEnd(s) + trail
  {
    trail := "";
    if s != "" && IsSpace(s[|s| - 1]) {
      var rest := TrimEndSplits(s[..|s| - 1]);
      trail := rest + [s[|s| - 1]];
      SpacesConcat(rest, [s[|s| - 1]]);
    }
  }

  /** What `trim` removes is whitespace on either side, and nothing else. */
  lemma TrimSplits(s: string) returns (lead: string, trail: string)
    ensures Spaces(lead) && Spaces(trail) && s == lead + Trim(s) + trail
  {
    lead := TrimStartSplits(s);
    trail := TrimEndSplits(TrimStart(s));
  }

  lemma {:induction false} TrimStartBefore(s: string, trail: string)
    requires Spaces(trail)
    ensures TrimStart(s + trail) == if TrimStart(s) == "" then "" else TrimStart(s) + trail
  {
    if s == "" {
      assert s + trail == trail == trail + "";
      TrimStartSkips(trail, "");
    } else if IsSpace(s[0]) {
      assert (s + trail)[1..] == s[1..] + trail;
      TrimStartBefore(s[1..], trail);
    }
  }

  lemma TrimIgnoresOuterSpace(lead: string, s: string, trail: string)
    requires Spaces(lead) && Spaces(trail)
    ensures Trim(lead + s + trail) == Trim(s)
  {
    assert lead + s + trail == lead + (s + trail);
    TrimStartSkips(lead, s + trail);
    TrimStartBefore(s, trail);
    TrimEndSkips(TrimStart(s), trail);
  }
}
