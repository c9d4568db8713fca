/**
 * What the renderer makes of literal template text: which text a hole shows, what
 * becomes of a hole without a variable, when a block is shown, and which
 * characters escaping keeps out of the result.
 */
module RenderedText {
  import opened Wrappers
  import opened Characters
  import opened Replacing
  import opened Escaping
  import opened Template
  import opened TemplatePasses
  import opened NotificationTemplate
  import opened NestedBlocks

  // ---------- Names ----------

  /** The same character, or one letter in its two cases. */
  predicate SameLetter(a: char, b: char) {
    || a == b
    || ('A' <= a <= 'Z' && b as int == a as int + 32)
    || ('A' <= b <= 'Z' && a as int == b as int + 32)
  }

  lemma SameLowerIff(a: char, b: char)
    ensures Lower(a) == Lower(b) <==> SameLetter(a, b)
  {
  }

  lemma SameNameIff(a: string, b: string)
    ensures SameName(a, b) <==> |a| == |b| && forall i | 0 <= i < |a| :: SameLetter(a[i], b[i])
  {
    forall i | 0 <= i < |a| && |a| == |b| ensures Lower(a[i]) == Lower(b[i]) <==> SameLetter(a[i], b[i]) {
      SameLowerIff(a[i], b[i]);
    }
  }

  /** The first entry whose name is the key, but for case. */
  ghost predicate FirstNamed(vars: Bindings, key: string, k: nat) {
    && k < |vars| && SameName(key, vars[k].0)
    && forall j | 0 <= j < k :: !SameName(key, vars[j].0)
  }

  lemma {:induction false} FirstNamedFits(vars: Bindings, key: string, k: nat)
    requires FirstNamed(vars, key, k)
    ensures FirstFit(vars, key) == Some(vars[k].1)
    decreases k
  {
    if k > 0 {
      assert !SameName(key, vars[0].0);
      FirstNamedFits(vars[1..], key, k - 1);
    }
  }

  // ---------- Holes ----------

  /** Templates and variables for which rendering is evaluation. */
  ghost predicate InDomain(t: Template, vars: Bindings, config: Config) {
    WellFormed(t) && Unnested(If, t) && Unnested(Unless, t) && Suits(vars, t, config)
  }

  /**
   * A hole anywhere in a template shows the text of the first variable of its
   * name: escaped where escaping is on, as it is where it is off, and in single
   * braces where the hole has three.
   */
  lemma HoleShows(before: Template, triple: bool, lead: string, key: string, trail: string, after: Template,
                  vars: Bindings, k: nat, config: Config)
    requires InDomain(Append(before, Hole(triple, lead, key, trail, after)), vars, config)
    requires FirstNamed(vars, key, k)
    ensures Rendered(Print(before) + (Spelled(triple, lead, key, trail) + Print(after)), vars, config)
         == Trim(Eval(before, vars, config)
                 + ((if triple then Braces(Text(vars[k].1, config)) else Text(vars[k].1, config))
                    + Eval(after, vars, config)))
  {
    var hole := Hole(triple, lead, key, trail, after);
    PrintAppend(before, hole);
    EvalAppend(before, hole, vars, config);
    FirstNamedFits(vars, key, k);
    ShownIsText(vars[k].1, config);
    RenderingIsEvaluation(Append(before, hole), vars, config);
  }

  /** A name between double braces, with blanks around it. */
  function DoubleBraced(lead: string, name: string, trail: string): string {
    "{{" + (lead + (name + (trail + "}}")))
  }

  lemma OrdinaryBinding(name: string, v: Value, config: Config)
    requires Name(name) && (v.Present? ==> forall c <- v.display :: c !in "{}$")
    ensures AllInsertable([(name, v)], config)
  {
    OrdinaryTextInsertable((name, v), config);
  }

  /** One hole and one variable of its name, in any letter case. */
  lemma SingleHoleShows(lead: string, key: string, trail: string, name: string, v: Value, config: Config)
    requires Spaces(lead) && Name(key) && Spaces(trail) && Name(name)
    requires |key| == |name| && forall i | 0 <= i < |key| :: SameLetter(key[i], name[i])
    requires v.Present? ==> forall c <- v.display :: c !in "{}$"
    ensures Rendered(DoubleBraced(lead, key, trail), [(name, v)], config)
         == match v
            case Nullish => ""
            case Present(d, _) => Trim(if config.autoEscape then EscapeHtml(d) else d)
  {
    var vars := [(name, v)];
    SameNameIff(key, name);
    OrdinaryBinding(name, v, config);
    var text := Text(v, config);
    assert Print(End) == "" && Eval(End, vars, config) == "";
    assert WellFormed(End) && NoTriples(End);
    HoleShows(End, false, lead, key, trail, End, vars, 0, config);
    assert "" + (HoleText(lead, key, trail) + "") == DoubleBraced(lead, key, trail);
    assert "" + (text + "") == text;
  }

  lemma HoleIsTrimmed(lead: string, key: string, trail: string)
    ensures Trim(DoubleBraced(lead, key, trail)) == DoubleBraced(lead, key, trail)
  {
    var s := DoubleBraced(lead, key, trail);
    assert s == "{{" + (lead + (key + trail)) + "}}";
    assert s[0] == '{' && s[|s| - 1] == '}';
  }

  /** A hole without a variable of its name stays in strict mode, and leaves nothing otherwise. */
  lemma UnfilledHole(lead: string, key: string, trail: string, vars: Bindings, config: Config)
    requires Spaces(lead) && Name(key) && Spaces(trail) && AllInsertable(vars, config)
    requires forall b <- vars :: !SameName(key, b.0)
    ensures Rendered(DoubleBraced(lead, key, trail), vars, config)
         == if config.strict then DoubleBraced(lead, key, trail) else ""
  {
    var hole := Hole(false, lead, key, trail, End);
    var s := DoubleBraced(lead, key, trail);
    assert Print(hole) == HoleText(lead, key, trail) + "" == s;
    assert FirstFit(vars, key).None?;
    assert Eval(hole, vars, config) == (if config.strict then s else "") + "";
    assert WellFormed(End) && NoTriples(End);
    RenderingIsEvaluation(hole, vars, config);
    HoleIsTrimmed(lead, key, trail);
  }

  // ---------- Blocks ----------

  /** Present in an object, and truthy. */
  ghost predicate Holding(vars: Bindings, key: string) {
    exists b <- vars :: b.0 == key && b.1.Present? && b.1.truthy
  }

  lemma {:induction false} TruthyIff(vars: Bindings, key: string)
    requires Object(vars)
    ensures Truthy(vars, key) <==> Holding(vars, key)
  {
    if vars != [] {
      var rest := vars[1..];
      assert vars == [vars[0]] + rest;
      if vars[0].0 == key {
        assert forall b <- vars :: b.0 == key ==> b == vars[0];
      } else {
        TruthyIff(rest, key);
      }
    }
  }

  function IfBlock(gap: string, key: string, body: string): string {
    "{{#if" + (gap + (key + ("}}" + (body + "{{/if}}"))))
  }

  function UnlessBlock(gap: string, key: string, body: string): string {
    "{{#unless" + (gap + (key + ("}}" + (body + "{{/unless}}"))))
  }

  lemma BlockPrints(kind: Kind, gap: string, key: string, body: Template)
    ensures Print(Cond(kind, gap, key, body, End))
         == match kind
            case If => IfBlock(gap, key, Print(body))
            case Unless => UnlessBlock(gap, key, Print(body))
  {
    assert Closer(kind) + "" == Closer(kind);
    Regroup(Opener(kind), gap + (key + "}}"), Print(body) + Closer(kind));
    Regroup(gap, key + "}}", Print(body) + Closer(kind));
    Regroup(key, "}}", Print(body) + Closer(kind));
  }

  lemma BlockRenders(kind: Kind, gap: string, key: string, body: Template, vars: Bindings, config: Config)
    requires InDomain(Cond(kind, gap, key, body, End), vars, config)
    ensures Rendered(Print(Cond(kind, gap, key, body, End)), vars, config)
         == Trim(if Truthy(vars, key) == kind.If? then Eval(body, vars, config) else "")
  {
    RenderingIsEvaluation(Cond(kind, gap, key, body, End), vars, config);
    var kept := if Truthy(vars, key) == kind.If? then Eval(body, vars, config) else "";
    assert kept + "" == kept;
  }

  /** An if shows its body exactly when the object has a truthy value of exactly that name. */
  lemma IfShows(gap: string, key: string, body: Template, vars: Bindings, config: Config)
    requires InDomain(Cond(If, gap, key, body, End), vars, config) && Object(vars)
    ensures Rendered(IfBlock(gap, key, Print(body)), vars, config)
         == Trim(if Holding(vars, key) then Eval(body, vars, config) else "")
  {
    BlockPrints(If, gap, key, body);
    TruthyIff(vars, key);
    BlockRenders(If, gap, key, body, vars, config);
  }

  /** An unless shows its body exactly when it does not. */
  lemma UnlessShows(gap: string, key: string, body: Template, vars: Bindings, config: Config)
    requires InDomain(Cond(Unless, gap, key, body, End), vars, config) && Object(vars)
    ensures Rendered(UnlessBlock(gap, key, Print(body)), vars, config)
         == Trim(if Holding(vars, key) then "" else Eval(body, vars, config))
  {
    BlockPrints(Unless, gap, key, body);
    TruthyIff(vars, key);
    BlockRenders(Unless, gap, key, body, vars, config);
  }

  // ---------- No markup from variables ----------

  ghost predicate NoMarkup(s: string) {
    forall c <- s :: c !in "<>\"'"
  }

  /** The texts of the template itself are free of markup. */
  predicate PlainTexts(t: Template) {
    match t
    case End => true
    case Lit(text, next) => (forall c <- text :: c !in "<>\"'") && PlainTexts(next)
    case Hole(_, _, _, _, next) => PlainTexts(next)
    case Cond(_, _, _, body, next) => PlainTexts(body) && PlainTexts(next)
  }

  lemma NoMarkupConcat(a: string, b: string)
    ensures NoMarkup(a + b) <==> NoMarkup(a) && NoMarkup(b)
  {
    if NoMarkup(a + b) {
      forall c | c in a ensures c !in "<>\"'" {
        assert c in a + b;
      }
      forall c | c in b ensures c !in "<>\"'" {
        assert c in a + b;
      }
    }
  }

  lemma PartHasNoMarkup(s: string)
    requires Spaces(s) || Name(s)
    ensures NoMarkup(s)
  {
    forall c | c in s ensures c !in "<>\"'" {
      var i :| 0 <= i < |s| && s[i] == c;
      assert IsSpace(s[i]) || IsWord(s[i]);
    }
  }

  lemma HoleHasNoMarkup(triple: bool, lead: string, key: string, trail: string)
    requires Spaces(lead) && Name(key) && Spaces(trail)
    ensures NoMarkup(Spelled(triple, lead, key, trail))
  {
    var m := HoleText(lead, key, trail);
    PartHasNoMarkup(lead);
    PartHasNoMarkup(key);
    PartHasNoMarkup(trail);
    NoMarkupConcat(trail, "}}");
    NoMarkupConcat(key, trail + "}}");
    NoMarkupConcat(lead, key + (trail + "}}"));
    NoMarkupConcat("{{", lead + (key + (trail + "}}")));
    NoMarkupConcat(m, "}");
    NoMarkupConcat("{", m + "}");
  }

  lemma OpenHasNoMarkup(kind: Kind, gap: string, key: string)
    requires Spaces(gap) && Name(key)
    ensures NoMarkup(OpenText(kind, gap, key)) && NoMarkup(Closer(kind))
  {
    PartHasNoMarkup(gap);
    PartHasNoMarkup(key);
    NoMarkupConcat(key, "}}");
    NoMarkupConcat(gap, key + "}}");
    NoMarkupConcat(Opener(kind), gap + (key + "}}"));
  }

  lemma {:induction false} PrintHasNoMarkup(t: Template)
    requires WellFormed(t) && PlainTexts(t)
    ensures NoMarkup(Print(t))
  {
    match t
    case End =>
    case Lit(text, next) =>
      PrintHasNoMarkup(next);
      NoMarkupConcat(text, Print(next));
    case Hole(triple, lead, key, trail, next) =>
      PrintHasNoMarkup(next);
      HoleHasNoMarkup(triple, lead, key, trail);
      NoMarkupConcat(Spelled(triple, lead, key, trail), Print(next));
    case Cond(kind, gap, key, body, next) =>
      PrintHasNoMarkup(body);
      PrintHasNoMarkup(next);
      OpenHasNoMarkup(kind, gap, key);
      NoMarkupConcat(Closer(kind), Print(next));
      NoMarkupConcat(Print(body), Closer(kind) + Print(next));
      NoMarkupConcat(OpenText(kind, gap, key), Print(body) + (Closer(kind) + Print(next)));
  }

  lemma EscapedFillingHasNoMarkup(triple: bool, v: Value, config: Config)
    requires config.autoEscape
    ensures NoMarkup(Filling(triple, Shown(v, config)))
  {
    var s := Shown(v, config);
    EscapeHtmlEmitsNoMarkup(Display(v));
    NoMarkupConcat(s, "}");
    NoMarkupConcat("{", s + "}");
  }

  lemma {:induction false} PreparedTextsArePlain(t: Template, vars: Bindings, config: Config)
    requires PlainTexts(t) && config.autoEscape
    ensures PlainTexts(Prepared(t, vars, config))
  {
    match t
    case End =>
    case Lit(_, next) => PreparedTextsArePlain(next, vars, config);
    case Hole(triple, _, key, _, next) =>
      PreparedTextsArePlain(next, vars, config);
      if FirstFit(vars, key).Some? {
        EscapedFillingHasNoMarkup(triple, FirstFit(vars, key).value, config);
      }
    case Cond(_, _, _, body, next) =>
      PreparedTextsArePlain(body, vars, config);
      PreparedTextsArePlain(next, vars, config);
  }

  lemma KeptHasNoMarkup(rule: Rule, s: string, m: Match)
    requires rule.Block? && s != "" && MatchBlock(rule.kind, s) == m && m.Match? && NoMarkup(s)
    ensures NoMarkup(Kept(rule, m)) && NoMarkup(m.rest)
  {
    var open := BlockParts(rule.kind, s, m);
    NoMarkupConcat(open, m.content + (Closer(rule.kind) + m.rest));
    NoMarkupConcat(m.content, Closer(rule.kind) + m.rest);
    NoMarkupConcat(Closer(rule.kind), m.rest);
  }

  lemma CopyKeepsNoMarkup(rule: Rule, before: string, s: string)
    requires rule.Block? && s != "" && MatchBlock(rule.kind, s).NoMatch? && NoMarkup(s)
    requires NoMarkup(ReplaceAll(rule, before + [s[0]], s[1..]))
    ensures NoMarkup(ReplaceAll(rule, before, s))
  {
    HeadTail(s);
    CopiesOne(rule, before, s[0], s[1..]);
    NoMarkupConcat([s[0]], s[1..]);
    NoMarkupConcat([s[0]], ReplaceAll(rule, before + [s[0]], s[1..]));
  }

  /** A pass over blocks only takes text away. */
  lemma {:induction false} PassKeepsNoMarkup(rule: Rule, before: string, s: string)
    requires rule.Block? && NoMarkup(s)
    ensures NoMarkup(ReplaceAll(rule, before, s))
    decreases |s|
  {
    if s != "" {
      var m := MatchBlock(rule.kind, s);
      if m.NoMatch? {
        HeadTail(s);
        NoMarkupConcat([s[0]], s[1..]);
        PassKeepsNoMarkup(rule, before + [s[0]], s[1..]);
        CopyKeepsNoMarkup(rule, before, s);
      } else {
        var b := before + s[..|s| - |m.rest|];
        KeptHasNoMarkup(rule, s, m);
        PassKeepsNoMarkup(rule, b, m.rest);
        BlockReplaced(rule, before, s, m);
        NoMarkupConcat(Kept(rule, m), ReplaceAll(rule, b, m.rest));
      }
    }
  }

  lemma TrimKeepsNoMarkup(s: string)
    requires NoMarkup(s)
    ensures NoMarkup(Trim(s))
  {
    var lead, trail := TrimSplits(s);
    NoMarkupConcat(lead + Trim(s), trail);
    NoMarkupConcat(lead, Trim(s));
  }

  /**
   * With escaping on, no angle bracket or quote is rendered but those that the
   * template itself has, whatever the variables, nested blocks included.
   */
  lemma EscapingKeepsMarkupOut(t: Template, vars: Bindings, config: Config)
    requires WellFormed(t) && Suits(vars, t, config) && PlainTexts(t) && config.autoEscape
    ensures forall c <- Rendered(Print(t), vars, config) :: c !in "<>\"'"
  {
    var u := Prepared(t, vars, config);
    InterpolationMeaning(t, vars, config);
    PreparedKeeps(t, vars, config);
    PreparedTextsArePlain(t, vars, config);
    PrintHasNoMarkup(u);
    var s := Trim(Print(u));
    TrimKeepsNoMarkup(Print(u));
    PassKeepsNoMarkup(Block(If, vars), "", s);
    PassKeepsNoMarkup(Block(Unless, vars), "", Replace(Block(If, vars), s));
    TrimKeepsNoMarkup(Conditioned(s, vars));
  }

  // ---------- Whitespace ----------

  lemma {:induction false} TrimStartIsTight(s: string)
    ensures TrimStart(s) != "" ==> !IsSpace(TrimStart(s)[0])
  {
    if s != "" && IsSpace(s[0]) {
      TrimStartIsTight(s[1..]);
    }
  }

  lemma {:induction false} TrimEndIsTight(s: string)
    ensures TrimEnd(s) <= s
    ensures TrimEnd(s) != "" ==> !IsSpace(TrimEnd(s)[|TrimEnd(s)| - 1])
  {
    if s != "" && IsSpace(s[|s| - 1]) {
      TrimEndIsTight(s[..|s| - 1]);
    }
  }

  /** What is trimmed has no whitespace at either end. */
  lemma TrimIsTight(s: string)
    ensures var r := Trim(s); r != "" ==> !IsSpace(r[0]) && !IsSpace(r[|r| - 1])
  {
    TrimStartIsTight(s);
    TrimEndIsTight(TrimStart(s));
  }
}
