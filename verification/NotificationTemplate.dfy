/** `_interpolate` and `_processConditionals`, and what they compute for printed templates. */
module NotificationTemplate {
  import opened Wrappers
  import opened Characters
  import opened Replacing
  import opened Escaping
  import opened Template
  import opened TemplatePasses

  // ---------- The rewriting, as functions ----------

  function DoubleRule(b: (string, Value), config: Config): Rule {
    Double(EscapeRegex(b.0), Shown(b.1, config))
  }

  function TripleRule(b: (string, Value)): Rule {
    Triple(EscapeRegex(b.0), Display(b.1))
  }

  function ReplaceDoubles(vars: Bindings, config: Config, s: string): string {
    if vars == [] then s else ReplaceDoubles(vars[1..], config, Replace(DoubleRule(vars[0], config), s))
  }

  function ReplaceTriples(vars: Bindings, s: string): string {
    if vars == [] then s else ReplaceTriples(vars[1..], Replace(TripleRule(vars[0]), s))
  }

  function Interpolated(template: string, vars: Bindings, config: Config): string {
    if template == "" then "" else
    var s := ReplaceTriples(vars, ReplaceDoubles(vars, config, template));
    Trim(if config.strict then s else Replace(Sweep, s))
  }

  function Conditioned(template: string, vars: Bindings): string {
    Replace(Block(Unless, vars), Replace(Block(If, vars), template))
  }

  /** Both stages, as `render` runs them on a body; the trim removes only the whitespace around it. */
  function Rendered(template: string, vars: Bindings, config: Config): string {
    Trim(Conditioned(Interpolated(template, vars, config), vars))
  }

  /** The two loops that reassign `result`, one variable at a time. */
  method Interpolate(template: string, vars: Bindings, config: Config) returns (result: string)
    ensures result == Interpolated(template, vars, config)
  {
    if template == "" {
      return "";
    }
    result := template;
    for i := 0 to |vars|
      invariant ReplaceDoubles(vars[i..], config, result) == ReplaceDoubles(vars, config, template)
    {
      assert vars[i..][1..] == vars[i + 1..];
      result := Replace(Double(EscapeRegex(vars[i].0), Shown(vars[i].1, config)), result);
    }
    assert vars[|vars|..] == [];
    ghost var doubled := result;
    for i := 0 to |vars|
      invariant ReplaceTriples(vars[i..], result) == ReplaceTriples(vars, doubled)
    {
      assert vars[i..][1..] == vars[i + 1..];
      result := Replace(Triple(EscapeRegex(vars[i].0), Display(vars[i].1)), result);
    }
    if !config.strict {
      result := Replace(Sweep, result);
    }
    result := Trim(result);
  }

  // ---------- Holes ----------

  /** Braces make inert text of inert text that does not open with a brace. */
  lemma BracesInert(s: string)
    requires Calm(s) && !("{" <= s)
    ensures Inert(Braces(s))
  {
    var r := Braces(s);
    forall i | 0 <= i < |r| && r[i] == '{' ensures i + 1 < |r| && r[i + 1] != '{' {
      if 0 < i <= |s| {
        assert r[i] == s[i - 1] && r[i + 1] == s[i];
      }
    }
  }

  lemma {:induction false} FillKeepsShape(t: Template, name: string, shown: string)
    requires WellFormed(t) && Inert(shown) && (NoTriples(t) || !("{" <= shown))
    ensures WellFormed(Fill(t, name, shown))
    ensures NoTriples(t) ==> NoTriples(Fill(t, name, shown))
  {
    match t
    case End =>
    case Lit(_, next) => FillKeepsShape(next, name, shown);
    case Hole(triple, _, _, _, next) =>
      FillKeepsShape(next, name, shown);
      if triple {
        BracesInert(shown);
      }
    case Cond(_, _, _, body, next) =>
      FillKeepsShape(body, name, shown);
      FillKeepsShape(next, name, shown);
  }

  lemma {:induction false} FillFirst(t: Template, vars: Bindings, config: Config)
    requires vars != []
    ensures FillAll(Fill(t, vars[0].0, Shown(vars[0].1, config)), vars[1..], config) == FillAll(t, vars, config)
  {
    match t
    case End =>
    case Lit(_, next) => FillFirst(next, vars, config);
    case Hole(_, _, _, _, next) => FillFirst(next, vars, config);
    case Cond(_, _, _, body, next) =>
      FillFirst(body, vars, config);
      FillFirst(next, vars, config);
  }

  lemma {:induction false} FillNothing(t: Template, config: Config)
    ensures FillAll(t, [], config) == t
  {
    match t
    case End =>
    case Lit(_, next) => FillNothing(next, config);
    case Hole(_, _, _, _, next) => FillNothing(next, config);
    case Cond(_, _, _, body, next) =>
      FillNothing(body, config);
      FillNothing(next, config);
  }

  /** Replacing one variable after the other is substituting all of them at once. */
  lemma {:induction false} SequentialIsSimultaneous(t: Template, vars: Bindings, config: Config)
    requires WellFormed(t) && Suits(vars, t, config)
    ensures ReplaceDoubles(vars, config, Print(t)) == Print(FillAll(t, vars, config))
    ensures WellFormed(FillAll(t, vars, config))
    decreases |vars|
  {
    if vars == [] {
      FillNothing(t, config);
    } else {
      var b := vars[0];
      assert Insertable(b, config);
      assert !NoTriples(t) ==> !("{" <= Shown(b.1, config));
      EscapeRegexDenotesInput(b.0);
      PassOnTemplate(DoubleRule(b, config), t);
      FillKeepsShape(t, b.0, Shown(b.1, config));
      FillFirst(t, vars, config);
      SequentialIsSimultaneous(Fill(t, b.0, Shown(b.1, config)), vars[1..], config);
    }
  }

  /** What the first loop leaves unfilled, no variable fits. */
  lemma {:induction false} FilledHasNoTripleFor(t: Template, vars: Bindings, config: Config, b: (string, Value))
    requires b in vars
    ensures NoTripleFits(FillAll(t, vars, config), b.0)
  {
    match t
    case End =>
    case Lit(_, next) => FilledHasNoTripleFor(next, vars, config, b);
    case Hole(_, _, _, _, next) => FilledHasNoTripleFor(next, vars, config, b);
    case Cond(_, _, _, body, next) =>
      FilledHasNoTripleFor(body, vars, config, b);
      FilledHasNoTripleFor(next, vars, config, b);
  }

  /** The second loop never finds a match, because the first one has been there. */
  lemma {:induction false} TriplesFindNothing(t: Template, vars: Bindings)
    requires WellFormed(t) && forall b <- vars :: Name(b.0) && NoTripleFits(t, b.0)
    ensures ReplaceTriples(vars, Print(t)) == Print(t)
    decreases |vars|
  {
    if vars != [] {
      assert vars[0] in vars;
      EscapeRegexDenotesInput(vars[0].0);
      PassOnTemplate(TripleRule(vars[0]), t);
      TriplesFindNothing(t, vars[1..]);
    }
  }

  /** The template that interpolation leaves behind. */
  function Prepared(t: Template, vars: Bindings, config: Config): Template {
    var filled := FillAll(t, vars, config);
    if config.strict then filled else DropHoles(filled)
  }

  lemma {:induction false} EmptyPrintsEmpty(t: Template, vars: Bindings, config: Config)
    requires WellFormed(t) && Print(t) == ""
    ensures Print(Prepared(t, vars, config)) == ""
  {
    match t
    case End =>
    case Lit(_, next) => EmptyPrintsEmpty(next, vars, config);
    case Hole(_, _, _, _, _) =>
    case Cond(kind, _, _, _, _) => BlockMarks(kind);
  }

  /**
   * Interpolation fills every hole that has a variable; outside strict mode
   * exactly the other holes disappear; everything else is untouched up to the final trim.
   */
  lemma InterpolationMeaning(t: Template, vars: Bindings, config: Config)
    requires WellFormed(t) && Suits(vars, t, config)
    ensures Interpolated(Print(t), vars, config) == Trim(Print(Prepared(t, vars, config)))
  {
    SequentialIsSimultaneous(t, vars, config);
    var filled := FillAll(t, vars, config);
    forall b | b in vars ensures Name(b.0) && NoTripleFits(filled, b.0) {
      assert Insertable(b, config);
      FilledHasNoTripleFor(t, vars, config, b);
    }
    TriplesFindNothing(filled, vars);
    PassOnTemplate(Sweep, filled);
    if Print(t) == "" {
      EmptyPrintsEmpty(t, vars, config);
    }
  }

  // ---------- Order of the variables ----------

  /** The text that a hole is filled with. */
  function Fit(vars: Bindings, key: string, config: Config): Option<string> {
    match FirstFit(vars, key)
    case None => None
    case Some(v) => Some(Shown(v, config))
  }

  /** Variables whose names differ only in case are shown alike. */
  ghost predicate CaseConsistent(vars: Bindings, config: Config) {
    forall a <- vars, b <- vars :: SameName(a.0, b.0) ==> Shown(a.1, config) == Shown(b.1, config)
  }

  lemma ConsistentFit(vars: Bindings, vars': Bindings, key: string, config: Config)
    requires CaseConsistent(vars, config) && multiset(vars) == multiset(vars')
    ensures Fit(vars, key, config) == Fit(vars', key, config)
  {
    forall b ensures b in vars <==> b in vars' {
      assert b in vars <==> b in multiset(vars);
      assert b in vars' <==> b in multiset(vars');
    }
    var x, y := FirstFit(vars, key), FirstFit(vars', key);
    if x.Some? && y.Some? {
      var a :| a in vars && SameName(key, a.0) && x.value == a.1;
      var b :| b in vars' && SameName(key, b.0) && y.value == b.1;
      assert SameName(a.0, b.0);
    }
  }

  lemma {:induction false} SameFitSameFill(t: Template, vars: Bindings, vars': Bindings, config: Config)
    requires forall key :: Fit(vars, key, config) == Fit(vars', key, config)
    ensures FillAll(t, vars, config) == FillAll(t, vars', config)
  {
    match t
    case End =>
    case Lit(_, next) => SameFitSameFill(next, vars, vars', config);
    case Hole(_, _, key, _, next) =>
      assert Fit(vars, key, config) == Fit(vars', key, config);
      SameFitSameFill(next, vars, vars', config);
    case Cond(_, _, _, body, next) =>
      SameFitSameFill(body, vars, vars', config);
      SameFitSameFill(next, vars, vars', config);
  }

  lemma SamePrepared(t: Template, vars: Bindings, vars': Bindings, config: Config)
    requires CaseConsistent(vars, config) && multiset(vars) == multiset(vars')
    ensures Prepared(t, vars, config) == Prepared(t, vars', config)
  {
    forall key ensures Fit(vars, key, config) == Fit(vars', key, config) {
      ConsistentFit(vars, vars', key, config);
    }
    SameFitSameFill(t, vars, vars', config);
  }

  ghost predicate Alike(t: Template, a: Bindings, b: Bindings, config: Config) {
    Interpolated(Print(t), a, config) == Interpolated(Print(t), b, config)
  }

  /** No template tells two orders of the same variables apart. */
  ghost predicate OrderIrrelevant(vars: Bindings, config: Config) {
    forall t, a, b | WellFormed(t) && Suits(vars, t, config)
                     && multiset(a) == multiset(vars) && multiset(b) == multiset(vars) ::
      Alike(t, a, b, config)
  }

  lemma PermutationSuits(vars: Bindings, vars': Bindings, t: Template, config: Config)
    requires Suits(vars, t, config) && multiset(vars) == multiset(vars')
    ensures Suits(vars', t, config)
  {
    forall b | b in vars' ensures b in vars {
      assert b in multiset(vars');
    }
  }

  lemma PermutationConsistent(vars: Bindings, vars': Bindings, config: Config)
    requires CaseConsistent(vars, config) && multiset(vars) == multiset(vars')
    ensures CaseConsistent(vars', config)
  {
    forall b | b in vars' ensures b in vars {
      assert b in multiset(vars');
    }
  }

  lemma ConsistentOrderIrrelevant(vars: Bindings, a: Bindings, b: Bindings, t: Template, config: Config)
    requires CaseConsistent(vars, config)
    requires WellFormed(t) && Suits(vars, t, config) && multiset(a) == multiset(vars) && multiset(b) == multiset(vars)
    ensures Alike(t, a, b, config)
  {
    PermutationSuits(vars, a, t, config);
    PermutationSuits(vars, b, t, config);
    PermutationConsistent(vars, a, config);
    InterpolationMeaning(t, a, config);
    InterpolationMeaning(t, b, config);
    SamePrepared(t, a, b, config);
  }

  lemma InFront(vars: Bindings, x: (string, Value)) returns (a: Bindings)
    requires x in vars
    ensures multiset(a) == multiset(vars) && a != [] && a[0] == x
  {
    var i :| 0 <= i < |vars| && vars[i] == x;
    a := [x] + (vars[..i] + vars[i + 1..]);
    assert vars == vars[..i] + ([x] + vars[i + 1..]);
  }

  /** A template that shows which of several fitting variables is used. */
  function Probe(key: string): Template {
    Lit("x", Hole(false, "", key, "", Lit("x", End)))
  }

  function Marked(s: string): string {
    "x" + (s + "x")
  }

  lemma ProbePrepared(vars: Bindings, key: string, config: Config)
    requires vars != [] && SameName(key, vars[0].0)
    ensures Prepared(Probe(key), vars, config) == Lit("x", Lit(Shown(vars[0].1, config), Lit("x", End)))
  {
    var last := Lit("x", End);
    assert FillAll(last, vars, config) == last && DropHoles(last) == last;
    var u := Lit(Shown(vars[0].1, config), last);
    assert FillAll(Hole(false, "", key, "", last), vars, config) == u && DropHoles(u) == u;
  }

  lemma PrintMarked(s: string)
    ensures Print(Lit("x", Lit(s, Lit("x", End)))) == Marked(s)
  {
    var last := Lit("x", End);
    assert Print(last) == "x" + Print(End) == "x";
    assert Print(Lit(s, last)) == s + "x";
    assert Print(Lit("x", Lit(s, last))) == "x" + Print(Lit(s, last));
  }

  lemma TrimMarked(s: string)
    ensures Trim(Marked(s)) == Marked(s)
  {
    var r := Marked(s);
    assert r[0] == 'x' && r[|r| - 1] == 'x';
  }

  lemma ProbeWellFormed(key: string)
    requires Name(key)
    ensures WellFormed(Probe(key)) && NoTriples(Probe(key))
  {
    assert WellFormed(Lit("x", End)) && NoTriples(Lit("x", End));
  }

  lemma ProbeShowsFront(vars: Bindings, key: string, config: Config)
    requires AllInsertable(vars, config) && vars != [] && SameName(key, vars[0].0) && Name(key)
    ensures Interpolated(Print(Probe(key)), vars, config) == Marked(Shown(vars[0].1, config))
  {
    ProbePrepared(vars, key, config);
    PrintMarked(Shown(vars[0].1, config));
    TrimMarked(Shown(vars[0].1, config));
    ProbeWellFormed(key);
    InterpolationMeaning(Probe(key), vars, config);
  }

  lemma MarkedIsInjective(a: string, b: string)
    ensures Marked(a) == Marked(b) ==> a == b
  {
    assert a == Marked(a)[1..|Marked(a)| - 1];
    assert b == Marked(b)[1..|Marked(b)| - 1];
  }

  lemma ProbeTells(key: string, a: Bindings, b: Bindings, s1: string, s2: string, config: Config)
    requires Interpolated(Print(Probe(key)), a, config) == Marked(s1)
    requires Interpolated(Print(Probe(key)), b, config) == Marked(s2)
    requires s1 != s2
    ensures !Alike(Probe(key), a, b, config)
  {
    MarkedIsInjective(s1, s2);
  }

  lemma FrontOrder(vars: Bindings, key: string, x: (string, Value), config: Config) returns (a: Bindings)
    requires AllInsertable(vars, config) && x in vars && SameName(key, x.0) && Name(key)
    ensures multiset(a) == multiset(vars)
    ensures Interpolated(Print(Probe(key)), a, config) == Marked(Shown(x.1, config))
  {
    ProbeWellFormed(key);
    a := InFront(vars, x);
    PermutationSuits(vars, a, Probe(key), config);
    ProbeShowsFront(a, key, config);
  }

  lemma InconsistentPair(vars: Bindings, config: Config) returns (x: (string, Value), y: (string, Value))
    requires AllInsertable(vars, config) && !CaseConsistent(vars, config)
    ensures x in vars && y in vars && Name(x.0)
    ensures SameName(x.0, x.0) && SameName(x.0, y.0) && Shown(x.1, config) != Shown(y.1, config)
  {
    x, y :| x in vars && y in vars && SameName(x.0, y.0) && Shown(x.1, config) != Shown(y.1, config);
    assert Insertable(x, config);
  }

  lemma InconsistentOrderMatters(vars: Bindings, config: Config) returns (t: Template, a: Bindings, b: Bindings)
    requires AllInsertable(vars, config) && !CaseConsistent(vars, config)
    ensures WellFormed(t) && Suits(vars, t, config) && multiset(a) == multiset(vars) && multiset(b) == multiset(vars)
    ensures !Alike(t, a, b, config)
  {
    var x, y := InconsistentPair(vars, config);
    t := Probe(x.0);
    ProbeWellFormed(x.0);
    a := FrontOrder(vars, x.0, x, config);
    b := FrontOrder(vars, x.0, y, config);
    ProbeTells(x.0, a, b, Shown(x.1, config), Shown(y.1, config), config);
  }

  /** The order of the variables matters exactly when two names that differ only in case are shown differently. */
  lemma OrderIrrelevantIff(vars: Bindings, config: Config)
    requires AllInsertable(vars, config)
    ensures OrderIrrelevant(vars, config) <==> CaseConsistent(vars, config)
  {
    if CaseConsistent(vars, config) {
      forall t, a, b | WellFormed(t) && Suits(vars, t, config)
                       && multiset(a) == multiset(vars) && multiset(b) == multiset(vars)
        ensures Alike(t, a, b, config)
      {
        ConsistentOrderIrrelevant(vars, a, b, t, config);
      }
    } else {
      var t, a, b := InconsistentOrderMatters(vars, config);
    }
  }

  // ---------- Blocks ----------

  lemma {:induction false} AppendKeeps(a: Template, b: Template)
    ensures WellFormed(a) && WellFormed(b) ==> WellFormed(Append(a, b))
    ensures forall k :: Lacks(k, Append(a, b)) <==> Lacks(k, a) && Lacks(k, b)
    ensures forall k :: Unnested(k, Append(a, b)) <==> Unnested(k, a) && Unnested(k, b)
  {
    match a
    case End =>
    case Lit(_, next) => AppendKeeps(next, b);
    case Hole(_, _, _, _, next) => AppendKeeps(next, b);
    case Cond(_, _, _, _, next) => AppendKeeps(next, b);
  }

  lemma {:induction false} DecideKeeps(kind: Kind, t: Template, vars: Bindings)
    requires WellFormed(t)
    ensures WellFormed(Decide(kind, t, vars))
    ensures forall k :: Lacks(k, t) ==> Lacks(k, Decide(kind, t, vars))
    ensures forall k | k != kind :: Unnested(k, t) ==> Unnested(k, Decide(kind, t, vars))
  {
    match t
    case End =>
    case Lit(_, next) => DecideKeeps(kind, next, vars);
    case Hole(_, _, _, _, next) => DecideKeeps(kind, next, vars);
    case Cond(_, _, _, body, next) =>
      DecideKeeps(kind, body, vars);
      DecideKeeps(kind, next, vars);
      AppendKeeps(body, Decide(kind, next, vars));
  }

  lemma {:induction false} DecideNothing(kind: Kind, t: Template, vars: Bindings)
    requires Lacks(kind, t)
    ensures Decide(kind, t, vars) == t
  {
    match t
    case End =>
    case Lit(_, next) => DecideNothing(kind, next, vars);
    case Hole(_, _, _, _, next) => DecideNothing(kind, next, vars);
    case Cond(_, _, _, body, next) =>
      DecideNothing(kind, body, vars);
      DecideNothing(kind, next, vars);
  }

  lemma {:induction false} AppendAssociates(a: Template, b: Template, c: Template)
    ensures Append(Append(a, b), c) == Append(a, Append(b, c))
  {
    match a
    case End =>
    case Lit(_, next) => AppendAssociates(next, b, c);
    case Hole(_, _, _, _, next) => AppendAssociates(next, b, c);
    case Cond(_, _, _, _, next) => AppendAssociates(next, b, c);
  }

  lemma {:induction false} DecideAppend(kind: Kind, a: Template, b: Template, vars: Bindings)
    ensures Decide(kind, Append(a, b), vars) == Append(Decide(kind, a, vars), Decide(kind, b, vars))
  {
    match a
    case End =>
    case Lit(_, next) => DecideAppend(kind, next, b, vars);
    case Hole(_, _, _, _, next) => DecideAppend(kind, next, b, vars);
    case Cond(_, _, _, body, next) =>
      DecideAppend(kind, next, b, vars);
      AppendAssociates(body, Decide(kind, next, vars), Decide(kind, b, vars));
  }

  lemma FittingSuits(vars: Bindings, t: Template, key: string, config: Config)
    requires Suits(vars, t, config) && FirstFit(vars, key).Some?
    ensures var shown := Shown(FirstFit(vars, key).value, config);
            Inert(shown) && (NoTriples(t) || !("{" <= shown))
  {
    var b :| b in vars && SameName(key, b.0) && FirstFit(vars, key).value == b.1;
    assert Insertable(b, config);
  }

  lemma FillingInert(vars: Bindings, t: Template, config: Config)
    requires t.Hole? && Suits(vars, t, config) && FirstFit(vars, t.key).Some?
    ensures Inert(Filling(t.triple, Shown(FirstFit(vars, t.key).value, config)))
  {
    FittingSuits(vars, t, t.key, config);
    if t.triple {
      BracesInert(Shown(FirstFit(vars, t.key).value, config));
    }
  }

  lemma {:induction false} PreparedKeeps(t: Template, vars: Bindings, config: Config)
    requires WellFormed(t) && Suits(vars, t, config)
    ensures WellFormed(Prepared(t, vars, config))
    ensures forall k :: Lacks(k, Prepared(t, vars, config)) <==> Lacks(k, t)
    ensures forall k :: Unnested(k, Prepared(t, vars, config)) <==> Unnested(k, t)
  {
    match t
    case End =>
    case Lit(_, next) => PreparedKeeps(next, vars, config);
    case Hole(_, _, key, _, next) =>
      PreparedKeeps(next, vars, config);
      if FirstFit(vars, key).Some? {
        FillingInert(vars, t, config);
      }
    case Cond(_, _, _, body, next) =>
      PreparedKeeps(body, vars, config);
      PreparedKeeps(next, vars, config);
  }

  function Decided(t: Template, vars: Bindings): Template {
    Decide(Unless, Decide(If, t, vars), vars)
  }

  lemma DecidedHole(t: Template, vars: Bindings, config: Config)
    requires t.Hole?
    ensures Print(Decided(Prepared(t, vars, config), vars))
         == HoleValue(t.triple, t.lead, t.key, t.trail, vars, config)
            + Print(Decided(Prepared(t.next, vars, config), vars))
  {
    var rest := Print(Decided(Prepared(t.next, vars, config), vars));
    assert "" + rest == rest;
  }

  lemma {:induction false} LacksUnnested(kind: Kind, t: Template)
    requires Lacks(kind, t)
    ensures Unnested(kind, t)
  {
    match t
    case End =>
    case Lit(_, next) => LacksUnnested(kind, next);
    case Hole(_, _, _, _, next) => LacksUnnested(kind, next);
    case Cond(_, _, _, body, next) =>
      LacksUnnested(kind, body);
      LacksUnnested(kind, next);
  }

  lemma DecidedIf(gap: string, key: string, body: Template, next: Template, vars: Bindings)
    requires WellFormed(body) && Lacks(If, body)
    ensures Print(Decided(Cond(If, gap, key, body, next), vars))
         == (if Truthy(vars, key) then Print(Decided(body, vars)) else "") + Print(Decided(next, vars))
  {
    DecideNothing(If, body, vars);
    DecideAppend(Unless, body, Decide(If, next, vars), vars);
    PrintAppend(Decide(Unless, body, vars), Decided(next, vars));
    assert "" + Print(Decided(next, vars)) == Print(Decided(next, vars));
  }

  lemma DecidedUnless(gap: string, key: string, body: Template, next: Template, vars: Bindings)
    requires WellFormed(body) && Lacks(Unless, body)
    ensures Print(Decided(Cond(Unless, gap, key, body, next), vars))
         == (if Truthy(vars, key) then "" else Print(Decided(body, vars))) + Print(Decided(next, vars))
  {
    DecideKeeps(If, body, vars);
    DecideNothing(Unless, Decide(If, body, vars), vars);
    PrintAppend(Decide(If, body, vars), Decided(next, vars));
    assert "" + Print(Decided(next, vars)) == Print(Decided(next, vars));
  }

  lemma DecidedCond(kind: Kind, gap: string, key: string, body: Template, next: Template, vars: Bindings)
    requires WellFormed(body) && Lacks(kind, body)
    ensures Print(Decided(Cond(kind, gap, key, body, next), vars))
         == (if Truthy(vars, key) == kind.If? then Print(Decided(body, vars)) else "") + Print(Decided(next, vars))
  {
    match kind
    case If => DecidedIf(gap, key, body, next, vars);
    case Unless => DecidedUnless(gap, key, body, next, vars);
  }

  /** Deciding the ifs and then the unlesses of the prepared template leaves what it evaluates to. */
  lemma {:induction false} DecidedIsEval(t: Template, vars: Bindings, config: Config)
    requires WellFormed(t) && Suits(vars, t, config) && Unnested(If, t) && Unnested(Unless, t)
    ensures Print(Decided(Prepared(t, vars, config), vars)) == Eval(t, vars, config)
  {
    match t
    case End =>
    case Lit(_, next) => DecidedIsEval(next, vars, config);
    case Hole(_, _, _, _, next) =>
      DecidedIsEval(next, vars, config);
      DecidedHole(t, vars, config);
    case Cond(kind, gap, key, body, next) =>
      DecidedIsEval(next, vars, config);
      PreparedKeeps(body, vars, config);
      LacksUnnested(kind, body);
      DecidedIsEval(body, vars, config);
      DecidedCond(kind, gap, key, Prepared(body, vars, config), Prepared(next, vars, config), vars);
  }

  /** The two conditional passes on a printed template. */
  lemma ConditionsMeaning(t: Template, vars: Bindings)
    requires WellFormed(t) && Unnested(If, t) && Unnested(Unless, t)
    ensures Conditioned(Print(t), vars) == Print(Decided(t, vars))
  {
    PassOnTemplate(Block(If, vars), t);
    DecideKeeps(If, t, vars);
    PassOnTemplate(Block(Unless, vars), Decide(If, t, vars));
  }

  // ---------- Outer whitespace ----------

  lemma {:induction false} SpacesUnmatched(rule: Rule, w: string, tail: string)
    requires rule.Block? && Spaces(w)
    ensures Unmatched(rule, w, tail)
  {
    assert Calm(w);
    CalmUnmatched(rule, w, tail);
  }

  lemma EatBeforeSpace(s: string, w: string, p: string)
    requires Spaces(w) && forall c <- p :: !IsSpace(c)
    ensures Eat(s + w, p) == match Eat(s, p) case None => None case Some(r) => Some(r + w)
  {
    if p <= s {
      assert (s + w)[|p|..] == s[|p|..] + w;
    } else if |s| < |p| && w != "" {
      assert (s + w)[|s|] == w[0];
      assert p[|s|] in p;
    }
  }

  lemma {:induction false} EatSpacesBeforeSpace(s: string, w: string)
    requires Spaces(w)
    ensures EatSpaces(s + w) == if EatSpaces(s) == "" then "" else EatSpaces(s) + w
  {
    if s == "" {
      assert s + w == w == w + "";
      EatSpacesStops(w, "");
    } else if IsSpace(s[0]) {
      assert (s + w)[1..] == s[1..] + w;
      EatSpacesBeforeSpace(s[1..], w);
    }
  }

  lemma {:induction false} WordPrefixBeforeSpace(s: string, w: string)
    requires Spaces(w)
    ensures WordPrefix(s + w) == WordPrefix(s)
  {
    if s == "" {
      assert s + w == w;
    } else if IsWord(s[0]) {
      assert (s + w)[1..] == s[1..] + w;
      WordPrefixBeforeSpace(s[1..], w);
    }
  }

  lemma {:induction false} FindBeforeSpace(s: string, w: string, p: string)
    requires Spaces(w) && p != "" && forall c <- p :: !IsSpace(c)
    ensures Find(s + w, p) == Find(s, p)
    decreases |s| + |w|
  {
    EatBeforeSpace(s, w, p);
    if s == "" {
      assert s + w == w;
      if w != "" {
        assert w == "" + w && w[1..] == "" + w[1..];
        FindBeforeSpace("", w[1..], p);
      }
    } else {
      assert (s + w)[1..] == s[1..] + w;
      FindBeforeSpace(s[1..], w, p);
    }
  }

  lemma MarksHaveNoSpace(kind: Kind)
    ensures forall c <- Opener(kind) :: !IsSpace(c)
    ensures forall c <- Closer(kind) :: !IsSpace(c)
  {
  }

  /** A match before which nothing changes when whitespace is added at the end. */
  ghost function Extended(m: Match, w: string): Match {
    match m
    case NoMatch => NoMatch
    case Match(r, n, c) => Match(r + w, n, c)
  }

  lemma ContentBeforeSpace(kind: Kind, name: string, s: string, w: string)
    requires Spaces(w)
    ensures MatchContent(kind, name, s + w) == Extended(MatchContent(kind, name, s), w)
  {
    MarksHaveNoSpace(kind);
    FindBeforeSpace(s, w, Closer(kind));
    if Find(s, Closer(kind)).Some? {
      var n := Find(s, Closer(kind)).value;
      assert (s + w)[n + |Closer(kind)|..] == s[n + |Closer(kind)|..] + w;
      assert (s + w)[..n] == s[..n];
    }
  }

  lemma ConditionBeforeSpace(kind: Kind, s: string, w: string)
    requires Spaces(w)
    ensures MatchCondition(kind, s + w) == Extended(MatchCondition(kind, s), w)
  {
    WordPrefixBeforeSpace(s, w);
    var t := s[|WordPrefix(s)|..];
    assert (s + w)[|WordPrefix(s)|..] == t + w;
    EatBeforeSpace(t, w, "}}");
    if Eat(t, "}}").Some? {
      ContentBeforeSpace(kind, WordPrefix(s), Eat(t, "}}").value, w);
    }
  }

  lemma {:induction false} EatSpacesShortens(s: string)
    ensures |EatSpaces(s)| == |s| ==> EatSpaces(s) == s
  {
  }

  lemma BlockBeforeSpace(kind: Kind, s: string, w: string)
    requires Spaces(w)
    ensures MatchBlock(kind, s + w) == Extended(MatchBlock(kind, s), w)
  {
    MarksHaveNoSpace(kind);
    EatBeforeSpace(s, w, Opener(kind));
    if Eat(s, Opener(kind)).Some? {
      var r := Eat(s, Opener(kind)).value;
      EatSpacesBeforeSpace(r, w);
      assert |EatSpaces(r)| == |r| <==> EatSpaces(r) == r by {
        EatSpacesShortens(r);
      }
      ConditionBeforeSpace(kind, EatSpaces(r), w);
      assert MatchCondition(kind, "").NoMatch?;
    }
  }

  lemma PassOnSpace(rule: Rule, before: string, w: string)
    requires rule.Block? && Spaces(w)
    ensures ReplaceAll(rule, before, "" + w) == ReplaceAll(rule, before, "") + w
  {
    SpacesUnmatched(rule, w, "");
    CopiesUnmatched(rule, before, w, "");
    assert "" + w == w == w + "";
  }

  lemma CopyBeforeSpace(rule: Rule, before: string, s: string, w: string)
    requires rule.Block? && s != "" && MatchBlock(rule.kind, s).NoMatch? && MatchBlock(rule.kind, s + w).NoMatch?
    requires ReplaceAll(rule, before + [s[0]], s[1..] + w) == ReplaceAll(rule, before + [s[0]], s[1..]) + w
    ensures ReplaceAll(rule, before, s + w) == ReplaceAll(rule, before, s) + w
  {
    HeadFirst("", s, w);
    HeadTail(s);
    CopiesOne(rule, before, s[0], s[1..] + w);
    CopiesOne(rule, before, s[0], s[1..]);
    Regroup([s[0]], ReplaceAll(rule, before + [s[0]], s[1..]), w);
  }

  lemma PrefixOfSum(s: string, w: string, n: nat)
    requires n <= |s|
    ensures (s + w)[..n] == s[..n]
  {
  }

  lemma MatchBeforeSpace(rule: Rule, before: string, s: string, m: Match, w: string)
    requires rule.Block? && s != "" && m == MatchBlock(rule.kind, s) && m.Match?
    requires MatchBlock(rule.kind, s + w) == Match(m.rest + w, m.name, m.content)
    requires var b := before + s[..|s| - |m.rest|]; ReplaceAll(rule, b, m.rest + w) == ReplaceAll(rule, b, m.rest) + w
    ensures ReplaceAll(rule, before, s + w) == ReplaceAll(rule, before, s) + w
  {
    var b, m' := before + s[..|s| - |m.rest|], Match(m.rest + w, m.name, m.content);
    BlockReplaced(rule, before, s, m);
    BlockReplaced(rule, before, s + w, m');
    PrefixOfSum(s, w, |s| - |m.rest|);
    assert |s + w| - |m'.rest| == |s| - |m.rest|;
    Regroup(Kept(rule, m), ReplaceAll(rule, b, m.rest), w);
  }

  lemma {:induction false} PassBeforeSpace(rule: Rule, before: string, s: string, w: string)
    requires rule.Block? && Spaces(w)
    ensures ReplaceAll(rule, before, s + w) == ReplaceAll(rule, before, s) + w
    decreases |s|
  {
    if s == "" {
      PassOnSpace(rule, before, w);
    } else {
      var m := MatchBlock(rule.kind, s);
      BlockBeforeSpace(rule.kind, s, w);
      if m.NoMatch? {
        PassBeforeSpace(rule, before + [s[0]], s[1..], w);
        CopyBeforeSpace(rule, before, s, w);
      } else {
        PassBeforeSpace(rule, before + s[..|s| - |m.rest|], m.rest, w);
        MatchBeforeSpace(rule, before, s, m, w);
      }
    }
  }

  lemma PassAfterSpace(rule: Rule, before: string, w: string, s: string)
    requires rule.Block? && Spaces(w)
    ensures ReplaceAll(rule, before, w + s) == w + ReplaceAll(rule, before + w, s)
  {
    SpacesUnmatched(rule, w, s);
    CopiesUnmatched(rule, before, w, s);
  }

  /** A pass over blocks does not look at what came before. */
  lemma {:induction false} PassIgnoresBefore(rule: Rule, b1: string, b2: string, s: string)
    requires rule.Block?
    ensures ReplaceAll(rule, b1, s) == ReplaceAll(rule, b2, s)
    decreases |s|
  {
    if s != "" {
      var m := MatchAt(rule, s);
      if m.NoMatch? {
        PassIgnoresBefore(rule, b1 + [s[0]], b2 + [s[0]], s[1..]);
      } else {
        PassIgnoresBefore(rule, b1 + s[..|s| - |m.rest|], b2 + s[..|s| - |m.rest|], m.rest);
      }
    }
  }

  lemma PassAroundSpace(rule: Rule, lead: string, s: string, trail: string)
    requires rule.Block? && Spaces(lead) && Spaces(trail)
    ensures Replace(rule, lead + s + trail) == lead + Replace(rule, s) + trail
  {
    PassBeforeSpace(rule, "", lead + s, trail);
    PassAfterSpace(rule, "", lead, s);
    PassIgnoresBefore(rule, "" + lead, "", s);
  }

  /** Conditional processing leaves whitespace around the text alone, so trimming first loses nothing else. */
  lemma ConditionedAroundSpace(lead: string, s: string, trail: string, vars: Bindings)
    requires Spaces(lead) && Spaces(trail)
    ensures Conditioned(lead + s + trail, vars) == lead + Conditioned(s, vars) + trail
  {
    PassAroundSpace(Block(If, vars), lead, s, trail);
    PassAroundSpace(Block(Unless, vars), lead, Replace(Block(If, vars), s), trail);
  }

  // ---------- The renderer ----------

  /**
   * The staged rewriting of a printed template computes its direct evaluation,
   * up to the whitespace around it.
   */
  lemma RenderingIsEvaluation(t: Template, vars: Bindings, config: Config)
    requires WellFormed(t) && Unnested(If, t) && Unnested(Unless, t) && Suits(vars, t, config)
    ensures Rendered(Print(t), vars, config) == Trim(Eval(t, vars, config))
  {
    var u := Prepared(t, vars, config);
    InterpolationMeaning(t, vars, config);
    PreparedKeeps(t, vars, config);
    ConditionsMeaning(u, vars);
    DecidedIsEval(t, vars, config);
    var lead, trail := TrimSplits(Print(u));
    ConditionedAroundSpace(lead, Trim(Print(u)), trail, vars);
    TrimIgnoresOuterSpace(lead, Conditioned(Trim(Print(u)), vars), trail);
  }

  // ---------- The domain, on raw values ----------

  /** Text without braces and dollar signs is inserted as it is, escaped or not. */
  lemma OrdinaryTextInsertable(b: (string, Value), config: Config)
    requires Name(b.0) && forall c <- Display(b.1) :: c !in "{}$"
    ensures Insertable(b, config) && !("{" <= Shown(b.1, config))
  {
    var shown := Shown(b.1, config);
    forall c | c in shown ensures c !in "{}$" {
      if c !in Display(b.1) {
        EscapeHtmlAdds(Display(b.1), c);
      }
    }
    assert forall i | 0 <= i < |shown| :: shown[i] in shown;
    PrefixAt("{", shown, 0);
  }

  // ---------- Triple braces ----------

  lemma {:induction false} EvalAppend(a: Template, b: Template, vars: Bindings, config: Config)
    ensures Eval(Append(a, b), vars, config) == Eval(a, vars, config) + Eval(b, vars, config)
  {
    match a
    case End =>
      assert "" + Eval(b, vars, config) == Eval(b, vars, config);
    case Lit(text, next) =>
      EvalAppend(next, b, vars, config);
      Regroup(text, Eval(next, vars, config), Eval(b, vars, config));
    case Hole(triple, lead, key, trail, next) =>
      EvalAppend(next, b, vars, config);
      Regroup(HoleValue(triple, lead, key, trail, vars, config), Eval(next, vars, config), Eval(b, vars, config));
    case Cond(kind, _, key, body, next) =>
      EvalAppend(next, b, vars, config);
      var kept := if Truthy(vars, key) == kind.If? then Eval(body, vars, config) else "";
      Regroup(kept, Eval(next, vars, config), Eval(b, vars, config));
  }

  /** Nothing for null and undefined, and otherwise the display text, with entities where escaping is on. */
  ghost function Text(v: Value, config: Config): string {
    match v
    case Nullish => ""
    case Present(display, _) => if config.autoEscape then EscapeHtml(display) else display
  }

  lemma ShownIsText(v: Value, config: Config)
    ensures Shown(v, config) == Text(v, config)
  {
    assert EscapeHtml("") == "";
  }

  /**
   * Triple braces do not give unescaped output: the double-brace loop comes
   * first and replaces the inner hole, so the shown text, escaped where escaping
   * is on, stands in single braces.
   */
  lemma TripleBracesKeepBraces(before: Template, lead: string, key: string, trail: string, after: Template,
                               vars: Bindings, config: Config)
    requires var t := Append(before, Hole(true, lead, key, trail, after));
             WellFormed(t) && Unnested(If, t) && Unnested(Unless, t) && Suits(vars, t, config)
    requires FirstFit(vars, key).Some?
    ensures Rendered(Print(before) + (Braces(HoleText(lead, key, trail)) + Print(after)), vars, config)
         == Trim(Eval(before, vars, config)
                 + (Braces(Text(FirstFit(vars, key).value, config)) + Eval(after, vars, config)))
  {
    var hole := Hole(true, lead, key, trail, after);
    PrintAppend(before, hole);
    EvalAppend(before, hole, vars, config);
    RenderingIsEvaluation(Append(before, hole), vars, config);
    assert Shown(FirstFit(vars, key).value, config) == Text(FirstFit(vars, key).value, config) by {
      ShownIsText(FirstFit(vars, key).value, config);
    }
  }

  // ---------- render ----------

  datatype Field =
    | Subject | Preheader | Body | HtmlBody | TextBody | Sms
    | PushTitle | PushBody | PushSubtitle | Whatsapp | InAppTitle | InAppBody

  /** The fields that `render` passes on to conditional processing. */
  const CONDITIONAL: set<Field> := {Subject, Body, HtmlBody, TextBody, Sms}

  datatype Stored = Stored(texts: map<Field, string>, defaults: Bindings, required: seq<string>, config: Config)

  function Put(a: Bindings, b: (string, Value)): Bindings {
    if a == [] then [b]
    else if a[0].0 == b.0 then [b] + a[1..]
    else [a[0]] + Put(a[1..], b)
  }

  /** `{...a, ...b}`: entries of `b` replace those of `a` in place or are added at the end. */
  function Spread(a: Bindings, b: Bindings): Bindings
    decreases |b|
  {
    if b == [] then a else Spread(Put(a, b[0]), b[1..])
  }

  function AllVars(stored: Stored, vars: Bindings, additional: Bindings): Bindings {
    Spread(Spread(stored.defaults, vars), additional)
  }

  function TextOf(stored: Stored, field: Field): string {
    if field in stored.texts then stored.texts[field] else ""
  }

  function RenderedField(stored: Stored, field: Field, vars: Bindings): string {
    var s := Interpolated(TextOf(stored, field), vars, stored.config);
    if field in CONDITIONAL then Conditioned(s, vars) else s
  }

  predicate HasRequired(stored: Stored, all: Bindings) {
    forall name <- stored.required :: Truthy(all, name)
  }

  function RenderWith(stored: Stored, all: Bindings, field: Field): Result<string, string> {
    if HasRequired(stored, all) then Ok(RenderedField(stored, field, all))
    else Throws("Missing required variables")
  }

  function Render(found: Option<Stored>, vars: Bindings, additional: Bindings, field: Field): Result<string, string> {
    if found.None? then Throws("Template not found")
    else RenderWith(found.value, AllVars(found.value, vars, additional), field)
  }

  lemma {:induction false} PutLookup(a: Bindings, b: (string, Value), name: string)
    ensures Lookup(Put(a, b), name) == if name == b.0 then b.1 else Lookup(a, name)
  {
    if a != [] && a[0].0 != b.0 {
      PutLookup(a[1..], b, name);
    }
  }

  predicate Names(vars: Bindings, name: string) {
    exists b <- vars :: b.0 == name
  }

  /** As in an object, no property occurs twice. */
  predicate Object(vars: Bindings) {
    forall i, j | 0 <= i < j < |vars| :: vars[i].0 != vars[j].0
  }

  /** Later sources win. */
  lemma {:induction false} SpreadLookup(a: Bindings, b: Bindings, name: string)
    requires Object(b)
    ensures Lookup(Spread(a, b), name) == if Names(b, name) then Lookup(b, name) else Lookup(a, name)
    decreases |b|
  {
    if b != [] {
      SpreadLookup(Put(a, b[0]), b[1..], name);
      PutLookup(a, b[0], name);
      if b[0].0 == name {
        assert !Names(b[1..], name);
      } else {
        assert Names(b, name) <==> Names(b[1..], name) by {
          assert b == [b[0]] + b[1..];
        }
      }
    }
  }

  /** A name counts as given when the last of the three sources that has it has a truthy value for it. */
  ghost predicate Given(stored: Stored, vars: Bindings, additional: Bindings, name: string) {
    if Names(additional, name) then Truthy(additional, name)
    else if Names(vars, name) then Truthy(vars, name)
    else Truthy(stored.defaults, name)
  }

  lemma GivenIsTruthy(stored: Stored, vars: Bindings, additional: Bindings, name: string)
    requires Object(vars) && Object(additional)
    ensures Truthy(AllVars(stored, vars, additional), name) <==> Given(stored, vars, additional, name)
  {
    SpreadLookup(stored.defaults, vars, name);
    SpreadLookup(Spread(stored.defaults, vars), additional, name);
  }

  /** A stored template throws exactly when a required variable is not given. */
  lemma ThrowsIff(stored: Stored, vars: Bindings, additional: Bindings, field: Field)
    requires Object(vars) && Object(additional)
    ensures Render(Some(stored), vars, additional, field).Throws?
       <==> exists name <- stored.required :: !Given(stored, vars, additional, name)
  {
    var all := AllVars(stored, vars, additional);
    forall name | name in stored.required
      ensures Truthy(all, name) <==> Given(stored, vars, additional, name)
    {
      GivenIsTruthy(stored, vars, additional, name);
    }
  }

  predicate HasBlocksDecided(field: Field) {
    field == Subject || field == Body || field == HtmlBody || field == TextBody || field == Sms
  }

  /** Only five of the fields have their blocks decided; the others keep them as they were written. */
  ghost predicate FieldMeans(out: string, field: Field, t: Template, all: Bindings, config: Config) {
    if HasBlocksDecided(field) then Trim(out) == Trim(Eval(t, all, config))
    else out == Trim(Print(Prepared(t, all, config)))
  }

  /** Texts and variables for which a field is rendered as intended. */
  ghost predicate Renderable(t: Template, all: Bindings, field: Field, config: Config) {
    WellFormed(t) && Suits(all, t, config) && (HasBlocksDecided(field) ==> Unnested(If, t) && Unnested(Unless, t))
  }

  lemma ConditionalFields(field: Field)
    ensures field in CONDITIONAL <==> HasBlocksDecided(field)
  {
  }

  lemma DecidedFieldMeaning(stored: Stored, field: Field, all: Bindings, t: Template)
    requires TextOf(stored, field) == Print(t) && Renderable(t, all, field, stored.config)
    requires HasBlocksDecided(field) && field in CONDITIONAL
    ensures Trim(RenderedField(stored, field, all)) == Trim(Eval(t, all, stored.config))
  {
    RenderingIsEvaluation(t, all, stored.config);
  }

  lemma FieldMeaning(stored: Stored, field: Field, all: Bindings, t: Template)
    requires TextOf(stored, field) == Print(t) && Renderable(t, all, field, stored.config)
    ensures FieldMeans(RenderedField(stored, field, all), field, t, all, stored.config)
  {
    ConditionalFields(field);
    if HasBlocksDecided(field) {
      DecidedFieldMeaning(stored, field, all, t);
    } else {
      InterpolationMeaning(t, all, stored.config);
    }
  }

  lemma RenderedMeans(stored: Stored, all: Bindings, field: Field, t: Template)
    requires TextOf(stored, field) == Print(t) && Renderable(t, all, field, stored.config)
    ensures RenderWith(stored, all, field).Ok? ==>
              FieldMeans(RenderWith(stored, all, field).value, field, t, all, stored.config)
  {
    FieldMeaning(stored, field, all, t);
  }

  /**
   * `render` of a stored template throws exactly when a required variable is not
   * given by the last source that has it, and otherwise gives what the template
   * means under the merge of the three sources.
   */
  lemma RenderMeaning(stored: Stored, vars: Bindings, additional: Bindings, field: Field, t: Template)
    requires Object(vars) && Object(additional)
    requires TextOf(stored, field) == Print(t)
    requires Renderable(t, AllVars(stored, vars, additional), field, stored.config)
    ensures Render(Some(stored), vars, additional, field).Throws?
       <==> exists name <- stored.required :: !Given(stored, vars, additional, name)
    ensures Render(Some(stored), vars, additional, field).Ok? ==>
              FieldMeans(Render(Some(stored), vars, additional, field).value, field, t,
                         AllVars(stored, vars, additional), stored.config)
  {
    ThrowsIff(stored, vars, additional, field);
    RenderedMeans(stored, AllVars(stored, vars, additional), field, t);
  }
}
