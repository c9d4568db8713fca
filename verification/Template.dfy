/** The template language that `_interpolate` and `_processConditionals` evaluate by rewriting. */
module Template {
  import opened Wrappers
  import opened Characters
  import opened Replacing
  import opened Escaping

  /** A template is a list of pieces; a block holds the list of its own. */
  datatype Template =
    | End
    | Lit(text: string, next: Template)
    | Hole(triple: bool, lead: string, key: string, trail: string, next: Template)
    | Cond(kind: Kind, gap: string, key: string, body: Template, next: Template)

  function HoleText(lead: string, key: string, trail: string): string {
    "{{" + (lead + (key + (trail + "}}")))
  }

  /** Text in one more pair of braces. */
  function Braces(s: string): string {
    "{" + (s + "}")
  }

  /** Three braces around a name are two braces around it, in braces. */
  function Spelled(triple: bool, lead: string, key: string, trail: string): string {
    if triple then Braces(HoleText(lead, key, trail)) else HoleText(lead, key, trail)
  }

  function OpenText(kind: Kind, gap: string, key: string): string {
    Opener(kind) + (gap + (key + "}}"))
  }

  /** The concrete syntax. */
  function Print(t: Template): string {
    match t
    case End => ""
    case Lit(text, next) => text + Print(next)
    case Hole(triple, lead, key, trail, next) => Spelled(triple, lead, key, trail) + Print(next)
    case Cond(kind, gap, key, body, next) =>
      OpenText(kind, gap, key) + (Print(body) + (Closer(kind) + Print(next)))
  }

  // ---------- Direct evaluation ----------

  datatype Config = Config(autoEscape: bool, strict: bool)

  function Display(v: Value): string {
    if v.Nullish? then "" else v.display
  }

  function Shown(v: Value, config: Config): string {
    if config.autoEscape then EscapeHtml(Display(v)) else Display(v)
  }

  /** Holes are looked up without regard to case; the first entry that fits wins. */
  function FirstFit(vars: Bindings, key: string): (r: Option<Value>)
    ensures r.Some? ==> exists b <- vars :: SameName(key, b.0) && r.value == b.1
    ensures r.None? ==> forall b <- vars :: !SameName(key, b.0)
  {
    if vars == [] then None
    else if SameName(key, vars[0].0) then Some(vars[0].1)
    else FirstFit(vars[1..], key)
  }

  /** What a hole of either form shows when it is filled. */
  function Filling(triple: bool, shown: string): string {
    if triple then Braces(shown) else shown
  }

  /**
   * What a hole means. In strict mode a hole without a variable stays as it was
   * written. A filled triple hole keeps a pair of braces: its inner two pairs go
   * with the name.
   */
  function HoleValue(triple: bool, lead: string, key: string, trail: string, vars: Bindings, config: Config): string {
    match FirstFit(vars, key)
    case Some(v) => Filling(triple, Shown(v, config))
    case None => if config.strict then Spelled(triple, lead, key, trail) else ""
  }

  /** What a template means. Conditions, unlike holes, are looked up by exact name. */
  function Eval(t: Template, vars: Bindings, config: Config): string {
    match t
    case End => ""
    case Lit(text, next) => text + Eval(next, vars, config)
    case Hole(triple, lead, key, trail, next) =>
      HoleValue(triple, lead, key, trail, vars, config) + Eval(next, vars, config)
    case Cond(kind, _, key, body, next) =>
      (if Truthy(vars, key) == kind.If? then Eval(body, vars, config) else "") + Eval(next, vars, config)
  }

  // ---------- The domain on which rewriting and evaluation agree ----------

  /** Every `{` is followed, within `s`, by something that is not another. */
  predicate Calm(s: string) {
    forall i | 0 <= i < |s| && s[i] == '{' :: i + 1 < |s| && s[i + 1] != '{'
  }

  /** Text that cannot take part in a marker, whatever stands around it. */
  predicate Inert(s: string) {
    Calm(s) && (s == "" || s[0] != '}')
  }

  predicate WellFormed(t: Template) {
    match t
    case End => true
    case Lit(text, next) => Inert(text) && WellFormed(next)
    case Hole(_, lead, key, trail, next) => Spaces(lead) && Name(key) && Spaces(trail) && WellFormed(next)
    case Cond(_, gap, key, body, next) =>
      gap != "" && Spaces(gap) && Name(key) && WellFormed(body) && WellFormed(next)
  }

  predicate Lacks(kind: Kind, t: Template) {
    match t
    case End => true
    case Lit(_, next) => Lacks(kind, next)
    case Hole(_, _, _, _, next) => Lacks(kind, next)
    case Cond(k, _, _, body, next) => k != kind && Lacks(kind, body) && Lacks(kind, next)
  }

  /** No block of this kind inside another of the same kind, at any depth. */
  predicate Unnested(kind: Kind, t: Template) {
    match t
    case End => true
    case Lit(_, next) => Unnested(kind, next)
    case Hole(_, _, _, _, next) => Unnested(kind, next)
    case Cond(k, _, _, body, next) =>
      (if k == kind then Lacks(kind, body) else Unnested(kind, body)) && Unnested(kind, next)
  }

  /** A variable whose name is `\w+` and whose shown text is inert and has no special `$`. */
  predicate Insertable(b: (string, Value), config: Config) {
    Name(b.0) && Inert(Shown(b.1, config)) && Plain(Shown(b.1, config))
  }

  predicate NoTriples(t: Template) {
    match t
    case End => true
    case Lit(_, next) => NoTriples(next)
    case Hole(triple, _, _, _, next) => !triple && NoTriples(next)
    case Cond(_, _, _, body, next) => NoTriples(body) && NoTriples(next)
  }

  predicate AllInsertable(vars: Bindings, config: Config) {
    forall b <- vars :: Insertable(b, config)
  }

  /** No shown text makes two opening braces of the one that a triple hole leaves. */
  predicate Unbraced(vars: Bindings, config: Config) {
    forall b <- vars :: !("{" <= Shown(b.1, config))
  }

  /** Variables that can be filled into `t`. */
  predicate Suits(vars: Bindings, t: Template, config: Config) {
    AllInsertable(vars, config) && (NoTriples(t) || Unbraced(vars, config))
  }

  // ---------- Transformations that the rewriting passes perform ----------

  /** Fill the holes that fit one variable. */
  function Fill(t: Template, name: string, shown: string): Template {
    match t
    case End => End
    case Lit(text, next) => Lit(text, Fill(next, name, shown))
    case Hole(triple, lead, key, trail, next) =>
      if SameName(key, name) then Lit(Filling(triple, shown), Fill(next, name, shown))
      else Hole(triple, lead, key, trail, Fill(next, name, shown))
    case Cond(kind, gap, key, body, next) =>
      Cond(kind, gap, key, Fill(body, name, shown), Fill(next, name, shown))
  }

  /** Fill every hole at once. */
  function FillAll(t: Template, vars: Bindings, config: Config): Template {
    match t
    case End => End
    case Lit(text, next) => Lit(text, FillAll(next, vars, config))
    case Hole(triple, lead, key, trail, next) =>
      (match FirstFit(vars, key)
       case Some(v) => Lit(Filling(triple, Shown(v, config)), FillAll(next, vars, config))
       case None => Hole(triple, lead, key, trail, FillAll(next, vars, config)))
    case Cond(kind, gap, key, body, next) =>
      Cond(kind, gap, key, FillAll(body, vars, config), FillAll(next, vars, config))
  }

  /** Drop the holes that are left. */
  function DropHoles(t: Template): Template {
    match t
    case End => End
    case Lit(text, next) => Lit(text, DropHoles(next))
    case Hole(_, _, _, _, next) => DropHoles(next)
    case Cond(kind, gap, key, body, next) => Cond(kind, gap, key, DropHoles(body), DropHoles(next))
  }

  function Append(a: Template, b: Template): Template {
    match a
    case End => b
    case Lit(text, next) => Lit(text, Append(next, b))
    case Hole(triple, lead, key, trail, next) => Hole(triple, lead, key, trail, Append(next, b))
    case Cond(kind, gap, key, body, next) => Cond(kind, gap, key, body, Append(next, b))
  }

  /** Decide the blocks of one kind. */
  function Decide(kind: Kind, t: Template, vars: Bindings): Template {
    match t
    case End => End
    case Lit(text, next) => Lit(text, Decide(kind, next, vars))
    case Hole(triple, lead, key, trail, next) => Hole(triple, lead, key, trail, Decide(kind, next, vars))
    case Cond(k, gap, key, body, next) =>
      var rest := Decide(kind, next, vars);
      if k != kind then Cond(k, gap, key, Decide(kind, body, vars), rest)
      else if Truthy(vars, key) == kind.If? then Append(body, rest)
      else rest
  }
}
