/** The configuration: an override merged into a base, and lookup by dotted path. */
module SharedConfig {
  import opened Collections
  import opened Wrappers

  /**
   * A configuration value. Scalars are what spreads to nothing: numbers,
   * booleans and null, and strings as long as no object is merged onto them.
   * Undefined can be stored, as when an environment variable is unset.
   */
  datatype Json = Undefined | Scalar(text: string) | Object(fields: map<string, Json>)

  type Path = seq<string>

  /** What `{...target}` copies. */
  function Spread(target: Json): map<string, Json> {
    if target.Object? then target.fields else map[]
  }

  /**
   * `deepMerge` does not throw. It does when it asks `key in target` of a target
   * that is no object, which it asks only where the override holds an object.
   */
  ghost predicate Defined(target: Json, source: Json)
    requires source.Object?
    decreases source
  {
    forall k | k in source.fields && source.fields[k].Object? ::
      target.Object? && (k in target.fields ==> Defined(target.fields[k], source.fields[k]))
  }

  ghost function Merged(target: Json, source: Json): (r: Json)
    requires source.Object? && Defined(target, source)
    ensures r.Object?
    decreases source
  {
    var base := Spread(target);
    Object(base + map k | k in source.fields ::
             if source.fields[k].Object? && k in base then Merged(base[k], source.fields[k]) else source.fields[k])
  }

  /** What the loop stores under one key. */
  ghost predicate DefinedAt(target: Json, k: string, value: Json) {
    value.Object? ==> target.Object? && (k in target.fields ==> Defined(target.fields[k], value))
  }

  ghost function MergedValue(target: Json, k: string, value: Json): Json
    requires DefinedAt(target, k, value)
  {
    if value.Object? && k in Spread(target) then Merged(Spread(target)[k], value) else value
  }

  lemma DefinedOneMore(target: Json, done: map<string, Json>, k: string, value: Json)
    requires k !in done && Defined(target, Object(done))
    ensures Defined(target, Object(done[k := value])) <==> DefinedAt(target, k, value)
  {
    var more := done[k := value];
    if Defined(target, Object(more)) {
      assert k in Object(more).fields && Object(more).fields[k] == value;
    }
  }

  lemma MergedOneMore(target: Json, done: map<string, Json>, k: string, value: Json)
    requires k !in done && Defined(target, Object(done)) && DefinedAt(target, k, value)
    ensures Defined(target, Object(done[k := value]))
    ensures Merged(target, Object(done[k := value])).fields
         == Merged(target, Object(done)).fields[k := MergedValue(target, k, value)]
  {
    DefinedOneMore(target, done, k, value);
  }

  lemma MergedNothing(target: Json)
    ensures Defined(target, Object(map[])) && Merged(target, Object(map[])) == Object(Spread(target))
  {
    assert Merged(target, Object(map[])).fields == Spread(target);
  }

  lemma UndefinedAtKey(target: Json, source: Json, k: string)
    requires source.Object? && k in source.fields && !DefinedAt(target, k, source.fields[k])
    ensures !Defined(target, source)
  {
  }

  /** `deepMerge`, which fills a fresh object key by key. */
  method DeepMerge(target: Json, source: Json) returns (r: Result<Json, string>)
    requires source.Object?
    ensures r.Ok? <==> Defined(target, source)
    ensures r.Ok? ==> r.value == Merged(target, source)
    decreases source
  {
    var output := Spread(target);
    var todo := source.fields.Keys;
    ghost var done: map<string, Json> := map[];
    MergedNothing(target);
    while todo != {}
      invariant Progress(source.fields, done, todo)
      invariant Defined(target, Object(done)) && output == Merged(target, Object(done)).fields
      decreases todo
    {
      var key :| key in todo;
      var value := source.fields[key];
      if value.Object? && !target.Object? {
        UndefinedAtKey(target, source, key);
        return Throws("Cannot use 'in' operator");
      }
      if value.Object? && key in target.fields {
        var inner := DeepMerge(target.fields[key], value);
        if inner.Throws? {
          UndefinedAtKey(target, source, key);
          return inner;
        }
        output := output[key := inner.value];
      } else {
        output := output[key := value];
      }
      MergedOneMore(target, done, key, value);
      done := done[key := value];
      todo := todo - {key};
    }
    assert Object(done) == source;
    return Ok(Object(output));
  }

  // ---------- Lookup ----------

  /** The reduce with `?.` over the parts of a path. */
  function Lookup(config: Json, path: Path): Json {
    if path == [] then config
    else if config.Object? && path[0] in config.fields then Lookup(config.fields[path[0]], path[1..])
    else Undefined
  }

  /** Every key of the path is there. */
  predicate Has(config: Json, path: Path) {
    path == [] || (config.Object? && path[0] in config.fields && Has(config.fields[path[0]], path[1..]))
  }

  /** How a path fares in the override. */
  datatype Fate = Ends(value: Json) | FallsOff | PastScalar

  function FateOf(source: Json, path: Path): Fate {
    if path == [] then Ends(source)
    else if !source.Object? then PastScalar
    else if path[0] !in source.fields then FallsOff
    else FateOf(source.fields[path[0]], path[1..])
  }

  lemma MergedAt(t: Json, s: Json, k: string)
    requires s.Object? && Defined(t, s)
    ensures k in Merged(t, s).fields <==> k in Spread(t) || k in s.fields
    ensures k in s.fields && s.fields[k].Object? && k in Spread(t) ==>
              Defined(Spread(t)[k], s.fields[k]) && Merged(t, s).fields[k] == Merged(Spread(t)[k], s.fields[k])
    ensures k in s.fields && !(s.fields[k].Object? && k in Spread(t)) ==> Merged(t, s).fields[k] == s.fields[k]
    ensures k !in s.fields && k in Spread(t) ==> Merged(t, s).fields[k] == Spread(t)[k]
  {
  }

  /** An override that met nothing is looked up as it is. */
  lemma {:induction false} UnmergedLookup(s: Json, path: Path)
    ensures Lookup(s, path) == match FateOf(s, path) case Ends(v) => v case _ => Undefined
    decreases |path|
  {
    if path != [] && s.Object? && path[0] in s.fields {
      UnmergedLookup(s.fields[path[0]], path[1..]);
    }
  }

  /** A lookup in the merged configuration is determined by the two inputs. */
  lemma {:induction false} LookupAfterMerge(t: Json, s: Json, path: Path)
    requires s.Object? && Defined(t, s)
    ensures match FateOf(s, path)
            case Ends(v) =>
              if v.Object? && Has(t, path)
              then Defined(Lookup(t, path), v) && Lookup(Merged(t, s), path) == Merged(Lookup(t, path), v)
              else Lookup(Merged(t, s), path) == v
            case FallsOff => Lookup(Merged(t, s), path) == Lookup(t, path)
            case PastScalar => Lookup(Merged(t, s), path) == Undefined
    decreases |path|
  {
    if path != [] {
      var k, rest := path[0], path[1..];
      MergedAt(t, s, k);
      if k in s.fields && s.fields[k].Object? {
        if k in Spread(t) {
          LookupAfterMerge(t.fields[k], s.fields[k], rest);
        } else {
          UnmergedLookup(s.fields[k], rest);
        }
      } else if k in s.fields {
        UnmergedLookup(s.fields[k], rest);
      }
    }
  }

  // ---------- Algebra ----------

  const EMPTY := Object(map[])

  lemma EmptyIsLeftIdentity(s: Json)
    requires s.Object?
    ensures Defined(EMPTY, s) && Merged(EMPTY, s) == s
  {
    assert Merged(EMPTY, s).fields == s.fields;
  }

  lemma EmptyIsRightIdentity(t: Json)
    requires t.Object?
    ensures Defined(t, EMPTY) && Merged(t, EMPTY) == t
  {
    assert Merged(t, EMPTY).fields == t.fields;
  }

  /** Onto a scalar, where that is possible at all, the override goes as it is. */
  lemma MergedOntoScalar(t: Json, s: Json)
    requires s.Object? && Defined(t, s) && !t.Object?
    ensures Merged(t, s) == s
  {
    assert Merged(t, s).fields == s.fields;
  }

  lemma {:induction false} SelfMerge(s: Json)
    requires s.Object?
    ensures Defined(s, s) && Merged(s, s) == s
    decreases s
  {
    forall k | k in s.fields && s.fields[k].Object?
      ensures Defined(s.fields[k], s.fields[k]) && Merged(s.fields[k], s.fields[k]) == s.fields[k]
    {
      SelfMerge(s.fields[k]);
    }
    assert Merged(s, s).fields == s.fields;
  }

  lemma {:induction false} MergeIsIdempotent(t: Json, s: Json)
    requires s.Object? && Defined(t, s)
    ensures Defined(Merged(t, s), s) && Merged(Merged(t, s), s) == Merged(t, s)
    decreases s
  {
    var once := Merged(t, s);
    forall k | k in s.fields && s.fields[k].Object?
      ensures k in once.fields && Defined(once.fields[k], s.fields[k])
              && Merged(once.fields[k], s.fields[k]) == once.fields[k]
    {
      MergedAt(t, s, k);
      if k in Spread(t) {
        MergeIsIdempotent(Spread(t)[k], s.fields[k]);
      } else {
        SelfMerge(s.fields[k]);
      }
    }
    assert Merged(once, s).fields == once.fields;
  }

  /** Everything that `a` sets, `c` sets again. */
  ghost predicate Covers(c: Json, a: Json)
    requires c.Object? && a.Object?
    decreases c
  {
    forall k | k in a.fields ::
      k in c.fields && (c.fields[k].Object? && a.fields[k].Object? ==> Covers(c.fields[k], a.fields[k]))
  }

  lemma {:induction false} CoversIffAbsorbs(a: Json, c: Json)
    requires a.Object? && c.Object? && Defined(a, c)
    ensures Merged(a, c) == c <==> Covers(c, a)
    decreases c
  {
    forall k | k in a.fields && k in c.fields && c.fields[k].Object?
      ensures a.fields[k].Object? ==> (Merged(a.fields[k], c.fields[k]) == c.fields[k] <==> Covers(c.fields[k], a.fields[k]))
      ensures !a.fields[k].Object? ==> Merged(a.fields[k], c.fields[k]) == c.fields[k]
    {
      if a.fields[k].Object? {
        CoversIffAbsorbs(a.fields[k], c.fields[k]);
      } else {
        MergedOntoScalar(a.fields[k], c.fields[k]);
      }
    }
    var m := Merged(a, c);
    if Covers(c, a) {
      assert m.fields == c.fields;
    }
    if m == c {
      forall k | k in a.fields
        ensures k in c.fields && (c.fields[k].Object? && a.fields[k].Object? ==> Covers(c.fields[k], a.fields[k]))
      {
        MergedAt(a, c, k);
      }
    }
  }

  /**
   * Where the outer two configurations hold objects and the middle one a scalar,
   * the last one sets everything that the first one sets.
   */
  ghost predicate Compatible(a: Json, b: Json, c: Json)
    requires a.Object? && b.Object? && c.Object?
    decreases c
  {
    forall k | k in a.fields && k in b.fields && k in c.fields && a.fields[k].Object? && c.fields[k].Object? ::
      if b.fields[k].Object? then Compatible(a.fields[k], b.fields[k], c.fields[k])
      else Covers(c.fields[k], a.fields[k])
  }

  /** Merging the first two first does not throw. */
  ghost predicate LeftDefined(a: Json, b: Json, c: Json)
    requires b.Object? && c.Object?
  {
    Defined(a, b) && Defined(Merged(a, b), c)
  }

  /** Merging the last two first does not throw. */
  ghost predicate RightDefined(a: Json, b: Json, c: Json)
    requires b.Object? && c.Object?
  {
    Defined(b, c) && Defined(a, Merged(b, c))
  }

  ghost predicate AllDefined(a: Json, b: Json, c: Json)
    requires b.Object? && c.Object?
  {
    LeftDefined(a, b, c) && RightDefined(a, b, c)
  }

  /** The two ways to merge three configurations agree on one key. */
  ghost predicate AgreeAt(a: Json, b: Json, c: Json, k: string)
    requires a.Object? && b.Object? && c.Object? && AllDefined(a, b, c)
  {
    var left, right := Merged(Merged(a, b), c).fields, Merged(a, Merged(b, c)).fields;
    (k in left <==> k in right) && (k in left ==> left[k] == right[k])
  }

  ghost predicate CompatibleAt(a: Json, b: Json, c: Json, k: string)
    requires a.Object? && b.Object? && c.Object?
  {
    k in a.fields && k in b.fields && k in c.fields && a.fields[k].Object? && c.fields[k].Object? ==>
      if b.fields[k].Object? then Compatible(a.fields[k], b.fields[k], c.fields[k])
      else Covers(c.fields[k], a.fields[k])
  }

  lemma {:induction false} AgreeAtIff(a: Json, b: Json, c: Json, k: string)
    requires a.Object? && b.Object? && c.Object? && AllDefined(a, b, c)
    ensures AgreeAt(a, b, c, k) <==> CompatibleAt(a, b, c, k)
    decreases c, 0
  {
    var ab, bc := Merged(a, b), Merged(b, c);
    MergedAt(a, b, k);
    MergedAt(ab, c, k);
    MergedAt(b, c, k);
    MergedAt(a, bc, k);
    if k in b.fields && k in c.fields && c.fields[k].Object? {
      if !b.fields[k].Object? {
        MergedOntoScalar(b.fields[k], c.fields[k]);
        if k in a.fields {
          if a.fields[k].Object? {
            CoversIffAbsorbs(a.fields[k], c.fields[k]);
          } else {
            MergedOntoScalar(a.fields[k], c.fields[k]);
          }
        }
      } else if k in a.fields {
        if a.fields[k].Object? {
          AssociativeIff(a.fields[k], b.fields[k], c.fields[k]);
        } else {
          MergedOntoScalar(a.fields[k], b.fields[k]);
          MergedOntoScalar(a.fields[k], Merged(b.fields[k], c.fields[k]));
        }
      }
    }
  }

  /** Where all four merges are possible, merging is associative exactly for compatible configurations. */
  lemma {:induction false} AssociativeIff(a: Json, b: Json, c: Json)
    requires a.Object? && b.Object? && c.Object? && AllDefined(a, b, c)
    ensures Merged(Merged(a, b), c) == Merged(a, Merged(b, c)) <==> Compatible(a, b, c)
    decreases c, 1
  {
    var left, right := Merged(Merged(a, b), c), Merged(a, Merged(b, c));
    forall k ensures AgreeAt(a, b, c, k) <==> CompatibleAt(a, b, c, k) {
      AgreeAtIff(a, b, c, k);
    }
    if Compatible(a, b, c) {
      forall k ensures (k in left.fields <==> k in right.fields)
                       && (k in left.fields ==> left.fields[k] == right.fields[k]) {
        assert CompatibleAt(a, b, c, k);
        assert AgreeAt(a, b, c, k);
      }
      assert left.fields == right.fields;
    }
    if left == right {
      forall k | k in a.fields && k in b.fields && k in c.fields && a.fields[k].Object? && c.fields[k].Object?
        ensures if b.fields[k].Object? then Compatible(a.fields[k], b.fields[k], c.fields[k])
                else Covers(c.fields[k], a.fields[k])
      {
        assert AgreeAt(a, b, c, k);
        assert CompatibleAt(a, b, c, k);
      }
    }
  }

  // ---------- When only one grouping throws ----------

  /** No value is an object. */
  ghost predicate Flat(s: Json)
    requires s.Object?
  {
    forall k | k in s.fields :: !s.fields[k].Object?
  }

  /**
   * Onto a value of the first that is no object, the middle one puts an object
   * and the last one an object in it.
   */
  ghost predicate Overreach(a: Json, b: Json, c: Json)
    requires a.Object? && b.Object? && c.Object?
    decreases c, 1
  {
    exists k | k in a.fields && k in b.fields && k in c.fields :: OverreachAt(a, b, c, k)
  }

  ghost predicate OverreachAt(a: Json, b: Json, c: Json, k: string)
    requires a.Object? && b.Object? && c.Object? && k in a.fields && k in b.fields && k in c.fields
    decreases c, 0
  {
    && b.fields[k].Object? && c.fields[k].Object?
    && if a.fields[k].Object? then Overreach(a.fields[k], b.fields[k], c.fields[k]) else !Flat(c.fields[k])
  }

  /**
   * The middle one does not merge onto the first, and the last one replaces
   * what stands in the way.
   */
  ghost predicate Rescue(a: Json, b: Json, c: Json)
    requires a.Object? && b.Object? && c.Object?
    decreases c, 1
  {
    exists k | k in a.fields && k in b.fields && k in c.fields :: RescueAt(a, b, c, k)
  }

  ghost predicate RescueAt(a: Json, b: Json, c: Json, k: string)
    requires a.Object? && b.Object? && c.Object? && k in a.fields && k in b.fields && k in c.fields
    decreases c, 0
  {
    && b.fields[k].Object?
    && if a.fields[k].Object? && c.fields[k].Object? then Rescue(a.fields[k], b.fields[k], c.fields[k])
       else !Defined(a.fields[k], b.fields[k])
  }

  lemma FlatIsDefined(t: Json, s: Json)
    requires s.Object? && Flat(s)
    ensures Defined(t, s)
  {
  }

  lemma FlatIff(t: Json, s: Json)
    requires s.Object? && !t.Object?
    ensures Defined(t, s) <==> Flat(s)
  {
  }

  /** What is merged in under a key is there after the merge. */
  lemma MergedIsNotFlat(t: Json, s: Json)
    requires s.Object? && Defined(t, s) && !Flat(s)
    ensures !Flat(Merged(t, s))
  {
    var k :| k in s.fields && s.fields[k].Object?;
    MergedAt(t, s, k);
  }

  lemma MergedIsFlat(t: Json, s: Json)
    requires t.Object? && s.Object? && Defined(t, s) && Flat(t) && Flat(s)
    ensures Flat(Merged(t, s))
  {
    forall k | k in Merged(t, s).fields ensures !Merged(t, s).fields[k].Object? {
      MergedAt(t, s, k);
    }
  }

  ghost predicate ThreeObjects(a: Json, b: Json, c: Json, k: string)
    requires a.Object? && b.Object? && c.Object?
  {
    && k in a.fields && k in b.fields && k in c.fields
    && a.fields[k].Object? && b.fields[k].Object? && c.fields[k].Object?
  }

  lemma LeftBelow(a: Json, b: Json, c: Json, k: string)
    requires a.Object? && b.Object? && c.Object? && LeftDefined(a, b, c) && ThreeObjects(a, b, c, k)
    ensures LeftDefined(a.fields[k], b.fields[k], c.fields[k])
  {
    MergedAt(a, b, k);
  }

  lemma RightBelow(a: Json, b: Json, c: Json, k: string)
    requires a.Object? && b.Object? && c.Object? && RightDefined(a, b, c) && ThreeObjects(a, b, c, k)
    ensures RightDefined(a.fields[k], b.fields[k], c.fields[k])
  {
    MergedAt(b, c, k);
  }

  // Merging the last two, when the other grouping does not throw.

  lemma LastTwo(a: Json, b: Json, c: Json, k: string)
    requires a.Object? && b.Object? && c.Object? && LeftDefined(a, b, c)
    requires k in b.fields && k in c.fields && c.fields[k].Object?
    requires ThreeObjects(a, b, c, k) ==> RightDefined(a.fields[k], b.fields[k], c.fields[k])
    ensures Defined(b.fields[k], c.fields[k])
  {
    MergedAt(a, b, k);
    if k in a.fields && b.fields[k].Object? && !a.fields[k].Object? {
      MergedOntoScalar(a.fields[k], b.fields[k]);
    }
  }

  lemma OntoFirst(a: Json, b: Json, c: Json, k: string)
    requires a.Object? && b.Object? && c.Object? && LeftDefined(a, b, c) && Defined(b, c)
    requires k in a.fields && k in Merged(b, c).fields && Merged(b, c).fields[k].Object?
    requires k in b.fields && k in c.fields ==> !OverreachAt(a, b, c, k)
    requires ThreeObjects(a, b, c, k) ==> RightDefined(a.fields[k], b.fields[k], c.fields[k])
    ensures Defined(a.fields[k], Merged(b, c).fields[k])
  {
    MergedAt(a, b, k);
    MergedAt(b, c, k);
    if k in b.fields && k in c.fields && !ThreeObjects(a, b, c, k) {
      if !b.fields[k].Object? {
        MergedOntoScalar(b.fields[k], c.fields[k]);
        FlatIff(b.fields[k], c.fields[k]);
        FlatIsDefined(a.fields[k], c.fields[k]);
      } else {
        FlatIff(a.fields[k], b.fields[k]);
        MergedIsFlat(b.fields[k], c.fields[k]);
        FlatIsDefined(a.fields[k], Merged(b.fields[k], c.fields[k]));
      }
    }
  }

  lemma OverreachThrows(a: Json, b: Json, c: Json, k: string)
    requires a.Object? && b.Object? && c.Object? && k in a.fields && k in b.fields && k in c.fields
    requires OverreachAt(a, b, c, k)
    requires ThreeObjects(a, b, c, k) ==> !RightDefined(a.fields[k], b.fields[k], c.fields[k])
    ensures !RightDefined(a, b, c)
  {
    if Defined(b, c) {
      MergedAt(b, c, k);
      if ThreeObjects(a, b, c, k) {
        if RightDefined(a, b, c) {
          RightBelow(a, b, c, k);
        }
      } else {
        MergedIsNotFlat(b.fields[k], c.fields[k]);
        FlatIff(a.fields[k], Merged(b.fields[k], c.fields[k]));
      }
    }
  }

  /** Where merging the first two first works, the other grouping throws exactly on an overreach. */
  lemma {:induction false} RightDefinedIff(a: Json, b: Json, c: Json)
    requires a.Object? && b.Object? && c.Object? && LeftDefined(a, b, c)
    ensures RightDefined(a, b, c) <==> !Overreach(a, b, c)
    decreases c
  {
    forall k | ThreeObjects(a, b, c, k)
      ensures RightDefined(a.fields[k], b.fields[k], c.fields[k]) <==> !OverreachAt(a, b, c, k)
    {
      LeftBelow(a, b, c, k);
      RightDefinedIff(a.fields[k], b.fields[k], c.fields[k]);
    }
    if Overreach(a, b, c) {
      var k :| k in a.fields && k in b.fields && k in c.fields && OverreachAt(a, b, c, k);
      OverreachThrows(a, b, c, k);
    } else {
      forall k | k in c.fields && c.fields[k].Object? && k in b.fields ensures Defined(b.fields[k], c.fields[k]) {
        LastTwo(a, b, c, k);
      }
      forall k | k in Merged(b, c).fields && Merged(b, c).fields[k].Object? && k in a.fields
        ensures Defined(a.fields[k], Merged(b, c).fields[k])
      {
        OntoFirst(a, b, c, k);
      }
    }
  }

  // Merging the first two, when the other grouping does not throw.

  lemma FirstTwo(a: Json, b: Json, c: Json, k: string)
    requires a.Object? && b.Object? && c.Object? && RightDefined(a, b, c)
    requires k in a.fields && k in b.fields && b.fields[k].Object?
    requires k in c.fields ==> !RescueAt(a, b, c, k)
    requires ThreeObjects(a, b, c, k) ==> LeftDefined(a.fields[k], b.fields[k], c.fields[k])
    ensures Defined(a.fields[k], b.fields[k])
  {
    MergedAt(b, c, k);
  }

  lemma LastOnto(a: Json, b: Json, c: Json, k: string)
    requires a.Object? && b.Object? && c.Object? && RightDefined(a, b, c) && Defined(a, b)
    requires k in c.fields && c.fields[k].Object? && k in Merged(a, b).fields
    requires ThreeObjects(a, b, c, k) ==> LeftDefined(a.fields[k], b.fields[k], c.fields[k])
    ensures Defined(Merged(a, b).fields[k], c.fields[k])
  {
    MergedAt(a, b, k);
    MergedAt(b, c, k);
    if k in a.fields && k in b.fields && b.fields[k].Object? && !a.fields[k].Object? {
      MergedOntoScalar(a.fields[k], b.fields[k]);
    }
  }

  lemma RescueThrows(a: Json, b: Json, c: Json, k: string)
    requires a.Object? && b.Object? && c.Object? && k in a.fields && k in b.fields && k in c.fields
    requires RescueAt(a, b, c, k)
    requires ThreeObjects(a, b, c, k) ==> !LeftDefined(a.fields[k], b.fields[k], c.fields[k])
    ensures !LeftDefined(a, b, c)
  {
    if LeftDefined(a, b, c) && ThreeObjects(a, b, c, k) {
      LeftBelow(a, b, c, k);
    }
  }

  /** Where merging the last two first works, the other grouping throws exactly when the last comes to the rescue. */
  lemma {:induction false} LeftDefinedIff(a: Json, b: Json, c: Json)
    requires a.Object? && b.Object? && c.Object? && RightDefined(a, b, c)
    ensures LeftDefined(a, b, c) <==> !Rescue(a, b, c)
    decreases c
  {
    forall k | ThreeObjects(a, b, c, k)
      ensures LeftDefined(a.fields[k], b.fields[k], c.fields[k]) <==> !RescueAt(a, b, c, k)
    {
      RightBelow(a, b, c, k);
      LeftDefinedIff(a.fields[k], b.fields[k], c.fields[k]);
    }
    if Rescue(a, b, c) {
      var k :| k in a.fields && k in b.fields && k in c.fields && RescueAt(a, b, c, k);
      RescueThrows(a, b, c, k);
    } else {
      forall k | k in b.fields && b.fields[k].Object? && k in a.fields ensures Defined(a.fields[k], b.fields[k]) {
        FirstTwo(a, b, c, k);
      }
      forall k | k in c.fields && c.fields[k].Object? && k in Merged(a, b).fields
        ensures Defined(Merged(a, b).fields[k], c.fields[k])
      {
        LastOnto(a, b, c, k);
      }
    }
  }

  // The same, asked of the three configurations without merging any.

  /** The last one goes onto the merge of the first two. */
  ghost predicate LastGoesOn(a: Json, b: Json, c: Json)
    requires b.Object? && c.Object?
    decreases c, 1
  {
    if !a.Object? then Defined(b, c)
    else forall k | k in c.fields && c.fields[k].Object? :: LastGoesOnAt(a, b, c, k)
  }

  ghost predicate LastGoesOnAt(a: Json, b: Json, c: Json, k: string)
    requires a.Object? && b.Object? && c.Object? && k in c.fields && c.fields[k].Object?
    decreases c, 0
  {
    if k !in b.fields then k in a.fields ==> Defined(a.fields[k], c.fields[k])
    else if b.fields[k].Object? && k in a.fields then LastGoesOn(a.fields[k], b.fields[k], c.fields[k])
    else Defined(b.fields[k], c.fields[k])
  }

  /** The merge of the last two goes onto the first. */
  ghost predicate FirstTakes(a: Json, b: Json, c: Json)
    requires b.Object? && c.Object?
    decreases c, 1
  {
    if !a.Object? then Flat(c) && forall k | k in b.fields && k !in c.fields :: !b.fields[k].Object?
    else forall k | k in a.fields :: FirstTakesAt(a, b, c, k)
  }

  ghost predicate FirstTakesAt(a: Json, b: Json, c: Json, k: string)
    requires a.Object? && b.Object? && c.Object? && k in a.fields
    decreases c, 0
  {
    if k !in c.fields then k in b.fields && b.fields[k].Object? ==> Defined(a.fields[k], b.fields[k])
    else c.fields[k].Object? ==>
      if k in b.fields && b.fields[k].Object? then FirstTakes(a.fields[k], b.fields[k], c.fields[k])
      else Defined(a.fields[k], c.fields[k])
  }

  lemma DefinedByKeys(t: Json, s: Json)
    requires s.Object?
    ensures Defined(t, s) <==> forall k | k in s.fields && s.fields[k].Object? :: DefinedAt(t, k, s.fields[k])
  {
  }

  lemma {:induction false} LastGoesOnIff(a: Json, b: Json, c: Json)
    requires b.Object? && c.Object? && Defined(a, b)
    ensures Defined(Merged(a, b), c) <==> LastGoesOn(a, b, c)
    decreases c
  {
    if !a.Object? {
      MergedOntoScalar(a, b);
    } else {
      forall k | k in c.fields && c.fields[k].Object?
        ensures DefinedAt(Merged(a, b), k, c.fields[k]) <==> LastGoesOnAt(a, b, c, k)
      {
        MergedAt(a, b, k);
        if k in a.fields && k in b.fields && b.fields[k].Object? {
          LastGoesOnIff(a.fields[k], b.fields[k], c.fields[k]);
        }
      }
      DefinedByKeys(Merged(a, b), c);
    }
  }

  lemma MergedFlatIff(b: Json, c: Json)
    requires b.Object? && c.Object? && Defined(b, c)
    ensures Flat(Merged(b, c)) <==> Flat(c) && forall k | k in b.fields && k !in c.fields :: !b.fields[k].Object?
  {
    forall k ensures k in Merged(b, c).fields && Merged(b, c).fields[k].Object?
                <==> if k in c.fields then c.fields[k].Object? else k in b.fields && b.fields[k].Object? {
      MergedAt(b, c, k);
    }
  }

  lemma {:induction false} FirstTakesIff(a: Json, b: Json, c: Json)
    requires b.Object? && c.Object? && Defined(b, c)
    ensures Defined(a, Merged(b, c)) <==> FirstTakes(a, b, c)
    decreases c
  {
    if !a.Object? {
      FlatIff(a, Merged(b, c));
      MergedFlatIff(b, c);
    } else {
      var bc := Merged(b, c);
      forall k | k in a.fields
        ensures (k in bc.fields && bc.fields[k].Object? ==> Defined(a.fields[k], bc.fields[k]))
           <==> FirstTakesAt(a, b, c, k)
      {
        MergedAt(b, c, k);
        if k in b.fields && k in c.fields && c.fields[k].Object? {
          if b.fields[k].Object? {
            FirstTakesIff(a.fields[k], b.fields[k], c.fields[k]);
          } else {
            MergedOntoScalar(b.fields[k], c.fields[k]);
          }
        }
      }
    }
  }

  /** Both groupings throw, or both give the same configuration. */
  ghost predicate SameOutcome(a: Json, b: Json, c: Json)
    requires b.Object? && c.Object?
  {
    && (LeftDefined(a, b, c) <==> RightDefined(a, b, c))
    && (AllDefined(a, b, c) ==> Merged(Merged(a, b), c) == Merged(a, Merged(b, c)))
  }

  /**
   * Merging three configurations does not depend on the grouping exactly under
   * these conditions, none of which merges anything: where the first grouping
   * goes through nothing overreaches, where the second does nothing comes to the
   * rescue, and where both do the configurations are compatible.
   */
  lemma SameOutcomeIff(a: Json, b: Json, c: Json)
    requires a.Object? && b.Object? && c.Object?
    ensures SameOutcome(a, b, c) <==>
              && (Defined(a, b) && LastGoesOn(a, b, c) ==> !Overreach(a, b, c))
              && (Defined(b, c) && FirstTakes(a, b, c) ==> !Rescue(a, b, c))
              && (Defined(a, b) && LastGoesOn(a, b, c) && Defined(b, c) && FirstTakes(a, b, c) ==> Compatible(a, b, c))
  {
    if Defined(a, b) {
      LastGoesOnIff(a, b, c);
    }
    if Defined(b, c) {
      FirstTakesIff(a, b, c);
    }
    if LeftDefined(a, b, c) {
      RightDefinedIff(a, b, c);
    }
    if RightDefined(a, b, c) {
      LeftDefinedIff(a, b, c);
    }
    if AllDefined(a, b, c) {
      AssociativeIff(a, b, c);
    }
  }

  // ---------- Dotted paths ----------

  /** `path.split('.')` */
  function Split(path: string): (parts: Path)
    ensures parts != [] && forall p <- parts :: '.' !in p
  {
    if path == "" then [""]
    else
      var rest := Split(path[1..]);
      if path[0] == '.' then [""] + rest else [[path[0]] + rest[0]] + rest[1..]
  }

  function Join(parts: Path): string
    requires parts != []
  {
    if |parts| == 1 then parts[0] else parts[0] + "." + Join(parts[1..])
  }

  function GetConfig(config: Json, path: string): Json {
    Lookup(config, Split(path))
  }

  lemma {:induction false} SplitPrefix(key: string, rest: string)
    requires '.' !in key
    ensures Split(key + rest) == [key + Split(rest)[0]] + Split(rest)[1..]
    decreases |key|
  {
    if key == "" {
      var parts := Split(rest);
      assert key + rest == rest && key + parts[0] == parts[0];
      assert parts == [parts[0]] + parts[1..];
    } else {
      assert (key + rest)[1..] == key[1..] + rest;
      SplitPrefix(key[1..], rest);
      var tail := Split(key[1..] + rest);
      assert key[0] in key && tail[0] == key[1..] + Split(rest)[0] && tail[1..] == Split(rest)[1..];
      assert [key[0]] + tail[0] == key + Split(rest)[0];
    }
  }

  /** Any keys without dots can be reached by joining them. */
  lemma {:induction false} SplitJoin(parts: Path)
    requires parts != [] && forall p <- parts :: '.' !in p
    ensures Split(Join(parts)) == parts
    decreases |parts|
  {
    var key := parts[0];
    assert key in parts;
    if |parts| == 1 {
      SplitPrefix(key, "");
      assert key + "" == key;
    } else {
      var rest := Join(parts[1..]);
      SplitJoin(parts[1..]);
      SplitPrefix(key, "." + rest);
      assert key + "." + rest == key + ("." + rest);
      assert ("." + rest)[1..] == rest;
      assert Split("." + rest) == [""] + parts[1..];
      assert key + "" == key;
    }
  }

  /** `get` after the merge, on any dot-free keys. */
  lemma GetAfterMerge(base: Json, override: Json, keys: Path)
    requires override.Object? && Defined(base, override) && keys != [] && forall k <- keys :: '.' !in k
    ensures var found := GetConfig(Merged(base, override), Join(keys));
            match FateOf(override, keys)
            case Ends(v) =>
              if v.Object? && Has(base, keys)
              then Defined(Lookup(base, keys), v) && found == Merged(Lookup(base, keys), v)
              else found == v
            case FallsOff => found == GetConfig(base, Join(keys))
            case PastScalar => found == Undefined
  {
    SplitJoin(keys);
    LookupAfterMerge(base, override, keys);
  }
}
