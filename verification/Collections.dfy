/** Facts about sequences, sets and maps that several modules need. */
module Collections {

  function Concat<T>(parts: seq<seq<T>>): seq<T> {
    if parts == [] then [] else parts[0] + Concat(parts[1..])
  }

  /** `Math.ceil(a / b)` */
  function CeilDiv(a: nat, b: nat): nat
    requires b >= 1
  {
    (a + b - 1) / b
  }

  /** `part` is what is left of `s` when some of its elements are taken out. */
  ghost predicate Subsequence<T>(part: seq<T>, s: seq<T>) {
    if part == [] then true
    else s != [] && (Subsequence(part, s[1..]) || (part[0] == s[0] && Subsequence(part[1..], s[1..])))
  }

  ghost predicate Distinct<T>(s: seq<T>) {
    forall i, j | 0 <= i < j < |s| :: s[i] != s[j]
  }

  ghost function Elements<T>(s: seq<T>): set<T> {
    set x | x in s
  }

  /** Different elements of a set are at most as many as it has. */
  lemma {:induction false} DistinctFits<T>(s: seq<T>, all: set<T>)
    requires Distinct(s) && Elements(s) <= all
    ensures |s| <= |all|
    decreases |s|
  {
    if s != [] {
      var rest := s[1..];
      assert s[0] in Elements(s);
      forall x | x in Elements(rest) ensures x in all - {s[0]} {
        var i :| 0 <= i < |rest| && rest[i] == x;
        assert s[0] != s[i + 1] && s[i + 1] in Elements(s);
      }
      DistinctFits(rest, all - {s[0]});
    }
  }

  lemma {:induction false} ElementsFit<T>(s: seq<T>)
    ensures |Elements(s)| <= |s|
    decreases |s|
  {
    if s != [] {
      var rest := s[1..];
      ElementsFit(rest);
      assert s == [s[0]] + rest;
      assert Elements(s) == Elements(rest) + {s[0]};
    }
  }

  /** A loop over the entries of `all` has dealt with `done`, and has `todo` before it. */
  ghost predicate Progress<K, V>(all: map<K, V>, done: map<K, V>, todo: set<K>)
    ensures Progress(all, done, todo) && todo == {} ==> done == all
  {
    todo <= all.Keys && done.Keys == all.Keys - todo && forall k | k in done :: done[k] == all[k]
  }
}
