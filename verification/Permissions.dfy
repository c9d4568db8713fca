/** Permission lists: JavaScript arrays of strings read as sets. */
module Permissions {

  const STAR := "*"

  /** `[...new Set(s)]` keeps the first of equal elements. */
  function Unique(s: seq<string>): (r: seq<string>)
    ensures forall p :: p in r <==> p in s
    ensures forall i, j | 0 <= i < j < |r| :: r[i] != r[j]
  {
    if s == [] then [] else
    var init := Unique(s[..|s| - 1]);
    var last := s[|s| - 1];
    assert s == s[..|s| - 1] + [last];
    if last in init then init else init + [last]
  }

  /** What is added later stands later. */
  lemma {:induction false} UniqueKeepsOrder(a: seq<string>, b: seq<string>)
    ensures Unique(a) <= Unique(a + b)
    decreases |b|
  {
    if b == [] {
      assert a + b == a;
    } else {
      var init := b[..|b| - 1];
      assert (a + b)[..|a + b| - 1] == a + init;
      UniqueKeepsOrder(a, init);
    }
  }
}
