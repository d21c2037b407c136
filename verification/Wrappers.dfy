/** Small general-purpose definitions shared by the other modules. */
module Wrappers {

  datatype Option<+T> = None | Some(value: T)

  function Min(a: int, b: int): int { if a < b then a else b }

  function Max(a: int, b: int): int { if a < b then b else a }

  /** No value occurs twice in `s`. */
  predicate Distinct<T(==)>(s: seq<T>) {
    forall i, j | 0 <= i < j < |s| :: s[i] != s[j]
  }

  lemma {:induction false} DistinctNext<T>(s: seq<T>, x: T)
    requires Distinct(s) && x !in s
    ensures Distinct(s + [x])
  {
  }

  /** Distinct numbers below `n` are at most `n` many. */
  lemma {:induction false} Pigeonhole(s: seq<nat>, n: nat)
    requires Distinct(s)
    requires forall i | 0 <= i < |s| :: s[i] < n
    ensures |s| <= n
    decreases n
  {
    if n == 0 {
    } else if n - 1 in s {
      var k :| 0 <= k < |s| && s[k] == n - 1;
      var rest := s[..k] + s[k + 1..];
      Pigeonhole(rest, n - 1);
    } else {
      Pigeonhole(s, n - 1);
    }
  }

  lemma {:induction false} SomeElement<T>(s: seq<T>)
    ensures |s| > 0 ==> exists x :: x in s
  {
    if |s| > 0 {
      assert s[0] in s;
    }
  }

  ghost function AnyOf<T>(s: set<T>): (x: T)
    requires s != {}
    ensures x in s
  {
    var x :| x in s; x
  }

  lemma {:induction false} SubsetSize<T>(a: set<T>, b: set<T>)
    requires a <= b
    ensures |a| <= |b|
    decreases |a|
  {
    if a != {} {
      var x :| x in a;
      SubsetSize(a - {x}, b - {x});
    }
  }
}
