/** Counting the occurrences of a value in a sequence, with the facts the boards need. */
module Counting {

  /** Number of positions of s that hold x. */
  function Count<T(==)>(s: seq<T>, x: T): (n: nat)
    ensures n <= |s|
  {
    if s == [] then 0
    else Count(s[..|s| - 1], x) + (if s[|s| - 1] == x then 1 else 0)
  }

  /** Extending a prefix by one element adds that element's contribution. */
  lemma CountStep<T>(s: seq<T>, x: T, i: nat)
    requires i < |s|
    ensures Count(s[..i + 1], x) == Count(s[..i], x) + (if s[i] == x then 1 else 0)
  {
    assert s[..i + 1][..i] == s[..i];
  }

  /** A longer prefix never holds fewer x. */
  lemma {:induction false} CountPrefixGrows<T>(s: seq<T>, x: T, i: nat, j: nat)
    requires i <= j <= |s|
    ensures Count(s[..i], x) <= Count(s[..j], x)
    decreases j - i
  {
    if i < j {
      CountStep(s, x, j - 1);
      CountPrefixGrows(s, x, i, j - 1);
    }
  }

  /** x does not occur exactly when its count is zero. */
  lemma {:induction false} CountZero<T>(s: seq<T>, x: T)
    ensures Count(s, x) == 0 <==> forall i :: 0 <= i < |s| ==> s[i] != x
  {
    if s != [] {
      var p := s[..|s| - 1];
      CountZero(p, x);
      assert forall i :: 0 <= i < |p| ==> p[i] == s[i];
    }
  }

  /** Writing v at p moves one position from the count of the old value to that of v. */
  lemma {:induction false} CountAfterWrite<T>(s: seq<T>, p: nat, v: T, x: T)
    requires p < |s|
    ensures Count(s[p := v], x) == Count(s, x) - (if s[p] == x then 1 else 0) + (if v == x then 1 else 0)
  {
    var n := |s| - 1;
    var after := s[p := v];
    if p == n {
      assert after[..n] == s[..n];
    } else {
      assert after[..n] == s[..n][p := v];
      CountAfterWrite(s[..n], p, v, x);
    }
  }

  /** When every position holds x, the count is the length. */
  lemma {:induction false} CountAll<T>(s: seq<T>, x: T)
    requires forall i :: 0 <= i < |s| ==> s[i] == x
    ensures Count(s, x) == |s|
  {
    if s != [] {
      CountAll(s[..|s| - 1], x);
    }
  }
}
