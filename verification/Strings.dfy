/** Code-point order on strings: the order of Rust's `BTreeMap<&str, _>` and of Python's `sorted`. */
module Strings {

  /** `a` comes strictly before `b`. */
  predicate Before(a: string, b: string) {
    if b == [] then false
    else if a == [] then true
    else a[0] < b[0] || (a[0] == b[0] && Before(a[1..], b[1..]))
  }

  lemma {:induction false} BeforeIsTotal(a: string, b: string)
    ensures a == b || Before(a, b) || Before(b, a)
  {
    if a != [] && b != [] && a[0] == b[0] {
      BeforeIsTotal(a[1..], b[1..]);
      assert a == [a[0]] + a[1..] && b == [b[0]] + b[1..];
    }
  }

  lemma {:induction false} BeforeIsAsymmetric(a: string, b: string)
    requires Before(a, b)
    ensures !Before(b, a) && a != b
  {
    if a != [] && a[0] == b[0] {
      BeforeIsAsymmetric(a[1..], b[1..]);
    }
  }

  lemma {:induction false} BeforeIsTransitive(a: string, b: string, c: string)
    requires Before(a, b) && Before(b, c)
    ensures Before(a, c)
  {
    if a != [] && a[0] == b[0] == c[0] {
      BeforeIsTransitive(a[1..], b[1..], c[1..]);
    }
  }

  /** A sequence of keys without repetition. */
  ghost predicate Distinct(keys: seq<string>) {
    forall i, j :: 0 <= i < j < |keys| ==> keys[i] != keys[j]
  }

  /** A strictly increasing sequence of keys. */
  ghost predicate Increasing(keys: seq<string>) {
    forall i, j :: 0 <= i < j < |keys| ==> Before(keys[i], keys[j])
  }

  lemma HeadIsLeast(keys: seq<string>, k: string)
    requires Increasing(keys) && keys != [] && k in keys
    ensures k == keys[0] || (Before(keys[0], k) && !Before(k, keys[0]) && k != keys[0])
  {
    var j :| 0 <= j < |keys| && keys[j] == k;
    if j > 0 { BeforeIsAsymmetric(keys[0], keys[j]); }
  }

  /** Two strictly increasing sequences over the same keys are the same sequence. */
  lemma {:induction false} IncreasingIsUnique(a: seq<string>, b: seq<string>)
    requires Increasing(a) && Increasing(b)
    requires forall k :: k in a <==> k in b
    ensures a == b
  {
    assert a != [] ==> a[0] in a;
    assert b != [] ==> b[0] in b;
    if a != [] {
      HeadIsLeast(b, a[0]);
      HeadIsLeast(a, b[0]);
      assert a == [a[0]] + a[1..] && b == [b[0]] + b[1..];
      forall k ensures k in a[1..] <==> k in b[1..] {
        if k in a[1..] { TailIsAbove(a, k); }
        if k in b[1..] { TailIsAbove(b, k); }
      }
      IncreasingIsUnique(a[1..], b[1..]);
    }
  }

  lemma TailIsAbove(keys: seq<string>, k: string)
    requires Increasing(keys) && keys != [] && k in keys[1..]
    ensures k in keys && k != keys[0]
  {
    var j :| 0 <= j < |keys| - 1 && keys[1..][j] == k;
    assert keys[j + 1] == k;
    BeforeIsAsymmetric(keys[0], keys[j + 1]);
  }
}
