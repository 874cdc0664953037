/** Byte strings and the lexicographic order of Go's bytes.Compare. */
module Bytes {

  type Byte = b: int | 0 <= b < 256

  type Bytes = seq<Byte>

  /** bytes.Compare: -1, 0 or 1; a proper prefix sorts first. */
  function Compare(a: Bytes, b: Bytes): int {
    if a == [] then (if b == [] then 0 else -1)
    else if b == [] then 1
    else if a[0] < b[0] then -1
    else if a[0] > b[0] then 1
    else Compare(a[1..], b[1..])
  }

  lemma {:induction false} CompareZero(a: Bytes, b: Bytes)
    ensures Compare(a, b) == 0 <==> a == b
  {
    if a != [] && b != [] && a[0] == b[0] {
      CompareZero(a[1..], b[1..]);
      assert a == [a[0]] + a[1..] && b == [b[0]] + b[1..];
    }
  }

  /** The lexicographic order: a proper prefix is below what it begins, and else the first difference decides. */
  ghost predicate Below(a: Bytes, b: Bytes) {
    (a <= b && a != b) || exists k :: 0 <= k < |a| && k < |b| && a[..k] == b[..k] && a[k] < b[k]
  }

  lemma {:induction false} CompareIsLexicographic(a: Bytes, b: Bytes)
    ensures Compare(a, b) < 0 <==> Below(a, b)
    ensures Compare(a, b) > 0 <==> Below(b, a)
  {
    if a != [] && b != [] {
      if a[0] == b[0] { CompareIsLexicographic(a[1..], b[1..]); }
      BelowUnfolds(a, b);
      BelowUnfolds(b, a);
    }
  }

  lemma BelowUnfolds(a: Bytes, b: Bytes)
    requires a != [] && b != []
    ensures Below(a, b) <==> a[0] < b[0] || (a[0] == b[0] && Below(a[1..], b[1..]))
  {
    assert a == [a[0]] + a[1..] && b == [b[0]] + b[1..];
    if a[0] < b[0] {
      assert a[..0] == b[..0];
    } else if a[0] == b[0] && !(a <= b) {
      if k :| 0 <= k < |a[1..]| && k < |b[1..]| && a[1..][..k] == b[1..][..k] && a[1..][k] < b[1..][k] {
        assert a[..k + 1] == [a[0]] + a[1..][..k] == b[..k + 1] && a[k + 1] < b[k + 1];
      }
    }
    if k :| 0 <= k < |a| && k < |b| && a[..k] == b[..k] && a[k] < b[k] {
      if k > 0 {
        assert a[0] == a[..k][0] == b[..k][0] == b[0];
        assert a[1..][..k - 1] == a[..k][1..] == b[1..][..k - 1] && a[1..][k - 1] < b[1..][k - 1];
      }
    }
  }

  lemma {:induction false} CompareAntisymmetric(a: Bytes, b: Bytes)
    ensures Compare(a, b) == -Compare(b, a)
  {
    if a != [] && b != [] && a[0] == b[0] {
      CompareAntisymmetric(a[1..], b[1..]);
    }
  }

  lemma {:induction false} CompareTransitive(a: Bytes, b: Bytes, c: Bytes)
    requires Compare(a, b) <= 0 && Compare(b, c) <= 0
    ensures Compare(a, c) <= 0
    ensures Compare(a, b) < 0 || Compare(b, c) < 0 ==> Compare(a, c) < 0
  {
    if a != [] && b != [] && c != [] && a[0] == b[0] == c[0] {
      CompareTransitive(a[1..], b[1..], c[1..]);
    }
  }

  /** A byte string between p and some extension of p is itself an extension of p. */
  lemma {:induction false} PrefixesAreContiguous(p: Bytes, k: Bytes, q: Bytes)
    requires p <= q
    requires Compare(p, k) <= 0 && Compare(k, q) <= 0
    ensures p <= k
  {
    if p != [] {
      assert q[0] == p[0] && k != [] && k[0] == p[0];
      PrefixesAreContiguous(p[1..], k[1..], q[1..]);
      assert p == [p[0]] + p[1..] && k == [k[0]] + k[1..];
    }
  }

  /** A prefix never sorts after its extensions. */
  lemma {:induction false} PrefixSortsFirst(p: Bytes, q: Bytes)
    requires p <= q
    ensures Compare(p, q) <= 0
  {
    if p != [] {
      PrefixSortsFirst(p[1..], q[1..]);
    }
  }
}
