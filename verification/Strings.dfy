/** Byte strings and the three-way comparisons the archive code is built on. */
module Strings {
  type Byte = b: int | 0 <= b < 256

  const NL: Byte := 10
  const CR: Byte := 13

  /** A C string without its terminator, or a counted piece of one. */
  type Name = seq<Byte>

  datatype Ordering = Less | Equal | Greater

  /** Lexicographic order of unsigned bytes; a proper prefix is smaller. */
  function Compare(a: Name, b: Name): Ordering {
    if a == [] then (if b == [] then Equal else Less)
    else if b == [] then Greater
    else if a[0] < b[0] then Less
    else if a[0] > b[0] then Greater
    else Compare(a[1..], b[1..])
  }

  predicate Before(a: Name, b: Name) {
    Compare(a, b) == Less
  }

  /** No NUL byte: the bytes can be the contents of a C string. */
  predicate IsCString(s: Name) {
    0 !in s
  }

  lemma {:induction false} CompareEqual(a: Name, b: Name)
    ensures Compare(a, b) == Equal <==> a == b
  {
    if a != [] && b != [] && a[0] == b[0] {
      CompareEqual(a[1..], b[1..]);
      assert a == [a[0]] + a[1..] && b == [b[0]] + b[1..];
    }
  }

  lemma {:induction false} CompareSwap(a: Name, b: Name)
    ensures Compare(a, b) == Less <==> Compare(b, a) == Greater
  {
    if a != [] && b != [] && a[0] == b[0] {
      CompareSwap(a[1..], b[1..]);
    }
  }

  lemma {:induction false} BeforeTransitive(a: Name, b: Name, c: Name)
    requires Before(a, b) && Before(b, c)
    ensures Before(a, c)
  {
    if a != [] && a[0] == b[0] == c[0] {
      BeforeTransitive(a[1..], b[1..], c[1..]);
    }
  }

  /** The strings are the same up to position k, where the first one has the smaller byte. */
  predicate SmallerAt(a: Name, b: Name, k: nat) {
    k < |a| && k < |b| && a[..k] == b[..k] && a[k] < b[k]
  }

  lemma SmallerNext(a: Name, b: Name, k: nat)
    requires a != [] && b != [] && a[0] == b[0]
    ensures SmallerAt(a, b, k + 1) <==> SmallerAt(a[1..], b[1..], k)
    ensures a[1..] < b[1..] <==> a < b
  {
    var c, d := a[1..], b[1..];
    assert a == [a[0]] + c && b == [a[0]] + d;
    if k < |c| && k < |d| {
      assert a[..k + 1] == [a[0]] + c[..k] && b[..k + 1] == [a[0]] + d[..k];
      assert a[..k + 1][1..] == c[..k] && b[..k + 1][1..] == d[..k];
    }
  }

  /** One string comes before another if it is its beginning, or smaller at the first difference. */
  lemma {:induction false} BeforeIs(a: Name, b: Name)
    ensures Before(a, b) <==> a < b || exists k :: SmallerAt(a, b, k)
  {
    if a != [] && b != [] {
      var c, d := a[1..], b[1..];
      if a[0] == b[0] {
        BeforeIs(c, d);
        if k: nat :| SmallerAt(a, b, k) {
          assert k > 0;
          SmallerNext(a, b, k - 1);
        }
        if k: nat :| SmallerAt(c, d, k) {
          SmallerNext(a, b, k);
          assert SmallerAt(a, b, k + 1);
        }
        SmallerNext(a, b, 0);
      } else {
        assert SmallerAt(a, b, 0) <==> a[0] < b[0];
        assert forall k: nat :: SmallerAt(a, b, k) ==> k == 0 || a[..k][0] == b[..k][0];
      }
    }
  }
}
