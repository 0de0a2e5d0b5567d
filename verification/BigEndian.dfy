/** Fixed-width big-endian integers and the byte order of keys. */
module BigEndian {
  type byte = x: int | 0 <= x < 256
  type Bytes = seq<byte>

  function Pow256(k: nat): (p: nat)
    ensures p > 0
  {
    if k == 0 then 1 else 256 * Pow256(k - 1)
  }

  const U64: nat := 0x1_0000_0000_0000_0000
  const U32: nat := 0x1_0000_0000

  lemma U64IsPow()
    ensures Pow256(8) == U64 && Pow256(4) == U32
  {
    assert Pow256(4) == 256 * (256 * (256 * (256 * Pow256(0))));
    assert Pow256(8) == 256 * (256 * (256 * (256 * Pow256(4))));
  }

  function Encode(n: nat, k: nat): (b: Bytes)
    ensures |b| == k
  {
    if k == 0 then [] else Encode(n / 256, k - 1) + [n % 256]
  }

  function Value(b: Bytes): (n: nat)
    ensures n < Pow256(|b|)
  {
    if b == [] then 0 else Value(b[..|b| - 1]) * 256 + b[|b| - 1]
  }

  lemma {:induction false} ValueOfEncode(n: nat, k: nat)
    requires n < Pow256(k)
    ensures Value(Encode(n, k)) == n
  {
    if k > 0 {
      ValueOfEncode(n / 256, k - 1);
      assert Encode(n, k)[..k - 1] == Encode(n / 256, k - 1);
    }
  }

  lemma {:induction false} EncodeOfValue(b: Bytes)
    ensures Encode(Value(b), |b|) == b
  {
    if b != [] {
      EncodeOfValue(b[..|b| - 1]);
      assert b == b[..|b| - 1] + [b[|b| - 1]];
    }
  }

  /** Byte-wise lexicographic order, a proper prefix first. */
  predicate LexLess(a: Bytes, b: Bytes) {
    exists i | 0 <= i < |b| :: DiffersAt(a, b, i)
  }

  predicate DiffersAt(a: Bytes, b: Bytes, i: int) {
    && 0 <= i <= |a| && i < |b| && a[..i] == b[..i]
    && (i == |a| || a[i] < b[i])
  }

  lemma LexLast(a: Bytes, b: Bytes)
    requires |a| == |b| > 0
    ensures var n := |a| - 1;
            LexLess(a, b) <==> LexLess(a[..n], b[..n]) || (a[..n] == b[..n] && a[n] < b[n])
  {
    var n := |a| - 1;
    if LexLess(a, b) {
      var i :| 0 <= i < |b| && DiffersAt(a, b, i);
      if i < n {
        assert a[..n][..i] == a[..i] && b[..n][..i] == b[..i];
        assert DiffersAt(a[..n], b[..n], i);
      }
    }
    if LexLess(a[..n], b[..n]) {
      var i :| 0 <= i < |b[..n]| && DiffersAt(a[..n], b[..n], i);
      assert a[..n][..i] == a[..i] && b[..n][..i] == b[..i];
      assert DiffersAt(a, b, i);
    }
    if a[..n] == b[..n] && a[n] < b[n] { assert DiffersAt(a, b, n); }
  }

  /** Equal-width big-endian strings sort as the numbers they encode. */
  lemma {:induction false} OrderIsNumeric(a: Bytes, b: Bytes)
    requires |a| == |b|
    ensures LexLess(a, b) <==> Value(a) < Value(b)
    ensures Value(a) == Value(b) <==> a == b
  {
    if |a| == 0 {
      assert !LexLess(a, b);
    } else {
      var n := |a| - 1;
      LexLast(a, b);
      OrderIsNumeric(a[..n], b[..n]);
      assert a == a[..n] + [a[n]] && b == b[..n] + [b[n]];
    }
  }

  /** A common prefix does not affect the order. */
  lemma PrefixedOrder(p: Bytes, a: Bytes, b: Bytes)
    ensures LexLess(p + a, p + b) <==> LexLess(a, b)
  {
    if LexLess(a, b) {
      var i :| 0 <= i < |b| && DiffersAt(a, b, i);
      assert (p + a)[..|p| + i] == p + a[..i] && (p + b)[..|p| + i] == p + b[..i];
      assert DiffersAt(p + a, p + b, |p| + i);
    }
    if LexLess(p + a, p + b) {
      var i :| 0 <= i < |p + b| && DiffersAt(p + a, p + b, i);
      assert i >= |p|;
      var j := i - |p|;
      assert (p + a)[..i] == p + a[..j] && (p + b)[..i] == p + b[..j];
      assert a[..j] == (p + a[..j])[|p|..] && b[..j] == (p + b[..j])[|p|..];
      assert DiffersAt(a, b, j);
    }
  }
}
