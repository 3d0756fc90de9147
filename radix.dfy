/** Fixed-width big-endian digit sequences in a base. This is the shape shared
    by the Base32 bit string (base 2), the HOTP counter message (base 256) and
    the truncated hash word (base 256). */
module Radix {

  /** One byte: a digit in base 256. */
  type Byte = b: nat | b < 256

  function Pow(base: nat, n: nat): (r: nat)
    ensures base >= 1 ==> r >= 1
  {
    if n == 0 then 1 else base * Pow(base, n - 1)
  }

  predicate IsDigits(ds: seq<nat>, base: nat)
  {
    forall i :: 0 <= i < |ds| ==> ds[i] < base
  }

  /** The low `width` digits of `v` in `base`, most significant first. For a
      negative `v` this is the wrapped-around (two's-complement-like) pattern,
      because `/` and `%` by a positive base round towards minus infinity. */
  function ToDigits(v: int, base: nat, width: nat): (ds: seq<nat>)
    requires base >= 2
    ensures |ds| == width && IsDigits(ds, base)
    decreases width
  {
    if width == 0 then [] else ToDigits(v / base, base, width - 1) + [v % base]
  }

  /** The number a big-endian digit sequence denotes. */
  function Value(ds: seq<nat>, base: nat): nat
  {
    if ds == [] then 0 else Value(ds[..|ds| - 1], base) * base + ds[|ds| - 1]
  }

  lemma MulAtLeast(a: int, b: int)
    requires a >= 1 && b >= 1
    ensures a * b >= b
  {
    assert a * b == (a - 1) * b + b;
  }

  /** Division with remainder has exactly one answer. */
  lemma DivModUnique(v: int, d: int, q: int, x: int)
    requires d > 0 && v == d * q + x && 0 <= x < d
    ensures v / d == q && v % d == x
  {
    var q', x' := v / d, v % d;
    assert d * (q - q') == x' - x;
    if q > q' {
      MulAtLeast(q - q', d);
    } else if q < q' {
      MulAtLeast(q' - q, d);
    }
  }

  /** Splitting a remainder by a product: the low digits of `v` in base
      `k * m` are its lowest digit in base `k` plus `k` times the next part. */
  lemma ModOfProduct(v: int, k: int, m: int)
    requires k > 0 && m > 0
    ensures (v / k) % m * k + v % k == v % (k * m)
  {
    var q, r := v / k, v % k;
    var a, b := q / m, q % m;
    assert v == (k * m) * a + (b * k + r) by {
      Regroup(v, k, m, q, r, a, b);
    }
    assert b * k + r < k * m by {
      MulBelow(b, m, k);
    }
    DivModUnique(v, k * m, a, b * k + r);
  }

  lemma Regroup(v: int, k: int, m: int, q: int, r: int, a: int, b: int)
    requires v == k * q + r && q == m * a + b
    ensures v == (k * m) * a + (b * k + r)
  {
    calc {
      k * q;
      k * (m * a + b);
      k * (m * a) + k * b;
      (k * m) * a + b * k;
    }
  }

  /** `b < m` digits of weight `k` stay below `k * m` even with a lower digit added. */
  lemma MulBelow(b: int, m: int, k: int)
    requires 0 <= b < m && k > 0
    ensures b * k + k <= k * m
  {
    assert (m - b) * k >= k by {
      MulAtLeast(m - b, k);
    }
    assert (m - b) * k == m * k - b * k;
  }

  lemma {:induction false} ValueBound(ds: seq<nat>, base: nat)
    requires base >= 1 && IsDigits(ds, base)
    ensures Value(ds, base) < Pow(base, |ds|)
  {
    if ds != [] {
      var init := ds[..|ds| - 1];
      ValueBound(init, base);
      MulBelow(Value(init, base), Pow(base, |init|), base);
    }
  }

  /** Reading back the digits of a number gives the number modulo the width. */
  lemma {:induction false} ValueOfDigits(v: int, base: nat, width: nat)
    requires base >= 2
    ensures Value(ToDigits(v, base, width), base) == v % Pow(base, width)
    decreases width
  {
    if width > 0 {
      var ds := ToDigits(v, base, width);
      assert ds[..width - 1] == ToDigits(v / base, base, width - 1);
      ValueOfDigits(v / base, base, width - 1);
      ModOfProduct(v, base, Pow(base, width - 1));
    }
  }

  /** Writing out the number a digit sequence denotes gives the sequence back. */
  lemma {:induction false} DigitsOfValue(ds: seq<nat>, base: nat)
    requires base >= 2 && IsDigits(ds, base)
    ensures ToDigits(Value(ds, base), base, |ds|) == ds
  {
    if ds != [] {
      var init, last := ds[..|ds| - 1], ds[|ds| - 1];
      DivModUnique(Value(ds, base), base, Value(init, base), last);
      DigitsOfValue(init, base);
      assert ds == init + [last];
    }
  }

  lemma ValueOfDigitsInRange(v: int, base: nat, width: nat)
    requires base >= 2 && 0 <= v < Pow(base, width)
    ensures Value(ToDigits(v, base, width), base) == v
  {
    ValueOfDigits(v, base, width);
    DivModUnique(v, Pow(base, width), 0, v);
  }

  /** Concatenation is associative; stated once so that loop steps need not
      rediscover it by extensionality. */
  lemma AppendAssoc<T>(a: seq<T>, b: seq<T>, c: seq<T>)
    ensures a + (b + c) == (a + b) + c
  {
  }
}
