/** Machine words as naturals: shifts, bitwise or, and the two's complement readings of a bit pattern. */
module Words {
  import opened Messages

  function Pow2(k: nat): (r: nat)
    ensures r > 0
  {
    if k == 0 then 1 else 2 * Pow2(k - 1)
  }

  lemma {:induction false} Pow2Adds(a: nat, b: nat)
    ensures Pow2(a + b) == Pow2(a) * Pow2(b)
  {
    if a > 0 {
      Pow2Adds(a - 1, b);
      assert Pow2(a + b) == 2 * Pow2(a - 1 + b);
    }
  }

  lemma Pow2Of7And32And64()
    ensures Pow2(7) == 128 && Pow2(32) == 0x1_0000_0000 && Pow2(64) == 0x1_0000_0000_0000_0000
  {
    assert Pow2(2) == 4;
    Pow2Adds(2, 2);
    Pow2Adds(4, 2);
    Pow2Adds(6, 1);
    Pow2Adds(4, 4);
    Pow2Adds(8, 8);
    Pow2Adds(16, 16);
    Pow2Adds(32, 32);
  }

  lemma Pow2Next7(k: nat)
    ensures Pow2(7 * (k + 1)) == 128 * Pow2(7 * k)
  {
    Pow2Of7And32And64();
    Pow2Adds(7, 7 * k);
  }

  lemma Pow2Zero()
    ensures Pow2(0) == 1
  {
  }

  /** a | b */
  function BitOr(a: nat, b: nat): nat {
    if a == 0 then b
    else if b == 0 then a
    else (if a % 2 == 1 || b % 2 == 1 then 1 else 0) + 2 * BitOr(a / 2, b / 2)
  }

  lemma OrWithEven(a: nat, c: nat)
    ensures a > 0 && c > 0 ==> BitOr(a, 2 * c) == a % 2 + 2 * BitOr(a / 2, c)
  {
    assert (2 * c) / 2 == c && (2 * c) % 2 == 0;
  }

  /** Or-ing in bits above all those set is addition. */
  lemma {:induction false} OrDisjoint(a: nat, k: nat, m: nat)
    requires a < Pow2(k)
    ensures BitOr(a, m * Pow2(k)) == a + m * Pow2(k)
  {
    if a > 0 && m > 0 {
      var c := m * Pow2(k - 1);
      assert m * Pow2(k) == 2 * c;
      OrDisjoint(a / 2, k - 1, m);
      MulAtLeast(m, Pow2(k - 1));
      OrWithEven(a, c);
    }
  }

  /** The low bits that fit in a word of the given width. */
  function Cut(x: nat, width: nat): nat {
    x % Pow2(width)
  }

  /** x << shift in a word of the given width. */
  function Shl(x: nat, shift: nat, width: nat): nat {
    Cut(x * Pow2(shift), width)
  }

  /** One step of a varint loop: the bits of a group join the bits below them, all in one word. */
  lemma OrShifted(acc: nat, group: nat, shift: nat, width: nat)
    requires acc < Pow2(shift)
    ensures BitOr(Cut(acc, width), Shl(group, shift, width)) == Cut(acc + group * Pow2(shift), width)
  {
    hide Pow2, BitOr;
    if shift >= width {
      Pow2Adds(shift - width, width);
      var q := group * Pow2(shift - width);
      MulAssociates(group, Pow2(shift - width), Pow2(width));
      assert group * Pow2(shift) == q * Pow2(width);
      ModMultiple(0, q, Pow2(width));
      ModMultiple(acc, q, Pow2(width));
      OrZero(acc % Pow2(width));
    } else {
      Pow2Adds(shift, width - shift);
      ShiftedGroup(acc, group, Pow2(shift), Pow2(width - shift));
      OrDisjoint(acc, shift, group % Pow2(width - shift));
    }
  }

  lemma OrZero(a: nat)
    ensures BitOr(a, 0) == a
  {
  }

  /** Only the low bits of the group stay in the word. */
  lemma ShiftedGroup(acc: nat, group: nat, unit: nat, high: nat)
    requires acc < unit && high > 0
    ensures unit * high > 0 && acc % (unit * high) == acc
    ensures (group * unit) % (unit * high) == (group % high) * unit
    ensures (acc + group * unit) % (unit * high) == acc + (group % high) * unit
  {
    var q, r := group / high, group % high;
    assert group == q * high + r;
    MulDistributes(q * high, r, unit);
    MulAssociates(q, high, unit);
    assert high * unit == unit * high;
    assert group * unit == q * (unit * high) + r * unit;
    assert r * unit + unit <= unit * high by {
      MulMonotone(r + 1, high, unit);
      MulDistributes(r, 1, unit);
    }
    MulNonNegative(q, unit * high);
    MulNonNegative(r, unit);
    ModUnique(acc, 0, acc, unit * high);
    ModUnique(group * unit, q, r * unit, unit * high);
    ModUnique(acc + group * unit, q, acc + r * unit, unit * high);
  }

  // ----- products

  lemma MulAtLeast(k: int, m: int)
    requires k >= 1 && m >= 0
    ensures k * m >= m
  {
    assert k * m == (k - 1) * m + m;
  }

  lemma MulNonNegative(a: nat, b: nat)
    ensures a * b >= 0
  {
  }

  lemma MulMonotone(a: nat, b: nat, m: nat)
    requires a <= b
    ensures a * m <= b * m
  {
    assert b * m == a * m + (b - a) * m;
  }

  lemma MulAssociates(a: int, b: int, c: int)
    ensures (a * b) * c == a * (b * c)
  {
  }

  lemma MulDistributes(a: int, b: int, c: int)
    ensures (a + b) * c == a * c + b * c
  {
  }

  lemma ModMultiple(a: nat, q: nat, m: nat)
    requires m > 0
    ensures (a + q * m) % m == a % m
  {
    var t := a / m;
    MulDistributes(t, q, m);
    assert a + q * m == (t + q) * m + a % m;
    ModUnique(a + q * m, t + q, a % m, m);
  }

  lemma ModUnique(x: int, q: int, r: int, m: int)
    requires m > 0 && x == q * m + r && 0 <= r < m
    ensures x % m == r && x / m == q
  {
    var d := x / m - q;
    assert d * m == r - x % m && (-d) * m == -(d * m);
    if d >= 1 {
      MulAtLeast(d, m);
    } else if d <= -1 {
      MulAtLeast(-d, m);
    }
  }

  // ----- two's complement

  /** uint64(x) */
  function AsUint64(x: Int64): Uint64 { if x < 0 then x + 0x1_0000_0000_0000_0000 else x }

  /** The int64 with this bit pattern. */
  function ToInt64(pattern: nat): Int64 {
    var p := pattern % 0x1_0000_0000_0000_0000;
    if p >= 0x8000_0000_0000_0000 then p - 0x1_0000_0000_0000_0000 else p
  }

  /** The int32 with the low half of this bit pattern. */
  function ToInt32(pattern: nat): Int32 {
    var p := pattern % 0x1_0000_0000;
    if p >= 0x8000_0000 then p - 0x1_0000_0000 else p
  }

  lemma SignedRoundTrip(x: Int64)
    ensures ToInt64(AsUint64(x)) == x && (AsUint64(x) - x) % 0x1_0000_0000_0000_0000 == 0
    ensures -0x8000_0000 <= x < 0x8000_0000 ==> ToInt32(AsUint64(x)) == x
  {
    if x < 0 && x >= -0x8000_0000 {
      ModUnique(AsUint64(x), 0xffff_ffff, x + 0x1_0000_0000, 0x1_0000_0000);
    }
  }
}
