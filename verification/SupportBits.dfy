/**
  What a support bitmap says: which bit of which byte marks a parameter.
 */
module SupportBits {
  import opened SupportFields

  // ---------- powers and big-endian numbers ----------

  lemma {:induction false} Pow2Sum(a: nat, b: nat)
    ensures Pow2(a + b) == Pow2(a) * Pow2(b)
  {
    if a > 0 {
      Pow2Sum(a - 1, b);
      assert Pow2(a + b) == 2 * Pow2(a - 1 + b);
      assert 2 * (Pow2(a - 1) * Pow2(b)) == (2 * Pow2(a - 1)) * Pow2(b);
    }
  }

  function Bit(b: bool, weight: nat): nat {
    if b then weight else 0
  }

  /** A number without its last `k` bits. */
  function Shift(n: nat, k: nat): nat {
    if k == 0 then n else Shift(n / 2, k - 1)
  }

  function BitOf(n: nat, k: nat): bool {
    Shift(n, k) % 2 == 1
  }

  lemma QuotientIs(n: nat, d: nat, q: nat, r: nat)
    requires n == d * q + r && r < d
    ensures n / d == q
  {
    var other := n / d;
    assert d * (other - q) == r - n % d by {
      assert d * (other - q) == d * other - d * q;
    }
    SmallMultiple(d, other - q);
  }

  lemma SmallMultiple(d: int, x: int)
    requires -d < d * x < d
    ensures x == 0
  {
  }

  lemma {:induction false} ShiftDivides(n: nat, k: nat)
    ensures Shift(n, k) == n / Pow2(k)
  {
    if k > 0 {
      ShiftDivides(n / 2, k - 1);
      var d := Pow2(k - 1);
      var q, r := n / 2 / d, n / 2 % d;
      assert n / 2 == d * q + r;
      assert (2 * d) * q == 2 * (d * q);
      QuotientIs(n, 2 * d, q, 2 * r + n % 2);
    }
  }

  lemma {:induction false} ShiftTwice(n: nat, a: nat, b: nat)
    ensures Shift(n, a + b) == Shift(Shift(n, a), b)
    decreases a
  {
    if a > 0 {
      ShiftTwice(n / 2, a - 1, b);
      assert a + b - 1 == (a - 1) + b;
    }
  }

  lemma ShiftFew(n: nat)
    ensures Shift(n, 0) == n && Shift(n, 1) == n / 2 && Shift(n, 2) == n / 4
    ensures Shift(n, 3) == n / 8 && Shift(n, 4) == n / 16
  {
    assert Shift(n, 1) == Shift(n / 2, 0);
    assert Shift(n, 2) == Shift(n / 2, 1) == Shift(n / 2 / 2, 0);
    assert Shift(n / 2, 2) == Shift(n / 2 / 2, 1) == Shift(n / 2 / 2 / 2, 0);
    assert Shift(n / 2 / 2, 2) == Shift(n / 2 / 2 / 2, 1) == Shift(n / 2 / 2 / 2 / 2, 0);
    assert Shift(n, 3) == Shift(n / 2, 2) && Shift(n, 4) == Shift(n / 2, 3) == Shift(n / 2 / 2, 2);
  }

  lemma ShiftByte(n: nat)
    ensures Shift(n, 8) == n / 256
  {
    ShiftTwice(n, 4, 4);
    ShiftFew(n);
    ShiftFew(n / 16);
    hide Shift;
  }

  lemma BitsOfHalfByte(half: nat)
    requires half < 16
    ensures half == Bit(BitOf(half, 3), 8) + Bit(BitOf(half, 2), 4) + Bit(BitOf(half, 1), 2) + Bit(BitOf(half, 0), 1)
  {
    ShiftFew(half);
    hide Shift;
  }

  lemma {:induction false} LowBitsShift(m: nat, low: nat, n: nat, k: nat)
    requires n == Pow2(k + 1) * m + low
    ensures BitOf(n, k) == BitOf(low, k)
  {
    if k > 0 {
      assert Pow2(k + 1) * m == 2 * (Pow2(k) * m);
      LowBitsShift(m, low / 2, n / 2, k - 1);
    } else {
      assert n == 2 * m + low;
    }
  }

  /** A multiple of 16 added to half a byte changes none of its four bits. */
  lemma LowBits(m: nat, half: nat, k: nat)
    requires half < 16 && k < 4
    ensures BitOf(16 * m + half, k) == BitOf(half, k)
  {
    var n := 16 * m + half;
    assert Pow2(4) == 16;
    Pow2Sum(k + 1, 3 - k);
    assert 16 * m == Pow2(k + 1) * (Pow2(3 - k) * m);
    LowBitsShift(Pow2(3 - k) * m, half, n, k);
  }

  /** A byte's bits are those of its last half, then those of its first. */
  lemma HalvesOfByte(byte: nat, m: nat, k: nat)
    requires byte < 256 && k < 8
    ensures BitOf(256 * m + byte, k) == if k < 4 then BitOf(byte % 16, k) else BitOf(byte / 16, k - 4)
  {
    var n := 256 * m + byte;
    assert n == 16 * (16 * m + byte / 16) + byte % 16;
    if k < 4 {
      LowBits(16 * m + byte / 16, byte % 16, k);
    } else {
      ShiftTwice(n, 4, k - 4);
      ShiftFew(n);
      ShiftTwice(byte, 4, k - 4);
      assert n / 16 == 16 * m + byte / 16;
      LowBits(m, byte / 16, k - 4);
    }
  }

  lemma BitsOfByte(byte: nat)
    requires byte < 256
    ensures byte == Bit(BitOf(byte, 7), 128) + Bit(BitOf(byte, 6), 64) + Bit(BitOf(byte, 5), 32)
                  + Bit(BitOf(byte, 4), 16) + Bit(BitOf(byte, 3), 8) + Bit(BitOf(byte, 2), 4)
                  + Bit(BitOf(byte, 1), 2) + Bit(BitOf(byte, 0), 1)
  {
    hide BitOf, Shift;
    BitsOfHalfByte(byte / 16);
    BitsOfHalfByte(byte % 16);
    HalvesOfByte(byte, 0, 7);
    HalvesOfByte(byte, 0, 6);
    HalvesOfByte(byte, 0, 5);
    HalvesOfByte(byte, 0, 4);
    HalvesOfByte(byte, 0, 3);
    HalvesOfByte(byte, 0, 2);
    HalvesOfByte(byte, 0, 1);
    HalvesOfByte(byte, 0, 0);
  }

  /** A big-endian number's bits are its bytes', the last byte's first. */
  lemma {:induction false} BitsOfNumber(bytes: seq<nat>, q: nat, k: nat)
    requires (forall i :: 0 <= i < |bytes| ==> bytes[i] < 256) && q < |bytes| && k < 8
    ensures BitOf(BigEndian(bytes), 8 * q + k) == BitOf(bytes[|bytes| - 1 - q], k)
  {
    var front, last := BigEndian(bytes[..|bytes| - 1]), bytes[|bytes| - 1];
    if q == 0 {
      HalvesOfByte(last, front, k);
      HalvesOfByte(last, 0, k);
    } else {
      BitsOfNumber(bytes[..|bytes| - 1], q - 1, k);
      Shifted(front, last, 8 * (q - 1) + k);
      hide BitOf;
    }
  }

  lemma Shifted(front: nat, last: nat, k: nat)
    requires last < 256
    ensures BitOf(256 * front + last, 8 + k) == BitOf(front, k)
  {
    ShiftTwice(256 * front + last, 8, k);
    ShiftByte(256 * front + last);
    assert (256 * front + last) / 256 == front;
  }

  /** Big-endian: the first byte weighs 256 for each byte after it. */
  lemma {:induction false} FirstByteWeighs(byte: nat, rest: seq<nat>)
    ensures BigEndian([byte] + rest) == byte * Pow2(8 * |rest|) + BigEndian(rest)
  {
    var all := [byte] + rest;
    if rest == [] {
      assert all[..0] == [] && all == [byte];
    } else {
      var before, n := rest[..|rest| - 1], |rest| - 1;
      assert all[..|all| - 1] == [byte] + before;
      FirstByteWeighs(byte, before);
      Pow2Sum(8, 8 * n);
      assert Pow2(8) == 256;
      assert 256 * (byte * Pow2(8 * n)) == byte * (256 * Pow2(8 * n));
      assert 8 * |rest| == 8 + 8 * n;
    }
  }

  // ---------- which bit marks a parameter ----------

  /** The byte whose bits are the marks of parameters `8 * q + 1` to `8 * q + 8`. */
  function MarkByte(p: Problem, ms: nat, q: nat): nat
    requires p.rows != [] && ms + p.length <= |p.rows[0]| && q < p.length
  {
    match p.order
    case Msb => p.rows[0][ms + q]
    case Lsb => p.rows[0][ms + p.length - 1 - q]
  }

  function Mark(p: Problem, ms: nat, f: nat, weight: nat): nat
    requires p.rows != [] && ms + p.length <= |p.rows[0]| && f < p.BlockSize()
  {
    Bit(p.MaskBit(ms, f), weight)
  }

  /**
    Eight parameters at a time: read from the front of the bitmap, a byte's bits mark them from 128
    down; read as one number, the last byte comes first and its bits mark them from 1 up.
   */
  lemma MarksSpellTheBitmap(p: Problem, ms: nat, q: nat)
    requires p.rows != [] && ms + p.length <= |p.rows[0]| && q < p.length
    requires forall i :: ms <= i < ms + p.length ==> p.rows[0][i] < 256
    ensures p.order.Msb? ==>
      p.rows[0][ms + q] ==
        Mark(p, ms, 8 * q, 128) + Mark(p, ms, 8 * q + 1, 64) + Mark(p, ms, 8 * q + 2, 32)
        + Mark(p, ms, 8 * q + 3, 16) + Mark(p, ms, 8 * q + 4, 8) + Mark(p, ms, 8 * q + 5, 4)
        + Mark(p, ms, 8 * q + 6, 2) + Mark(p, ms, 8 * q + 7, 1)
    ensures p.order.Lsb? ==>
      p.rows[0][ms + p.length - 1 - q] ==
        Mark(p, ms, 8 * q, 1) + Mark(p, ms, 8 * q + 1, 2) + Mark(p, ms, 8 * q + 2, 4)
        + Mark(p, ms, 8 * q + 3, 8) + Mark(p, ms, 8 * q + 4, 16) + Mark(p, ms, 8 * q + 5, 32)
        + Mark(p, ms, 8 * q + 6, 64) + Mark(p, ms, 8 * q + 7, 128)
  {
    BitsOfByte(MarkByte(p, ms, q));
    MarkIsBit(p, ms, q, 0);
    MarkIsBit(p, ms, q, 1);
    MarkIsBit(p, ms, q, 2);
    MarkIsBit(p, ms, q, 3);
    MarkIsBit(p, ms, q, 4);
    MarkIsBit(p, ms, q, 5);
    MarkIsBit(p, ms, q, 6);
    MarkIsBit(p, ms, q, 7);
    hide BitOf, Problem.MaskBit;
  }

  lemma MarkIsBit(p: Problem, ms: nat, q: nat, k: nat)
    requires p.rows != [] && ms + p.length <= |p.rows[0]| && q < p.length && k < 8
    requires forall i :: ms <= i < ms + p.length ==> p.rows[0][i] < 256
    ensures p.MaskBit(ms, 8 * q + k) == BitOf(MarkByte(p, ms, q), if p.order.Msb? then 7 - k else k)
  {
    assert (8 * q + k) / 8 == q && (8 * q + k) % 8 == k;
    if p.order.Msb? {
      ShiftDivides(p.rows[0][ms + q], 7 - k);
    } else {
      var mask := p.rows[0][ms..ms + p.length];
      BitsOfNumber(mask, q, k);
      ShiftDivides(BigEndian(mask), 8 * q + k);
    }
    hide Pow2, Shift;
  }
}
