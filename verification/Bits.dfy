/** Bitwise operators on non-negative integers, and bit strings of byte sequences. */
module Bits {

  type Byte = n: nat | n < 256

  function Pow2(k: nat): (r: nat)
    ensures r >= 1
  {
    if k == 0 then 1 else 2 * Pow2(k - 1)
  }

  function ShiftLeft(a: nat, k: nat): nat {
    a * Pow2(k)
  }

  function ShiftRight(a: nat, k: nat): nat {
    hide Pow2;
    a / Pow2(k)
  }

  function BitAnd(a: nat, b: nat): nat {
    if a == 0 || b == 0 then 0 else (a % 2) * (b % 2) + 2 * BitAnd(a / 2, b / 2)
  }

  function BitOr(a: nat, b: nat): nat
    decreases a + b
  {
    if a == 0 then b
    else if b == 0 then a
    else (if a % 2 == 1 || b % 2 == 1 then 1 else 0) + 2 * BitOr(a / 2, b / 2)
  }

  lemma {:induction false} Pow2Sum(a: nat, b: nat)
    ensures Pow2(a + b) == Pow2(a) * Pow2(b)
  {
    if a > 0 {
      Pow2Sum(a - 1, b);
      assert Pow2(a + b) == 2 * (Pow2(a - 1) * Pow2(b)) == (2 * Pow2(a - 1)) * Pow2(b);
    }
  }

  lemma {:induction false} Multiple(n: int, m: int)
    requires m >= 0
    ensures n >= 1 ==> n * m >= m
    ensures n <= -1 ==> n * m <= 0 - m
  {
    if n >= 1 {
      assert n * m == m + (n - 1) * m;
    } else if n <= -1 {
      assert n * m == (n + 1) * m - m;
    }
  }

  /** Quotient and remainder are determined by the division identity. */
  lemma {:induction false} DivMod(x: nat, m: nat, q: nat, r: nat)
    requires r < m && x == q * m + r
    ensures x / m == q && x % m == r
  {
    var n := x / m - q;
    Quotient(x, m);
    assert n * m == (x / m) * m - q * m;
    Multiple(n, m);
  }

  lemma {:induction false} Quotient(x: nat, m: nat)
    requires m > 0
    ensures x == (x / m) * m + x % m && x % m < m
  {
  }

  lemma {:induction false} HalfOfMod(x: nat, k: nat)
    requires k > 0
    ensures x % Pow2(k) == x % 2 + 2 * ((x / 2) % Pow2(k - 1))
  {
    var m := Pow2(k - 1);
    var h := x / 2;
    var q, r := h / m, h % m;
    assert h == q * m + r;
    assert x == 2 * (q * m + r) + x % 2;
    assert 2 * (q * m) == q * (2 * m);
    DivMod(x, 2 * m, q, 2 * r + x % 2);
  }

  lemma {:induction false} OddMask(x: nat, m: nat)
    requires x > 0 && m > 0
    ensures BitAnd(x, 2 * m - 1) == x % 2 + 2 * BitAnd(x / 2, m - 1)
  {
    var ones := 2 * m - 1;
    assert ones % 2 == 1 && ones / 2 == m - 1;
  }

  function LowBits(x: nat, k: nat): nat {
    hide Pow2;
    x % Pow2(k)
  }

  lemma {:induction false} LowBitsStep(x: nat, k: nat)
    ensures LowBits(x, 0) == 0 && LowBits(0, k) == 0
    ensures k > 0 ==> LowBits(x, k) == x % 2 + 2 * LowBits(x / 2, k - 1)
  {
    DivMod(x, Pow2(0), x, 0);
    DivMod(0, Pow2(k), 0, 0);
    hide Pow2;
    if k > 0 {
      HalfOfMod(x, k);
    }
  }

  /** Masking with `k` ones keeps the low `k` bits. */
  lemma {:induction false} MaskIsLowBits(x: nat, k: nat)
    ensures BitAnd(x, Pow2(k) - 1) == LowBits(x, k)
  {
    LowBitsStep(x, k);
    hide LowBits;
    if k > 0 && x > 0 {
      OddMask(x, Pow2(k - 1));
      MaskIsLowBits(x / 2, k - 1);
    }
  }

  /** Masking with `k` ones is the remainder modulo `2^k`. */
  lemma {:induction false} MaskIsMod(x: nat, k: nat)
    ensures BitAnd(x, Pow2(k) - 1) == x % Pow2(k)
  {
    MaskIsLowBits(x, k);
    hide Pow2, BitAnd;
  }

  lemma {:induction false} Doubled(a: nat, m: nat)
    ensures a * (2 * m) == 2 * (a * m)
  {
  }

  /** Filling `k` vacated low bits is an addition. */
  lemma {:induction false} FillIsSum(a: nat, k: nat, b: nat)
    requires b < Pow2(k)
    ensures BitOr(ShiftLeft(a, k), b) == a * Pow2(k) + b
  {
    if k > 0 && a > 0 && b > 0 {
      var x, half := ShiftLeft(a, k), ShiftLeft(a, k - 1);
      Doubled(a, Pow2(k - 1));
      assert x == 2 * half;
      Multiple(a, Pow2(k));
      FillIsSum(a, k - 1, b / 2);
      hide Pow2;
      assert BitOr(x, b) == b % 2 + 2 * BitOr(half, b / 2);
    }
  }

  // ------------------------------------------------------------- bit strings

  /** Bit `k` of a byte sequence, most significant first. */
  function Bit(bytes: seq<Byte>, k: nat): (b: nat)
    requires k < 8 * |bytes|
    ensures b < 2
  {
    (bytes[k / 8] / Pow2(7 - k % 8)) % 2
  }

  /** The number written by bits `start` up to, but not including, `end`. */
  function BitsValue(bytes: seq<Byte>, start: nat, end: nat): nat
    requires start <= end <= 8 * |bytes|
    decreases end
  {
    if start == end then 0 else 2 * BitsValue(bytes, start, end - 1) + Bit(bytes, end - 1)
  }

  lemma {:induction false} BitsBound(bytes: seq<Byte>, start: nat, end: nat)
    requires start <= end <= 8 * |bytes|
    ensures BitsValue(bytes, start, end) < Pow2(end - start)
    decreases end
  {
    hide Bit;
    if start < end {
      var half := Pow2(end - 1 - start);
      assert Pow2(end - start) == 2 * half;
      hide Pow2;
      BitsBound(bytes, start, end - 1);
    }
  }

  lemma {:induction false} BitsSplit(bytes: seq<Byte>, start: nat, mid: nat, end: nat)
    requires start <= mid <= end <= 8 * |bytes|
    ensures BitsValue(bytes, start, end) == BitsValue(bytes, start, mid) * Pow2(end - mid) + BitsValue(bytes, mid, end)
    decreases end
  {
    if mid < end {
      hide Bit;
      BitsSplit(bytes, start, mid, end - 1);
      assert Pow2(end - mid) == 2 * Pow2(end - 1 - mid);
      Doubled(BitsValue(bytes, start, mid), Pow2(end - 1 - mid));
    }
  }

  lemma {:induction false} PowersUpTo8()
    ensures Pow2(0) == 1 && Pow2(1) == 2 && Pow2(2) == 4 && Pow2(3) == 8 && Pow2(4) == 16
    ensures Pow2(5) == 32 && Pow2(6) == 64 && Pow2(7) == 128 && Pow2(8) == 256
  {
    assert Pow2(2) == 2 * Pow2(1);
    assert Pow2(4) == 2 * Pow2(3) && Pow2(3) == 2 * Pow2(2);
    assert Pow2(6) == 2 * Pow2(5) && Pow2(5) == 2 * Pow2(4);
    assert Pow2(8) == 2 * Pow2(7) && Pow2(7) == 2 * Pow2(6);
  }

  /** The leading `n` bits of one byte. */
  lemma {:induction false} ByteBits(bytes: seq<Byte>, j: nat, n: nat)
    requires j < |bytes| && n <= 8
    ensures BitsValue(bytes, 8 * j, 8 * j + n) == ShiftRight(bytes[j], 8 - n)
  {
    hide ShiftRight, Bit;
    if n == 0 {
      NoneLeft(bytes[j]);
    } else {
      ByteBits(bytes, j, n - 1);
      LastBit(bytes, j, n);
      HalvesOf(bytes[j], 8 - n);
      var last := 8 * j + n - 1;
      assert BitsValue(bytes, 8 * j, 8 * j + n) == 2 * BitsValue(bytes, 8 * j, last) + Bit(bytes, last);
    }
  }

  lemma {:induction false} NoneLeft(b: Byte)
    ensures ShiftRight(b, 8) == 0 && ShiftRight(b, 0) == b
  {
    PowersUpTo8();
    DivMod(b, 256, 0, b);
    DivMod(b, 1, b, 0);
  }

  lemma {:induction false} LastBit(bytes: seq<Byte>, j: nat, n: nat)
    requires j < |bytes| && 0 < n <= 8
    ensures Bit(bytes, 8 * j + n - 1) == ShiftRight(bytes[j], 8 - n) % 2
  {
    hide Pow2;
    assert (8 * j + n - 1) / 8 == j && (8 * j + n - 1) % 8 == n - 1;
  }

  lemma {:induction false} HalvesOf(x: nat, k: nat)
    ensures ShiftRight(x, k) == 2 * ShiftRight(x, k + 1) + ShiftRight(x, k) % 2
  {
    assert Pow2(k + 1) == 2 * Pow2(k);
    HalfQuotient(x, Pow2(k));
    hide Pow2;
  }

  lemma {:induction false} HalfQuotient(x: nat, m: nat)
    requires m > 0
    ensures x / m == 2 * (x / (2 * m)) + (x / m) % 2
  {
    var q, r := x / m, x % m;
    Quotient(x, m);
    var h, b := q / 2, q % 2;
    assert q == 2 * h + b;
    assert q * m == (2 * h) * m + b * m;
    Doubled(h, m);
    assert (2 * h) * m == h * (2 * m);
    assert b * m <= m;
    DivMod(x, 2 * m, h, b * m + r);
  }

  lemma {:induction false} WholeByte(bytes: seq<Byte>, j: nat)
    requires j < |bytes|
    ensures BitsValue(bytes, 8 * j, 8 * j + 8) == bytes[j]
  {
    hide BitsValue, ShiftRight;
    ByteBits(bytes, j, 8);
    NoneLeft(bytes[j]);
  }

  /** Equal numbers of equal width have equal bits. */
  lemma {:induction false} BitsInjective(a: seq<Byte>, b: seq<Byte>, start: nat, end: nat)
    requires start <= end <= 8 * |a| && end <= 8 * |b|
    ensures BitsValue(a, start, end) == BitsValue(b, start, end)
            <==> (forall k :: start <= k < end ==> Bit(a, k) == Bit(b, k))
    decreases end
  {
    hide Bit;
    if start < end {
      BitsInjective(a, b, start, end - 1);
    }
  }
}
