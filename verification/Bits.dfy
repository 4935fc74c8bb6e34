/**
 Bytes and the bit operations of the C++ sources, written out on unbounded integers:
 shifts double or halve, masks and unions work digit by digit in base two.
 */
module Bits {
  type byte = x: int | 0 <= x < 256
  type uint16 = x: int | 0 <= x < 0x1_0000

  /** `x << n` */
  function Shl(x: nat, n: nat): nat {
    if n == 0 then x else 2 * Shl(x, n - 1)
  }

  /** `x >> n` */
  function Shr(x: nat, n: nat): nat {
    if n == 0 then x else Shr(x / 2, n - 1)
  }

  /** `a & b` */
  function BitAnd(a: nat, b: nat): (r: nat)
    ensures r <= a && r <= b
  {
    if a == 0 || b == 0 then 0
    else 2 * BitAnd(a / 2, b / 2) + (if a % 2 == 1 && b % 2 == 1 then 1 else 0)
  }

  /** `a | b` */
  function BitOr(a: nat, b: nat): (r: nat)
    ensures a <= r && b <= r
  {
    if a == 0 then b
    else if b == 0 then a
    else 2 * BitOr(a / 2, b / 2) + (if a % 2 == 1 || b % 2 == 1 then 1 else 0)
  }

  /** `((1 << i) & b) != 0`, the test both drivers use for a single button bit. */
  predicate TestBit(b: nat, i: nat) {
    BitAnd(Shl(1, i), b) != 0
  }

  /** The i-th binary digit. */
  predicate Bit(b: nat, i: nat) {
    if i == 0 then b % 2 == 1 else Bit(b / 2, i - 1)
  }

  /** The number whose i-th binary digit is bits[i]. */
  function FromBits(bits: seq<bool>): nat {
    if bits == [] then 0 else (if bits[0] then 1 else 0) + 2 * FromBits(bits[1..])
  }

  /** The value an int8_t takes when an int is stored in it. */
  function Int8(x: int): (r: int)
    ensures -128 <= r < 128
  {
    (x + 128) % 256 - 128
  }

  /** Numbers below 2^k stay below 2^k. */
  lemma {:induction false} OrBound(a: nat, b: nat, k: nat)
    requires a < Shl(1, k) && b < Shl(1, k)
    ensures BitOr(a, b) < Shl(1, k)
  {
    if a != 0 && b != 0 { OrBound(a / 2, b / 2, k - 1); }
  }

  /** Numbers without a common digit add up. */
  lemma {:induction false} OrDisjoint(hi: nat, lo: nat, k: nat)
    requires lo < Shl(1, k)
    ensures BitOr(Shl(hi, k), lo) == Shl(hi, k) + lo == BitOr(lo, Shl(hi, k))
  {
    if k > 0 { OrDisjoint(hi, lo / 2, k - 1); }
  }

  lemma AndDouble(x: nat, b: nat, y: nat, c: nat)
    requires b < 2 && c < 2
    ensures BitAnd(2 * x + b, 2 * y + c) == 2 * BitAnd(x, y) + (if b == 1 && c == 1 then 1 else 0)
  {
    assert (2 * x + b) / 2 == x && (2 * x + b) % 2 == b;
    assert (2 * y + c) / 2 == y && (2 * y + c) % 2 == c;
  }

  /** Masking with a mask whose k low digits are zero drops the k low digits. */
  lemma {:induction false} AndHigh(hi: nat, lo: nat, mask: nat, k: nat)
    requires lo < Shl(1, k)
    ensures BitAnd(Shl(hi, k) + lo, Shl(mask, k)) == Shl(BitAnd(hi, mask), k)
    decreases k
  {
    if k > 0 {
      hide BitAnd;
      var l, b := lo / 2, lo % 2;
      assert lo == 2 * l + b;
      AndHigh(hi, l, mask, k - 1);
      AndDouble(Shl(hi, k - 1) + l, b, Shl(mask, k - 1), 0);
    }
  }

  /** Masking with 2^k - 1 keeps exactly the k low digits. */
  lemma {:induction false} AndLow(hi: nat, lo: nat, k: nat)
    requires lo < Shl(1, k)
    ensures BitAnd(Shl(hi, k) + lo, Shl(1, k) - 1) == lo
    decreases k
  {
    if k > 0 {
      hide BitAnd;
      var l, b := lo / 2, lo % 2;
      assert lo == 2 * l + b;
      AndLow(hi, l, k - 1);
      AndDouble(Shl(hi, k - 1) + l, b, Shl(1, k - 1) - 1, 1);
    }
  }

  /** A mask of ones changes nothing it covers. */
  lemma AndOnes(a: nat, k: nat)
    requires a < Shl(1, k)
    ensures BitAnd(a, Shl(1, k) - 1) == a
  {
    ShlOfZero(k);
    AndLow(0, a, k);
  }

  lemma {:induction false} ShlOfZero(k: nat)
    ensures Shl(0, k) == 0
  {
    if k > 0 { ShlOfZero(k - 1); }
  }

  /** The C++ mask test reads the binary digit, and the masked and shifted-down value is that digit. */
  lemma {:induction false} MaskReadsDigit(b: nat, i: nat)
    ensures TestBit(b, i) <==> Bit(b, i)
    ensures Shr(BitAnd(b, Shl(1, i)), i) == if Bit(b, i) then 1 else 0
  {
    if i == 0 {
      assert BitAnd(1, b) == b % 2;
      assert BitAnd(b, 1) == b % 2;
    } else {
      MaskReadsDigit(b / 2, i - 1);
      assert Shl(1, i) / 2 == Shl(1, i - 1);
      assert BitAnd(b, Shl(1, i)) / 2 == BitAnd(b / 2, Shl(1, i - 1));
    }
  }

  /** A mask on either side reads the same digit. */
  lemma {:induction false} MaskIsDigit(b: nat, i: nat)
    ensures BitAnd(b, Shl(1, i)) != 0 <==> Bit(b, i)
  {
    if i == 0 {
      assert BitAnd(b, 1) == b % 2;
    } else {
      MaskIsDigit(b / 2, i - 1);
      assert Shl(1, i) / 2 == Shl(1, i - 1);
    }
  }

  /** Writing digits and reading them back. */
  lemma {:induction false} DigitOfFromBits(bits: seq<bool>, i: nat)
    requires i < |bits|
    ensures Bit(FromBits(bits), i) == bits[i]
  {
    if i > 0 { DigitOfFromBits(bits[1..], i - 1); }
  }

  /** A number below 2^|bits| is determined by its digits. */
  lemma {:induction false} FromBitsOfDigits(b: nat, bits: seq<bool>)
    requires b < Shl(1, |bits|)
    requires forall i :: 0 <= i < |bits| ==> bits[i] == Bit(b, i)
    ensures FromBits(bits) == b
  {
    if bits != [] {
      assert bits[0] == Bit(b, 0);
      forall i | 0 <= i < |bits[1..]| ensures bits[1..][i] == Bit(b / 2, i) {
        assert bits[1..][i] == bits[i + 1] == Bit(b, i + 1);
      }
      FromBitsOfDigits(b / 2, bits[1..]);
    }
  }

  lemma {:induction false} FromBitsBound(bits: seq<bool>)
    ensures FromBits(bits) < Shl(1, |bits|)
  {
    if bits != [] { FromBitsBound(bits[1..]); }
  }

  /** Int8 is the one value of an int8_t congruent to its argument modulo 256. */
  lemma Int8Unique(x: int, y: int)
    requires -128 <= y < 128
    ensures y == Int8(x) <==> (x - y) % 256 == 0
  {
    var q := (x + 128) / 256;
    assert x == 256 * q + Int8(x);
    if (x - y) % 256 == 0 {
      var p := (x - y) / 256;
      assert x == 256 * p + y;
    }
  }
}
