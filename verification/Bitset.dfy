/** A bitset over bytes, filled from a hexadecimal string. */
module Bitset {
  import opened Arithmetic

  type Byte = bv8

  /** The byte with only the given bit set, 1 shifted by the bit number. */
  function Mask(bit: nat): Byte
    requires bit < 8
  {
    1 << bit
  }

  predicate Test(b: Byte, bit: nat)
    requires bit < 8
  {
    b & Mask(bit) != 0
  }

  lemma Masks()
    ensures Mask(0) == 1 && Mask(1) == 2 && Mask(2) == 4 && Mask(3) == 8
    ensures Mask(4) == 16 && Mask(5) == 32 && Mask(6) == 64 && Mask(7) == 128
  {
  }

  lemma SetBit(b: Byte, bit: nat, other: nat)
    requires bit < 8 && other < 8
    ensures Test(b | Mask(bit), other) == (other == bit || Test(b, other))
    ensures Test(b & !Mask(bit), other) == (other != bit && Test(b, other))
  {
    Masks();
    OneBit(b, bit, other);
  }

  lemma OneBit(b: Byte, bit: nat, other: nat)
    requires bit < 8 && other < 8
    ensures other == bit ==> (b | Mask(bit)) & Mask(other) != 0 && (b & !Mask(bit)) & Mask(other) == 0
    ensures other != bit ==>
              && (b | Mask(bit)) & Mask(other) == b & Mask(other)
              && (b & !Mask(bit)) & Mask(other) == b & Mask(other)
  {
    Masks();
  }

  // ---------- Numbers and digits ----------

  /** Bit k of the number v. */
  predicate BitOf(v: nat, k: nat) {
    v / Pow2(k) % 2 == 1
  }

  /** The first n bits of v as a number again. */
  function BitSum(v: nat, n: nat): nat {
    if n == 0 then 0 else BitSum(v, n - 1) + if BitOf(v, n - 1) then Pow2(n - 1) else 0
  }

  lemma {:induction false} BitSumStep(v: nat, n: nat)
    ensures BitSum(v, n) == v % Pow2(n)
  {
    if n > 0 {
      BitSumStep(v, n - 1);
      RemainderStep(v, Pow2(n - 1));
    } else {
      assert Pow2(0) == 1;
    }
  }

  /** The bits of a number sum up to it. */
  lemma BitSumIs(v: nat, n: nat)
    requires v < Pow2(n)
    ensures BitSum(v, n) == v
  {
    BitSumStep(v, n);
    DivModUnique(v, Pow2(n), 0, v);
  }

  lemma RemainderStep(v: nat, p: nat)
    requires p > 0
    ensures v % (2 * p) == v % p + if v / p % 2 == 1 then p else 0
  {
    var q := v / p;
    assert v == q * p + v % p;
    assert q == 2 * (q / 2) + q % 2;
    assert v == (q / 2) * (2 * p) + (q % 2) * p + v % p;
    DivModUnique(v, 2 * p, q / 2, (q % 2) * p + v % p);
  }

  const HEX_DIGITS := "0123456789abcdef"
  const HEX_CAPITALS := "0123456789ABCDEF"

  /** The number a character denotes; any other character counts as no bit set. */
  function Digit(c: char): (d: nat)
    ensures d < 16
  {
    if '0' <= c <= '9' then c as int - '0' as int
    else if 'a' <= c <= 'f' then c as int - 'a' as int + 10
    else if 'A' <= c <= 'F' then c as int - 'A' as int + 10
    else 0
  }

  /** A digit denotes its place in the table of digits, small or capital. */
  lemma DigitIsPlace(d: nat)
    requires d < 16
    ensures Digit(HEX_DIGITS[d]) == d && Digit(HEX_CAPITALS[d]) == d
  {
  }

  /** No other character denotes anything but 0. */
  lemma OnlyDigits(c: char)
    ensures c == HEX_DIGITS[Digit(c)] || c == HEX_CAPITALS[Digit(c)]
         || (c !in HEX_DIGITS && c !in HEX_CAPITALS && Digit(c) == 0)
  {
  }

  /** The number a string of hexadecimal digits denotes, most significant digit first. */
  function Value(s: string): nat
  {
    if s == "" then 0 else Value(s[..|s| - 1]) * 16 + Digit(s[|s| - 1])
  }

  /** The digits of n, written with either table. */
  function Hex(n: nat, capital: bool): string {
    if n == 0 then "" else Hex(n / 16, capital) + [if capital then HEX_CAPITALS[n % 16] else HEX_DIGITS[n % 16]]
  }

  /** Reading the digits written of a number gives the number. */
  lemma {:induction false} HexRoundTrip(n: nat, capital: bool)
    ensures Value(Hex(n, capital)) == n
    decreases n
  {
    if n > 0 {
      HexRoundTrip(n / 16, capital);
      DigitIsPlace(n % 16);
      var s := Hex(n, capital);
      assert s[..|s| - 1] == Hex(n / 16, capital);
    }
  }

  /** Leading zeros change nothing. */
  lemma {:induction false} LeadingZero(s: string)
    ensures Value("0" + s) == Value(s)
    decreases |s|
  {
    if s != "" {
      LeadingZero(s[..|s| - 1]);
      assert ("0" + s)[..|s|] == "0" + s[..|s| - 1];
    }
  }

  /** The k-th digit from the right, zero beyond the string. */
  function DigitAt(s: string, k: nat): (d: nat)
    ensures d < 16
  {
    if k < |s| then Digit(s[|s| - 1 - k]) else 0
  }

  lemma {:induction false} PowSplit(k: nat)
    requires k >= 4
    ensures Pow2(k) == 16 * Pow2(k - 4)
  {
    assert Pow2(k) == 2 * Pow2(k - 1) && Pow2(k - 1) == 2 * Pow2(k - 2);
    assert Pow2(k - 2) == 2 * Pow2(k - 3) && Pow2(k - 3) == 2 * Pow2(k - 4);
  }

  /** Dividing by 16 and then by p is dividing by 16 p. */
  lemma DivDiv(v: nat, d: nat, p: nat)
    requires d < 16 && p > 0
    ensures (v * 16 + d) / (16 * p) == v / p
  {
    var q, r := v / p, v % p;
    assert v == q * p + r;
    assert v * 16 + d == q * (16 * p) + (16 * r + d);
    DivModUnique(v * 16 + d, 16 * p, q, 16 * r + d);
  }

  lemma EvenPart(h: nat, x: nat)
    ensures (2 * h + x) % 2 == x % 2
  {
  }

  lemma LowBitsAt(v: nat, d: nat, p: nat, h: nat)
    requires p > 0 && (2 * h) * p == v * 16
    ensures (v * 16 + d) / p % 2 == d / p % 2
  {
    var q := d / p;
    assert d == q * p + d % p;
    assert (2 * h + q) * p == (2 * h) * p + q * p;
    DivModUnique(v * 16 + d, p, 2 * h + q, d % p);
    EvenPart(h, q);
  }

  lemma LowBits(v: nat, d: nat, k: nat)
    requires k < 4
    ensures BitOf(v * 16 + d, k) == BitOf(d, k)
  {
    assert Pow2(0) == 1 && Pow2(1) == 2 && Pow2(2) == 4 && Pow2(3) == 8;
    var h := if k == 0 then 8 * v else if k == 1 then 4 * v else if k == 2 then 2 * v else v;
    LowBitsAt(v, d, Pow2(k), h);
  }

  /** Bit k of the denoted number is bit k % 4 of the digit k / 4 from the right. */
  lemma {:induction false} ValueBit(s: string, k: nat)
    ensures BitOf(Value(s), k) == BitOf(DigitAt(s, k / 4), k % 4)
    decreases |s|
  {
    if s == "" {
      ZeroBits(k);
      ZeroBits(k % 4);
    } else {
      var s', d := s[..|s| - 1], Digit(s[|s| - 1]);
      if k < 4 {
        LowBits(Value(s'), d, k);
      } else {
        ValueBit(s', k - 4);
        PowSplit(k);
        DivDiv(Value(s'), d, Pow2(k - 4));
        assert (k - 4) / 4 == k / 4 - 1 && (k - 4) % 4 == k % 4;
        assert DigitAt(s', k / 4 - 1) == DigitAt(s, k / 4);
      }
    }
  }

  lemma ZeroBits(k: nat)
    ensures !BitOf(0, k)
  {
    assert 0 / Pow2(k) == 0;
  }

  // ---------- Binary digits ----------

  /** Whether the j-th digit from the right is 1. */
  predicate OneAt(s: string, j: nat) {
    j < |s| && s[|s| - 1 - j] == '1'
  }

  /** The number a string of binary digits denotes. */
  function BinaryValue(s: string): nat {
    if s == "" then 0 else BinaryValue(s[..|s| - 1]) * 2 + if s[|s| - 1] == '1' then 1 else 0
  }

  /** Its bits are the digits. */
  lemma {:induction false} BinaryBit(s: string, j: nat)
    ensures OneAt(s, j) == BitOf(BinaryValue(s), j)
    decreases |s|
  {
    if s == "" {
      ZeroBits(j);
    } else {
      var s', d := s[..|s| - 1], if s[|s| - 1] == '1' then 1 else 0;
      if j > 0 {
        BinaryBit(s', j - 1);
        DivTwice(BinaryValue(s'), d, Pow2(j - 1));
      } else {
        EvenPart(BinaryValue(s'), d);
      }
    }
  }

  lemma DivTwice(v: nat, d: nat, p: nat)
    requires d < 2 && p > 0
    ensures (v * 2 + d) / (2 * p) == v / p
  {
    var q, r := v / p, v % p;
    assert v == q * p + r;
    assert v * 2 + d == q * (2 * p) + (2 * r + d);
    DivModUnique(v * 2 + d, 2 * p, q, 2 * r + d);
  }

  /** 1 shifted left and cut to a byte. */
  function Shifted(bit: nat): Byte {
    if bit < 8 then Mask(bit) else 0
  }

  lemma NoBits()
    ensures forall b :: 0 <= b < 8 ==> !Test(0, b)
  {
  }

  lemma OrShifted(x: Byte, bit: nat, other: nat)
    requires other < 8
    ensures Test(x | Shifted(bit), other) == (other == bit || Test(x, other))
    ensures bit >= 8 ==> x | Shifted(bit) == x
  {
    if bit < 8 { SetBit(x, bit, other); }
  }

  // ---------- Two digits in a byte ----------

  function Nibble(d: nat): Byte
    requires d < 16
  {
    d as Byte
  }

  function Pair(lo: nat, hi: nat): Byte
    requires lo < 16 && hi < 16
  {
    Nibble(lo) | (Nibble(hi) << 4)
  }

  lemma NibbleBit(d: nat, bit: nat)
    requires d < 16 && bit < 4
    ensures Test(Nibble(d), bit) == BitOf(d, bit)
    ensures Nibble(d) < 16
  {
    Masks();
    assert Pow2(0) == 1 && Pow2(1) == 2 && Pow2(2) == 4 && Pow2(3) == 8;
    assert Nibble(0) == 0 && Nibble(1) == 1 && Nibble(2) == 2 && Nibble(3) == 3;
    assert Nibble(4) == 4 && Nibble(5) == 5 && Nibble(6) == 6 && Nibble(7) == 7;
    assert Nibble(8) == 8 && Nibble(9) == 9 && Nibble(10) == 10 && Nibble(11) == 11;
    assert Nibble(12) == 12 && Nibble(13) == 13 && Nibble(14) == 14 && Nibble(15) == 15;
  }

  lemma Halves(x: Byte, y: Byte, bit: nat)
    requires x < 16 && y < 16 && bit < 8
    ensures bit < 4 ==> (x | (y << 4)) & Mask(bit) == x & Mask(bit)
    ensures bit >= 4 ==> ((x | (y << 4)) & Mask(bit) != 0 <==> y & Mask(bit - 4) != 0)
  {
    Masks();
  }

  lemma PairBit(lo: nat, hi: nat, bit: nat)
    requires lo < 16 && hi < 16 && bit < 8
    ensures Test(Pair(lo, hi), bit) == if bit < 4 then BitOf(lo, bit) else BitOf(hi, bit - 4)
  {
    NibbleBit(lo, if bit < 4 then bit else 0);
    NibbleBit(hi, if bit < 4 then 0 else bit - 4);
    Halves(Nibble(lo), Nibble(hi), bit);
  }

  lemma PairBuild(lo: nat, d: nat)
    requires lo < 16 && d < 16
    ensures Pair(0, 0) == 0 && 0 | Nibble(d) == Pair(d, 0)
    ensures Pair(lo, 0) | (Nibble(d) << 4) == Pair(lo, d)
  {
    assert Nibble(0) == 0;
  }

  lemma OrShiftedAll(x: Byte, bit: nat)
    ensures forall b :: 0 <= b < 8 ==> Test(x | Shifted(bit), b) == (b == bit || Test(x, b))
    ensures bit >= 8 ==> x | Shifted(bit) == x
  {
    hide Test, Shifted;
    forall b | 0 <= b < 8 ensures Test(x | Shifted(bit), b) == (b == bit || Test(x, b)) {
      OrShifted(x, bit, b);
    }
    OrShifted(x, bit, 0);
  }

  // ---------- The loop over binary digits ----------

  /** Whether the digit at place j is a 1 whose bit ends up at index j. In the first byte every digit does.
      Behind it the bit index runs on to 8, where a shift sets nothing, and only a 1 there starts the next
      byte: so the lowest bit of a byte is never set, and a 0 there loses all that follows. */
  ghost predicate Lands(s: string, j: nat) {
    OneAt(s, j) && (j < 8 || (j % 8 != 0 && forall m :: 1 <= m <= j / 8 ==> OneAt(s, 8 * m)))
  }

  /** The bytes and the two indices after the first i digits. */
  ghost predicate Filled(s: string, i: nat, a: seq<Byte>, byteIdx: nat, bitIdx: nat) {
    && i <= |s| <= 8 * |a| && 8 * byteIdx + bitIdx == i
    && (forall m :: 1 <= m <= byteIdx ==> OneAt(s, 8 * m))
    && (byteIdx > 0 ==> bitIdx > 0)
    && (bitIdx > 8 ==> !OneAt(s, 8 * (byteIdx + 1)))
    && (forall j: nat :: j / 8 < |a| ==> Test(a[j / 8], j % 8) == (j < i && Lands(s, j)))
  }

  lemma FilledAtFirst(s: string, a: seq<Byte>)
    requires |s| <= 8 * |a| && forall b :: 0 <= b < |a| ==> a[b] == 0
    ensures Filled(s, 0, a, 0, 0)
  {
    hide Test;
    NoBits();
  }

  lemma SkipZero(s: string, i: nat, a: seq<Byte>, byteIdx: nat, bitIdx: nat)
    requires Filled(s, i, a, byteIdx, bitIdx) && i < |s| && s[|s| - 1 - i] != '1'
    ensures Filled(s, i + 1, a, byteIdx, bitIdx + 1)
  {
    hide Test;
    assert !OneAt(s, i);
  }

  /** Where the digit 1 at place i lands, told by the bit index. */
  lemma LandsIff(s: string, i: nat, a: seq<Byte>, byteIdx: nat, bitIdx: nat)
    requires Filled(s, i, a, byteIdx, bitIdx) && i < |s| && s[|s| - 1 - i] == '1'
    ensures Lands(s, i) <==> bitIdx < 8
    ensures bitIdx < 8 ==> i / 8 == byteIdx && i % 8 == bitIdx
  {
    hide Test;
    if bitIdx > 8 {
      assert 1 <= byteIdx + 1 <= i / 8;
    }
  }

  lemma WriteLands(s: string, i: nat, a: seq<Byte>, byteIdx: nat, bitIdx: nat, j: nat)
    requires Filled(s, i, a, byteIdx, bitIdx) && i < |s| && s[|s| - 1 - i] == '1'
    requires byteIdx < |a| && j / 8 < |a|
    ensures var next := a[byteIdx := a[byteIdx] | Shifted(bitIdx)];
      Test(next[j / 8], j % 8) == (j < i + 1 && Lands(s, j))
  {
    hide Test, Lands, OneAt;
    LandsIff(s, i, a, byteIdx, bitIdx);
    OrShifted(a[byteIdx], bitIdx, j % 8);
    SamePlace(i, j, 8);
  }

  lemma TakeOne(s: string, i: nat, a: seq<Byte>, byteIdx: nat, bitIdx: nat)
    requires Filled(s, i, a, byteIdx, bitIdx) && i < |s| && s[|s| - 1 - i] == '1'
    ensures byteIdx < |a|
    ensures var next := a[byteIdx := a[byteIdx] | Shifted(bitIdx)];
            if bitIdx == 8 then Filled(s, i + 1, next, byteIdx + 1, 1)
            else Filled(s, i + 1, next, byteIdx, bitIdx + 1)
  {
    hide Test, Lands, Shifted;
    var next := a[byteIdx := a[byteIdx] | Shifted(bitIdx)];
    forall j: nat | j / 8 < |next| ensures Test(next[j / 8], j % 8) == (j < i + 1 && Lands(s, j)) {
      WriteLands(s, i, a, byteIdx, bitIdx, j);
    }
  }

  /** All digits land at their index exactly if none left of the eighth is a 1. */
  lemma AllLandIff(s: string)
    ensures (forall j: nat :: Lands(s, j) == OneAt(s, j)) <==> forall j: nat :: 8 <= j ==> !OneAt(s, j)
  {
    if j: nat :| 8 <= j && OneAt(s, j) {
      if OneAt(s, 8) {
        assert !Lands(s, 8);
      } else {
        assert !OneAt(s, 8 * 1);
        assert !Lands(s, j);
      }
    }
  }

  class Bitset {
    const arr: array<Byte>

    constructor (n: nat)
      ensures arr.Length == n / 8 + 1 && fresh(arr)
      ensures forall b :: 0 <= b < arr.Length ==> arr[b] == 0
    {
      arr := new Byte[n / 8 + 1](_ => 0);
    }

    predicate Get(idx: nat)
      requires idx / 8 < arr.Length
      reads arr
    {
      Test(arr[idx / 8], idx % 8)
    }

    /** The loop of the string constructor over hexadecimal digits, least significant first. */
    method FillHex(s: string)
      requires |s| <= 2 * arr.Length
      requires forall b :: 0 <= b < arr.Length ==> arr[b] == 0
      modifies arr
      ensures forall idx: nat :: idx / 8 < arr.Length ==> Get(idx) == BitOf(Value(s), idx)
      ensures forall b: nat :: b < arr.Length ==>
                arr[b] == Nibble(DigitAt(s, 2 * b)) | (Nibble(DigitAt(s, 2 * b + 1)) << 4)
    {
      hide Digit, Value, BitOf, Test;
      var byteIdx, topHalf, i := 0, false, 0;
      PairBuild(0, 0);
      while i < |s|
        invariant i <= |s| && byteIdx == i / 2 && topHalf == (i % 2 == 1)
        invariant forall b :: 0 <= b < arr.Length ==> arr[b] == Pair(Read(s, i, 2 * b), Read(s, i, 2 * b + 1))
      {
        var val := Digit(s[|s| - 1 - i]);
        PairBuild(Read(s, i, 2 * byteIdx), val);
        if topHalf {
          arr[byteIdx] := arr[byteIdx] | (Nibble(val) << 4);
          byteIdx := byteIdx + 1;
        } else {
          arr[byteIdx] := arr[byteIdx] | Nibble(val);
        }
        topHalf := !topHalf;
        i := i + 1;
      }
      forall idx: nat | idx / 8 < arr.Length ensures Get(idx) == BitOf(Value(s), idx) {
        FilledBit(s, idx);
      }
    }

    /** The loop of the string constructor over binary digits, least significant first. The bit index is
        reset one digit too late and only on a digit 1; which digits can be read back follows, and all of
        them can if and only if there is no digit 1 left of the eighth. */
    method FillBinary(s: string)
      requires |s| <= 8 * arr.Length
      requires forall b :: 0 <= b < arr.Length ==> arr[b] == 0
      modifies arr
      ensures forall j: nat :: j / 8 < arr.Length ==>
                Get(j) == (OneAt(s, j) && (j < 8 || (j % 8 != 0 && forall m :: 1 <= m <= j / 8 ==> OneAt(s, 8 * m))))
      ensures (forall j: nat :: j / 8 < arr.Length ==> Get(j) == OneAt(s, j))
         <==> forall j: nat :: 8 <= j ==> !OneAt(s, j)
    {
      var byteIdx, bitIdx, i: nat := 0, 0, 0;
      hide Filled, Shifted, OneAt, Test;
      FilledAtFirst(s, arr[..]);
      while i < |s|
        invariant i <= |s| && Filled(s, i, arr[..], byteIdx, bitIdx)
      {
        ghost var a := arr[..];
        if s[|s| - 1 - i] == '1' {
          TakeOne(s, i, a, byteIdx, bitIdx);
          arr[byteIdx] := arr[byteIdx] | Shifted(bitIdx);
          assert arr[..] == a[byteIdx := a[byteIdx] | Shifted(bitIdx)];
          if bitIdx == 8 {
            bitIdx := 0;
            byteIdx := byteIdx + 1;
          }
        } else {
          SkipZero(s, i, a, byteIdx, bitIdx);
        }
        bitIdx := bitIdx + 1;
        i := i + 1;
      }
      FilledReads(s, byteIdx, bitIdx);
    }

    lemma FilledReads(s: string, byteIdx: nat, bitIdx: nat)
      requires Filled(s, |s|, arr[..], byteIdx, bitIdx)
      ensures forall j: nat :: j / 8 < arr.Length ==> Get(j) == Lands(s, j)
      ensures (forall j: nat :: j / 8 < arr.Length ==> Get(j) == OneAt(s, j))
         <==> forall j: nat :: 8 <= j ==> !OneAt(s, j)
    {
      hide Test;
      AllLandIff(s);
      forall j: nat | j / 8 < arr.Length ensures Get(j) == Lands(s, j) {
        assert arr[..][j / 8] == arr[j / 8];
      }
    }

    /** A write through the proxy of one index: that bit takes the value, every other bit stays. */
    method Set(idx: nat, b: bool)
      requires idx / 8 < arr.Length
      modifies arr
      ensures forall k: nat :: k / 8 < arr.Length ==> Get(k) == if k == idx then b else old(Get(k))
    {
      hide Test, Mask;
      var byte, bit := idx / 8, idx % 8;
      ghost var before := arr[..];
      if b {
        arr[byte] := arr[byte] | Mask(bit);
      } else {
        arr[byte] := arr[byte] & !Mask(bit);
      }
      forall k: nat | k / 8 < arr.Length ensures Get(k) == if k == idx then b else old(Get(k)) {
        WriteBit(before, arr[..], byte, bit, b, k / 8, k % 8);
        SamePlace(k, idx, 8);
      }
    }
  }

  /** One byte changes, and in it one bit. */
  lemma WriteBit(s: seq<Byte>, t: seq<Byte>, byte: nat, bit: nat, b: bool, byte': nat, bit': nat)
    requires byte < |s| && byte' < |s| && bit < 8 && bit' < 8
    requires t == s[byte := if b then s[byte] | Mask(bit) else s[byte] & !Mask(bit)]
    ensures Test(t[byte'], bit') == if byte' == byte && bit' == bit then b else Test(s[byte'], bit')
  {
    hide Test, Mask;
    SetBit(s[byte], bit, bit');
  }

  /** The k-th digit from the right, if it is among the first i. */
  function Read(s: string, i: nat, k: nat): (d: nat)
    ensures d < 16
  {
    if k < i then DigitAt(s, k) else 0
  }

  lemma FilledBit(s: string, idx: nat)
    ensures var b := idx / 8;
      Test(Pair(Read(s, |s|, 2 * b), Read(s, |s|, 2 * b + 1)), idx % 8) == BitOf(Value(s), idx)
  {
    var b, bit := idx / 8, idx % 8;
    ValueBit(s, idx);
    PairBit(Read(s, |s|, 2 * b), Read(s, |s|, 2 * b + 1), bit);
    assert if bit < 4 then idx / 4 == 2 * b && idx % 4 == bit else idx / 4 == 2 * b + 1 && idx % 4 == bit - 4;
  }
}
