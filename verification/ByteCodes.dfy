/** Bytes as bit vectors, and the numbers they stand for. */
module ByteCodes {

  function Bit(on: bool, mask: bv8): bv8 { if on then mask else 0 }

  // The low eight bits of n.
  function ToByte(n: nat): bv8 {
    var h1 := HalfOf(n);
    var h2 := HalfOf(h1);
    var h3 := HalfOf(h2);
    var h4 := HalfOf(h3);
    var h5 := HalfOf(h4);
    var h6 := HalfOf(h5);
    var h7 := HalfOf(h6);
    Bits(Odd(n), Odd(h1), Odd(h2), Odd(h3), Odd(h4), Odd(h5), Odd(h6), Odd(h7))
  }

  function Bits(c0: bool, c1: bool, c2: bool, c3: bool, c4: bool, c5: bool, c6: bool, c7: bool): bv8 {
    Bit(c0, 1) | Bit(c1, 2) | Bit(c2, 4) | Bit(c3, 8) | Bit(c4, 16) | Bit(c5, 32) | Bit(c6, 64) | Bit(c7, 128)
  }

  function Digit(on: bool): nat { if on then 1 else 0 }

  // Bits count as powers of two.
  lemma BitsValue(c0: bool, c1: bool, c2: bool, c3: bool, c4: bool, c5: bool, c6: bool, c7: bool)
    ensures Bits(c0, c1, c2, c3, c4, c5, c6, c7) as int
         == Digit(c0) + 2 * Digit(c1) + 4 * Digit(c2) + 8 * Digit(c3)
          + 16 * Digit(c4) + 32 * Digit(c5) + 64 * Digit(c6) + 128 * Digit(c7)
  {}

  lemma Remainder(n: nat, q: nat, r: nat)
    requires n == 256 * q + r && r < 256
    ensures n % 256 == r
  {}

  // A number taken apart bit by bit, and its low byte put together again.
  lemma Assembled(n: nat, h1: nat, h2: nat, h3: nat, h4: nat, h5: nat, h6: nat, h7: nat, h8: nat,
                  c0: bool, c1: bool, c2: bool, c3: bool, c4: bool, c5: bool, c6: bool, c7: bool)
    requires n == 2 * h1 + Digit(c0) && h1 == 2 * h2 + Digit(c1)
    requires h2 == 2 * h3 + Digit(c2) && h3 == 2 * h4 + Digit(c3)
    requires h4 == 2 * h5 + Digit(c4) && h5 == 2 * h6 + Digit(c5)
    requires h6 == 2 * h7 + Digit(c6) && h7 == 2 * h8 + Digit(c7)
    ensures Bits(c0, c1, c2, c3, c4, c5, c6, c7) as int == n % 256
  {
    hide Bits, Digit;
    BitsValue(c0, c1, c2, c3, c4, c5, c6, c7);
    ByteRange(Bits(c0, c1, c2, c3, c4, c5, c6, c7));
    Remainder(n, h8, Bits(c0, c1, c2, c3, c4, c5, c6, c7) as int);
  }

  function HalfOf(n: nat): nat { n / 2 }

  predicate Odd(n: nat) { n % 2 == 1 }

  lemma LastBit(n: nat)
    ensures n == 2 * HalfOf(n) + Digit(Odd(n))
  {}

  /** The byte of a number stands for the number modulo 256. */
  lemma ToByteValue(n: nat)
    ensures ToByte(n) as int == n % 256
  {
    hide Bits, Digit, HalfOf, Odd;
    var h1 := HalfOf(n);
    var h2 := HalfOf(h1);
    var h3 := HalfOf(h2);
    var h4 := HalfOf(h3);
    var h5 := HalfOf(h4);
    var h6 := HalfOf(h5);
    var h7 := HalfOf(h6);
    LastBit(n);
    LastBit(h1);
    LastBit(h2);
    LastBit(h3);
    LastBit(h4);
    LastBit(h5);
    LastBit(h6);
    LastBit(h7);
    Assembled(n, h1, h2, h3, h4, h5, h6, h7, HalfOf(h7),
              Odd(n), Odd(h1), Odd(h2), Odd(h3), Odd(h4), Odd(h5), Odd(h6), Odd(h7));
  }

  lemma ByteRange(b: bv8)
    ensures 0 <= b as int < 256
  {}

  // Equal bytes stand for equal numbers, and conversely.
  lemma ByteFromValue(b: bv8, c: bv8)
    requires b as int == c as int
    ensures b == c
  {}

  /** Numbers below 256 have different bytes. */
  lemma ToByteInjective(m: nat, n: nat)
    requires m < 256 && n < 256 && ToByte(m) == ToByte(n)
    ensures m == n
  {
    hide ToByte;
    ToByteValue(m);
    ToByteValue(n);
  }

  predicate Has(b: bv8, mask: bv8) { b & mask != 0 }

  lemma ByteIsBits(b: bv8)
    ensures b == Bits(Has(b, 1), Has(b, 2), Has(b, 4), Has(b, 8), Has(b, 16), Has(b, 32), Has(b, 64), Has(b, 128))
  {}

  // The digit of weight w: what is below and above it does not matter.
  lemma DigitAt(v: nat, low: nat, digit: nat, high: nat, w: nat)
    requires w in {1, 2, 4, 8, 16, 32, 64, 128} && v == low + w * digit + 2 * w * high && low < w && digit < 2
    ensures v / w % 2 == digit
  {
    assert v / w == digit + 2 * high by {
      assert v == w * (digit + 2 * high) + low;
    }
  }

  lemma Digits(v: nat, d0: nat, d1: nat, d2: nat, d3: nat, d4: nat, d5: nat, d6: nat, d7: nat)
    requires d0 < 2 && d1 < 2 && d2 < 2 && d3 < 2 && d4 < 2 && d5 < 2 && d6 < 2 && d7 < 2
    requires v == d0 + 2 * d1 + 4 * d2 + 8 * d3 + 16 * d4 + 32 * d5 + 64 * d6 + 128 * d7
    ensures v / 1 % 2 == d0 && v / 2 % 2 == d1 && v / 4 % 2 == d2 && v / 8 % 2 == d3
    ensures v / 16 % 2 == d4 && v / 32 % 2 == d5 && v / 64 % 2 == d6 && v / 128 % 2 == d7
  {
    DigitAt(v, 0, d0, d1 + 2 * d2 + 4 * d3 + 8 * d4 + 16 * d5 + 32 * d6 + 64 * d7, 1);
    DigitAt(v, d0, d1, d2 + 2 * d3 + 4 * d4 + 8 * d5 + 16 * d6 + 32 * d7, 2);
    DigitAt(v, d0 + 2 * d1, d2, d3 + 2 * d4 + 4 * d5 + 8 * d6 + 16 * d7, 4);
    DigitAt(v, d0 + 2 * d1 + 4 * d2, d3, d4 + 2 * d5 + 4 * d6 + 8 * d7, 8);
    DigitAt(v, d0 + 2 * d1 + 4 * d2 + 8 * d3, d4, d5 + 2 * d6 + 4 * d7, 16);
    DigitAt(v, d0 + 2 * d1 + 4 * d2 + 8 * d3 + 16 * d4, d5, d6 + 2 * d7, 32);
    DigitAt(v, d0 + 2 * d1 + 4 * d2 + 8 * d3 + 16 * d4 + 32 * d5, d6, d7, 64);
    DigitAt(v, d0 + 2 * d1 + 4 * d2 + 8 * d3 + 16 * d4 + 32 * d5 + 64 * d6, d7, 0, 128);
  }

  /** Bit k of a byte, tested with its mask, is digit k of its number. */
  lemma BitIsDigit(b: bv8, m: bv8, w: nat)
    requires m as int == w && w in {1, 2, 4, 8, 16, 32, 64, 128}
    ensures Has(b, m) <==> Value(b) / w % 2 == 1
  {
    hide Bits, Digit, Has, Value;
    ByteIsBits(b);
    var c0, c1, c2, c3 := Has(b, 1), Has(b, 2), Has(b, 4), Has(b, 8);
    var c4, c5, c6, c7 := Has(b, 16), Has(b, 32), Has(b, 64), Has(b, 128);
    DigitRange(c0, c1);
    DigitRange(c2, c3);
    DigitRange(c4, c5);
    DigitRange(c6, c7);
    BitsNumber(c0, c1, c2, c3, c4, c5, c6, c7);
    Digits(Value(b), Digit(c0), Digit(c1), Digit(c2), Digit(c3), Digit(c4), Digit(c5), Digit(c6), Digit(c7));
    MaskIs(m, w);
  }

  lemma BitsNumber(c0: bool, c1: bool, c2: bool, c3: bool, c4: bool, c5: bool, c6: bool, c7: bool)
    ensures Value(Bits(c0, c1, c2, c3, c4, c5, c6, c7))
         == Digit(c0) + 2 * Digit(c1) + 4 * Digit(c2) + 8 * Digit(c3)
          + 16 * Digit(c4) + 32 * Digit(c5) + 64 * Digit(c6) + 128 * Digit(c7)
  {
    hide Bits, Digit;
    BitsValue(c0, c1, c2, c3, c4, c5, c6, c7);
  }

  lemma DigitRange(c: bool, d: bool)
    ensures Digit(c) < 2 && Digit(d) < 2 && (Digit(c) == 1 <==> c) && (Digit(d) == 1 <==> d)
  {}

  lemma MaskIs(m: bv8, w: nat)
    requires m as int == w && w in {1, 2, 4, 8, 16, 32, 64, 128}
    ensures m == if w == 1 then 1 else if w == 2 then 2 else if w == 4 then 4 else if w == 8 then 8
                 else if w == 16 then 16 else if w == 32 then 32 else if w == 64 then 64 else 128
  {}

  // ----- several bytes as one number -----

  function Value(b: bv8): nat { b as int }

  function Shifted(t: nat): nat { t / 256 }

  lemma LastByte(t: nat)
    ensures t == 256 * Shifted(t) + Value(ToByte(t)) && Value(ToByte(t)) < 256
  {
    hide ToByte;
    ToByteValue(t);
  }

  // A number with one more byte after it.
  function Push(x: nat, b: bv8): nat { 256 * x + Value(b) }

  lemma PushInjective(x: nat, b: bv8, y: nat, c: bv8)
    requires Push(x, b) == Push(y, c)
    ensures x == y && b == c
  {
    ByteRange(b);
    ByteRange(c);
    ByteFromValue(b, c);
  }

  // The number a byte string stands for, most significant byte first.
  function BigEndian(s: seq<bv8>): nat {
    if s == [] then 0 else Push(BigEndian(s[..|s| - 1]), s[|s| - 1])
  }

  lemma BigEndianPrefix(s: seq<bv8>, k: nat)
    requires k < |s|
    ensures BigEndian(s[..k + 1]) == Push(BigEndian(s[..k]), s[k])
  {
    assert s[..k + 1][..k] == s[..k];
  }

  lemma FourBytes(s: seq<bv8>)
    requires |s| >= 4
    ensures BigEndian(s[..4]) == Push(Push(Push(Push(0, s[0]), s[1]), s[2]), s[3])
  {
    hide Push, BigEndian;
    NoBytes(s);
    BigEndianPrefix(s, 0);
    BigEndianPrefix(s, 1);
    BigEndianPrefix(s, 2);
    BigEndianPrefix(s, 3);
  }

  lemma NoBytes(s: seq<bv8>)
    ensures BigEndian(s[..0]) == 0
  {}

  lemma EightBytes(s: seq<bv8>)
    requires |s| == 8
    ensures BigEndian(s)
         == Push(Push(Push(Push(Push(Push(Push(Push(0, s[0]), s[1]), s[2]), s[3]), s[4]), s[5]), s[6]), s[7])
  {
    hide Push, BigEndian;
    FourBytes(s);
    BigEndianPrefix(s, 4);
    BigEndianPrefix(s, 5);
    BigEndianPrefix(s, 6);
    BigEndianPrefix(s, 7);
    assert s[..8] == s;
  }
}
