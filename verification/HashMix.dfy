/**
 One step of the state hash, on 64-bit words (src/order_book.cpp:10-12). Shifts and sums are arithmetic modulo 2^64;
 exclusive or works byte by byte.
 */
module HashMix {
  import opened Types
  import opened Bytes

  const WORDS: int := 0x1_0000_0000_0000_0000

  /** A hexadecimal digit. */
  type u4 = x: int | 0 <= x <= 0xF

  function XorDigit(a: u4, b: u4): u4 {
    ((a as bv4) ^ (b as bv4)) as u4
  }

  function XorByte(a: u8, b: u8): u8 {
    16 * (XorDigit(a / 16, b / 16) as int) + XorDigit(a % 16, b % 16)
  }

  function Each(f: (u8, u8) -> u8, a: Data, b: Data): (r: Data)
    requires |a| == |b|
    ensures |r| == |a|
  {
    seq(|a|, i requires 0 <= i < |a| => f(a[i], b[i]))
  }

  lemma WordBound(b: Data)
    requires |b| == 8
    ensures BigEndian(b) <= U64_MAX
  {
    BigEndianBound(b);
    Powers();
  }

  function Xor(a: u64, b: u64): u64 {
    var r := Each(XorByte, ToBytes(a, 8), ToBytes(b, 8));
    WordBound(r);
    BigEndian(r)
  }

  /** What is added in: `value + 0x9e3779b97f4a7c15 + (h << 6) + (h >> 2)`. */
  function Sum(h: u64, value: nat): u64 {
    (value + 0x9e3779b97f4a7c15 + 64 * h + h / 4) % WORDS
  }

  /** `hash_mix`. */
  function Mix(h: u64, value: nat): u64 {
    Xor(h, Sum(h, value))
  }

  // ---------------------------------------------------------------- what it computes

  lemma DigitConverts(b: u4)
    ensures (b as bv4) as u4 == b
  {
  }

  lemma BitsConvert(b: bv4)
    ensures (b as u4) as bv4 == b
  {
  }

  lemma BitsXorTwice(a: bv4, b: bv4)
    ensures a ^ (a ^ b) == b
  {
  }

  lemma XorDigitTwice(a: u4, b: u4)
    ensures XorDigit(a, XorDigit(a, b)) == b
  {
    BitsConvert((a as bv4) ^ (b as bv4));
    BitsXorTwice(a as bv4, b as bv4);
    DigitConverts(b);
  }

  lemma XorByteTwice(a: u8, b: u8)
    ensures XorByte(a, XorByte(a, b)) == b
  {
    XorDigitTwice(a / 16, b / 16);
    XorDigitTwice(a % 16, b % 16);
    var high, low := XorDigit(a / 16, b / 16), XorDigit(a % 16, b % 16);
    assert XorByte(a, b) / 16 == high && XorByte(a, b) % 16 == low;
  }

  lemma XorEachTwice(a: Data, b: Data)
    requires |a| == |b|
    ensures Each(XorByte, a, Each(XorByte, a, b)) == b
  {
    forall i | 0 <= i < |a| ensures Each(XorByte, a, Each(XorByte, a, b))[i] == b[i] {
      XorByteTwice(a[i], b[i]);
    }
  }

  /** Exclusive or undoes itself. */
  lemma XorTwice(a: u64, b: u64)
    ensures Xor(a, Xor(a, b)) == b
  {
    var x, y := ToBytes(a, 8), ToBytes(b, 8);
    WritesBackBytes(Each(XorByte, x, y));
    XorEachTwice(x, y);
    Powers();
    ReadsBackNumber(b, 8);
  }

  /** Taking the old hash back out of the new one leaves the sum that was mixed in. */
  lemma MixUndone(h: u64, value: nat)
    ensures Xor(h, Mix(h, value)) == (value + 0x9e3779b97f4a7c15 + 64 * h + h / 4) % WORDS
  {
    XorTwice(h, Sum(h, value));
  }

  lemma PlusTellsApart(a: u64, b: u64, k: nat)
    requires (a + k) % WORDS == (b + k) % WORDS
    ensures a == b
  {
  }

  /** So a step tells any two words apart. */
  lemma MixTellsApart(h: u64, a: u64, b: u64)
    requires Mix(h, a) == Mix(h, b)
    ensures a == b
  {
    MixUndone(h, a);
    MixUndone(h, b);
    PlusTellsApart(a, b, 0x9e3779b97f4a7c15 + 64 * h + h / 4);
  }

  // ---------------------------------------------------------------- the first step of a hash, in numbers

  lemma XorByteOfDigits(a: u4, a': u4, b: u4, b': u4, c: u4, c': u4)
    requires XorDigit(a, b) == c && XorDigit(a', b') == c'
    ensures XorByte(16 * (a as int) + a', 16 * (b as int) + b') == 16 * (c as int) + c'
  {
    assert (16 * (a as int) + a') / 16 == a && (16 * (a as int) + a') % 16 == a';
    assert (16 * (b as int) + b') / 16 == b && (16 * (b as int) + b') % 16 == b';
  }

  lemma SeedXor1()
    ensures XorByte(0xcb, 0xcd) == 0x06
  {
    XorByteOfDigits(0xc, 0xb, 0xc, 0xd, 0x0, 0x6);
  }

  lemma SeedXor2()
    ensures XorByte(0xf2, 0xdb) == 0x29
  {
    XorByteOfDigits(0xf, 0x2, 0xd, 0xb, 0x2, 0x9);
  }

  lemma SeedXor3()
    ensures XorByte(0x9c, 0x5a) == 0xc6
  {
    XorByteOfDigits(0x9, 0xc, 0x5, 0xa, 0xc, 0x6);
  }

  lemma SeedXor4()
    ensures XorByte(0xe4, 0x13) == 0xf7
  {
    XorByteOfDigits(0xe, 0x4, 0x1, 0x3, 0xf, 0x7);
  }

  lemma SeedXor5()
    ensures XorByte(0x84, 0xa8) == 0x2c
  {
    XorByteOfDigits(0x8, 0x4, 0xa, 0x8, 0x2, 0xc);
  }

  lemma SeedXor6()
    ensures XorByte(0x22, 0xdb) == 0xf9
  {
    XorByteOfDigits(0x2, 0x2, 0xd, 0xb, 0xf, 0x9);
  }

  lemma SeedXor7()
    ensures XorByte(0x23, 0xce) == 0xed
  {
    XorByteOfDigits(0x2, 0x3, 0xc, 0xe, 0xe, 0xd);
  }

  lemma SeedXor8()
    ensures XorByte(0x25, 0x1f) == 0x3a
  {
    XorByteOfDigits(0x2, 0x5, 0x1, 0xf, 0x3, 0xa);
  }

  lemma EachOfEight(f: (u8, u8) -> u8, a0: u8, a1: u8, a2: u8, a3: u8, a4: u8, a5: u8, a6: u8, a7: u8,
                    b0: u8, b1: u8, b2: u8, b3: u8, b4: u8, b5: u8, b6: u8, b7: u8,
                    c0: u8, c1: u8, c2: u8, c3: u8, c4: u8, c5: u8, c6: u8, c7: u8)
    requires f(a0, b0) == c0 && f(a1, b1) == c1 && f(a2, b2) == c2 && f(a3, b3) == c3
    requires f(a4, b4) == c4 && f(a5, b5) == c5 && f(a6, b6) == c6 && f(a7, b7) == c7
    ensures Each(f, [a0, a1, a2, a3, a4, a5, a6, a7], [b0, b1, b2, b3, b4, b5, b6, b7])
            == [c0, c1, c2, c3, c4, c5, c6, c7]
  {
  }

  lemma MixOfBytes(h: u64, value: nat, x: Data, y: Data, z: Data)
    requires |x| == |y| == 8 && BigEndian(x) == h && BigEndian(y) == Sum(h, value) && Each(XorByte, x, y) == z
    ensures Mix(h, value) == BigEndian(z)
  {
    WritesBackBytes(x);
    WritesBackBytes(y);
  }

  lemma SeedBytes()
    ensures Each(XorByte, [0xcb, 0xf2, 0x9c, 0xe4, 0x84, 0x22, 0x23, 0x25],
                    [0xcd, 0xdb, 0x5a, 0x13, 0xa8, 0xdb, 0xce, 0x1f])
            == [0x06, 0x29, 0xc6, 0xf7, 0x2c, 0xf9, 0xed, 0x3a]
  {
    SeedXor1();
    SeedXor2();
    SeedXor3();
    SeedXor4();
    SeedXor5();
    SeedXor6();
    SeedXor7();
    SeedXor8();
    EachOfEight(XorByte, 0xcb, 0xf2, 0x9c, 0xe4, 0x84, 0x22, 0x23, 0x25,
                0xcd, 0xdb, 0x5a, 0x13, 0xa8, 0xdb, 0xce, 0x1f,
                0x06, 0x29, 0xc6, 0xf7, 0x2c, 0xf9, 0xed, 0x3a);
  }

  lemma SeedSum()
    ensures Sum(0xcbf29ce484222325, 1) == 0xcddb5a13a8dbce1f
  {
  }

  /** The first step of the hash of a book with one symbol. */
  lemma MixValue()
    ensures Mix(0xcbf29ce484222325, 1) == 0x0629c6f72cf9ed3a
  {
    EightBytes(0xcb, 0xf2, 0x9c, 0xe4, 0x84, 0x22, 0x23, 0x25);
    EightBytes(0xcd, 0xdb, 0x5a, 0x13, 0xa8, 0xdb, 0xce, 0x1f);
    EightBytes(0x06, 0x29, 0xc6, 0xf7, 0x2c, 0xf9, 0xed, 0x3a);
    SeedBytes();
    SeedSum();
    MixOfBytes(0xcbf29ce484222325, 1,
               [0xcb, 0xf2, 0x9c, 0xe4, 0x84, 0x22, 0x23, 0x25],
               [0xcd, 0xdb, 0x5a, 0x13, 0xa8, 0xdb, 0xce, 0x1f],
               [0x06, 0x29, 0xc6, 0xf7, 0x2c, 0xf9, 0xed, 0x3a]);
  }
}
