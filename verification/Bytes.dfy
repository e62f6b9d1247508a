/** Bounds-checked big-endian readers and writers (include/efe/byte_reader.hpp). */
module Bytes {
  import opened Types

  type Data = seq<u8>

  // ---------------------------------------------------------------- numbers as byte strings

  /** The number that a byte string spells, most significant byte first. */
  function BigEndian(b: Data): nat {
    if b == [] then 0 else 256 * BigEndian(b[..|b| - 1]) + b[|b| - 1]
  }

  /** The `width` lowest bytes of `v`, most significant first. */
  function ToBytes(v: nat, width: nat): (b: Data)
    ensures |b| == width
  {
    if width == 0 then [] else ToBytes(v / 256, width - 1) + [v % 256]
  }

  function Pow256(n: nat): nat {
    if n == 0 then 1 else 256 * Pow256(n - 1)
  }

  lemma {:induction false} BigEndianBound(b: Data)
    ensures BigEndian(b) < Pow256(|b|)
  {
    if b != [] {
      BigEndianBound(b[..|b| - 1]);
    }
  }

  /** Reading back what was written gives the number, if it fits. */
  lemma {:induction false} ReadsBackNumber(v: nat, width: nat)
    requires v < Pow256(width)
    ensures BigEndian(ToBytes(v, width)) == v
  {
    if width > 0 {
      ReadsBackNumber(v / 256, width - 1);
      assert ToBytes(v, width)[..width - 1] == ToBytes(v / 256, width - 1);
    }
  }

  /** Writing back what was read gives the bytes. */
  lemma {:induction false} WritesBackBytes(b: Data)
    ensures ToBytes(BigEndian(b), |b|) == b
  {
    if b != [] {
      var n := |b| - 1;
      WritesBackBytes(b[..n]);
      assert BigEndian(b) / 256 == BigEndian(b[..n]) && BigEndian(b) % 256 == b[n];
      assert b == b[..n] + [b[n]];
    }
  }

  lemma Powers()
    ensures Pow256(1) == 0x100 && Pow256(2) == 0x1_0000 && Pow256(4) == 0x1_0000_0000
    ensures Pow256(6) == 0x1_0000_0000_0000 && Pow256(8) == 0x1_0000_0000_0000_0000
  {
    assert Pow256(1) == 256 * Pow256(0);
    assert Pow256(2) == 256 * Pow256(1);
    assert Pow256(3) == 256 * Pow256(2);
    assert Pow256(4) == 256 * Pow256(3);
    assert Pow256(5) == 256 * Pow256(4);
    assert Pow256(6) == 256 * Pow256(5);
    assert Pow256(7) == 256 * Pow256(6);
    assert Pow256(8) == 256 * Pow256(7);
  }

  // ---------------------------------------------------------------- readers

  /** `require_bytes`: the field at `offset` lies inside the bytes. */
  predicate Has(b: Data, offset: nat, width: nat) {
    offset <= |b| && width <= |b| - offset
  }

  /** The unsigned number of `width` bytes at `offset`. */
  function ReadNumber(b: Data, offset: nat, width: nat): Result<nat> {
    if Has(b, offset, width) then Ok(BigEndian(b[offset..offset + width])) else Err(Truncated)
  }

  function ReadU8(b: Data, offset: nat): Result<u8> {
    if Has(b, offset, 1) then Ok(b[offset]) else Err(Truncated)
  }

  function ReadU16(b: Data, offset: nat): Result<u16> {
    if Has(b, offset, 2) then Ok(0x100 * (b[offset] as int) + b[offset + 1]) else Err(Truncated)
  }

  function ReadU32(b: Data, offset: nat): Result<u32> {
    if Has(b, offset, 4) then
      Ok(0x100_0000 * (b[offset] as int) + 0x1_0000 * (b[offset + 1] as int)
         + 0x100 * (b[offset + 2] as int) + b[offset + 3])
    else Err(Truncated)
  }

  function ReadText(b: Data, offset: nat, width: nat): Result<Data> {
    if Has(b, offset, width) then Ok(b[offset..offset + width]) else Err(Truncated)
  }

  /** The one-expression readers read big-endian numbers. */
  lemma SmallReadersRead(b: Data, offset: nat)
    ensures ReadU8(b, offset) == ReadNumber(b, offset, 1)
    ensures ReadU16(b, offset) == ReadNumber(b, offset, 2)
    ensures ReadU32(b, offset) == ReadNumber(b, offset, 4)
  {
    if Has(b, offset, 1) {
      BigEndianStep(b, offset, 0);
    }
    if Has(b, offset, 2) {
      BigEndianStep(b, offset, 0);
      BigEndianStep(b, offset, 1);
    }
    if Has(b, offset, 4) {
      BigEndianStep(b, offset, 2);
      BigEndianStep(b, offset, 3);
    }
  }

  lemma BigEndianStep(b: Data, offset: nat, i: nat)
    requires offset + i < |b|
    ensures BigEndian(b[offset..offset + i + 1]) == 256 * BigEndian(b[offset..offset + i]) + b[offset + i]
  {
    assert b[offset..offset + i + 1][..i] == b[offset..offset + i];
  }

  /** `read_u48_be` and `read_u64_be`: the accumulating loop computes the big-endian number. */
  method ReadLoop(b: Data, offset: nat, width: nat) returns (r: Result<nat>)
    ensures r == ReadNumber(b, offset, width)
  {
    if !Has(b, offset, width) {
      return Err(Truncated);
    }
    var value: nat := 0;
    for i := 0 to width
      invariant value == BigEndian(b[offset..offset + i])
    {
      BigEndianStep(b, offset, i);
      value := 256 * value + (b[offset + i] as int);
    }
    return Ok(value);
  }

  // ---------------------------------------------------------------- writers

  lemma {:induction false} PowerPositive(n: nat)
    ensures Pow256(n) > 0
  {
    if n > 0 {
      PowerPositive(n - 1);
    }
  }

  /** `(value >> 8i) & 0xFF`. */
  function ByteOf(v: nat, i: nat): u8 {
    PowerPositive(i);
    (v / Pow256(i)) % 256
  }

  lemma {:induction false} ToBytesAt(v: nat, width: nat, i: nat)
    requires i < width
    ensures ToBytes(v, width)[i] == ByteOf(v, width - 1 - i)
  {
    if i == width - 1 {
      assert Pow256(0) == 1;
    } else {
      ToBytesAt(v / 256, width - 1, i);
      PowerPositive(width - 2 - i);
      DivDiv(v, Pow256(width - 2 - i));
    }
  }

  lemma TimesMonotone(d: nat, a: nat, b: nat)
    requires a <= b
    ensures d * a <= d * b
  {
  }

  lemma QuotientUnique(x: nat, d: nat, q: nat, r: nat)
    requires d > 0 && x == d * q + r && r < d
    ensures x / d == q
  {
    var q' := x / d;
    assert x == d * q' + x % d;
    if q' < q {
      TimesMonotone(d, q' + 1, q);
    } else if q' > q {
      TimesMonotone(d, q + 1, q');
    }
  }

  lemma DivDiv(v: nat, d: nat)
    requires d > 0
    ensures (v / 256) / d == v / (256 * d)
  {
    var h := v / 256;
    var q, r := h / d, h % d;
    assert h == d * q + r;
    assert v == 256 * h + v % 256;
    assert 256 * (d * q) == (256 * d) * q;
    QuotientUnique(v, 256 * d, q, 256 * r + v % 256);
  }

  /** `write_u16_be`, `write_u64_be` and their like: the bytes of `value` go to `offset`, nothing else changes. */
  method WriteLoop(b: array<u8>, offset: nat, width: nat, value: nat) returns (ok: bool)
    modifies b
    ensures ok <==> offset <= b.Length && width <= b.Length - offset
    ensures ok ==> b[..] == old(b[..offset]) + ToBytes(value, width) + old(b[offset + width..])
    ensures !ok ==> b[..] == old(b[..])
  {
    if offset > b.Length || width > b.Length - offset {
      return false;
    }
    var i := width;
    while i > 0
      invariant 0 <= i <= width
      invariant b[..offset] == old(b[..offset]) && b[offset + width..] == old(b[offset + width..])
      invariant forall j :: 0 <= j < width - i ==> b[offset + j] == ToBytes(value, width)[j]
    {
      i := i - 1;
      ToBytesAt(value, width, width - 1 - i);
      b[offset + (width - 1 - i)] := ByteOf(value, i);
    }
    assert b[offset..offset + width] == ToBytes(value, width);
    assert b[..] == b[..offset] + b[offset..offset + width] + b[offset + width..];
    return true;
  }

  // ---------------------------------------------------------------- in numbers

  lemma OneMoreByte(b: Data, x: u8)
    ensures BigEndian(b + [x]) == 256 * BigEndian(b) + x
  {
    assert (b + [x])[..|b|] == b;
  }

  lemma FourBytes(b: Data, b3: u8, b2: u8, b1: u8, b0: u8)
    ensures BigEndian(b + [b3, b2, b1, b0])
            == 0x1_0000_0000 * BigEndian(b)
               + 0x100_0000 * (b3 as int) + 0x1_0000 * (b2 as int) + 0x100 * (b1 as int) + b0
  {
    OneMoreByte(b, b3);
    OneMoreByte(b + [b3], b2);
    OneMoreByte(b + [b3] + [b2], b1);
    OneMoreByte(b + [b3] + [b2] + [b1], b0);
    assert b + [b3, b2, b1, b0] == b + [b3] + [b2] + [b1] + [b0];
  }

  /** Eight bytes as a number. */
  lemma EightBytes(b7: u8, b6: u8, b5: u8, b4: u8, b3: u8, b2: u8, b1: u8, b0: u8)
    ensures BigEndian([b7, b6, b5, b4, b3, b2, b1, b0])
            == 0x100_0000_0000_0000 * (b7 as int) + 0x1_0000_0000_0000 * (b6 as int) + 0x100_0000_0000 * (b5 as int)
               + 0x1_0000_0000 * (b4 as int)
               + 0x100_0000 * (b3 as int) + 0x1_0000 * (b2 as int) + 0x100 * (b1 as int) + b0
  {
    FourBytes([], b7, b6, b5, b4);
    assert [] + [b7, b6, b5, b4] == [b7, b6, b5, b4];
    FourBytes([b7, b6, b5, b4], b3, b2, b1, b0);
    assert [b7, b6, b5, b4] + [b3, b2, b1, b0] == [b7, b6, b5, b4, b3, b2, b1, b0];
  }

  /** The most significant byte comes first. */
  lemma MostSignificantFirst(b3: u8, b2: u8, b1: u8, b0: u8)
    ensures BigEndian([b3, b2, b1, b0])
            == 0x100_0000 * (b3 as int) + 0x1_0000 * (b2 as int) + 0x100 * (b1 as int) + b0
    ensures ToBytes(0x100_0000 * (b3 as int) + 0x1_0000 * (b2 as int) + 0x100 * (b1 as int) + b0, 4) == [b3, b2, b1, b0]
  {
    FourBytes([], b3, b2, b1, b0);
    assert [] + [b3, b2, b1, b0] == [b3, b2, b1, b0];
    WritesBackBytes([b3, b2, b1, b0]);
  }
}
