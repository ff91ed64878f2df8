/** Bytes, and unsigned integers in little-endian order. */
module Binary {

  type Byte = b: int | 0 <= b < 256

  type Bytes = seq<Byte>

  function LittleEndian(bytes: Bytes): nat {
    if bytes == [] then 0 else bytes[0] + 256 * LittleEndian(bytes[1..])
  }

  /** The first byte counts ones, the next ones 256 times as much each. */
  lemma LowestFirst(a: Byte, b: Byte, c: Byte, d: Byte)
    ensures LittleEndian([a, b]) == a + 0x100 * b
    ensures LittleEndian([a, b, c, d]) == a + 0x100 * b + 0x1_0000 * c + 0x100_0000 * d
  {
    assert [b][1..] == [] && [d][1..] == [];
    assert LittleEndian([b]) == b && LittleEndian([d]) == d;
    assert LittleEndian([c, d]) == c + 256 * d && LittleEndian([b, c, d]) == b + 256 * (c + 256 * d) by {
      assert [c, d][1..] == [d] && [b, c, d][1..] == [c, d];
    }
    assert [a, b][1..] == [b] && [a, b, c, d][1..] == [b, c, d];
  }

  /** The low `size` bytes of a number, lowest first: what a fixed-width integer keeps of it. */
  function Packed(value: nat, size: nat): (r: Bytes)
    ensures |r| == size
  {
    if size == 0 then [] else [value % 256] + Packed(value / 256, size - 1)
  }

  function Power256(size: nat): nat {
    if size == 0 then 1 else 256 * Power256(size - 1)
  }

  /** A number that fits its width is read back. */
  lemma {:induction false} PackedRoundTrip(value: nat, size: nat)
    requires value < Power256(size)
    ensures LittleEndian(Packed(value, size)) == value
  {
    if size > 0 {
      PackedRoundTrip(value / 256, size - 1);
      assert Packed(value, size)[1..] == Packed(value / 256, size - 1);
    }
  }

  lemma PackedWord(value: nat)
    requires value < 0x1_0000_0000
    ensures LittleEndian(Packed(value, 4)) == value
  {
    assert Power256(4) == 256 * Power256(3) && Power256(2) == 256 * Power256(1);
    PackedRoundTrip(value, 4);
  }

  lemma PackedHalf(value: nat)
    requires value < 0x1_0000
    ensures LittleEndian(Packed(value, 2)) == value
  {
    assert Power256(2) == 256 * Power256(1);
    PackedRoundTrip(value, 2);
  }
}
