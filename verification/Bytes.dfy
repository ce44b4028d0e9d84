/** Big-endian integers in byte strings, as the programs read and write them. */
module Bytes {
  import opened Arithmetic
  import opened Common

  /** 256 to the power `width`: the number of values of a field of `width` bytes. */
  function Pow256(width: nat): (p: nat)
    ensures 1 <= p
  {
    if width == 0 then 1 else 256 * Pow256(width - 1)
  }

  function ToBytes(value: nat, width: nat): (s: seq<byte>)
    ensures |s| == width
  {
    if width == 0 then [] else ToBytes(value / 256, width - 1) + [value % 256]
  }

  function FromBytes(s: seq<byte>): (value: nat)
    ensures value < Pow256(|s|)
  {
    if s == [] then 0 else 256 * FromBytes(s[..|s| - 1]) + s[|s| - 1]
  }

  /** What is written is what is read back. */
  lemma {:induction false} FromToBytes(value: nat, width: nat)
    requires value < Pow256(width)
    ensures FromBytes(ToBytes(value, width)) == value
  {
    if width > 0 {
      FromToBytes(value / 256, width - 1);
      var s := ToBytes(value, width);
      assert s[..width - 1] == ToBytes(value / 256, width - 1);
    }
  }

  /** What is read is written back as the same bytes. */
  lemma {:induction false} ToFromBytes(s: seq<byte>)
    ensures ToBytes(FromBytes(s), |s|) == s
  {
    if s != [] {
      var front, last := s[..|s| - 1], s[|s| - 1];
      ToFromBytes(front);
      QuotientIs(FromBytes(s), 256, FromBytes(front), last);
      assert s == front + [last];
    }
  }

  /** Big-endian: the byte at index `i` is the digit of the power that counts the bytes after it. */
  lemma {:induction false} BigEndian(value: nat, width: nat, i: nat)
    requires i < width
    ensures ToBytes(value, width)[i] == value / Pow256(width - 1 - i) % 256
  {
    if i < width - 1 {
      BigEndian(value / 256, width - 1, i);
      DivideTwice(value, 256, Pow256(width - 2 - i));
    }
  }

  lemma FieldWidths()
    ensures Pow256(1) == 0x100 && Pow256(2) == 0x1_0000 && Pow256(4) == 0x1_0000_0000
    ensures Pow256(8) == U64_MAX + 1
    ensures Pow256(16) == U128_MAX + 1
  {
    assert Pow256(1) == 256 * Pow256(0);
    assert Pow256(2) == 256 * Pow256(1);
    assert Pow256(3) == 256 * Pow256(2);
    assert Pow256(4) == 256 * Pow256(3);
    assert Pow256(5) == 256 * Pow256(4);
    assert Pow256(6) == 256 * Pow256(5);
    assert Pow256(7) == 256 * Pow256(6);
    assert Pow256(8) == 256 * Pow256(7);
    assert Pow256(9) == 256 * Pow256(8);
    assert Pow256(10) == 256 * Pow256(9);
    assert Pow256(11) == 256 * Pow256(10);
    assert Pow256(12) == 256 * Pow256(11);
    assert Pow256(13) == 256 * Pow256(12);
    assert Pow256(14) == 256 * Pow256(13);
    assert Pow256(15) == 256 * Pow256(14);
    assert Pow256(16) == 256 * Pow256(15);
  }

  function U16At(s: seq<byte>, start: nat): (value: u16)
    requires start + 2 <= |s|
  {
    FieldWidths();
    FromBytes(s[start..start + 2])
  }

  function U32At(s: seq<byte>, start: nat): (value: u32)
    requires start + 4 <= |s|
  {
    FieldWidths();
    FromBytes(s[start..start + 4])
  }

  function U64At(s: seq<byte>, start: nat): (value: u64)
    requires start + 8 <= |s|
  {
    FieldWidths();
    FromBytes(s[start..start + 8])
  }

  function U128At(s: seq<byte>, start: nat): (value: u128)
    requires start + 16 <= |s|
  {
    FieldWidths();
    FromBytes(s[start..start + 16])
  }
}
