/** Big-endian integers as the wire protocol writes them. */
module Bytes {
  type Byte = x: int | 0 <= x < 0x100
  type U16 = x: int | 0 <= x < 0x1_0000
  type U32 = x: int | 0 <= x < 0x1_0000_0000

  /** The number a string of bytes stands for, most significant byte first. */
  function Value(b: seq<Byte>): nat {
    if b == [] then 0 else Value(b[..|b| - 1]) * 0x100 + b[|b| - 1]
  }

  lemma Associative(a: seq<Byte>, b: seq<Byte>, c: seq<Byte>)
    ensures a + (b + c) == (a + b) + c
  {}

  function Put16(v: U16): (b: seq<Byte>)
    ensures |b| == 2
  {
    [v / 0x100, v % 0x100]
  }

  function Get16(b: seq<Byte>): U16
    requires |b| == 2
  {
    (b[0] as int) * 0x100 + b[1]
  }

  function Put32(v: U32): (b: seq<Byte>)
    ensures |b| == 4
  {
    [v / 0x100_0000, v / 0x1_0000 % 0x100, v / 0x100 % 0x100, v % 0x100]
  }

  function Get32(b: seq<Byte>): U32
    requires |b| == 4
  {
    (b[0] as int) * 0x100_0000 + (b[1] as int) * 0x1_0000 + (b[2] as int) * 0x100 + b[3]
  }

  lemma Get16IsValue(b: seq<Byte>)
    requires |b| == 2
    ensures Get16(b) == Value(b)
  {
    assert b[..1][..0] == [];
    assert Value(b[..1]) == b[0];
  }

  lemma Get32IsValue(b: seq<Byte>)
    requires |b| == 4
    ensures Get32(b) == Value(b)
  {
    assert b[..3][..2] == b[..2] && b[..2][..1] == b[..1] && b[..1][..0] == [];
    assert Value(b[..1]) == b[0];
    assert Value(b[..2]) == Value(b[..1]) * 0x100 + b[1];
    assert Value(b[..3]) == Value(b[..2]) * 0x100 + b[2];
  }

  /** What is written stands for the number: most significant byte first. */
  lemma WrittenValue(v: U32)
    ensures Value(Put32(v)) == v
    ensures v < 0x1_0000 ==> Value(Put16(v)) == v
  {
    Put32Get32(v);
    Get32IsValue(Put32(v));
    if v < 0x1_0000 {
      Put16Get16(v);
      Get16IsValue(Put16(v));
    }
  }

  lemma Put16Get16(v: U16)
    ensures Get16(Put16(v)) == v
  {}

  lemma Get16Put16(b: seq<Byte>)
    requires |b| == 2
    ensures Put16(Get16(b)) == b
  {}

  lemma LowByte(v: int)
    requires 0 <= v
    ensures v == v / 0x100 * 0x100 + v % 0x100 && 0 <= v % 0x100 < 0x100 && 0 <= v / 0x100
  {}

  lemma Put32Get32(v: U32)
    ensures Get32(Put32(v)) == v
  {
    var b, c := v / 0x100, v / 0x1_0000;
    LowByte(v);
    LowByte(b);
    assert c == b / 0x100;
    LowByte(c);
    assert v / 0x100_0000 == c / 0x100;
  }

  lemma Get32Put32(b: seq<Byte>)
    requires |b| == 4
    ensures Put32(Get32(b)) == b
  {
    var v := Get32(b);
    assert v / 0x100_0000 == b[0];
    assert v / 0x1_0000 == (b[0] as int) * 0x100 + b[1];
    assert v / 0x100 == (b[0] as int) * 0x1_0000 + (b[1] as int) * 0x100 + b[2];
  }
}
