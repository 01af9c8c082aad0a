/** Integers in network byte order. A decoder is a function of the bytes not yet read: it returns
    what it read and the bytes that are left, or None. */
module Bytes {
  import opened RaftTypes

  function Pow256(width: nat): (p: nat)
    ensures p > 0
  {
    if width == 0 then 1 else 256 * Pow256(width - 1)
  }

  function Big(value: nat, width: nat): (bytes: seq<Byte>)
    ensures |bytes| == width
  {
    if width == 0 then [] else Big(value / 256, width - 1) + [value % 256]
  }

  function Value(bytes: seq<Byte>): nat {
    if bytes == [] then 0 else 256 * Value(bytes[..|bytes| - 1]) + bytes[|bytes| - 1]
  }

  lemma {:induction false} ValueOfBig(value: nat, width: nat)
    requires value < Pow256(width)
    ensures Value(Big(value, width)) == value
  {
    if width > 0 {
      ValueOfBig(value / 256, width - 1);
      assert Big(value, width)[..width - 1] == Big(value / 256, width - 1);
    }
  }

  /** Every string of bytes is the encoding of its value. */
  lemma {:induction false} BigOfValue(bytes: seq<Byte>)
    ensures Big(Value(bytes), |bytes|) == bytes
  {
    if bytes != [] {
      BigOfValue(bytes[..|bytes| - 1]);
    }
  }

  const LIMIT_32: nat := 0x1_0000_0000

  function U32(value: nat): (bytes: seq<Byte>)
    ensures |bytes| == 4
  {
    Big(value, 4)
  }

  function U64(value: nat): (bytes: seq<Byte>)
    ensures |bytes| == 8
  {
    Big(value, 8)
  }

  lemma Limits()
    ensures Pow256(1) == 256 && Pow256(4) == LIMIT_32 && Pow256(8) == MAX_WORD + 1
  {
    assert Pow256(2) == 65536;
    assert Pow256(6) == 65536 * LIMIT_32;
  }

  datatype Read<+T> = Read(value: T, rest: seq<Byte>)

  function ReadInt(input: seq<Byte>, width: nat): Option<Read<nat>> {
    if |input| < width then None else Some(Read(Value(input[..width]), input[width..]))
  }

  function Read32(input: seq<Byte>): Option<Read<nat>> {
    ReadInt(input, 4)
  }

  function Read64(input: seq<Byte>): Option<Read<nat>> {
    ReadInt(input, 8)
  }

  function ReadBytes(input: seq<Byte>, count: nat): Option<Read<seq<Byte>>> {
    if |input| < count then None else Some(Read(input[..count], input[count..]))
  }

  lemma Back32(value: nat, rest: seq<Byte>)
    requires value < LIMIT_32
    ensures Read32(U32(value) + rest) == Some(Read(value, rest))
  {
    Limits();
    ValueOfBig(value, 4);
    assert (U32(value) + rest)[..4] == U32(value);
  }

  lemma Back64(value: nat, rest: seq<Byte>)
    requires value <= MAX_WORD
    ensures Read64(U64(value) + rest) == Some(Read(value, rest))
  {
    Limits();
    ValueOfBig(value, 8);
    assert (U64(value) + rest)[..8] == U64(value);
  }

  lemma BackBytes(bytes: seq<Byte>, rest: seq<Byte>)
    ensures ReadBytes(bytes + rest, |bytes|) == Some(Read(bytes, rest))
  {
    assert (bytes + rest)[..|bytes|] == bytes;
  }

  // ---------------------------------------------------------------- the loops

  lemma MultipleGrows(x: int, d: nat)
    ensures x >= 1 ==> x * d >= d
    ensures x <= -1 ==> x * d + d <= 0
  {
  }

  lemma DivisionIs(value: nat, d: nat, q: nat, r: nat)
    requires d > 0 && value == q * d + r && r < d
    ensures value / d == q
  {
    var x := value / d - q;
    assert x * d == r - value % d;
    MultipleGrows(x, d);
  }

  lemma {:induction false} ByteOf(value: nat, width: nat, i: nat)
    requires i < width
    ensures Big(value, width)[i] == value / Pow256(width - 1 - i) % 256
  {
    if i < width - 1 {
      ByteOf(value / 256, width - 1, i);
      DivideTwiceAt(value, width - 2 - i);
    }
  }

  lemma DivideTwiceAt(value: nat, k: nat)
    ensures value / 256 / Pow256(k) == value / Pow256(k + 1)
  {
    var d := Pow256(k);
    var q, r := value / 256, value % 256;
    var q', r' := q / d, q % d;
    assert q == q' * d + r';
    assert value == 256 * q + r;
    assert value == q' * (256 * d) + (256 * r' + r);
    assert 256 * r' + r < 256 * d;
    DivisionIs(value, 256 * d, q', 256 * r' + r);
  }

  /** `append32` and `append64`: the shift loop pushes the most significant byte first. */
  method AppendInt(output: seq<Byte>, value: nat, width: nat) returns (r: seq<Byte>)
    ensures r == output + Big(value, width)
  {
    r := output;
    for i := 0 to width
      invariant r == output + Big(value, width)[..i]
    {
      ByteOf(value, width, i);
      assert Big(value, width)[..i + 1] == Big(value, width)[..i] + [Big(value, width)[i]];
      r := r + [value / Pow256(width - 1 - i) % 256];
    }
    assert Big(value, width)[..width] == Big(value, width);
  }

  /** `read32` and `read64`. */
  method ReadLoop(input: seq<Byte>, offset: nat, width: nat) returns (value: nat)
    requires offset + width <= |input|
    ensures value == Value(input[offset..offset + width])
  {
    value := 0;
    for i := 0 to width
      invariant value == Value(input[offset..offset + i])
    {
      assert input[offset..offset + i + 1][..i] == input[offset..offset + i];
      value := 256 * value + input[offset + i];
    }
  }
}
