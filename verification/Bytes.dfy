/**
 * Bytes, 32-bit words and the conversions between them that typed arrays perform.
 */
module Bytes {

  const TWO32 := 0x1_0000_0000

  type Byte = x: int | 0 <= x < 0x100
  type Word = x: int | 0 <= x < 0x1_0000_0000

  /** The conversion behind `>>> 0`, `setUint32` and stores into a `Uint32Array`. */
  function ToUint32(x: int): Word { x % TWO32 }

  function Zeros(n: nat): seq<Byte> { seq(n, i => 0) }

  function BigEndian32(x: Word): seq<Byte> {
    [x / 0x100_0000, x / 0x1_0000 % 0x100, x / 0x100 % 0x100, x % 0x100]
  }

  /** The big-endian word at offset `i`, as `getUint32` reads it. */
  function WordAt(p: seq<Byte>, i: nat): Word
    requires i + 4 <= |p|
  {
    var b0: int, b1: int, b2: int, b3: int := p[i], p[i + 1], p[i + 2], p[i + 3];
    b0 * 0x100_0000 + b1 * 0x1_0000 + b2 * 0x100 + b3
  }

  lemma BigEndianParts(x: Word)
    ensures var b := BigEndian32(x);
            (b[0] as int) * 0x100_0000 + (b[1] as int) * 0x1_0000 + (b[2] as int) * 0x100 + b[3] == x
  {
    var y: int := x;
    var h := y / 0x1_0000;
    assert y == h * 0x1_0000 + y % 0x1_0000;
    assert h == h / 0x100 * 0x100 + h % 0x100;
    assert y / 0x100_0000 == h / 0x100;
    var l := y / 0x100;
    assert y == l * 0x100 + y % 0x100;
    assert l == h * 0x100 + l % 0x100;
  }

  /** Reading back what was written. */
  lemma WordRoundTrip(x: Word, p: seq<Byte>, i: nat)
    requires i + 4 <= |p| && p[i..i + 4] == BigEndian32(x)
    ensures WordAt(p, i) == x
  {
    BigEndianParts(x);
    var q := p[i..i + 4];
    assert p[i] == q[0] && p[i + 1] == q[1] && p[i + 2] == q[2] && p[i + 3] == q[3];
  }

  /** `DataView.setUint32`: four bytes, big-endian, of the value cut to 32 bits. */
  method SetUint32(a: array<Byte>, offset: nat, value: int)
    requires offset + 4 <= a.Length
    modifies a
    ensures |BigEndian32(ToUint32(value))| == 4
    ensures a[..] == old(a[..])[..offset] + BigEndian32(ToUint32(value)) + old(a[..])[offset + 4..]
  {
    var x := ToUint32(value);
    a[offset] := x / 0x100_0000;
    a[offset + 1] := x / 0x1_0000 % 0x100;
    a[offset + 2] := x / 0x100 % 0x100;
    a[offset + 3] := x % 0x100;
  }

  /** `Uint8Array.set`: copies the bytes in, starting at the offset. */
  method SetBytes(a: array<Byte>, offset: nat, bytes: seq<Byte>)
    requires offset + |bytes| <= a.Length
    modifies a
    ensures a[..] == old(a[..])[..offset] + bytes + old(a[..])[offset + |bytes|..]
  {
    for i := 0 to |bytes|
      invariant forall j :: 0 <= j < a.Length ==>
        a[j] == if offset <= j < offset + i then bytes[j - offset] else old(a[j])
    {
      a[offset + i] := bytes[i];
    }
  }
}
