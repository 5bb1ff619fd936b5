/**
 * The hand-written SHA-256 of apps/mobile/utils/sha256.ts, on the UTF-8 bytes of the
 * message.
 *
 * JavaScript numbers are modelled as integers: every value that occurs stays below 2^53,
 * where doubles are exact. The bitwise operators convert their operands to 32 bits and,
 * except for `>>>`, yield a signed result, so the intermediate values here are signed and
 * sums are taken wide before `>>> 0` cuts them back.
 */
module Sha256Js {
  import opened Bytes
  import opened Sha256Spec

  // ---------------------------------------------------------------------------
  // JavaScript's 32-bit operators
  // ---------------------------------------------------------------------------

  /** The signed reading of 32 bits. */
  function Signed(x: Word): int { if x < 0x8000_0000 then x else x - TWO32 }

  function JsXor(x: int, y: int): int { Signed(Xor(ToUint32(x), ToUint32(y))) }
  function JsAnd(x: int, y: int): int { Signed(And(ToUint32(x), ToUint32(y))) }
  function JsOr(x: int, y: int): int { Signed(Or(ToUint32(x), ToUint32(y))) }
  function JsNot(x: int): int { Signed(Not(ToUint32(x))) }
  function JsShl(x: int, n: Amount): int requires n < 32 { Signed(Shl(ToUint32(x), n)) }
  function JsShr(x: int, n: Amount): int requires n < 32 { Shr(ToUint32(x), n) }

  lemma UnsignedOfSigned(x: Word)
    ensures ToUint32(Signed(x)) == x && ToUint32(x) == x
  {
    if x >= 0x8000_0000 { assert x - TWO32 == -1 * TWO32 + x; }
  }

  /** Cutting a wide sum back to 32 bits is addition modulo 2^32. */
  lemma WideSum(x: int, y: int)
    ensures ToUint32(x + y) == Add(ToUint32(x), ToUint32(y))
  {
    var p, q := x / TWO32, y / TWO32;
    assert x + y == (p + q) * TWO32 + (x % TWO32 + y % TWO32);
    var s := x % TWO32 + y % TWO32;
    var r := if s < TWO32 then 0 else 1;
    assert (x + y) == (p + q + r) * TWO32 + (s - r * TWO32);
  }

  lemma WordSum(x: Word, y: Word)
    ensures ToUint32(x + y) == Add(x, y)
  {}

  /** The source's `rotr`; its result is signed. */
  function Rotate(x: int, n: Amount): int
    requires 0 < n < 32
  {
    JsOr(JsShr(x, n), JsShl(x, 32 - n))
  }

  lemma RotateIsRotr(x: Word, n: Amount)
    requires 0 < n < 32
    ensures ToUint32(Rotate(x, n)) == Rotr(x, n)
  {
    UnsignedOfSigned(x);
    UnsignedOfSigned(Shr(x, n));
    UnsignedOfSigned(Shl(x, 32 - n));
    UnsignedOfSigned(Or(Shr(x, n), Shl(x, 32 - n)));
  }

  lemma XorUnsigned(x: int, y: int)
    ensures ToUint32(JsXor(x, y)) == Xor(ToUint32(x), ToUint32(y))
  {
    UnsignedOfSigned(Xor(ToUint32(x), ToUint32(y)));
  }

  lemma AndUnsigned(x: int, y: int)
    ensures ToUint32(JsAnd(x, y)) == And(ToUint32(x), ToUint32(y))
  {
    UnsignedOfSigned(And(ToUint32(x), ToUint32(y)));
  }

  function JsSmallSigma0(x: int): int { JsXor(JsXor(Rotate(x, 7), Rotate(x, 18)), JsShr(x, 3)) }
  function JsSmallSigma1(x: int): int { JsXor(JsXor(Rotate(x, 17), Rotate(x, 19)), JsShr(x, 10)) }
  function JsBigSigma0(x: int): int { JsXor(JsXor(Rotate(x, 2), Rotate(x, 13)), Rotate(x, 22)) }
  function JsBigSigma1(x: int): int { JsXor(JsXor(Rotate(x, 6), Rotate(x, 11)), Rotate(x, 25)) }
  function JsCh(e: int, f: int, g: int): int { JsXor(JsAnd(e, f), JsAnd(JsNot(e), g)) }
  function JsMaj(a: int, b: int, c: int): int { JsXor(JsXor(JsAnd(a, b), JsAnd(a, c)), JsAnd(b, c)) }

  lemma SmallSigmasAgree(x: Word)
    ensures ToUint32(JsSmallSigma0(x)) == SmallSigma0(x) && ToUint32(JsSmallSigma1(x)) == SmallSigma1(x)
  {
    UnsignedOfSigned(x);
    UnsignedOfSigned(Shr(x, 3));
    UnsignedOfSigned(Shr(x, 10));
    RotateIsRotr(x, 7); RotateIsRotr(x, 18); RotateIsRotr(x, 17); RotateIsRotr(x, 19);
    XorUnsigned(Rotate(x, 7), Rotate(x, 18));
    XorUnsigned(JsXor(Rotate(x, 7), Rotate(x, 18)), JsShr(x, 3));
    XorUnsigned(Rotate(x, 17), Rotate(x, 19));
    XorUnsigned(JsXor(Rotate(x, 17), Rotate(x, 19)), JsShr(x, 10));
  }

  lemma BigSigmasAgree(x: Word)
    ensures ToUint32(JsBigSigma0(x)) == BigSigma0(x) && ToUint32(JsBigSigma1(x)) == BigSigma1(x)
  {
    RotateIsRotr(x, 2); RotateIsRotr(x, 13); RotateIsRotr(x, 22);
    RotateIsRotr(x, 6); RotateIsRotr(x, 11); RotateIsRotr(x, 25);
    XorUnsigned(Rotate(x, 2), Rotate(x, 13));
    XorUnsigned(JsXor(Rotate(x, 2), Rotate(x, 13)), Rotate(x, 22));
    XorUnsigned(Rotate(x, 6), Rotate(x, 11));
    XorUnsigned(JsXor(Rotate(x, 6), Rotate(x, 11)), Rotate(x, 25));
  }

  lemma ChAgrees(e: Word, f: Word, g: Word)
    ensures ToUint32(JsCh(e, f, g)) == Ch(e, f, g)
  {
    UnsignedOfSigned(e); UnsignedOfSigned(f); UnsignedOfSigned(g);
    UnsignedOfSigned(Not(e));
    AndUnsigned(e, f);
    AndUnsigned(JsNot(e), g);
    XorUnsigned(JsAnd(e, f), JsAnd(JsNot(e), g));
  }

  lemma MajAgrees(a: Word, b: Word, c: Word)
    ensures ToUint32(JsMaj(a, b, c)) == Maj(a, b, c)
  {
    UnsignedOfSigned(a); UnsignedOfSigned(b); UnsignedOfSigned(c);
    AndUnsigned(a, b); AndUnsigned(a, c); AndUnsigned(b, c);
    XorUnsigned(JsAnd(a, b), JsAnd(a, c));
    XorUnsigned(JsXor(JsAnd(a, b), JsAnd(a, c)), JsAnd(b, c));
  }

  // ---------------------------------------------------------------------------
  // Padding
  // ---------------------------------------------------------------------------

  /** `Math.ceil((n + 9) / 64) * 64` is where the padded message ends. */
  lemma PaddedLength(n: nat)
    ensures (n + 9 + 63) / 64 * 64 == n + 9 + ZeroBytes(n)
  {
    PaddingIsSmallest(n);
    var q := (n + 9 + ZeroBytes(n)) / 64;
    assert n + 9 + ZeroBytes(n) == 64 * q;
    assert 64 * q <= n + 72 < 64 * (q + 1);
  }

  /** Overwriting the last eight bytes by two stores of four. */
  lemma TwoStores(p0: seq<Byte>, p1: seq<Byte>, p2: seq<Byte>, prefix: seq<Byte>, high: seq<Byte>, low: seq<Byte>)
    requires p0 == prefix + Zeros(8) && |high| == |low| == 4
    requires p1 == p0[..|prefix|] + high + p0[|prefix| + 4..]
    requires p2 == p1[..|prefix| + 4] + low + p1[|prefix| + 8..]
    ensures p2 == prefix + (high + low)
  {
    assert p1[..|prefix| + 4] == prefix + high;
  }

  /** The message and the one bit, with zeros up to the given length. */
  method CopyAndMark(bytes: seq<Byte>, paddedLen: nat) returns (padded: array<Byte>)
    requires |bytes| < paddedLen
    ensures fresh(padded) && padded[..] == bytes + [0x80] + Zeros(paddedLen - |bytes| - 1)
  {
    padded := new Byte[paddedLen](_ => 0);
    for i := 0 to |bytes|
      invariant padded[..i] == bytes[..i]
      invariant forall j :: i <= j < paddedLen ==> padded[j] == 0
    {
      padded[i] := bytes[i];
    }
    padded[|bytes|] := 0x80;
    assert padded[..|bytes|] == bytes;
    assert padded[|bytes| + 1..] == Zeros(paddedLen - |bytes| - 1);
    assert padded[..] == padded[..|bytes|] + [padded[|bytes|]] + padded[|bytes| + 1..];
  }

  /** The two 32-bit stores write the 64-bit length. */
  lemma LengthWords(bitLen: nat)
    requires bitLen < 0x20_0000_0000_0000
    ensures BigEndian64(bitLen) == BigEndian32(ToUint32(bitLen / TWO32)) + BigEndian32(ToUint32(ToUint32(bitLen)))
  {
    hide BigEndian32;
    assert bitLen / TWO32 < TWO32;
  }

  method Pad(bytes: seq<Byte>) returns (padded: array<Byte>)
    requires 8 * |bytes| < 0x20_0000_0000_0000
    ensures fresh(padded) && padded[..] == Padded(bytes) && padded.Length % 64 == 0
  {
    hide BigEndian32, BigEndian64, ZeroBytes, ToUint32;
    var bitLen := |bytes| * 8;
    var paddedLen := (|bytes| + 9 + 63) / 64 * 64;
    PaddedLength(|bytes|);
    padded := CopyAndMark(bytes, paddedLen);
    ghost var prefix := bytes + [0x80] + Zeros(ZeroBytes(|bytes|));
    ghost var p0 := padded[..];
    assert p0 == prefix + Zeros(8);
    SetUint32(padded, paddedLen - 8, bitLen / TWO32);
    ghost var p1 := padded[..];
    SetUint32(padded, paddedLen - 4, ToUint32(bitLen));
    TwoStores(p0, p1, padded[..], prefix, BigEndian32(ToUint32(bitLen / TWO32)), BigEndian32(ToUint32(ToUint32(bitLen))));
    LengthWords(bitLen);
  }

  // ---------------------------------------------------------------------------
  // One block
  // ---------------------------------------------------------------------------

  /** The wide sum of the schedule is the modular one. */
  lemma ScheduleSum(w16: Word, w15: Word, w7: Word, w2: Word)
    ensures ToUint32(w16 + JsSmallSigma0(w15) + w7 + JsSmallSigma1(w2))
         == Add(Add(Add(SmallSigma1(w2), w7), SmallSigma0(w15)), w16)
  {
    hide JsSmallSigma0, JsSmallSigma1, SmallSigma0, SmallSigma1, ToUint32, Add;
    SmallSigmasAgree(w15);
    SmallSigmasAgree(w2);
    UnsignedOfSigned(w16);
    UnsignedOfSigned(w7);
    var s0, s1 := JsSmallSigma0(w15), JsSmallSigma1(w2);
    WideSum(s1, w7);
    WideSum(s1 + w7, s0);
    WideSum(s1 + w7 + s0, w16);
    assert w16 + s0 + w7 + s1 == s1 + w7 + s0 + w16;
  }

  method FillSchedule(padded: array<Byte>, i: nat, w: array<Word>)
    requires i + 64 <= padded.Length && w.Length == 64
    modifies w
    ensures w[..] == Schedule(BlockWords(padded[..], i, 16), 64)
  {
    hide JsSmallSigma0, JsSmallSigma1, SmallSigma0, SmallSigma1, ToUint32, Add, WordAt;
    ghost var p := padded[..];
    for t := 0 to 16
      invariant padded[..] == p && w[..t] == BlockWords(p, i, t)
    {
      w[t] := WordAt(padded[..], i + t * 4);
    }
    ghost var block := BlockWords(p, i, 16);
    for t := 16 to 64
      invariant w[..t] == Schedule(block, t)
    {
      var s0 := JsSmallSigma0(w[t - 15]);
      var s1 := JsSmallSigma1(w[t - 2]);
      ScheduleSum(w[t - 16], w[t - 15], w[t - 7], w[t - 2]);
      w[t] := ToUint32(w[t - 16] + s0 + w[t - 7] + s1);
    }
    assert w[..] == w[..64];
  }

  /** One round on wide, signed intermediates is one round of the standard. */
  lemma RoundAgrees(v: Hash, k: Word, w: Word)
    ensures var temp1: int := ToUint32(v.h + JsBigSigma1(v.e) + JsCh(v.e, v.f, v.g) + k + w);
            var temp2: int := ToUint32(JsBigSigma0(v.a) + JsMaj(v.a, v.b, v.c));
            Round(v, k, w) == Hash(ToUint32(temp1 + temp2), v.a, v.b, v.c, ToUint32(v.d + temp1), v.e, v.f, v.g)
  {
    hide JsBigSigma0, JsBigSigma1, BigSigma0, BigSigma1, JsCh, JsMaj, Ch, Maj, ToUint32, Add;
    BigSigmasAgree(v.e);
    BigSigmasAgree(v.a);
    ChAgrees(v.e, v.f, v.g);
    MajAgrees(v.a, v.b, v.c);
    var s1, ch := JsBigSigma1(v.e), JsCh(v.e, v.f, v.g);
    UnsignedOfSigned(v.h); UnsignedOfSigned(k); UnsignedOfSigned(w);
    WideSum(v.h, s1);
    WideSum(v.h + s1, ch);
    WideSum(v.h + s1 + ch, k);
    WideSum(v.h + s1 + ch + k, w);
    WideSum(JsBigSigma0(v.a), JsMaj(v.a, v.b, v.c));
    WordSum(v.d, ToUint32(v.h + s1 + ch + k + w));
    WordSum(ToUint32(v.h + s1 + ch + k + w), ToUint32(JsBigSigma0(v.a) + JsMaj(v.a, v.b, v.c)));
  }

  ghost function HashOf(h: seq<Word>): Hash
    requires |h| == 8
  {
    Hash(h[0], h[1], h[2], h[3], h[4], h[5], h[6], h[7])
  }

  method CompressBlock(w: array<Word>, h: array<Word>)
    requires w.Length == 64 && h.Length == 8 && w != h
    modifies h
    ensures HashOf(h[..]) == Sum(HashOf(old(h[..])), Rounds(HashOf(old(h[..])), w[..], 64))
  {
    hide JsBigSigma0, JsBigSigma1, JsCh, JsMaj, Round, ToUint32;
    var a: Word, b: Word, c: Word, d: Word, e: Word, f: Word, g: Word, hh: Word := h[0], h[1], h[2], h[3], h[4], h[5], h[6], h[7];
    ghost var v, words := HashOf(h[..]), w[..];
    for t := 0 to 64
      invariant h[..] == old(h[..]) && Hash(a, b, c, d, e, f, g, hh) == Rounds(v, words, t)
    {
      RoundAgrees(Hash(a, b, c, d, e, f, g, hh), K[t], w[t]);
      var s1 := JsBigSigma1(e);
      var ch := JsCh(e, f, g);
      var temp1: int := ToUint32(hh + s1 + ch + K[t] + w[t]);
      var s0 := JsBigSigma0(a);
      var maj := JsMaj(a, b, c);
      var temp2: int := ToUint32(s0 + maj);
      hh := g;
      g := f;
      f := e;
      e := ToUint32(d + temp1);
      d := c;
      c := b;
      b := a;
      a := ToUint32(temp1 + temp2);
    }
    WordSum(h[0], a); WordSum(h[1], b); WordSum(h[2], c); WordSum(h[3], d);
    WordSum(h[4], e); WordSum(h[5], f); WordSum(h[6], g); WordSum(h[7], hh);
    h[0] := ToUint32(h[0] + a);
    h[1] := ToUint32(h[1] + b);
    h[2] := ToUint32(h[2] + c);
    h[3] := ToUint32(h[3] + d);
    h[4] := ToUint32(h[4] + e);
    h[5] := ToUint32(h[5] + f);
    h[6] := ToUint32(h[6] + g);
    h[7] := ToUint32(h[7] + hh);
    assert w[..] == words;
  }

  // ---------------------------------------------------------------------------
  // Hexadecimal output
  // ---------------------------------------------------------------------------

  /** `toString(16)`: no leading zeros. */
  function Radix16(x: nat): string {
    if x < 16 then [HexDigit(x)] else Radix16(x / 16) + [HexDigit(x % 16)]
  }

  /** `padStart(n, '0')`. */
  function PadStart(s: string, n: nat): string {
    if |s| >= n then s else seq(n - |s|, i => '0') + s
  }

  function Pow16(n: nat): nat { if n == 0 then 1 else 16 * Pow16(n - 1) }

  lemma {:induction false} HexOfZero(n: nat)
    ensures Hex(0, n) == seq(n, i => '0')
  {
    if n > 0 { HexOfZero(n - 1); }
  }

  lemma DropDigit(x: nat, n: nat)
    requires n > 0 && 16 <= x < Pow16(n)
    ensures n > 1 && x / 16 < Pow16(n - 1)
  {}

  lemma PadInner(s: string, c: char, n: nat)
    requires |s| < n
    ensures PadStart(s + [c], n) == PadStart(s, n - 1) + [c]
  {}

  /** Padding the shortest numeral gives the fixed-width one. */
  lemma {:induction false} PaddedNumeral(x: nat, n: nat)
    requires 0 < n && x < Pow16(n)
    ensures |Radix16(x)| <= n && PadStart(Radix16(x), n) == Hex(x, n)
  {
    hide HexDigit;
    if x < 16 {
      HexOfZero(n - 1);
      assert Hex(x, n) == Hex(0, n - 1) + [HexDigit(x)];
    } else {
      assert n > 1 && x / 16 < Pow16(n - 1) by { DropDigit(x, n); }
      PaddedNumeral(x / 16, n - 1);
      PadInner(Radix16(x / 16), HexDigit(x % 16), n);
    }
  }

  function DigitValue(c: char): nat {
    if '0' <= c <= '9' then c as int - '0' as int else if 'a' <= c <= 'f' then c as int - 'a' as int + 10 else 0
  }

  /** The number that a hexadecimal numeral denotes. */
  function ReadHex(s: string): nat {
    if s == "" then 0 else 16 * ReadHex(s[..|s| - 1]) + DigitValue(s[|s| - 1])
  }

  lemma DigitReadsBack(d: nat)
    requires d < 16
    ensures DigitValue(HexDigit(d)) == d
  {}

  /** A fixed-width numeral denotes its number. */
  lemma {:induction false} HexReadsBack(x: nat, n: nat)
    requires x < Pow16(n)
    ensures |Hex(x, n)| == n && ReadHex(Hex(x, n)) == x
  {
    hide HexDigit, DigitValue;
    if n > 0 {
      assert x / 16 < Pow16(n - 1);
      HexReadsBack(x / 16, n - 1);
      DigitReadsBack(x % 16);
      assert Hex(x, n)[..n - 1] == Hex(x / 16, n - 1);
    }
  }

  ghost function HexOfWords(h: seq<Word>, n: nat): string
    requires n <= |h|
  {
    if n == 0 then "" else HexOfWords(h, n - 1) + Hex(h[n - 1], 8)
  }

  lemma HexOfWordsIsDigest(h: seq<Word>)
    requires |h| == 8
    ensures HexOfWords(h, 8) == HexDigest(HashOf(h))
  {
    hide Hex;
    assert HexOfWords(h, 1) == Hex(h[0], 8);
    assert HexOfWords(h, 2) == Hex(h[0], 8) + Hex(h[1], 8);
    assert HexOfWords(h, 4) == HexOfWords(h, 2) + Hex(h[2], 8) + Hex(h[3], 8);
    assert HexOfWords(h, 6) == HexOfWords(h, 4) + Hex(h[4], 8) + Hex(h[5], 8);
  }

  // ---------------------------------------------------------------------------
  // The whole function
  // ---------------------------------------------------------------------------

  /** The loops compute the SHA-256 digest of the standard. */
  method Sha256Hex(bytes: seq<Byte>) returns (out: string)
    requires 8 * |bytes| < 0x20_0000_0000_0000
    ensures out == HexDigest(Sha256(bytes))
  {
    hide Rounds, Schedule, Sum, BlockWords, Padded, Hex, PadStart, Radix16;
    var padded := Pad(bytes);
    ghost var p := Padded(bytes);
    PaddingIsSmallest(|bytes|);
    var w := new Word[64](_ => 0);
    var h := new Word[] [H0.a, H0.b, H0.c, H0.d, H0.e, H0.f, H0.g, H0.h];
    var i, n := 0, 0;
    while i < padded.Length
      invariant i == 64 * n && 0 <= i <= padded.Length && padded[..] == p
      invariant HashOf(h[..]) == HashBlocks(p, n)
    {
      FillSchedule(padded, i, w);
      CompressBlock(w, h);
      i, n := i + 64, n + 1;
    }
    assert n == |p| / 64;
    out := "";
    for i := 0 to 8
      invariant HashOf(h[..]) == Sha256(bytes)
      invariant out == HexOfWords(h[..], i)
    {
      assert Pow16(8) == 16 * (16 * (16 * (16 * (16 * (16 * (16 * Pow16(1)))))));
      PaddedNumeral(h[i], 8);
      out := out + PadStart(Radix16(h[i]), 8);
    }
    HexOfWordsIsDigest(h[..]);
  }
}
