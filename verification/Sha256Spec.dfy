/**
 * SHA-256 as FIPS 180-4 defines it, on byte messages: the operations of section 3.2, the
 * functions of section 4.1.2, the padding of section 5.1.1, the parsing of section 5.2.1
 * and the computation of section 6.2.2.
 */
module Sha256Spec {

  import opened Bytes

  // ---------------------------------------------------------------------------
  // Operations on words (section 3.2)
  // ---------------------------------------------------------------------------

  /** How far to shift or rotate. */
  type Amount = bv6

  function Bits(x: Word): bv32 { x as bv32 }
  function Number(b: bv32): Word { b as int }

  function And(x: Word, y: Word): Word { Number(Bits(x) & Bits(y)) }
  function Or(x: Word, y: Word): Word { Number(Bits(x) | Bits(y)) }
  function Xor(x: Word, y: Word): Word { Number(Bits(x) ^ Bits(y)) }
  function Not(x: Word): Word { Number(!Bits(x)) }
  function Shr(x: Word, n: Amount): Word requires n < 32 { Number(Bits(x) >> n) }
  function Shl(x: Word, n: Amount): Word requires n < 32 { Number(Bits(x) << n) }

  /** Addition modulo 2^32. */
  function Add(x: Word, y: Word): Word { (x + y) % TWO32 }

  function Rotr(x: Word, n: Amount): Word requires 0 < n < 32 { Or(Shr(x, n), Shl(x, 32 - n)) }

  // ---------------------------------------------------------------------------
  // Functions and constants (sections 4.1.2, 4.2.2 and 5.3.3)
  // ---------------------------------------------------------------------------

  function Ch(x: Word, y: Word, z: Word): Word { Xor(And(x, y), And(Not(x), z)) }
  function Maj(x: Word, y: Word, z: Word): Word { Xor(Xor(And(x, y), And(x, z)), And(y, z)) }
  function BigSigma0(x: Word): Word { Xor(Xor(Rotr(x, 2), Rotr(x, 13)), Rotr(x, 22)) }
  function BigSigma1(x: Word): Word { Xor(Xor(Rotr(x, 6), Rotr(x, 11)), Rotr(x, 25)) }
  function SmallSigma0(x: Word): Word { Xor(Xor(Rotr(x, 7), Rotr(x, 18)), Shr(x, 3)) }
  function SmallSigma1(x: Word): Word { Xor(Xor(Rotr(x, 17), Rotr(x, 19)), Shr(x, 10)) }

  const K_ROW0: seq<Word> := [0x428a2f98, 0x71374491, 0xb5c0fbcf, 0xe9b5dba5, 0x3956c25b, 0x59f111f1, 0x923f82a4, 0xab1c5ed5]
  const K_ROW1: seq<Word> := [0xd807aa98, 0x12835b01, 0x243185be, 0x550c7dc3, 0x72be5d74, 0x80deb1fe, 0x9bdc06a7, 0xc19bf174]
  const K_ROW2: seq<Word> := [0xe49b69c1, 0xefbe4786, 0x0fc19dc6, 0x240ca1cc, 0x2de92c6f, 0x4a7484aa, 0x5cb0a9dc, 0x76f988da]
  const K_ROW3: seq<Word> := [0x983e5152, 0xa831c66d, 0xb00327c8, 0xbf597fc7, 0xc6e00bf3, 0xd5a79147, 0x06ca6351, 0x14292967]
  const K_ROW4: seq<Word> := [0x27b70a85, 0x2e1b2138, 0x4d2c6dfc, 0x53380d13, 0x650a7354, 0x766a0abb, 0x81c2c92e, 0x92722c85]
  const K_ROW5: seq<Word> := [0xa2bfe8a1, 0xa81a664b, 0xc24b8b70, 0xc76c51a3, 0xd192e819, 0xd6990624, 0xf40e3585, 0x106aa070]
  const K_ROW6: seq<Word> := [0x19a4c116, 0x1e376c08, 0x2748774c, 0x34b0bcb5, 0x391c0cb3, 0x4ed8aa4a, 0x5b9cca4f, 0x682e6ff3]
  const K_ROW7: seq<Word> := [0x748f82ee, 0x78a5636f, 0x84c87814, 0x8cc70208, 0x90befffa, 0xa4506ceb, 0xbef9a3f7, 0xc67178f2]

  const K: seq<Word> := K_ROW0 + K_ROW1 + K_ROW2 + K_ROW3 + K_ROW4 + K_ROW5 + K_ROW6 + K_ROW7

  datatype Hash = Hash(a: Word, b: Word, c: Word, d: Word, e: Word, f: Word, g: Word, h: Word)

  const H0 := Hash(0x6a09e667, 0xbb67ae85, 0x3c6ef372, 0xa54ff53a,
                   0x510e527f, 0x9b05688c, 0x1f83d9ab, 0x5be0cd19)

  // ---------------------------------------------------------------------------
  // Padding and parsing (sections 5.1.1 and 5.2.1)
  // ---------------------------------------------------------------------------

  function BigEndian64(x: nat): seq<Byte>
    requires x < TWO32 * TWO32
  {
    BigEndian32(x / TWO32) + BigEndian32(x % TWO32)
  }

  /** How many zero bytes follow the byte 0x80 that carries the one bit. */
  function ZeroBytes(n: nat): nat { (55 - n) % 64 }

  function Padded(m: seq<Byte>): seq<Byte>
    requires 8 * |m| < TWO32 * TWO32
  {
    m + [0x80] + Zeros(ZeroBytes(|m|)) + BigEndian64(8 * |m|)
  }

  /** A one bit and `zeroBits` zero bits leave exactly 64 bits of a 512-bit block. */
  predicate LeavesRoom(messageBits: nat, zeroBits: nat) { (messageBits + 1 + zeroBits) % 512 == 448 }

  /**
   * The one bit is followed by the smallest number of zero bits that leaves room for the
   * 64-bit length at the end of a block.
   */
  lemma PaddingIsSmallest(n: nat)
    ensures var zeroBits := 7 + 8 * ZeroBytes(n);
            LeavesRoom(8 * n, zeroBits) && forall k: nat :: LeavesRoom(8 * n, k) ==> zeroBits <= k
    ensures (n + 9 + ZeroBytes(n)) % 64 == 0
  {
    var zeroBits := 7 + 8 * ZeroBytes(n);
    var q := (n + 9 + ZeroBytes(n)) / 64;
    assert n + 9 + ZeroBytes(n) == 64 * q by {
      var r := (55 - n) / 64;
      assert 55 - n == 64 * r + ZeroBytes(n);
      assert n + 9 + ZeroBytes(n) == 64 * (1 - r);
    }
    assert 8 * n + 1 + zeroBits == 512 * (q - 1) + 448;
    forall k: nat | LeavesRoom(8 * n, k) ensures zeroBits <= k {
      var s := (8 * n + 1 + k) / 512;
      assert 8 * n + 1 + k == 512 * s + 448;
      assert k - zeroBits == 512 * (s - (q - 1));
    }
  }

  /** The first `t` words of the 512-bit block that starts at byte `i`. */
  function BlockWords(p: seq<Byte>, i: nat, t: nat): (w: seq<Word>)
    requires i + 4 * t <= |p|
    ensures |w| == t
  {
    if t == 0 then [] else BlockWords(p, i, t - 1) + [WordAt(p, i + 4 * (t - 1))]
  }

  // ---------------------------------------------------------------------------
  // Computation (section 6.2.2)
  // ---------------------------------------------------------------------------

  /** The message schedule up to word `t`. */
  function Schedule(block: seq<Word>, t: nat): (w: seq<Word>)
    requires |block| == 16 && 16 <= t <= 64
    ensures |w| == t
  {
    if t == 16 then block else
    var w := Schedule(block, t - 1);
    w + [Add(Add(Add(SmallSigma1(w[t - 3]), w[t - 8]), SmallSigma0(w[t - 16])), w[t - 17])]
  }

  function Round(v: Hash, k: Word, w: Word): Hash {
    var t1 := Add(Add(Add(Add(v.h, BigSigma1(v.e)), Ch(v.e, v.f, v.g)), k), w);
    var t2 := Add(BigSigma0(v.a), Maj(v.a, v.b, v.c));
    Hash(Add(t1, t2), v.a, v.b, v.c, Add(v.d, t1), v.e, v.f, v.g)
  }

  function Rounds(v: Hash, w: seq<Word>, t: nat): Hash
    requires |w| == 64 && t <= 64
  {
    if t == 0 then v else Round(Rounds(v, w, t - 1), K[t - 1], w[t - 1])
  }

  function Sum(x: Hash, y: Hash): Hash {
    Hash(Add(x.a, y.a), Add(x.b, y.b), Add(x.c, y.c), Add(x.d, y.d),
         Add(x.e, y.e), Add(x.f, y.f), Add(x.g, y.g), Add(x.h, y.h))
  }

  /** The hash value after the first `n` blocks. */
  function HashBlocks(p: seq<Byte>, n: nat): Hash
    requires 64 * n <= |p|
  {
    if n == 0 then H0 else
    var previous := HashBlocks(p, n - 1);
    Sum(previous, Rounds(previous, Schedule(BlockWords(p, 64 * (n - 1), 16), 64), 64))
  }

  function Sha256(m: seq<Byte>): Hash
    requires 8 * |m| < TWO32 * TWO32
  {
    var p := Padded(m);
    assert |p| % 64 == 0 by { PaddingIsSmallest(|m|); }
    HashBlocks(p, |p| / 64)
  }

  // ---------------------------------------------------------------------------
  // The digest in hexadecimal
  // ---------------------------------------------------------------------------

  function HexDigit(d: nat): char
    requires d < 16
  {
    "0123456789abcdef"[d]
  }

  /** The last `n` hexadecimal digits of `x`. */
  function Hex(x: nat, n: nat): string {
    if n == 0 then "" else Hex(x / 16, n - 1) + [HexDigit(x % 16)]
  }

  function HexDigest(v: Hash): string {
    Hex(v.a, 8) + Hex(v.b, 8) + Hex(v.c, 8) + Hex(v.d, 8) + Hex(v.e, 8) + Hex(v.f, 8) + Hex(v.g, 8) + Hex(v.h, 8)
  }
}
