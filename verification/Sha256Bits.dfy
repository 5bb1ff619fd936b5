/**
 * The functions of section 4.1.2 of FIPS 180-4, bit by bit: the sigmas are made of rotations
 * of a 32-bit register, `Ch` chooses and `Maj` takes the majority.
 */
module Sha256Bits {
  import opened Bytes
  import opened Sha256Spec

  lemma BitsOfNumber(b: bv32)
    ensures Bits(Number(b)) == b
  {}

  lemma AndBits(x: Word, y: Word)
    ensures Bits(And(x, y)) == Bits(x) & Bits(y)
  {
    hide Bits, Number;
    BitsOfNumber(Bits(x) & Bits(y));
  }

  lemma OrBits(x: Word, y: Word)
    ensures Bits(Or(x, y)) == Bits(x) | Bits(y)
  {
    hide Bits, Number;
    BitsOfNumber(Bits(x) | Bits(y));
  }

  lemma XorBits(x: Word, y: Word)
    ensures Bits(Xor(x, y)) == Bits(x) ^ Bits(y)
  {
    hide Bits, Number;
    BitsOfNumber(Bits(x) ^ Bits(y));
  }

  lemma NotBits(x: Word)
    ensures Bits(Not(x)) == !Bits(x)
  {
    hide Bits, Number;
    BitsOfNumber(!Bits(x));
  }

  lemma XorOfThree(x: Word, y: Word, z: Word)
    ensures Bits(Xor(Xor(x, y), z)) == Bits(x) ^ Bits(y) ^ Bits(z)
  {
    hide Bits, Xor;
    XorBits(x, y);
    XorBits(Xor(x, y), z);
  }

  lemma ShiftBits(x: Word, n: Amount)
    requires n < 32
    ensures Bits(Shr(x, n)) == Bits(x) >> n && Bits(Shl(x, n)) == Bits(x) << n
  {
    hide Bits, Number;
    BitsOfNumber(Bits(x) >> n);
    BitsOfNumber(Bits(x) << n);
  }

  /** The bits that leave on the right come back on the left. */
  function Rotated(b: bv32, n: Amount): bv32
    requires 0 < n < 32
  {
    (b >> n) | (b << (32 - n))
  }

  /** For the amounts in use this is the rotation of a register. */
  lemma RotatedIsRotation(b: bv32)
    ensures Rotated(b, 2) == b.RotateRight(2) && Rotated(b, 6) == b.RotateRight(6)
    ensures Rotated(b, 7) == b.RotateRight(7) && Rotated(b, 11) == b.RotateRight(11)
    ensures Rotated(b, 13) == b.RotateRight(13) && Rotated(b, 17) == b.RotateRight(17)
    ensures Rotated(b, 18) == b.RotateRight(18) && Rotated(b, 19) == b.RotateRight(19)
    ensures Rotated(b, 22) == b.RotateRight(22) && Rotated(b, 25) == b.RotateRight(25)
  {}

  lemma RotrBits(x: Word, n: Amount)
    requires 0 < n < 32
    ensures Bits(Rotr(x, n)) == (Bits(x) >> n) | (Bits(x) << (32 - n))
  {
    hide Bits, Or, Shr, Shl;
    ShiftBits(x, n);
    ShiftBits(x, 32 - n);
    OrBits(Shr(x, n), Shl(x, 32 - n));
  }

  lemma RotrRotates(x: Word, n: Amount)
    requires 0 < n < 32
    ensures Bits(Rotr(x, n)) == Rotated(Bits(x), n)
  {
    hide Bits, Rotr;
    RotrBits(x, n);
  }

  /** The sigmas of the rounds, by the amounts of the standard. */
  lemma BigSigma0Rotates(x: Word)
    ensures var b := Bits(x); Bits(BigSigma0(x)) == Rotated(b, 2) ^ Rotated(b, 13) ^ Rotated(b, 22)
  {
    hide Bits, Rotr, Xor, Rotated;
    RotrRotates(x, 2); RotrRotates(x, 13); RotrRotates(x, 22);
    XorOfThree(Rotr(x, 2), Rotr(x, 13), Rotr(x, 22));
  }

  lemma BigSigma1Rotates(x: Word)
    ensures var b := Bits(x); Bits(BigSigma1(x)) == Rotated(b, 6) ^ Rotated(b, 11) ^ Rotated(b, 25)
  {
    hide Bits, Rotr, Xor, Rotated;
    RotrRotates(x, 6); RotrRotates(x, 11); RotrRotates(x, 25);
    XorOfThree(Rotr(x, 6), Rotr(x, 11), Rotr(x, 25));
  }

  /** Those of the schedule rotate twice and shift once. */
  lemma SmallSigma0Rotates(x: Word)
    ensures var b := Bits(x); Bits(SmallSigma0(x)) == Rotated(b, 7) ^ Rotated(b, 18) ^ (b >> 3)
  {
    hide Bits, Rotr, Xor, Rotated, Shr;
    RotrRotates(x, 7); RotrRotates(x, 18); ShiftBits(x, 3);
    XorOfThree(Rotr(x, 7), Rotr(x, 18), Shr(x, 3));
  }

  lemma SmallSigma1Rotates(x: Word)
    ensures var b := Bits(x); Bits(SmallSigma1(x)) == Rotated(b, 17) ^ Rotated(b, 19) ^ (b >> 10)
  {
    hide Bits, Rotr, Xor, Rotated, Shr;
    RotrRotates(x, 17); RotrRotates(x, 19); ShiftBits(x, 10);
    XorOfThree(Rotr(x, 17), Rotr(x, 19), Shr(x, 10));
  }

  lemma DisjointXor(x: bv32, y: bv32, z: bv32)
    ensures (x & y) ^ (!x & z) == (x & y) | (!x & z)
    ensures (x & y) ^ (x & z) ^ (y & z) == (x & y) | (x & z) | (y & z)
  {}

  /** Where `x` has a one `Ch` takes the bit of `y`, elsewhere that of `z`. */
  lemma ChChooses(x: Word, y: Word, z: Word)
    ensures Bits(Ch(x, y, z)) == (Bits(x) & Bits(y)) | (!Bits(x) & Bits(z))
  {
    hide Bits, And, Xor, Not;
    AndBits(x, y);
    NotBits(x);
    AndBits(Not(x), z);
    XorBits(And(x, y), And(Not(x), z));
    DisjointXor(Bits(x), Bits(y), Bits(z));
  }

  /** `Maj` has a one exactly where two of the three have. */
  lemma MajIsMajority(x: Word, y: Word, z: Word)
    ensures Bits(Maj(x, y, z)) == (Bits(x) & Bits(y)) | (Bits(x) & Bits(z)) | (Bits(y) & Bits(z))
  {
    hide Bits, And, Xor;
    AndBits(x, y);
    AndBits(x, z);
    AndBits(y, z);
    XorOfThree(And(x, y), And(x, z), And(y, z));
    DisjointXor(Bits(x), Bits(y), Bits(z));
  }

  // ---------------------------------------------------------------------------
  // Section 6.2.2 as equations between numbers
  // ---------------------------------------------------------------------------

  lemma {:induction false} SchedulePrefix(block: seq<Word>, t: nat, u: nat)
    requires |block| == 16 && 16 <= t <= u <= 64
    ensures Schedule(block, u)[..t] == Schedule(block, t)
    decreases u
  {
    hide SmallSigma0, SmallSigma1, Add;
    if t < u {
      SchedulePrefix(block, t, u - 1);
      assert Schedule(block, u)[..t] == Schedule(block, u - 1)[..t];
    } else {
      assert Schedule(block, u)[..t] == Schedule(block, u);
    }
  }

  /** The schedule starts with the block, and each later word is a sum of four earlier ones modulo 2^32. */
  lemma ScheduleEquations(block: seq<Word>, t: nat)
    requires |block| == 16 && t < 64
    ensures var w := Schedule(block, 64);
            if t < 16 then w[t] == block[t]
            else w[t] == (SmallSigma1(w[t - 2]) + w[t - 7] + SmallSigma0(w[t - 15]) + w[t - 16]) % 0x1_0000_0000
  {
    hide SmallSigma0, SmallSigma1, Add;
    var w := Schedule(block, 64);
    if t < 16 {
      SchedulePrefix(block, 16, 64);
      assert w[..16][t] == block[t];
    } else {
      SchedulePrefix(block, t + 1, 64);
      SchedulePrefix(block, t, 64);
      var before := Schedule(block, t);
      assert w[..t] == before;
      assert before[t - 2] == w[t - 2] && before[t - 7] == w[t - 7] && before[t - 15] == w[t - 15] && before[t - 16] == w[t - 16];
      assert w[t] == w[..t + 1][t] == Schedule(block, t + 1)[t];
      AddFour(SmallSigma1(w[t - 2]), w[t - 7], SmallSigma0(w[t - 15]), w[t - 16]);
    }
  }

  lemma AddFour(a: Word, b: Word, c: Word, d: Word)
    ensures Add(Add(Add(a, b), c), d) == (a + b + c + d) % 0x1_0000_0000
  {}

  lemma AddFive(a: Word, b: Word, c: Word, d: Word, e: Word)
    ensures Add(Add(Add(Add(a, b), c), d), e) == (a + b + c + d + e) % 0x1_0000_0000
  {
    hide Add;
    AddFour(a, b, c, d);
    AddMod(a + b + c + d, e);
  }

  lemma AddMod(x: nat, y: Word)
    ensures Add(x % 0x1_0000_0000, y) == (x + y) % 0x1_0000_0000
  {}

  /** A round moves six words along and makes two new ones, as sums modulo 2^32. */
  lemma RoundEquations(v: Hash, k: Word, w: Word)
    ensures var r := Round(v, k, w);
            var t1 := v.h + BigSigma1(v.e) + Ch(v.e, v.f, v.g) + k + w;
            && r.b == v.a && r.c == v.b && r.d == v.c && r.f == v.e && r.g == v.f && r.h == v.g
            && r.e == (v.d + t1) % 0x1_0000_0000
            && r.a == (t1 + BigSigma0(v.a) + Maj(v.a, v.b, v.c)) % 0x1_0000_0000
  {
    hide BigSigma0, BigSigma1, Ch, Maj, Add;
    var t1 := v.h + BigSigma1(v.e) + Ch(v.e, v.f, v.g) + k + w;
    var t2 := Add(BigSigma0(v.a), Maj(v.a, v.b, v.c));
    AddFive(v.h, BigSigma1(v.e), Ch(v.e, v.f, v.g), k, w);
    AddMod(t1, v.d);
    AddCommutes(v.d, t1 % 0x1_0000_0000);
    AddMod(t1, t2);
    AddSum(t1, BigSigma0(v.a), Maj(v.a, v.b, v.c));
  }

  lemma AddCommutes(x: Word, y: Word)
    ensures Add(x, y) == Add(y, x)
  {}

  lemma AddSum(x: nat, y: Word, z: Word)
    ensures (x + Add(y, z)) % 0x1_0000_0000 == (x + y + z) % 0x1_0000_0000
  {}
}
