/**
 * The base64url codec of apps/mobile/lib/crypto.ts, the encoding of section 5 of RFC 4648
 * without padding.
 *
 * Shifts and masks of the source are written as division and remainder by powers of two,
 * and its `|` of disjoint bits as addition.
 */
module Base64Url {
  import opened Bytes

  type Sextet = x: int | 0 <= x < 64

  // ---------------------------------------------------------------------------
  // The alphabet (table 2 of RFC 4648)
  // ---------------------------------------------------------------------------

  function CharOf(x: Sextet): char {
    if x < 26 then (x + 'A' as int) as char
    else if x < 52 then (x - 26 + 'a' as int) as char
    else if x < 62 then (x - 52 + '0' as int) as char
    else if x == 62 then '-' else '_'
  }

  predicate InAlphabet(c: char) {
    'A' <= c <= 'Z' || 'a' <= c <= 'z' || '0' <= c <= '9' || c == '-' || c == '_'
  }

  /** The lookup table of the decoder; anything outside the alphabet reads as zero. */
  function ValueOf(c: char): Sextet {
    if 'A' <= c <= 'Z' then c as int - 'A' as int
    else if 'a' <= c <= 'z' then c as int - 'a' as int + 26
    else if '0' <= c <= '9' then c as int - '0' as int + 52
    else if c == '-' then 62 else if c == '_' then 63 else 0
  }

  const UPPER := "ABCDEFGHIJKLMNOPQRSTUVWXYZ"
  const LOWER := "abcdefghijklmnopqrstuvwxyz"
  const ALPHABET := UPPER + LOWER + "0123456789-_"

  /** The letters are those of the table, in its order, and any other character reads as zero. */
  lemma AlphabetIsTable(x: Sextet, c: char)
    ensures |ALPHABET| == 64 && CharOf(x) == ALPHABET[x]
    ensures InAlphabet(c) <==> c in ALPHABET
    ensures c !in ALPHABET ==> ValueOf(c) == 0
  {
    UpperCase(x, c);
    LowerCase(x, c);
    hide CharOf, ValueOf;
    if x < 26 { assert ALPHABET[x] == UPPER[x]; } else if x < 52 { assert ALPHABET[x] == LOWER[x - 26]; }
    assert c in ALPHABET <==> c in UPPER || c in LOWER || c in "0123456789-_";
    LastTwelve(x, c);
  }

  lemma UpperCase(x: Sextet, c: char)
    ensures x < 26 ==> CharOf(x) == UPPER[x]
    ensures c in UPPER <==> 'A' <= c <= 'Z'
  {}

  lemma LowerCase(x: Sextet, c: char)
    ensures 26 <= x < 52 ==> CharOf(x) == LOWER[x - 26]
    ensures c in LOWER <==> 'a' <= c <= 'z'
  {}

  lemma LastTwelve(x: Sextet, c: char)
    ensures 52 <= x ==> CharOf(x) == "0123456789-_"[x - 52]
    ensures c in "0123456789-_" <==> '0' <= c <= '9' || c == '-' || c == '_'
    ensures !InAlphabet(c) ==> ValueOf(c) == 0
  {}

  lemma AlphabetIsBijective(x: Sextet, c: char)
    ensures InAlphabet(CharOf(x)) && ValueOf(CharOf(x)) == x && CharOf(x) != '='
    ensures InAlphabet(c) ==> CharOf(ValueOf(c)) == c
  {}

  // ---------------------------------------------------------------------------
  // Regrouping eight bits as six and back
  // ---------------------------------------------------------------------------

  function Sextet0(b0: Byte): Sextet { b0 / 4 }
  function Sextet1(b0: Byte, b1: Byte): Sextet { b0 % 4 * 16 + b1 / 16 }
  function Sextet2(b1: Byte, b2: Byte): Sextet { var x: int := b1; x % 16 * 4 + b2 / 64 }
  function Sextet3(b2: Byte): Sextet { b2 % 64 }

  function Byte0(c0: Sextet, c1: Sextet): Byte { var x: int := c0; x * 4 + c1 / 16 }
  function Byte1(c1: Sextet, c2: Sextet): Byte { var x: int := c1; x % 16 * 16 + c2 / 4 }
  function Byte2(c2: Sextet, c3: Sextet): Byte { var x: int := c2; x % 4 * 64 + c3 }

  lemma RegroupingRoundTrip(b0: Byte, b1: Byte, b2: Byte)
    ensures Byte0(Sextet0(b0), Sextet1(b0, b1)) == b0
    ensures Byte1(Sextet1(b0, b1), Sextet2(b1, b2)) == b1
    ensures Byte2(Sextet2(b1, b2), Sextet3(b2)) == b2
  {}

  // ---------------------------------------------------------------------------
  // Encoding
  // ---------------------------------------------------------------------------

  /** The four characters that one to three bytes become, with `=` for missing ones. */
  function EncodeGroup(g: seq<Byte>): (r: string)
    requires 1 <= |g| <= 3
    ensures |r| == 4
  {
    EncodeBytes(g[0], if |g| > 1 then g[1] else 0, if |g| > 2 then g[2] else 0, |g|)
  }

  function EncodeBytes(b0: Byte, b1: Byte, b2: Byte, n: nat): (r: string)
    ensures |r| == 4
  {
    [CharOf(Sextet0(b0)), CharOf(Sextet1(b0, b1)),
     if n > 1 then CharOf(Sextet2(b1, b2)) else '=',
     if n > 2 then CharOf(Sextet3(b2)) else '=']
  }

  /** The characters before the padding is stripped. */
  function EncodedWithPadding(bytes: seq<Byte>): string {
    if bytes == [] then ""
    else if |bytes| <= 3 then EncodeGroup(bytes)
    else EncodeGroup(bytes[..3]) + EncodedWithPadding(bytes[3..])
  }

  /** The effect of replacing `=+` at the end by nothing. */
  function Stripped(s: string): string {
    if s != "" && s[|s| - 1] == '=' then Stripped(s[..|s| - 1]) else s
  }

  function Encoded(bytes: seq<Byte>): string { Stripped(EncodedWithPadding(bytes)) }

  method ToBase64Url(bytes: seq<Byte>) returns (result: string)
    ensures result == Encoded(bytes)
  {
    hide EncodeBytes, Stripped;
    result := "";
    var i := 0;
    assert bytes[0..] == bytes;
    while i < |bytes|
      invariant 0 <= i
      invariant result + EncodedWithPadding(if i < |bytes| then bytes[i..] else []) == EncodedWithPadding(bytes)
    {
      var b0 := bytes[i];
      var b1: Byte := if i + 1 < |bytes| then bytes[i + 1] else 0;
      var b2: Byte := if i + 2 < |bytes| then bytes[i + 2] else 0;
      ghost var rest := bytes[i..];
      result := result + EncodeBytes(b0, b1, b2, |bytes| - i);
      SameGroup(b0, b1, b2, |rest|);
      i := i + 3;
      if i < |bytes| { assert bytes[i..] == rest[3..]; }
    }
    assert result == EncodedWithPadding(bytes);
    result := Strip(result);
  }

  lemma SameGroup(b0: Byte, b1: Byte, b2: Byte, n: nat)
    ensures n > 3 ==> EncodeBytes(b0, b1, b2, n) == EncodeBytes(b0, b1, b2, 3)
  {}

  method Strip(s: string) returns (result: string)
    ensures result == Stripped(s)
  {
    result := s;
    while result != "" && result[|result| - 1] == '='
      invariant Stripped(result) == Stripped(s)
      decreases |result|
    {
      result := result[..|result| - 1];
    }
  }

  // ---------------------------------------------------------------------------
  // Decoding
  // ---------------------------------------------------------------------------

  /** Up to two `=`, so that a stray single character leaves a short last group. */
  function Repadded(s: string): string {
    s + if |s| % 4 == 0 then "" else if |s| % 4 == 3 then "=" else "=="
  }

  /** One character of a group; past the end it is missing. */
  datatype Cell = Missing | Char(c: char)

  function CellAt(s: string, i: nat): Cell { if i < |s| then Char(s[i]) else Missing }

  /** A missing character reads as zero, like one outside the alphabet. */
  function CellValue(x: Cell): Sextet { if x.Missing? then 0 else ValueOf(x.c) }

  /** The bytes of one group; only a `=`, not a missing character, leaves one out. */
  function DecodeCells(x0: Cell, x1: Cell, x2: Cell, x3: Cell): seq<Byte> {
    var c0, c1, c2, c3 := CellValue(x0), CellValue(x1), CellValue(x2), CellValue(x3);
    [Byte0(c0, c1)]
    + (if x2 == Char('=') then [] else [Byte1(c1, c2)])
    + (if x3 == Char('=') then [] else [Byte2(c2, c3)])
  }

  function DecodedGroups(p: string): seq<Byte> {
    if p == "" then [] else
    DecodeCells(CellAt(p, 0), CellAt(p, 1), CellAt(p, 2), CellAt(p, 3))
    + if |p| <= 4 then [] else DecodedGroups(p[4..])
  }

  function Decoded(s: string): seq<Byte> { DecodedGroups(Repadded(s)) }

  /** What is left to decode from position `i` on. */
  function DecodedFrom(p: string, i: nat): seq<Byte> { if i < |p| then DecodedGroups(p[i..]) else [] }

  lemma DecodeStep(p: string, i: nat)
    requires i < |p|
    ensures DecodedFrom(p, i)
         == DecodeCells(CellAt(p, i), CellAt(p, i + 1), CellAt(p, i + 2), CellAt(p, i + 3)) + DecodedFrom(p, i + 4)
  {
    hide DecodeCells;
    var rest := p[i..];
    if |rest| > 4 { assert rest[4..] == p[i + 4..]; }
  }

  lemma DecodeStart(p: string)
    ensures DecodedFrom(p, 0) == DecodedGroups(p)
  {
    if p != "" { assert p[0..] == p; }
  }

  method PushGroup(out: seq<Byte>, x0: Cell, x1: Cell, x2: Cell, x3: Cell) returns (r: seq<Byte>)
    ensures r == out + DecodeCells(x0, x1, x2, x3)
  {
    hide CellValue, Byte0, Byte1, Byte2;
    var c0, c1, c2, c3 := CellValue(x0), CellValue(x1), CellValue(x2), CellValue(x3);
    r := out + [Byte0(c0, c1)];
    if x2 != Char('=') {
      r := r + [Byte1(c1, c2)];
    }
    if x3 != Char('=') {
      r := r + [Byte2(c2, c3)];
    }
  }

  method FromBase64Url(s: string) returns (out: seq<Byte>)
    ensures out == Decoded(s)
  {
    hide DecodeCells, CellAt, DecodedGroups, Repadded;
    var padded := Repadded(s);
    out := [];
    var i := 0;
    DecodeStart(padded);
    while i < |padded|
      invariant 0 <= i && out + DecodedFrom(padded, i) == DecodedGroups(padded)
    {
      DecodeStep(padded, i);
      out := PushGroup(out, CellAt(padded, i), CellAt(padded, i + 1), CellAt(padded, i + 2), CellAt(padded, i + 3));
      i := i + 4;
    }
  }

  // ---------------------------------------------------------------------------
  // Round trip
  // ---------------------------------------------------------------------------

  function GroupCells(r: string): seq<Byte>
    requires |r| == 4
  {
    DecodeCells(Char(r[0]), Char(r[1]), Char(r[2]), Char(r[3]))
  }

  lemma BytesRoundTrip(b0: Byte, b1: Byte, b2: Byte, n: nat)
    requires 1 <= n <= 3 && (n < 2 ==> b1 == 0) && (n < 3 ==> b2 == 0)
    ensures GroupCells(EncodeBytes(b0, b1, b2, n)) == [b0, b1, b2][..n]
    ensures var r := EncodeBytes(b0, b1, b2, n); r[1] != '=' && (r[2] == '=' <==> n < 2) && (r[3] == '=' <==> n < 3)
  {
    hide CharOf, ValueOf, Sextet0, Sextet1, Sextet2, Sextet3, Byte0, Byte1, Byte2;
    AlphabetIsBijective(Sextet0(b0), 'A');
    AlphabetIsBijective(Sextet1(b0, b1), 'A');
    AlphabetIsBijective(Sextet2(b1, b2), 'A');
    AlphabetIsBijective(Sextet3(b2), 'A');
    RegroupingRoundTrip(b0, b1, b2);
  }

  lemma GroupRoundTrip(g: seq<Byte>)
    requires 1 <= |g| <= 3
    ensures GroupCells(EncodeGroup(g)) == g
    ensures var r := EncodeGroup(g); r[1] != '=' && (r[2] == '=' <==> |g| < 2) && (r[3] == '=' <==> |g| < 3)
  {
    hide EncodeBytes, GroupCells;
    var b1: Byte, b2: Byte := if |g| > 1 then g[1] else 0, if |g| > 2 then g[2] else 0;
    BytesRoundTrip(g[0], b1, b2, |g|);
    assert [g[0], b1, b2][..|g|] == g;
  }

  lemma {:induction false} PaddedRoundTrip(bytes: seq<Byte>)
    ensures DecodedGroups(EncodedWithPadding(bytes)) == bytes
  {
    hide EncodeGroup, DecodeCells;
    if bytes != [] {
      var p := EncodedWithPadding(bytes);
      if |bytes| <= 3 {
        GroupRoundTrip(bytes);
      } else {
        var r := EncodeGroup(bytes[..3]);
        GroupRoundTrip(bytes[..3]);
        PaddedRoundTrip(bytes[3..]);
        assert p[4..] == EncodedWithPadding(bytes[3..]);
        assert bytes == bytes[..3] + bytes[3..];
      }
    }
  }

  lemma StripGroup(r: string, n: nat)
    requires |r| == 4 && 1 <= n <= 3 && r[1] != '=' && (r[2] == '=' <==> n < 2) && (r[3] == '=' <==> n < 3)
    ensures Stripped(r) == r[..n + 1]
  {
    if n == 2 {
      assert Stripped(r[..3]) == r[..3];
    } else if n == 1 {
      assert r[..3][..2] == r[..2];
      assert Stripped(r[..3]) == Stripped(r[..2]);
    }
  }

  /** Text that is not all padding keeps what stands before it. */
  lemma {:induction false} StripTail(head: string, tail: string)
    requires Stripped(tail) != ""
    ensures Stripped(head + tail) == head + Stripped(tail)
  {
    if tail[|tail| - 1] == '=' {
      StripTail(head, tail[..|tail| - 1]);
      assert (head + tail)[..|head + tail| - 1] == head + tail[..|tail| - 1];
    }
  }

  /** One encoded group followed by the rest. */
  lemma EncodedStep(bytes: seq<Byte>)
    requires bytes != []
    ensures |bytes| <= 3 ==> Encoded(bytes) == EncodeGroup(bytes)[..|bytes| + 1]
    ensures |bytes| > 3 ==> Encoded(bytes) == EncodeGroup(bytes[..3]) + Encoded(bytes[3..])
    ensures Encoded(bytes) != ""
    decreases |bytes|
  {
    hide EncodeGroup, Stripped;
    if |bytes| <= 3 {
      GroupRoundTrip(bytes);
      StripGroup(EncodeGroup(bytes), |bytes|);
    } else {
      EncodedStep(bytes[3..]);
      StripTail(EncodeGroup(bytes[..3]), EncodedWithPadding(bytes[3..]));
    }
  }

  lemma EncodedNothing()
    ensures Encoded([]) == ""
  {}

  lemma RepadGroup(r: string, s: string)
    requires |r| == 4
    ensures Repadded(r + s) == r + Repadded(s)
  {
    assert |r + s| % 4 == |s| % 4;
  }

  lemma RepadNothing()
    ensures Repadded("") == ""
  {}

  lemma RepadShort(r: string, n: nat)
    requires |r| == 4 && 1 <= n <= 3 && (r[2] == '=' <==> n < 2) && (r[3] == '=' <==> n < 3)
    ensures Repadded(r[..n + 1]) == r
  {
    if n == 1 {
      assert r == [r[0], r[1], '=', '='];
    } else if n == 2 {
      assert r == [r[0], r[1], r[2], '='];
    } else {
      assert r[..4] == r;
    }
  }

  /** Stripping removes exactly the padding, and the decoder puts exactly it back. */
  lemma {:induction false} StripThenRepad(bytes: seq<Byte>)
    ensures Repadded(Encoded(bytes)) == EncodedWithPadding(bytes)
  {
    hide EncodeGroup, Encoded, Repadded;
    if bytes == [] {
      EncodedNothing();
      RepadNothing();
    } else {
      EncodedStep(bytes);
      if |bytes| <= 3 {
        GroupRoundTrip(bytes);
        RepadShort(EncodeGroup(bytes), |bytes|);
      } else {
        StripThenRepad(bytes[3..]);
        RepadGroup(EncodeGroup(bytes[..3]), Encoded(bytes[3..]));
      }
    }
  }

  /** Decoding what was encoded gives the bytes back, for every byte string. */
  lemma RoundTrip(bytes: seq<Byte>)
    ensures Decoded(Encoded(bytes)) == bytes
  {
    StripThenRepad(bytes);
    PaddedRoundTrip(bytes);
  }

  // ---------------------------------------------------------------------------
  // Which texts are encodings
  // ---------------------------------------------------------------------------

  /** Only letters of the alphabet, a possible length, and no bits left over. */
  predicate Canonical(s: string) {
    && (forall i :: 0 <= i < |s| ==> InAlphabet(s[i]))
    && |s| % 4 != 1
    && (|s| % 4 == 2 ==> ValueOf(s[|s| - 1]) % 16 == 0)
    && (|s| % 4 == 3 ==> ValueOf(s[|s| - 1]) % 4 == 0)
  }

  lemma CanonicalStep(r: string, s: string)
    requires |r| == 4
    ensures Canonical(r + s) <==> Canonical(r) && Canonical(s)
  {
    var t := r + s;
    assert |t| % 4 == |s| % 4;
    assert forall i :: 0 <= i < |r| ==> t[i] == r[i];
    assert forall i :: 0 <= i < |s| ==> t[|r| + i] == s[i];
    if Canonical(r) && Canonical(s) {
      forall i | 0 <= i < |t| ensures InAlphabet(t[i]) {
        if i >= |r| { assert t[i] == s[i - |r|]; }
      }
    }
  }

  lemma GroupIsCanonical(g: seq<Byte>)
    requires 1 <= |g| <= 3
    ensures Canonical(EncodeGroup(g)[..|g| + 1])
  {
    hide CharOf, ValueOf, InAlphabet, Sextet0, Sextet3;
    var b1: Byte, b2: Byte := if |g| > 1 then g[1] else 0, if |g| > 2 then g[2] else 0;
    AlphabetIsBijective(Sextet0(g[0]), 'A');
    AlphabetIsBijective(Sextet1(g[0], b1), 'A');
    AlphabetIsBijective(Sextet2(b1, b2), 'A');
    AlphabetIsBijective(Sextet3(b2), 'A');
  }

  lemma {:induction false} EncodedIsCanonical(bytes: seq<Byte>)
    ensures Canonical(Encoded(bytes))
  {
    hide Canonical, Encoded, EncodeGroup;
    if bytes == [] {
      EncodedNothing();
      assert Canonical("") by { NothingIsCanonical(); }
    } else {
      EncodedStep(bytes);
      if |bytes| <= 3 {
        GroupIsCanonical(bytes);
      } else {
        EncodedIsCanonical(bytes[3..]);
        GroupIsCanonical(bytes[..3]);
        assert EncodeGroup(bytes[..3])[..4] == EncodeGroup(bytes[..3]);
        CanonicalStep(EncodeGroup(bytes[..3]), Encoded(bytes[3..]));
      }
    }
  }

  lemma NothingIsCanonical()
    ensures Canonical("")
  {}

  lemma RegroupingBack(c0: Sextet, c1: Sextet, c2: Sextet, c3: Sextet)
    ensures Sextet0(Byte0(c0, c1)) == c0 && Sextet1(Byte0(c0, c1), Byte1(c1, c2)) == c1
    ensures Sextet2(Byte1(c1, c2), Byte2(c2, c3)) == c2 && Sextet3(Byte2(c2, c3)) == c3
  {}

  lemma RegroupingTails(c0: Sextet, c1: Sextet, c2: Sextet)
    ensures c1 % 16 == 0 ==> Sextet1(Byte0(c0, c1), 0) == c1
    ensures c2 % 4 == 0 ==> Sextet2(Byte1(c1, c2), 0) == c2
  {}

  /** A canonical group of two to four characters, completed with padding, re-encodes to itself. */
  lemma GroupBack(s: string)
    requires Canonical(s) && 2 <= |s| <= 4
    ensures |Decoded(s)| == |s| - 1 && Encoded(Decoded(s)) == s
    ensures |s| == 4 ==> Decoded(s) == GroupCells(s) && EncodeGroup(Decoded(s)) == s
  {
    hide CharOf, ValueOf, Sextet0, Sextet1, Sextet2, Sextet3, Byte0, Byte1, Byte2, Encoded, Stripped;
    var c0, c1 := ValueOf(s[0]), ValueOf(s[1]);
    var c2: Sextet, c3: Sextet := if |s| > 2 then ValueOf(s[2]) else 0, if |s| > 3 then ValueOf(s[3]) else 0;
    AlphabetIsBijective(0, s[0]);
    AlphabetIsBijective(0, s[1]);
    if |s| > 2 { AlphabetIsBijective(0, s[2]); }
    if |s| > 3 { AlphabetIsBijective(0, s[3]); }
    RegroupingBack(c0, c1, c2, c3);
    RegroupingTails(c0, c1, c2);
    NotPadding(s);
    var p := Repadded(s);
    assert |p| == 4;
    var g := Decoded(s);
    assert g == [Byte0(c0, c1), Byte1(c1, c2), Byte2(c2, c3)][..|s| - 1];
    EncodedStep(g);
    assert EncodeGroup(g)[..|s|] == s;
  }

  lemma NotPadding(s: string)
    requires Canonical(s)
    ensures forall i :: 0 <= i < |s| ==> s[i] != '='
  {}

  lemma {:induction false} CanonicalRoundTrip(s: string)
    requires Canonical(s)
    ensures Encoded(Decoded(s)) == s && (Decoded(s) == [] ==> s == "")
  {
    hide Encoded, EncodeGroup, GroupCells, Canonical, DecodeCells;
    if s == "" {
      EncodedNothing();
    } else if |s| <= 4 {
      assert |s| != 1 by { LengthPossible(s); }
      GroupBack(s);
    } else {
      var r, t := s[..4], s[4..];
      assert s == r + t;
      CanonicalStep(r, t);
      GroupBack(r);
      CanonicalRoundTrip(t);
      DecodedStep(r, t);
      var x := Decoded(s);
      assert x[..3] == Decoded(r) && x[3..] == Decoded(t);
      EncodedStep(x);
    }
  }

  lemma LengthPossible(s: string)
    requires Canonical(s)
    ensures |s| % 4 != 1
  {}

  lemma DecodedStep(r: string, t: string)
    requires |r| == 4 && t != ""
    ensures Decoded(r + t) == Decoded(r) + Decoded(t)
  {
    hide DecodeCells;
    RepadGroup(r, t);
    var p := Repadded(r + t);
    assert p[4..] == Repadded(t);
  }

  /**
   * The decoder accepts any text, but encoding its result gives the text back exactly for
   * the canonical ones: the texts that are encodings of something.
   */
  lemma ReencodesIffCanonical(s: string)
    ensures Encoded(Decoded(s)) == s <==> Canonical(s)
  {
    EncodedIsCanonical(Decoded(s));
    if Canonical(s) { CanonicalRoundTrip(s); }
  }

  /**
   * How many bytes any text without `=` decodes to. A stray last character, which no encoding
   * has, makes two.
   */
  lemma {:induction false} DecodedLength(s: string)
    requires forall i :: 0 <= i < |s| ==> s[i] != '='
    ensures |Decoded(s)| == 3 * (|s| / 4) + if |s| % 4 == 0 then 0 else if |s| % 4 == 2 then 1 else 2
  {
    hide Decoded;
    if s == "" {
      DecodedNothing();
    } else if |s| <= 4 {
      ShortLength(s);
    } else {
      var r, t := s[..4], s[4..];
      assert s == r + t;
      ShortLength(r);
      DecodedLength(t);
      DecodedStep(r, t);
    }
  }

  lemma DecodedNothing()
    ensures Decoded("") == []
  {}

  lemma ShortLength(s: string)
    requires 1 <= |s| <= 4 && forall i :: 0 <= i < |s| ==> s[i] != '='
    ensures |Decoded(s)| == if |s| == 4 then 3 else if |s| == 2 then 1 else 2
  {
    hide CellValue, Byte0, Byte1, Byte2;
    var p := Repadded(s);
    assert DecodedGroups(p) == DecodeCells(CellAt(p, 0), CellAt(p, 1), CellAt(p, 2), CellAt(p, 3));
  }

  // ---------------------------------------------------------------------------
  // The encoding of the standard: the bit string, cut into sixes
  // ---------------------------------------------------------------------------

  /** The bits of `acc` followed by those of the bytes, as one number. */
  function ByteNumber(acc: nat, bytes: seq<Byte>): nat
    decreases bytes
  {
    if bytes == [] then acc else ByteNumber(acc * 256 + bytes[0], bytes[1..])
  }

  /** The bits of `acc` followed by six for each letter, as one number. */
  function SextetNumber(acc: nat, s: string): nat
    decreases s
  {
    if s == "" then acc else SextetNumber(acc * 64 + ValueOf(s[0]), s[1..])
  }

  lemma {:induction false} SextetNumberConcat(acc: nat, r: string, s: string)
    ensures SextetNumber(acc, r + s) == SextetNumber(SextetNumber(acc, r), s)
    decreases r
  {
    hide ValueOf;
    if r == "" {
      assert r + s == s;
    } else {
      SextetNumberConcat(acc * 64 + ValueOf(r[0]), r[1..], s);
      assert (r + s)[1..] == r[1..] + s;
    }
  }

  lemma {:induction false} ByteNumberConcat(acc: nat, a: seq<Byte>, b: seq<Byte>)
    ensures ByteNumber(acc, a + b) == ByteNumber(ByteNumber(acc, a), b)
    decreases a
  {
    if a == [] {
      assert a + b == b;
    } else {
      ByteNumberConcat(acc * 256 + a[0], a[1..], b);
      assert (a + b)[1..] == a[1..] + b;
    }
  }

  /** How many zero bits complete the last letter. */
  function FillBits(n: nat): nat { if n % 3 == 0 then 0 else if n % 3 == 1 then 4 else 2 }

  function Shifted(x: nat, n: nat): nat { if n == 0 then x else if n == 2 then x * 4 else x * 16 }

  lemma NumberOfSextets(acc: nat, r: string)
    requires 2 <= |r| <= 4
    ensures var two := (acc * 64 + ValueOf(r[0])) * 64 + ValueOf(r[1]);
            SextetNumber(acc, r) == if |r| == 2 then two
                                    else if |r| == 3 then two * 64 + ValueOf(r[2])
                                    else (two * 64 + ValueOf(r[2])) * 64 + ValueOf(r[3])
  {
    hide ValueOf;
    var s := r[1..];
    var t := s[1..];
    var two := (acc * 64 + ValueOf(r[0])) * 64 + ValueOf(r[1]);
    assert SextetNumber(acc, r) == SextetNumber(two, t);
    if |r| > 2 {
      var u := t[1..];
      assert SextetNumber(two, t) == SextetNumber(two * 64 + ValueOf(r[2]), u);
      if |r| > 3 {
        assert SextetNumber(two * 64 + ValueOf(r[2]), u)
            == SextetNumber((two * 64 + ValueOf(r[2])) * 64 + ValueOf(r[3]), u[1..]);
      }
    }
  }

  lemma NumberOfBytes(acc: nat, g: seq<Byte>)
    requires 1 <= |g| <= 3
    ensures var one := acc * 256 + g[0];
            ByteNumber(acc, g) == if |g| == 1 then one
                                  else if |g| == 2 then one * 256 + g[1]
                                  else (one * 256 + g[1]) * 256 + g[2]
  {
    var h := g[1..];
    assert ByteNumber(acc, g) == ByteNumber(acc * 256 + g[0], h);
    if |g| > 1 {
      var k := h[1..];
      assert ByteNumber(acc * 256 + g[0], h) == ByteNumber((acc * 256 + g[0]) * 256 + g[1], k);
      if |g| > 2 { assert k[1..] == []; }
    }
  }

  lemma RegroupedNumber(acc: nat, b0: Byte, b1: Byte, b2: Byte)
    ensures var two := (acc * 64 + Sextet0(b0)) * 64 + Sextet1(b0, b1);
            && two == (acc * 256 + b0) * 16 + b1 / 16
            && two * 64 + Sextet2(b1, b2) == ((acc * 256 + b0) * 256 + b1) * 4 + b2 / 64
            && (two * 64 + Sextet2(b1, b2)) * 64 + Sextet3(b2) == ((acc * 256 + b0) * 256 + b1) * 256 + b2
  {
    var x0: int, x1: int, x2: int := b0, b1, b2;
    assert x0 == x0 / 4 * 4 + x0 % 4;
    assert x1 == x1 / 16 * 16 + x1 % 16;
    assert x2 == x2 / 64 * 64 + x2 % 64;
  }

  lemma GroupNumber(acc: nat, g: seq<Byte>)
    requires 1 <= |g| <= 3
    ensures SextetNumber(acc, EncodeGroup(g)[..|g| + 1]) == Shifted(ByteNumber(acc, g), FillBits(|g|))
  {
    hide CharOf, ValueOf, Sextet0, Sextet1, Sextet2, Sextet3, SextetNumber, ByteNumber;
    var b1: Byte, b2: Byte := if |g| > 1 then g[1] else 0, if |g| > 2 then g[2] else 0;
    AlphabetIsBijective(Sextet0(g[0]), 'A');
    AlphabetIsBijective(Sextet1(g[0], b1), 'A');
    AlphabetIsBijective(Sextet2(b1, b2), 'A');
    AlphabetIsBijective(Sextet3(b2), 'A');
    RegroupedNumber(acc, g[0], b1, b2);
    NumberOfBytes(acc, g);
    var r := EncodeGroup(g);
    NumberOfSextets(acc, r[..|g| + 1]);
    if |g| == 1 {
      assert r[..2] == [CharOf(Sextet0(g[0])), CharOf(Sextet1(g[0], 0))];
    } else if |g| == 2 {
      assert r[..3] == [CharOf(Sextet0(g[0])), CharOf(Sextet1(g[0], b1)), CharOf(Sextet2(b1, 0))];
    } else {
      assert r[..4] == r;
    }
  }

  /**
   * The standard's definition: read six bits at a time, the letters spell the bits of the
   * input followed by just enough zero bits to complete the last letter.
   */
  lemma {:induction false} EncodesBitsInSixes(acc: nat, bytes: seq<Byte>)
    ensures 6 * |Encoded(bytes)| == 8 * |bytes| + FillBits(|bytes|)
    ensures SextetNumber(acc, Encoded(bytes)) == Shifted(ByteNumber(acc, bytes), FillBits(|bytes|))
    decreases bytes
  {
    hide EncodeGroup, Encoded, SextetNumber, ByteNumber, Shifted;
    if bytes == [] {
      EncodedNothing();
      NumberOfNothing(acc);
    } else {
      EncodedStep(bytes);
      if |bytes| <= 3 {
        GroupNumber(acc, bytes);
      } else {
        var g, rest := bytes[..3], bytes[3..];
        GroupNumber(acc, g);
        EncodesBitsInSixes(ByteNumber(acc, g), rest);
        assert EncodeGroup(g)[..4] == EncodeGroup(g);
        NoShift(ByteNumber(acc, g));
        SextetNumberConcat(acc, EncodeGroup(g), Encoded(rest));
        ByteNumberConcat(acc, g, rest);
        assert g + rest == bytes && FillBits(|rest|) == FillBits(|bytes|);
      }
    }
  }

  lemma NoShift(x: nat)
    ensures Shifted(x, FillBits(3)) == x
  {}

  lemma NumberOfNothing(acc: nat)
    ensures SextetNumber(acc, "") == ByteNumber(acc, []) == Shifted(acc, FillBits(0)) == acc
  {}
}
