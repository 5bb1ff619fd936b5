/**
 * The rotating ticket payload of apps/mobile/lib/crypto.ts: 105 bytes holding a version,
 * a window timestamp, a ticket id, a nonce and a signature over the rest.
 *
 * Signing and text encoding are foreign code and enter as functions. Times are integers:
 * all of them stay below 2^53, where JavaScript numbers are exact.
 */
module TicketPayload {
  import opened Bytes
  import opened Base64Url

  const PAYLOAD_VERSION: Byte := 1
  const PAYLOAD_WINDOW_S := 15
  const SCANNER_CLOCK_DRIFT_S := 60

  /** The foreign functions: detached Ed25519 signatures and UTF-8 text. */
  datatype Foreign = Foreign(
    sign: (seq<Byte>, seq<Byte>) -> seq<Byte>,
    verify: (seq<Byte>, seq<Byte>, seq<Byte>) -> bool,
    encodeText: string -> seq<Byte>,
    decodeText: seq<Byte> -> string)

  datatype Result<+T, +E> = Ok(value: T) | Err(error: E)

  // ---------------------------------------------------------------------------
  // Fields
  // ---------------------------------------------------------------------------

  /** Cut or zero-padded to exactly `n` bytes. */
  function FixedField(bytes: seq<Byte>, n: nat): (r: seq<Byte>)
    ensures |r| == n && forall i :: 0 <= i < n ==> r[i] == if i < |bytes| then bytes[i] else 0
  {
    if |bytes| >= n then bytes[..n] else bytes + Zeros(n - |bytes|)
  }

  function WithoutTrailingZeros(bytes: seq<Byte>): seq<Byte> {
    if bytes != [] && bytes[|bytes| - 1] == 0 then WithoutTrailingZeros(bytes[..|bytes| - 1]) else bytes
  }

  method StripTrailingZeros(bytes: seq<Byte>) returns (r: seq<Byte>)
    ensures r == WithoutTrailingZeros(bytes)
  {
    var end := |bytes|;
    assert bytes[..end] == bytes;
    while end > 0 && bytes[end - 1] == 0
      invariant 0 <= end <= |bytes| && WithoutTrailingZeros(bytes[..end]) == WithoutTrailingZeros(bytes)
    {
      assert bytes[..end][..end - 1] == bytes[..end - 1];
      end := end - 1;
    }
    r := bytes[..end];
  }

  lemma {:induction false} PaddingStrips(bytes: seq<Byte>, n: nat)
    ensures WithoutTrailingZeros(bytes + Zeros(n)) == WithoutTrailingZeros(bytes)
  {
    if n == 0 {
      assert bytes + Zeros(0) == bytes;
    } else {
      var all := bytes + Zeros(n);
      assert all[..|all| - 1] == bytes + Zeros(n - 1);
      PaddingStrips(bytes, n - 1);
    }
  }

  lemma {:induction false} StripShortens(bytes: seq<Byte>)
    ensures |WithoutTrailingZeros(bytes)| <= |bytes|
    ensures WithoutTrailingZeros(bytes) == bytes <==> bytes == [] || bytes[|bytes| - 1] != 0
  {
    if bytes != [] && bytes[|bytes| - 1] == 0 { StripShortens(bytes[..|bytes| - 1]); }
  }

  /** A field gives its bytes back exactly when they fit and do not end in a zero. */
  lemma FieldRoundTripIff(bytes: seq<Byte>, n: nat)
    ensures WithoutTrailingZeros(FixedField(bytes, n)) == bytes
       <==> |bytes| <= n && (bytes == [] || bytes[|bytes| - 1] != 0)
  {
    StripShortens(FixedField(bytes, n));
    StripShortens(bytes);
    if |bytes| < n {
      PaddingStrips(bytes, n - |bytes|);
    } else if |bytes| == n {
      assert FixedField(bytes, n) == bytes;
    }
  }

  /** The eight bytes that the two 32-bit stores leave. */
  function Uint64Bytes(value: int): (r: seq<Byte>)
    ensures |r| == 8
  {
    BigEndian32(ToUint32(value / TWO32)) + BigEndian32(ToUint32(value))
  }

  function Uint64At(p: seq<Byte>, i: nat): nat
    requires i + 8 <= |p|
  {
    WordAt(p, i) * TWO32 + WordAt(p, i + 4)
  }

  lemma Uint64RoundTrip(value: int, p: seq<Byte>, i: nat)
    requires i + 8 <= |p| && p[i..i + 8] == Uint64Bytes(value)
    ensures 0 <= value < TWO32 * TWO32 ==> Uint64At(p, i) == value
  {
    hide BigEndian32, WordAt;
    var q := Uint64Bytes(value);
    BigEndianLength(ToUint32(value / TWO32));
    assert p[i..i + 4] == q[..4] == BigEndian32(ToUint32(value / TWO32));
    assert p[i + 4..i + 8] == q[4..] == BigEndian32(ToUint32(value));
    WordRoundTrip(ToUint32(value / TWO32), p, i);
    WordRoundTrip(ToUint32(value), p, i + 4);
    if 0 <= value < TWO32 * TWO32 { assert ToUint32(value / TWO32) == value / TWO32; }
  }

  /** The field is big-endian: its value is that of its eight bytes as digits to the base 256. */
  lemma Uint64IsBigEndian(p: seq<Byte>, i: nat)
    requires i + 8 <= |p|
    ensures Uint64At(p, i)
         == (p[i] as int) * 0x100_0000_0000_0000 + (p[i + 1] as int) * 0x1_0000_0000_0000
            + (p[i + 2] as int) * 0x100_0000_0000 + (p[i + 3] as int) * 0x1_0000_0000
            + (p[i + 4] as int) * 0x100_0000 + (p[i + 5] as int) * 0x1_0000 + (p[i + 6] as int) * 0x100 + p[i + 7]
  {}

  lemma BigEndianLength(x: Word)
    ensures |BigEndian32(x)| == 4
  {}

  // ---------------------------------------------------------------------------
  // Generating
  // ---------------------------------------------------------------------------

  /** The start of the rotation window, in seconds. */
  function WindowStart(nowMs: int): int { nowMs / 1000 / PAYLOAD_WINDOW_S * PAYLOAD_WINDOW_S }

  /** The 41 bytes that are signed. */
  function Header(timestampS: int, idBytes: seq<Byte>, nonce: seq<Byte>): (r: seq<Byte>)
    ensures |r| == 25 + |nonce|
  {
    [PAYLOAD_VERSION] + Uint64Bytes(timestampS) + FixedField(idBytes, 16) + nonce
  }

  /** The encoded payload of a ticket at a time. */
  function Generated(f: Foreign, ticketId: string, secretKey: seq<Byte>, nowMs: int, nonce: seq<Byte>): string {
    var header := Header(WindowStart(nowMs), f.encodeText(ticketId), nonce);
    Encoded(header + f.sign(header, secretKey))
  }

  /** `nonce` stands for the 16 random bytes drawn. */
  method GenerateRotatingPayload(f: Foreign, ticketId: string, secretKey: seq<Byte>, nowMs: int, nonce: seq<Byte>)
    returns (r: Result<string, string>)
    requires |nonce| == 16 && forall m, k :: |f.sign(m, k)| == 64
    ensures r.Err? <==> |secretKey| != 64
    ensures r.Ok? ==> r.value == Generated(f, ticketId, secretKey, nowMs, nonce)
  {
    hide Uint64Bytes, FixedField, BigEndian32, ToUint32;
    if |secretKey| != 64 {
      return Err("secretKey must be 64 bytes");
    }
    var timestampS := WindowStart(nowMs);
    var buf := new Byte[105](_ => 0);
    buf[0] := PAYLOAD_VERSION;
    WriteUint64BE(buf, 1, timestampS);
    var id := EncodeFixed(f.encodeText(ticketId), 16);
    SetBytes(buf, 9, id);
    SetBytes(buf, 25, nonce);
    ghost var header := Header(timestampS, f.encodeText(ticketId), nonce);
    assert buf[..41] == header;
    var signature := f.sign(buf[..41], secretKey);
    SetBytes(buf, 41, signature);
    assert buf[..] == header + signature;
    var text := ToBase64Url(buf[..]);
    r := Ok(text);
  }

  method WriteUint64BE(a: array<Byte>, offset: nat, value: int)
    requires offset + 8 <= a.Length
    modifies a
    ensures a[..] == old(a[..])[..offset] + Uint64Bytes(value) + old(a[..])[offset + 8..]
  {
    hide BigEndian32, ToUint32;
    var hi := value / TWO32;
    var lo := ToUint32(value);
    SetUint32(a, offset, hi);
    SetUint32(a, offset + 4, lo);
    ToUint32Again(value);
  }

  lemma ToUint32Again(value: int)
    ensures ToUint32(ToUint32(value)) == ToUint32(value)
  {}

  method EncodeFixed(encoded: seq<Byte>, length: nat) returns (r: seq<Byte>)
    ensures r == FixedField(encoded, length)
  {
    var out := new Byte[length](_ => 0);
    SetBytes(out, 0, if |encoded| <= length then encoded else encoded[..length]);
    r := out[..];
  }

  // ---------------------------------------------------------------------------
  // Parsing
  // ---------------------------------------------------------------------------

  datatype ParsedPayload = ParsedPayload(version: Byte, timestampS: int, ticketId: string,
                                         nonce: seq<Byte>, signature: seq<Byte>, signedMessage: seq<Byte>)

  function Parsed(f: Foreign, encoded: string): Result<ParsedPayload, string> {
    var buf := Decoded(encoded);
    if |buf| != 105 then Err("wrong length")
    else if buf[0] != PAYLOAD_VERSION then Err("unsupported version")
    else Ok(ParsedPayload(buf[0], Uint64At(buf, 1), f.decodeText(WithoutTrailingZeros(buf[9..25])),
                          buf[25..41], buf[41..], buf[..41]))
  }

  method ParsePayload(f: Foreign, encoded: string) returns (r: Result<ParsedPayload, string>)
    ensures r == Parsed(f, encoded)
  {
    var buf := FromBase64Url(encoded);
    if |buf| != 105 {
      return Err("wrong length");
    }
    if buf[0] != PAYLOAD_VERSION {
      return Err("unsupported version");
    }
    var id := StripTrailingZeros(buf[9..25]);
    r := Ok(ParsedPayload(buf[0], Uint64At(buf, 1), f.decodeText(id), buf[25..41], buf[41..], buf[..41]));
  }

  lemma HeaderParts(timestampS: int, idBytes: seq<Byte>, nonce: seq<Byte>, signature: seq<Byte>)
    requires |nonce| == 16 && |signature| == 64
    ensures var b := Header(timestampS, idBytes, nonce) + signature;
            && |b| == 105 && b[0] == PAYLOAD_VERSION && b[1..9] == Uint64Bytes(timestampS)
            && b[9..25] == FixedField(idBytes, 16) && b[25..41] == nonce && b[41..] == signature
            && b[..41] == Header(timestampS, idBytes, nonce)
  {
    hide Uint64Bytes, FixedField;
  }

  /**
   * Round trip: a generated payload parses to the same version, window timestamp, nonce,
   * signature and signed bytes. The ticket id field holds its bytes again exactly when
   * they fit in 16 and do not end in a zero, and then, if decoding inverts the encoding of the
   * id, the id itself comes back.
   */
  lemma ParseOfGenerated(f: Foreign, ticketId: string, secretKey: seq<Byte>, nowMs: int, nonce: seq<Byte>)
    requires |nonce| == 16 && (forall m, k :: |f.sign(m, k)| == 64) && 0 <= nowMs < 0x20_0000_0000_0000
    ensures var header := Header(WindowStart(nowMs), f.encodeText(ticketId), nonce);
            var field := WithoutTrailingZeros(FixedField(f.encodeText(ticketId), 16));
            && Parsed(f, Generated(f, ticketId, secretKey, nowMs, nonce))
               == Ok(ParsedPayload(PAYLOAD_VERSION, WindowStart(nowMs), f.decodeText(field),
                                   nonce, f.sign(header, secretKey), header))
            && var id := f.encodeText(ticketId);
               && (field == id <==> |id| <= 16 && (id == [] || id[|id| - 1] != 0))
               && (|id| <= 16 && (id == [] || id[|id| - 1] != 0) && f.decodeText(id) == ticketId ==>
                     Parsed(f, Generated(f, ticketId, secretKey, nowMs, nonce)).value.ticketId == ticketId)
  {
    hide Uint64At, WithoutTrailingZeros, FixedField, Encoded, Decoded, Uint64Bytes;
    var id := f.encodeText(ticketId);
    var header := Header(WindowStart(nowMs), id, nonce);
    var b := header + f.sign(header, secretKey);
    RoundTrip(b);
    HeaderParts(WindowStart(nowMs), id, nonce, f.sign(header, secretKey));
    Uint64RoundTrip(WindowStart(nowMs), b, 1);
    FieldRoundTripIff(id, 16);
  }

  // ---------------------------------------------------------------------------
  // Verifying
  // ---------------------------------------------------------------------------

  /** A public key of the wrong size makes the signature check throw. */
  datatype Verdict =
    | Accepted(ticketId: string, timestampS: int)
    | BadPayload
    | InvalidSignature
    | ExpiredTimestamp
    | BadKey

  function Abs(x: int): nat { if x < 0 then -x else x }

  function Verified(f: Foreign, encoded: string, publicKey: seq<Byte>, nowMs: int): Verdict {
    match Parsed(f, encoded)
    case Err(_) => BadPayload
    case Ok(p) =>
      if |publicKey| != 32 then BadKey
      else if !f.verify(p.signedMessage, p.signature, publicKey) then InvalidSignature
      else if Abs(nowMs / 1000 - p.timestampS) > PAYLOAD_WINDOW_S + SCANNER_CLOCK_DRIFT_S then ExpiredTimestamp
      else Accepted(p.ticketId, p.timestampS)
  }

  method VerifyPayload(f: Foreign, encoded: string, publicKey: seq<Byte>, nowMs: int) returns (r: Verdict)
    ensures r == Verified(f, encoded, publicKey, nowMs)
  {
    var parsed := ParsePayload(f, encoded);
    if parsed.Err? {
      return BadPayload;
    }
    var p := parsed.value;
    if |publicKey| != 32 {
      return BadKey;
    }
    if !f.verify(p.signedMessage, p.signature, publicKey) {
      return InvalidSignature;
    }
    var delta := Abs(nowMs / 1000 - p.timestampS);
    if delta > PAYLOAD_WINDOW_S + SCANNER_CLOCK_DRIFT_S {
      return ExpiredTimestamp;
    }
    r := Accepted(p.ticketId, p.timestampS);
  }

  /** The public key belongs to the secret key: what one signs, the other verifies. */
  ghost predicate Matches(f: Foreign, secretKey: seq<Byte>, publicKey: seq<Byte>) {
    |publicKey| == 32 && forall m :: f.verify(m, f.sign(m, secretKey), publicKey)
  }

  /**
   * The layout of a generated payload: the version, eight bytes of time, sixteen of id,
   * sixteen of nonce, and the signature of all that.
   */
  lemma PayloadLayout(f: Foreign, ticketId: string, secretKey: seq<Byte>, nowMs: int, nonce: seq<Byte>)
    requires |nonce| == 16 && (forall m, k :: |f.sign(m, k)| == 64) && 0 <= nowMs < 0x20_0000_0000_0000
    ensures var b := Decoded(Generated(f, ticketId, secretKey, nowMs, nonce));
            var id := f.encodeText(ticketId);
            && |b| == 105 && b[0] == 1 && Uint64At(b, 1) == nowMs / 15000 * 15
            && (forall i :: 0 <= i < 16 ==> b[9 + i] == if i < |id| then id[i] else 0)
            && b[25..41] == nonce && b[41..] == f.sign(b[..41], secretKey)
  {
    hide Uint64At, WithoutTrailingZeros, FixedField, Encoded, Decoded, Uint64Bytes;
    var id := f.encodeText(ticketId);
    var header := Header(WindowStart(nowMs), id, nonce);
    var b := header + f.sign(header, secretKey);
    RoundTrip(b);
    HeaderParts(WindowStart(nowMs), id, nonce, f.sign(header, secretKey));
    Uint64RoundTrip(WindowStart(nowMs), b, 1);
    WindowIsFloor(nowMs);
    var field := FixedField(id, 16);
    forall i | 0 <= i < 16 ensures b[9 + i] == if i < |id| then id[i] else 0 { assert b[9..25][i] == field[i]; }
  }

  lemma WindowIsFloor(nowMs: int)
    ensures WindowStart(nowMs) == nowMs / 15000 * 15
  {}

  /** What parses, and the fields it has, from the decoded bytes. */
  lemma ParsedIff(f: Foreign, encoded: string)
    ensures var b := Decoded(encoded);
            && (Parsed(f, encoded).Ok? <==> |b| == 105 && b[0] == 1)
            && (Parsed(f, encoded).Ok? ==>
                  Parsed(f, encoded).value == ParsedPayload(1, Uint64At(b, 1), f.decodeText(WithoutTrailingZeros(b[9..25])),
                                                            b[25..41], b[41..], b[..41]))
  {
    hide Decoded, Uint64At, WithoutTrailingZeros;
  }

  /**
   * When each verdict is given, from the decoded bytes. A payload is accepted exactly when
   * it has the right length and version, its signature verifies, and the time in it is
   * within 75 seconds of the scanner's.
   */
  lemma VerdictIff(f: Foreign, encoded: string, publicKey: seq<Byte>, nowMs: int)
    ensures var v, b := Verified(f, encoded, publicKey, nowMs), Decoded(encoded);
            var formed := |b| == 105 && b[0] == 1;
            && (v.BadPayload? <==> !formed)
            && (v.BadKey? <==> formed && |publicKey| != 32)
            && (v.InvalidSignature? <==> formed && |publicKey| == 32 && !f.verify(b[..41], b[41..], publicKey))
            && (v.ExpiredTimestamp? <==>
                  formed && |publicKey| == 32 && f.verify(b[..41], b[41..], publicKey)
                  && !(-75 <= nowMs / 1000 - Uint64At(b, 1) <= 75))
            && (v.Accepted? <==>
                  formed && |publicKey| == 32 && f.verify(b[..41], b[41..], publicKey)
                  && -75 <= nowMs / 1000 - Uint64At(b, 1) <= 75)
            && (v.Accepted? ==> v.ticketId == f.decodeText(WithoutTrailingZeros(b[9..25])) && v.timestampS == Uint64At(b, 1))
  {
    hide Decoded, Uint64At, WithoutTrailingZeros;
  }

  /** Generation and scanning times in seconds, and the start of the window of generation. */
  lemma WindowBounds(nowMs: int)
    ensures WindowStart(nowMs) <= nowMs / 1000 <= WindowStart(nowMs) + 14
  {}

  /**
   * Lifetime: a payload is accepted by the matching scanner exactly when its clock is
   * within 75 seconds of the start of the window of generation. So it is accepted within
   * 60 seconds of generation, and expired more than 75 seconds after it or more than 89
   * before it.
   */
  lemma Lifetime(f: Foreign, ticketId: string, secretKey: seq<Byte>, publicKey: seq<Byte>,
                 generatedMs: int, scannedMs: int, nonce: seq<Byte>)
    requires |nonce| == 16 && (forall m, k :: |f.sign(m, k)| == 64) && 0 <= generatedMs < 0x20_0000_0000_0000
    requires Matches(f, secretKey, publicKey)
    ensures var v := Verified(f, Generated(f, ticketId, secretKey, generatedMs, nonce), publicKey, scannedMs);
            var age := scannedMs / 1000 - generatedMs / 1000;
            && (v.Accepted? <==> Abs(scannedMs / 1000 - WindowStart(generatedMs)) <= 75)
            && (v.Accepted? || v.ExpiredTimestamp?)
            && (Abs(age) <= 60 ==> v.Accepted?)
            && (age > 75 || age < -89 ==> v.ExpiredTimestamp?)
  {
    hide Parsed, Generated;
    ParseOfGenerated(f, ticketId, secretKey, generatedMs, nonce);
    WindowBounds(generatedMs);
  }

  /**
   * The documentation of generation promises at most two windows of validity; a payload
   * generated at the start of a window is still accepted 75 seconds later.
   */
  lemma OutlivesTwoWindows(f: Foreign, ticketId: string, secretKey: seq<Byte>, publicKey: seq<Byte>, window: nat, nonce: seq<Byte>)
    requires |nonce| == 16 && (forall m, k :: |f.sign(m, k)| == 64) && 15000 * window < 0x20_0000_0000_0000
    requires Matches(f, secretKey, publicKey)
    ensures Verified(f, Generated(f, ticketId, secretKey, 15000 * window, nonce), publicKey, 15000 * window + 75000).Accepted?
    ensures 75 > 2 * PAYLOAD_WINDOW_S
  {
    hide Verified, Generated;
    Lifetime(f, ticketId, secretKey, publicKey, 15000 * window, 15000 * window + 75000, nonce);
    WindowMultiple(window);
  }

  lemma WindowMultiple(window: nat)
    ensures WindowStart(15000 * window) == 15 * window && (15000 * window + 75000) / 1000 == 15 * window + 75
  {
    assert 15000 * window / 1000 == 15 * window;
    assert 15 * window / 15 == window;
  }
}
