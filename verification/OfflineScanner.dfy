/**
 * The offline gate scanner of apps/mobile/services/offlineScanner.ts with its in-memory
 * scan log, scans run one at a time.
 */
module OfflineScanners {
  import opened Bytes
  import opened Base64Url
  import opened TicketPayload

  datatype ScanRecord = ScanRecord(ticketId: string, scannedAtS: int, payloadTimestampS: int)

  datatype Outcome =
    | Valid(ticketId: string, record: ScanRecord)
    | AlreadyScanned(ticketId: string, record: ScanRecord)
    | BadSignature(ticketId: string)
    | Expired(ticketId: string)
    | UnknownTicket(ticketId: string)
    | Unreadable          // the payload does not parse
    | Unverifiable        // the payload parses but verification calls it malformed
    | Threw               // the registered key has the wrong size

  type KeyMap = map<string, seq<Byte>>
  type ScanLog = map<string, ScanRecord>

  /** What a scan answers, given the keys and the log. */
  function ScanOutcome(f: Foreign, keys: KeyMap, log: ScanLog, encoded: string, nowMs: int): Outcome {
    match Parsed(f, encoded)
    case Err(_) => Unreadable
    case Ok(p) =>
      if p.ticketId !in keys then UnknownTicket(p.ticketId) else
      match Verified(f, encoded, keys[p.ticketId], nowMs)
      case InvalidSignature => BadSignature(p.ticketId)
      case ExpiredTimestamp => Expired(p.ticketId)
      case BadPayload => Unverifiable
      case BadKey => Threw
      case Accepted(_, _) =>
        if p.ticketId in log then AlreadyScanned(p.ticketId, log[p.ticketId])
        else Valid(p.ticketId, ScanRecord(p.ticketId, nowMs / 1000, p.timestampS))
  }

  /** Only an admission is written to the log. */
  function LogAfter(log: ScanLog, outcome: Outcome): ScanLog {
    if outcome.Valid? then log[outcome.ticketId := outcome.record] else log
  }

  class OfflineScanner {
    const f: Foreign
    var publicKeys: KeyMap
    var records: ScanLog

    constructor (f: Foreign, publicKeyMap: map<string, string>)
      ensures this.f == f && records == map[]
      ensures publicKeys == map t | t in publicKeyMap :: Decoded(publicKeyMap[t])
    {
      this.f := f;
      records := map[];
      publicKeys := map[];
      new;
      var rest := publicKeyMap.Keys;
      while rest != {}
        invariant rest <= publicKeyMap.Keys && this.f == f && records == map[]
        invariant publicKeys.Keys == publicKeyMap.Keys - rest
        invariant forall t :: t in publicKeys ==> publicKeys[t] == Decoded(publicKeyMap[t])
        decreases rest
      {
        var t :| t in rest;
        var key := FromBase64Url(publicKeyMap[t]);
        publicKeys := publicKeys[t := key];
        rest := rest - {t};
      }
    }

    method Scan(encoded: string, nowMs: int) returns (outcome: Outcome)
      modifies this`records
      ensures outcome == ScanOutcome(f, publicKeys, old(records), encoded, nowMs)
      ensures records == LogAfter(old(records), outcome)
    {
      hide Verified, Parsed;
      var parsed := ParsePayload(f, encoded);
      if parsed.Err? {
        return Unreadable;
      }
      var ticketId, timestampS := parsed.value.ticketId, parsed.value.timestampS;
      if ticketId !in publicKeys {
        return UnknownTicket(ticketId);
      }
      var verdict := VerifyPayload(f, encoded, publicKeys[ticketId], nowMs);
      if verdict.BadKey? {
        return Threw;
      }
      if !verdict.Accepted? {
        if verdict.InvalidSignature? {
          return BadSignature(ticketId);
        }
        if verdict.ExpiredTimestamp? {
          return Expired(ticketId);
        }
        return Unverifiable;
      }
      if ticketId in records {
        return AlreadyScanned(ticketId, records[ticketId]);
      }
      var record := ScanRecord(ticketId, nowMs / 1000, timestampS);
      records := records[ticketId := record];
      outcome := Valid(ticketId, record);
    }

    method AddPublicKey(ticketId: string, pubKeyB64: string)
      modifies this`publicKeys
      ensures publicKeys == old(publicKeys)[ticketId := Decoded(pubKeyB64)]
    {
      var key := FromBase64Url(pubKeyB64);
      publicKeys := publicKeys[ticketId := key];
    }

    method ClearScanLog()
      modifies this`records
      ensures records == map[]
    {
      records := map[];
    }
  }

  // ---------------------------------------------------------------------------
  // Runs
  // ---------------------------------------------------------------------------

  datatype Action = Scan(encoded: string, nowMs: int) | AddKey(ticketId: string, pubKeyB64: string) | Clear

  /** A gate before any scan: its foreign code and the keys it was built with. */
  datatype Gate = Gate(f: Foreign, keys: KeyMap)

  function KeysAt(g: Gate, run: seq<Action>, k: nat): KeyMap
    requires k <= |run|
  {
    if k == 0 then g.keys else
    var keys := KeysAt(g, run, k - 1);
    match run[k - 1]
    case AddKey(t, text) => keys[t := Decoded(text)]
    case _ => keys
  }

  function LogAt(g: Gate, run: seq<Action>, k: nat): ScanLog
    requires k <= |run|
  {
    if k == 0 then map[] else
    var log := LogAt(g, run, k - 1);
    match run[k - 1]
    case Scan(encoded, nowMs) => LogAfter(log, ScanOutcome(g.f, KeysAt(g, run, k - 1), log, encoded, nowMs))
    case AddKey(_, _) => log
    case Clear => map[]
  }

  function OutcomeAt(g: Gate, run: seq<Action>, i: nat): Outcome
    requires i < |run| && run[i].Scan?
  {
    ScanOutcome(g.f, KeysAt(g, run, i), LogAt(g, run, i), run[i].encoded, run[i].nowMs)
  }

  /** Action `i` admitted ticket `t`, and the log was not cleared between it and `k`. */
  ghost predicate AdmittedAt(g: Gate, run: seq<Action>, i: int, k: nat, t: string) {
    && 0 <= i < k <= |run| && run[i].Scan?
    && OutcomeAt(g, run, i).Valid? && OutcomeAt(g, run, i).ticketId == t
    && forall j :: i < j < k ==> !run[j].Clear?
  }

  /** The log holds exactly the tickets admitted since it was last cleared, as admitted. */
  lemma {:induction false} LogIsAdmissions(g: Gate, run: seq<Action>, k: nat, t: string)
    requires k <= |run|
    ensures t in LogAt(g, run, k) <==> exists i :: AdmittedAt(g, run, i, k, t)
    ensures forall i :: AdmittedAt(g, run, i, k, t) ==> LogAt(g, run, k)[t] == OutcomeAt(g, run, i).record
  {
    hide ScanOutcome;
    if k > 0 {
      LogIsAdmissions(g, run, k - 1, t);
      if !run[k - 1].Clear? {
        forall i ensures AdmittedAt(g, run, i, k, t) <==> AdmittedAt(g, run, i, k - 1, t) || (i == k - 1 && AdmittedAt(g, run, k - 1, k, t)) {}
        if AdmittedAt(g, run, k - 1, k, t) {
          AdmissionIsNew(g, run, k - 1);
        } else if t in LogAt(g, run, k - 1) {
          var i :| AdmittedAt(g, run, i, k - 1, t);
          assert AdmittedAt(g, run, i, k, t);
        }
      } else {
        forall i ensures !AdmittedAt(g, run, i, k, t) {}
      }
    }
  }

  lemma AdmissionIsNew(g: Gate, run: seq<Action>, i: nat)
    requires i < |run| && run[i].Scan? && OutcomeAt(g, run, i).Valid?
    ensures OutcomeAt(g, run, i).ticketId !in LogAt(g, run, i)
    ensures OutcomeAt(g, run, i).record.ticketId == OutcomeAt(g, run, i).ticketId
  {}

  lemma DuplicateIsLogged(g: Gate, run: seq<Action>, i: nat)
    requires i < |run| && run[i].Scan? && OutcomeAt(g, run, i).AlreadyScanned?
    ensures var o := OutcomeAt(g, run, i); o.ticketId in LogAt(g, run, i) && LogAt(g, run, i)[o.ticketId] == o.record
  {
    hide Parsed, Verified;
  }

  /** Between clears a ticket is admitted at most once, whatever keys are added. */
  lemma AdmittedOnce(g: Gate, run: seq<Action>, i: int, j: int, k: nat, t: string)
    ensures AdmittedAt(g, run, i, k, t) && AdmittedAt(g, run, j, k, t) ==> i == j
  {
    hide ScanOutcome;
    if AdmittedAt(g, run, i, k, t) && AdmittedAt(g, run, j, k, t) && i != j {
      var first, second := if i < j then i else j, if i < j then j else i;
      assert AdmittedAt(g, run, first, second, t);
      LogIsAdmissions(g, run, second, t);
      AdmissionIsNew(g, run, second);
    }
  }

  /**
   * A scan that is refused as a duplicate shows exactly the record of the one admission of
   * that ticket since the last clear.
   */
  lemma DuplicateShowsFirstRecord(g: Gate, run: seq<Action>, j: nat)
    requires j < |run| && run[j].Scan?
    ensures var o := OutcomeAt(g, run, j);
            o.AlreadyScanned? ==>
              && (exists i :: AdmittedAt(g, run, i, j, o.ticketId))
              && (forall i :: AdmittedAt(g, run, i, j, o.ticketId) ==> OutcomeAt(g, run, i).record == o.record)
  {
    hide ScanOutcome, AdmittedAt;
    if OutcomeAt(g, run, j).AlreadyScanned? {
      DuplicateIsLogged(g, run, j);
      LogIsAdmissions(g, run, j, OutcomeAt(g, run, j).ticketId);
    }
  }

  /**
   * A payload that verifies is admitted exactly when its ticket was not admitted since the
   * last clear, and refused as a duplicate exactly when it was.
   */
  lemma VerifiedScanIsAdmittedOnce(g: Gate, run: seq<Action>, j: nat)
    requires j < |run| && run[j].Scan?
    requires Parsed(g.f, run[j].encoded).Ok? && Parsed(g.f, run[j].encoded).value.ticketId in KeysAt(g, run, j)
    requires Verified(g.f, run[j].encoded, KeysAt(g, run, j)[Parsed(g.f, run[j].encoded).value.ticketId], run[j].nowMs).Accepted?
    ensures var t := Parsed(g.f, run[j].encoded).value.ticketId;
            && (OutcomeAt(g, run, j).Valid? <==> forall i :: !AdmittedAt(g, run, i, j, t))
            && (OutcomeAt(g, run, j).AlreadyScanned? <==> exists i :: AdmittedAt(g, run, i, j, t))
            && OutcomeAt(g, run, j).ticketId == t
  {
    hide Parsed, Verified;
    LogIsAdmissions(g, run, j, Parsed(g.f, run[j].encoded).value.ticketId);
  }

  /**
   * When each outcome is given, from the decoded bytes, the keys and the log. A ticket is
   * admitted, or refused as a duplicate, only if its payload is well formed, verifies under
   * the registered key and is in time; the record of an admission holds the second of the
   * scan and the time of the payload.
   */
  lemma OutcomeIff(f: Foreign, keys: KeyMap, log: ScanLog, encoded: string, nowMs: int)
    ensures var o, b := ScanOutcome(f, keys, log, encoded, nowMs), Decoded(encoded);
            var formed := |b| == 105 && b[0] == 1;
            var t := if formed then f.decodeText(WithoutTrailingZeros(b[9..25])) else "";
            var known := formed && t in keys;
            var signed := known && |keys[t]| == 32 && f.verify(b[..41], b[41..], keys[t]);
            var inTime := signed && -75 <= nowMs / 1000 - Uint64At(b, 1) <= 75;
            && (o == Unreadable <==> !formed)
            && (o == UnknownTicket(t) <==> formed && t !in keys)
            && (o == Threw <==> known && |keys[t]| != 32)
            && (o == BadSignature(t) <==> known && |keys[t]| == 32 && !signed)
            && (o == Expired(t) <==> signed && !inTime)
            && (o.AlreadyScanned? <==> inTime && t in log)
            && (o.AlreadyScanned? ==> o == AlreadyScanned(t, log[t]))
            && (o.Valid? <==> inTime && t !in log)
            && (o.Valid? ==> o == Valid(t, ScanRecord(t, nowMs / 1000, Uint64At(b, 1))))
            && o != Unverifiable
  {
    hide Decoded, Uint64At, WithoutTrailingZeros, Verified;
    ParsedIff(f, encoded);
    if Parsed(f, encoded).Ok? && Parsed(f, encoded).value.ticketId in keys {
      VerdictIff(f, encoded, keys[Parsed(f, encoded).value.ticketId], nowMs);
    }
  }

  /** The keys in force: the last one added for a ticket, or the one the gate was built with. */
  lemma {:induction false} KeysAreLatest(g: Gate, run: seq<Action>, k: nat, j: int, t: string)
    requires -1 <= j < k <= |run| && (j >= 0 ==> run[j].AddKey? && run[j].ticketId == t)
    requires forall i :: j < i < k && run[i].AddKey? ==> run[i].ticketId != t
    ensures if j >= 0 then t in KeysAt(g, run, k) && KeysAt(g, run, k)[t] == Decoded(run[j].pubKeyB64)
            else (t in KeysAt(g, run, k) <==> t in g.keys) && (t in g.keys ==> KeysAt(g, run, k)[t] == g.keys[t])
    decreases k
  {
    hide Decoded;
    if j < k - 1 && k > 1 { KeysAreLatest(g, run, k - 1, j, t); }
  }

  /** Any other outcome leaves the log alone, and the malformed-after-parsing one never occurs. */
  lemma OtherOutcomesKeepLog(g: Gate, run: seq<Action>, j: nat)
    requires j < |run| && run[j].Scan?
    ensures !OutcomeAt(g, run, j).Valid? ==> LogAt(g, run, j + 1) == LogAt(g, run, j)
    ensures !OutcomeAt(g, run, j).Unverifiable?
  {}

  /**
   * End to end: a genuine payload shown to a gate that holds the matching key, with clocks
   * within a minute, is admitted unless its ticket already was.
   */
  lemma GenuineTicketIsAdmitted(g: Gate, run: seq<Action>, j: nat, ticketId: string, secretKey: seq<Byte>,
                                generatedMs: int, nonce: seq<Byte>)
    requires j < |run| && run[j].Scan?
    requires |nonce| == 16 && (forall m, k :: |g.f.sign(m, k)| == 64) && 0 <= generatedMs < 0x20_0000_0000_0000
    requires run[j].encoded == Generated(g.f, ticketId, secretKey, generatedMs, nonce)
    requires Abs(run[j].nowMs / 1000 - generatedMs / 1000) <= 60
    requires var id := g.f.encodeText(ticketId);
             |id| <= 16 && (id == [] || id[|id| - 1] != 0) && g.f.decodeText(id) == ticketId
    requires ticketId in KeysAt(g, run, j) && Matches(g.f, secretKey, KeysAt(g, run, j)[ticketId])
    ensures OutcomeAt(g, run, j).Valid? <==> forall i :: !AdmittedAt(g, run, i, j, ticketId)
    ensures OutcomeAt(g, run, j).Valid? || OutcomeAt(g, run, j).AlreadyScanned?
    ensures OutcomeAt(g, run, j).ticketId == ticketId
  {
    hide Generated, Parsed, Verified, ScanOutcome;
    ParseOfGenerated(g.f, ticketId, secretKey, generatedMs, nonce);
    Lifetime(g.f, ticketId, secretKey, KeysAt(g, run, j)[ticketId], generatedMs, run[j].nowMs, nonce);
    VerifiedScanIsAdmittedOnce(g, run, j);
  }
}
