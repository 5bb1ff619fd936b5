/**
 * Gossip of check-in records between gate scanners
 * (apps/mobile/services/bleMeshService.ts), as a protocol over any number of scanners.
 *
 * A pull merges what the peer served, and a flush deletes what the server accepted of the
 * batch that was posted; in both cases the log may have changed in the meantime.
 */
module BleMesh {

  const MAX_GOSSIP_HOPS := 6

  datatype CheckInResult = Approved | Denied

  datatype CheckIn = CheckIn(recordId: string, ticketId: string, gateId: string, scannerId: string,
                             result: CheckInResult, scannedAt: int, hops: nat)

  type Log = map<string, CheckIn>

  // ---------------------------------------------------------------------------
  // One scanner
  // ---------------------------------------------------------------------------

  function MergedOne(log: Log, r: CheckIn): Log {
    if r.recordId in log || r.hops >= MAX_GOSSIP_HOPS then log else log[r.recordId := r.(hops := r.hops + 1)]
  }

  function MergedAll(log: Log, records: seq<CheckIn>): Log {
    if records == [] then log else MergedOne(MergedAll(log, records[..|records| - 1]), records[|records| - 1])
  }

  /** The id of a record made at the time spelled `now`. */
  function RecordId(scannerId: string, ticketId: string, now: string): string {
    scannerId + "-" + ticketId + "-" + now
  }

  ghost function Ids(ids: seq<string>): set<string> { set id | id in ids }

  class BleMeshService {
    const scannerId: string
    var log: Log

    constructor (scannerId: string)
      ensures this.scannerId == scannerId && log == map[]
    {
      this.scannerId := scannerId;
      log := map[];
    }

    /** The clock is read twice: once for the id, once for the time of the scan. */
    method RecordCheckIn(ticketId: string, gateId: string, result: CheckInResult, now: string, scannedAt: int)
      modifies this
      ensures var id := RecordId(scannerId, ticketId, now);
              log == old(log)[id := CheckIn(id, ticketId, gateId, scannerId, result, scannedAt, 0)]
    {
      var record := CheckIn(RecordId(scannerId, ticketId, now), ticketId, gateId, scannerId, result, scannedAt, 0);
      log := log[record.recordId := record];
    }

    method MergeIncoming(records: seq<CheckIn>)
      modifies this
      ensures log == MergedAll(old(log), records)
    {
      for i := 0 to |records|
        invariant log == MergedAll(old(log), records[..i])
      {
        assert records[..i + 1][..i] == records[..i];
        var record := records[i];
        if !(record.recordId in log || record.hops >= MAX_GOSSIP_HOPS) {
          log := log[record.recordId := record.(hops := record.hops + 1)];
        }
      }
      assert records[..|records|] == records;
    }

    /** Deletes the ids that the server reports as accepted. */
    method FinishFlush(flushedIds: seq<string>)
      modifies this
      ensures log == old(log) - Ids(flushedIds)
    {
      for i := 0 to |flushedIds|
        invariant log == old(log) - Ids(flushedIds[..i])
      {
        assert Ids(flushedIds[..i + 1]) == Ids(flushedIds[..i]) + {flushedIds[i]};
        log := log - {flushedIds[i]};
      }
      assert flushedIds[..|flushedIds|] == flushedIds;
    }
  }

  // ---------------------------------------------------------------------------
  // What a pull does
  // ---------------------------------------------------------------------------

  /** Records that are new here and have hops to spare, one hop further. */
  function Pulled(log: Log, served: Log): Log {
    log + map id | id in served && id !in log && served[id].hops < MAX_GOSSIP_HOPS :: served[id].(hops := served[id].hops + 1)
  }

  /** `records` are the records of a log, in any order and possibly repeated. */
  ghost predicate Serves(records: seq<CheckIn>, served: Log) {
    && (forall id :: id in served ==> served[id].recordId == id && served[id] in records)
    && (forall r :: r in records ==> r.recordId in served && served[r.recordId] == r)
  }

  /** Each record of the list is taken or skipped by its own id, whatever the order. */
  lemma {:induction false} MergedAllAt(log: Log, records: seq<CheckIn>, id: string)
    requires forall i, j :: 0 <= i < |records| && 0 <= j < |records| && records[i].recordId == records[j].recordId ==> records[i] == records[j]
    ensures id in log ==> id in MergedAll(log, records) && MergedAll(log, records)[id] == log[id]
    ensures id !in log ==>
      (id in MergedAll(log, records) <==> exists i :: 0 <= i < |records| && records[i].recordId == id && records[i].hops < MAX_GOSSIP_HOPS)
    ensures id !in log ==>
      (forall i :: 0 <= i < |records| && records[i].recordId == id && records[i].hops < MAX_GOSSIP_HOPS ==>
         MergedAll(log, records)[id] == records[i].(hops := records[i].hops + 1))
  {
    if records != [] {
      var init := records[..|records| - 1];
      MergedAllAt(log, init, id);
      if id !in log && id in MergedAll(log, init) {
        var i :| 0 <= i < |init| && init[i].recordId == id && init[i].hops < MAX_GOSSIP_HOPS;
        assert records[i] == init[i];
      }
    }
  }

  /** Merging a served log in any order is the pull. */
  lemma MergeOfServedIsPull(log: Log, records: seq<CheckIn>, served: Log)
    requires Serves(records, served)
    ensures MergedAll(log, records) == Pulled(log, served)
  {
    var m, p := MergedAll(log, records), Pulled(log, served);
    forall id ensures (id in m <==> id in p) && (id in m ==> m[id] == p[id]) {
      MergedAllAt(log, records, id);
      if id in p && id !in log {
        var i :| 0 <= i < |records| && records[i] == served[id];
      }
    }
    assert m.Keys == p.Keys;
  }

  // ---------------------------------------------------------------------------
  // The protocol
  // ---------------------------------------------------------------------------

  type Scanner = string

  datatype Step =
    | Record(record: CheckIn)                              // at the scanner it names
    | Pull(to: Scanner, from: Scanner, at: nat)            // merge what `from` served after `at` steps
    | Flush(scanner: Scanner, at: nat, accepted: set<string>) // of the batch posted after `at` steps

  type Run = seq<Step>

  /** The log of a scanner after the first `k` steps. */
  function LogAt(run: Run, k: nat, s: Scanner): Log
    requires k <= |run|
    decreases k
  {
    if k == 0 then map[] else
    var log := LogAt(run, k - 1, s);
    match run[k - 1]
    case Record(r) => if r.scannerId == s then log[r.recordId := r] else log
    case Pull(to, from, at) => if to == s && at < k then Pulled(log, LogAt(run, at, from)) else log
    case Flush(scanner, _, accepted) => if scanner == s then log - accepted else log
  }

  /** Records start without hops, snapshots are past, and only posted records are accepted. */
  ghost predicate Orderly(run: Run) {
    forall i :: 0 <= i < |run| ==>
      match run[i]
      case Record(r) => r.hops == 0
      case Pull(_, _, at) => at <= i
      case Flush(s, at, accepted) => at <= i && accepted <= LogAt(run, at, s).Keys
  }

  /** No two check-ins of the run share an id. */
  ghost predicate DistinctIds(run: Run) {
    forall i, j :: 0 <= i < j < |run| && run[i].Record? && run[j].Record? ==> run[i].record.recordId != run[j].record.recordId
  }

  /** The records, as they were posted, that the server accepted in the first `k` steps. */
  function AcceptedBy(run: Run, k: nat): set<CheckIn>
    requires k <= |run|
  {
    if k == 0 then {} else AcceptedBy(run, k - 1) + if run[k - 1].Flush? then AcceptedIn(run, k - 1) else {}
  }

  /** What the flush at step `j` had posted under the ids it got back. */
  function AcceptedIn(run: Run, j: nat): set<CheckIn>
    requires j < |run| && run[j].Flush?
  {
    if run[j].at > j then {} else
    var posted := LogAt(run, run[j].at, run[j].scanner);
    set id | id in run[j].accepted && id in posted :: posted[id]
  }

  /** Check-in `i` is the original of what is stored under `id`. */
  ghost predicate Origin(run: Run, i: int, k: nat, id: string) {
    0 <= i < k <= |run| && run[i].Record? && run[i].record.recordId == id
  }

  /** How a record came to be in a log: made here just now, already here, or just pulled. */
  lemma HowHeld(run: Run, k: nat, s: Scanner, id: string)
    requires Orderly(run) && k <= |run| && id in LogAt(run, k, s)
    ensures k > 0
    ensures || (Origin(run, k - 1, k, id) && run[k - 1].record.scannerId == s && run[k - 1].record.hops == 0
                && LogAt(run, k, s)[id] == run[k - 1].record)
            || (id in LogAt(run, k - 1, s) && LogAt(run, k, s)[id] == LogAt(run, k - 1, s)[id])
            || (run[k - 1].Pull? && run[k - 1].to == s && run[k - 1].at < k
                && id in LogAt(run, run[k - 1].at, run[k - 1].from)
                && var there := LogAt(run, run[k - 1].at, run[k - 1].from)[id];
                   there.hops < MAX_GOSSIP_HOPS && LogAt(run, k, s)[id] == there.(hops := there.hops + 1))
  {}

  /** Every held record matches its original check-in in all fields but the hops. */
  lemma {:induction false} HeldRecordsAreGenuine(run: Run, k: nat, s: Scanner, id: string)
    requires Orderly(run) && k <= |run| && id in LogAt(run, k, s)
    ensures exists i :: Origin(run, i, k, id) && LogAt(run, k, s)[id] == run[i].record.(hops := LogAt(run, k, s)[id].hops)
    decreases k
  {
    hide Orderly, LogAt;
    HowHeld(run, k, s, id);
    if Origin(run, k - 1, k, id) && LogAt(run, k, s)[id] == run[k - 1].record {
    } else if id in LogAt(run, k - 1, s) && LogAt(run, k, s)[id] == LogAt(run, k - 1, s)[id] {
      HeldRecordsAreGenuine(run, k - 1, s, id);
      var i :| Origin(run, i, k - 1, id) && LogAt(run, k - 1, s)[id] == run[i].record.(hops := LogAt(run, k - 1, s)[id].hops);
      assert Origin(run, i, k, id);
    } else {
      var from, at := run[k - 1].from, run[k - 1].at;
      HeldRecordsAreGenuine(run, at, from, id);
      var i :| Origin(run, i, at, id) && LogAt(run, at, from)[id] == run[i].record.(hops := LogAt(run, at, from)[id].hops);
      assert Origin(run, i, k, id);
    }
  }

  /** A pull of the run took the record from `from`, where it had `hops`, to `to`. */
  ghost predicate Carried(run: Run, k: nat, from: Scanner, to: Scanner, id: string, hops: nat) {
    exists j :: 0 <= j < k && j < |run| && run[j].Pull? && run[j].from == from && run[j].to == to && run[j].at <= j
             && HasWithHops(run, run[j].at, from, id, hops) && HasWithHops(run, j + 1, to, id, hops + 1)
  }

  ghost predicate HasWithHops(run: Run, k: nat, s: Scanner, id: string, hops: nat) {
    k <= |run| && id in LogAt(run, k, s) && LogAt(run, k, s)[id].hops == hops
  }

  /** `chain` leads from the scanner that made a check-in to `s`, one pull of it per link. */
  ghost predicate IsChain(run: Run, k: nat, chain: seq<Scanner>, origin: Scanner, s: Scanner, id: string) {
    && chain != [] && chain[0] == origin && chain[|chain| - 1] == s
    && forall n :: 0 <= n < |chain| - 1 ==> Carried(run, k, chain[n], chain[n + 1], id, n)
  }

  /**
   * The hops of a held record count the pulls that carried it here, link by link, from the
   * scanner that made it, and never exceed the cap.
   */
  lemma {:induction false} HopsCountPulls(run: Run, k: nat, s: Scanner, id: string) returns (chain: seq<Scanner>)
    requires Orderly(run) && k <= |run| && id in LogAt(run, k, s)
    ensures IsChain(run, k, chain, LogAt(run, k, s)[id].scannerId, s, id)
    ensures LogAt(run, k, s)[id].hops == |chain| - 1 <= 6
    decreases k
  {
    hide Orderly, LogAt;
    HowHeld(run, k, s, id);
    if Origin(run, k - 1, k, id) && run[k - 1].record.scannerId == s && run[k - 1].record.hops == 0
       && LogAt(run, k, s)[id] == run[k - 1].record {
      chain := [s];
    } else if id in LogAt(run, k - 1, s) && LogAt(run, k, s)[id] == LogAt(run, k - 1, s)[id] {
      chain := HopsCountPulls(run, k - 1, s, id);
      ChainLater(run, k - 1, k, chain, id);
    } else {
      var from, at := run[k - 1].from, run[k - 1].at;
      var before := HopsCountPulls(run, at, from, id);
      ChainLater(run, at, k, before, id);
      chain := before + [s];
      assert HasWithHops(run, at, from, id, |before| - 1) && HasWithHops(run, k - 1 + 1, s, id, |before|);
      assert Carried(run, k, from, s, id, |before| - 1);
      forall n | 0 <= n < |chain| - 1 ensures Carried(run, k, chain[n], chain[n + 1], id, n) {
        if n < |before| - 1 { assert Carried(run, k, before[n], before[n + 1], id, n); }
      }
    }
  }

  lemma ChainLater(run: Run, j: nat, k: nat, chain: seq<Scanner>, id: string)
    requires j <= k <= |run| && forall n :: 0 <= n < |chain| - 1 ==> Carried(run, j, chain[n], chain[n + 1], id, n)
    ensures forall n :: 0 <= n < |chain| - 1 ==> Carried(run, k, chain[n], chain[n + 1], id, n)
  {
    hide HasWithHops;
    forall n | 0 <= n < |chain| - 1 ensures Carried(run, k, chain[n], chain[n + 1], id, n) {
      assert Carried(run, j, chain[n], chain[n + 1], id, n);
    }
  }

  /** Equal in all fields but the hops. */
  predicate SameCheckIn(a: CheckIn, b: CheckIn) { a.(hops := b.hops) == b }

  /** The scanner that made `r` still holds it exactly as made. */
  predicate HeldAsMade(run: Run, k: nat, r: CheckIn)
    requires k <= |run|
  {
    r.recordId in LogAt(run, k, r.scannerId) && LogAt(run, k, r.scannerId)[r.recordId] == r
  }

  /** The server has accepted `r` itself, not merely its id. */
  predicate AcceptedAsItself(run: Run, k: nat, r: CheckIn)
    requires k <= |run|
  {
    exists a :: a in AcceptedBy(run, k) && SameCheckIn(a, r)
  }

  /** The step takes `r` out of its scanner's log: another check-in gets its id, or a flush gets it back. */
  predicate Removes(step: Step, r: CheckIn) {
    match step
    case Record(x) => x.scannerId == r.scannerId && x.recordId == r.recordId && x != r
    case Pull(_, _, _) => false
    case Flush(s, _, accepted) => s == r.scannerId && r.recordId in accepted
  }

  /** Step `j` removes `r` without the server getting it: a flush had posted another record under its id. */
  predicate Displaces(run: Run, j: nat, r: CheckIn)
    requires j < |run|
  {
    && Removes(run[j], r)
    && (run[j].Flush? ==>
          var posted := if run[j].at <= j then LogAt(run, run[j].at, r.scannerId) else map[];
          r.recordId in posted && !SameCheckIn(posted[r.recordId], r))
  }

  /** `r` was made at step `m` and not removed since. */
  ghost predicate Unremoved(run: Run, m: int, k: nat, r: CheckIn)
    requires k <= |run|
  {
    0 <= m < k && run[m] == Record(r) && forall j :: m < j < k ==> !Removes(run[j], r)
  }

  /** `r` was made at step `m` and not displaced since. */
  ghost predicate Undisplaced(run: Run, m: int, k: nat, r: CheckIn)
    requires k <= |run|
  {
    0 <= m < k && run[m] == Record(r) && forall j :: m < j < k ==> !Displaces(run, j, r)
  }

  lemma {:induction false} UndisplacedIsSafe(run: Run, m: int, k: nat, r: CheckIn)
    requires Orderly(run) && k <= |run| && Undisplaced(run, m, k, r)
    ensures HeldAsMade(run, k, r) || AcceptedAsItself(run, k, r)
    decreases k
  {
    if m < k - 1 {
      UndisplacedIsSafe(run, m, k - 1, r);
      assert !Displaces(run, k - 1, r);
      if AcceptedAsItself(run, k - 1, r) {
        var a :| a in AcceptedBy(run, k - 1) && SameCheckIn(a, r);
        assert a in AcceptedBy(run, k);
      } else if run[k - 1].Flush? && run[k - 1].scanner == r.scannerId && r.recordId in run[k - 1].accepted {
        assert LogAt(run, run[k - 1].at, r.scannerId)[r.recordId] in AcceptedBy(run, k);
      }
    }
  }

  lemma {:induction false} UnremovedIsHeld(run: Run, m: int, k: nat, r: CheckIn)
    requires k <= |run| && Unremoved(run, m, k, r)
    ensures HeldAsMade(run, k, r)
    decreases k
  {
    if m < k - 1 {
      UnremovedIsHeld(run, m, k - 1, r);
      assert !Removes(run[k - 1], r);
    }
  }

  lemma HeldBefore(run: Run, k: nat, r: CheckIn)
    requires Orderly(run) && k <= |run| && HeldAsMade(run, k, r) && r.hops == 0
    ensures k > 0
    ensures run[k - 1] != Record(r) ==> HeldAsMade(run, k - 1, r) && !Removes(run[k - 1], r)
  {}

  lemma {:induction false} HeldIsUnremoved(run: Run, k: nat, r: CheckIn)
    requires Orderly(run) && k <= |run| && HeldAsMade(run, k, r) && r.hops == 0
    ensures exists m :: Unremoved(run, m, k, r)
    decreases k
  {
    HeldBefore(run, k, r);
    if run[k - 1] == Record(r) {
      assert Unremoved(run, k - 1, k, r);
    } else {
      hide LogAt, Orderly;
      HeldIsUnremoved(run, k - 1, r);
      var m :| Unremoved(run, m, k - 1, r);
      assert Unremoved(run, m, k, r);
    }
  }

  /**
   * A scanner still holds one of its check-ins exactly as made when, and only when, it made
   * it and neither gave its id to another check-in nor got the id back from a flush since.
   * No pull can bring it back as made.
   */
  lemma {:induction false} HeldAsMadeIff(run: Run, k: nat, r: CheckIn)
    requires Orderly(run) && k <= |run| && r.hops == 0
    ensures HeldAsMade(run, k, r) <==> exists m :: Unremoved(run, m, k, r)
  {
    if HeldAsMade(run, k, r) { HeldIsUnremoved(run, k, r); }
    if m :| Unremoved(run, m, k, r) { UnremovedIsHeld(run, m, k, r); }
  }

  /**
   * A record id holds only the scanner, the ticket and the millisecond, so check-ins can
   * share one. A check-in is still held as made or accepted as itself exactly when the
   * server has accepted that very check-in, or it was made and not displaced since: no
   * other check-in of the scanner took its id, and no flush of the scanner deleted that id
   * on account of another record.
   */
  lemma {:induction false} CheckInSurvivesIff(run: Run, i: nat, k: nat)
    requires Orderly(run) && i < k <= |run| && run[i].Record?
    ensures var r := run[i].record;
            HeldAsMade(run, k, r) || AcceptedAsItself(run, k, r)
            <==> AcceptedAsItself(run, k, r) || exists m :: Undisplaced(run, m, k, r)
  {
    var r := run[i].record;
    if HeldAsMade(run, k, r) {
      HeldIsUnremoved(run, k, r);
      var m :| Unremoved(run, m, k, r);
      assert Undisplaced(run, m, k, r);
    }
    if m :| Undisplaced(run, m, k, r) { UndisplacedIsSafe(run, m, k, r); }
  }

  /** With distinct ids, whatever is held under the id of a check-in is that check-in. */
  lemma {:induction false} HeldUnderItsId(run: Run, i: nat, k: nat, s: Scanner)
    requires Orderly(run) && DistinctIds(run) && k <= |run| && i < |run| && run[i].Record?
    requires run[i].record.recordId in LogAt(run, k, s)
    ensures SameCheckIn(LogAt(run, k, s)[run[i].record.recordId], run[i].record)
  {
    hide LogAt, Orderly;
    var id := run[i].record.recordId;
    HeldRecordsAreGenuine(run, k, s, id);
    var o :| Origin(run, o, k, id) && LogAt(run, k, s)[id] == run[o].record.(hops := LogAt(run, k, s)[id].hops);
    assert o == i;
  }

  /**
   * No loss: with distinct ids every check-in has been accepted as itself or is still held,
   * exactly as made, by the scanner that made it.
   */
  lemma {:induction false} NothingIsLost(run: Run, i: nat, k: nat)
    requires Orderly(run) && DistinctIds(run) && i < k <= |run| && run[i].Record?
    ensures HeldAsMade(run, k, run[i].record) || AcceptedAsItself(run, k, run[i].record)
  {
    hide LogAt, Orderly, SameCheckIn;
    var r := run[i].record;
    forall j | i < j < k ensures !Displaces(run, j, r) {
      if run[j].Flush? && run[j].at <= j && r.recordId in LogAt(run, run[j].at, r.scannerId) {
        HeldUnderItsId(run, i, run[j].at, r.scannerId);
      }
    }
    assert Undisplaced(run, i, k, r);
    UndisplacedIsSafe(run, i, k, r);
  }

  /** The server only ever accepts records that some scanner really made, hops aside. */
  lemma {:induction false} AcceptedAreGenuine(run: Run, k: nat, a: CheckIn)
    requires Orderly(run) && k <= |run| && a in AcceptedBy(run, k)
    ensures exists i :: Origin(run, i, k, a.recordId) && SameCheckIn(a, run[i].record)
  {
    if a in AcceptedBy(run, k - 1) {
      AcceptedAreGenuine(run, k - 1, a);
      var i :| Origin(run, i, k - 1, a.recordId) && SameCheckIn(a, run[i].record);
      assert Origin(run, i, k, a.recordId);
    } else {
      var s, at := run[k - 1].scanner, run[k - 1].at;
      var id :| id in LogAt(run, at, s) && LogAt(run, at, s)[id] == a;
      HeldRecordsAreGenuine(run, at, s, id);
      var i :| Origin(run, i, at, id) && LogAt(run, at, s)[id] == run[i].record.(hops := LogAt(run, at, s)[id].hops);
      assert Origin(run, i, k, a.recordId);
    }
  }

  /** Two check-ins of one ticket at one gate in one millisecond, which share an id. */
  function Twin(s: Scanner, t: string, gate: string, now: string, scannedAt: int, result: CheckInResult): CheckIn {
    CheckIn(RecordId(s, t, now), t, gate, s, result, scannedAt, 0)
  }

  /** The second of two such check-ins replaces the first, which is neither held nor accepted. */
  lemma SecondCheckInReplacesFirst(s: Scanner, t: string, gate: string, now: string, scannedAt: int)
    ensures var first, second := Twin(s, t, gate, now, scannedAt, Approved), Twin(s, t, gate, now, scannedAt, Denied);
            var run := [Record(first), Record(second)];
            Orderly(run) && LogAt(run, 2, s) == map[second.recordId := second] && AcceptedBy(run, 2) == {}
            && !HeldAsMade(run, 2, first) && !AcceptedAsItself(run, 2, first)
  {
    hide RecordId;
    var first, second := Twin(s, t, gate, now, scannedAt, Approved), Twin(s, t, gate, now, scannedAt, Denied);
    var run := [Record(first), Record(second)];
    assert LogAt(run, 1, s) == map[first.recordId := first];
    assert AcceptedBy(run, 1) == {};
  }

  /**
   * A flush that posted the first deletes the second when the answer comes back: the second
   * was never posted and is gone.
   */
  lemma LateFlushDropsSecond(s: Scanner, t: string, gate: string, now: string, scannedAt: int)
    ensures var first, second := Twin(s, t, gate, now, scannedAt, Approved), Twin(s, t, gate, now, scannedAt, Denied);
            var run := [Record(first), Record(second), Flush(s, 1, {first.recordId})];
            Orderly(run) && LogAt(run, 3, s) == map[] && AcceptedBy(run, 3) == {first}
            && !HeldAsMade(run, 3, second) && !AcceptedAsItself(run, 3, second)
  {
    hide RecordId;
    var first, second := Twin(s, t, gate, now, scannedAt, Approved), Twin(s, t, gate, now, scannedAt, Denied);
    var run := [Record(first), Record(second), Flush(s, 1, {first.recordId})];
    assert LogAt(run, 1, s) == map[first.recordId := first];
    assert LogAt(run, 2, s) == map[second.recordId := second];
    assert LogAt(run, 3, s) == map[];
    assert AcceptedBy(run, 1) == {} && AcceptedBy(run, 2) == {};
    assert AcceptedIn(run, 2) == {first};
  }

  /** Ids tell apart check-ins that differ in one of scanner, ticket and time. */
  lemma IdsDiffer(s: string, s': string, t: string, t': string, now: string, now': string)
    ensures RecordId(s, t, now) == RecordId(s, t, now') ==> now == now'
    ensures RecordId(s, t, now) == RecordId(s, t', now) ==> t == t'
    ensures RecordId(s, t, now) == RecordId(s', t, now) ==> s == s'
  {
    var id, n := RecordId(s, t, now), |s| + 1 + |t| + 1;
    assert id[n..] == now && RecordId(s, t, now')[n..] == now';
    assert id[|s| + 1..|id| - |now| - 1] == t;
    if RecordId(s, t', now) == id { assert id[|s| + 1..|id| - |now| - 1] == t'; }
    assert id[..|id| - |now| - |t| - 2] == s;
    if RecordId(s', t, now) == id { assert id[..|id| - |now| - |t| - 2] == s'; }
  }

  /** Scanners with names of different length, each pulling from the one before. */
  function Relay(i: nat): Scanner { if i == 0 then "" else Relay(i - 1) + "x" }

  lemma {:induction false} RelayLength(i: nat)
    ensures |Relay(i)| == i
  {
    if i > 0 { RelayLength(i - 1); }
  }

  function RelayRun(r: CheckIn, n: nat): Run
    requires n > 0
  {
    seq(n, i => if i <= 0 then Record(r) else Pull(Relay(i), Relay(i - 1), i))
  }

  lemma {:induction false} OthersEmpty(r: CheckIn, n: nat, k: nat, i: nat)
    requires k <= i && k <= n && n > 0 && r.scannerId == Relay(0)
    ensures LogAt(RelayRun(r, n), k, Relay(i)) == map[]
  {
    hide Relay;
    if k > 0 {
      OthersEmpty(r, n, k - 1, i);
      RelayLength(0); RelayLength(i); RelayLength(k - 1);
    }
  }

  lemma RelayStep(r: CheckIn, n: nat, i: nat)
    requires r.scannerId == Relay(0) && 0 < i < n
    ensures LogAt(RelayRun(r, n), i + 1, Relay(i)) == Pulled(map[], LogAt(RelayRun(r, n), i, Relay(i - 1)))
  {
    hide Relay, Pulled;
    OthersEmpty(r, n, i, i);
    assert RelayRun(r, n)[i] == Pull(Relay(i), Relay(i - 1), i);
  }

  /** A pull into an empty log of a log that holds at most one record. */
  lemma PulledOne(none: Log, served: Log, id: string)
    requires none == map[] && served.Keys <= {id}
    ensures Pulled(none, served)
         == if id in served && served[id].hops < 6 then map[id := served[id].(hops := served[id].hops + 1)] else map[]
  {}

  lemma RelayIsOrderly(r: CheckIn, n: nat)
    requires r.hops == 0 && n > 0
    ensures Orderly(RelayRun(r, n))
  {}

  /**
   * The cap is exact: passed on from scanner to scanner, a check-in reaches the sixth with
   * six hops, and the seventh does not take it.
   */
  lemma {:induction false} RelayEndsAtSix(r: CheckIn, n: nat, i: nat)
    requires r.hops == 0 && r.scannerId == Relay(0) && i < n
    ensures Orderly(RelayRun(r, n))
    ensures i <= 6 ==> LogAt(RelayRun(r, n), i + 1, Relay(i)) == map[r.recordId := r.(hops := i)]
    ensures i > 6 ==> LogAt(RelayRun(r, n), i + 1, Relay(i)) == map[]
  {
    hide Relay, Pulled, Orderly;
    RelayIsOrderly(r, n);
    if i == 0 {
      assert RelayRun(r, n)[0] == Record(r);
      assert r.(hops := 0) == r;
    } else {
      hide LogAt, RelayRun;
      RelayEndsAtSix(r, n, i - 1);
      RelayStep(r, n, i);
      PulledOne(map[], LogAt(RelayRun(r, n), i, Relay(i - 1)), r.recordId);
    }
  }

  /** Ids of different scanners and tickets can coincide. */
  lemma IdsCanCoincide(now: string)
    ensures RecordId("gate-1", "7", now) == RecordId("gate", "1-7", now)
  {
    assert "gate-1" + "-" + "7" == "gate" + "-" + "1-7";
  }
}
