/**
 * Dispute voting of server/src/handlers/governance.rs, for one dispute and its vote rows.
 *
 * A handler is a series of SQL statements with nothing held between them, so the steps
 * here are single statements and any number of calls may be between two of theirs. A call
 * that dies simply takes no further step.
 */
module Governance {
  import opened Options

  datatype Side = Buyer | Organizer

  datatype Status = Open | Voting | ResolvedBuyer | ResolvedOrganizer | Expired

  type VoterId = nat
  type CallId = nat

  /** How far a voting call has come. */
  datatype Stage = Read | Checked | Inserted | Announced

  /** A call between two of its statements, with what it remembers of the row it read. */
  datatype Call =
    | VoteCall(voter: VoterId, side: Side, sawOpen: bool, stage: Stage)
    | ResolveCall(decision: Side)

  /** The dispute row, the vote rows (one per voter by a unique key) and the calls in flight. */
  datatype Db = Db(status: Status, buyerVotes: nat, organizerVotes: nat, ruling: Option<Side>,
                   totalEligible: int, closesAt: int, votes: map<VoterId, Side>, calls: map<CallId, Call>)

  predicate Resolved(status: Status) { status == ResolvedBuyer || status == ResolvedOrganizer }

  /** Thirty percent of the tickets, rounded up. */
  function Quorum(totalEligible: int): int { (3 * totalEligible + 9) / 10 }

  lemma QuorumIsCeiling(n: int)
    ensures 10 * Quorum(n) >= 3 * n && 10 * (Quorum(n) - 1) < 3 * n
  {}

  function Decision(db: Db): Side { if db.buyerVotes > Quorum(db.totalEligible) then Buyer else Organizer }

  function StatusOf(decision: Side): Status { if decision == Buyer then ResolvedBuyer else ResolvedOrganizer }

  // ---------------------------------------------------------------------------
  // Single statements
  // ---------------------------------------------------------------------------

  datatype Step =
    | BeginVote(call: CallId, voter: VoterId, side: Side) // select the dispute and check its status
    | CheckExisting(call: CallId)                         // select whether the voter has a row
    | Insert(call: CallId)                                // insert the row
    | Announce(call: CallId)                              // set the status to voting, if it was read as open
    | Count(call: CallId)                                 // add one to the side's counter
    | BeginResolve(call: CallId, now: int)                // select the dispute, check it and decide
    | FinishResolve(call: CallId)                         // write status and ruling

  predicate AtStage(db: Db, c: CallId, stage: Stage) { c in db.calls && db.calls[c].VoteCall? && db.calls[c].stage == stage }

  predicate Enabled(db: Db, s: Step) {
    match s
    case BeginVote(c, _, _) => c !in db.calls
    case CheckExisting(c) => AtStage(db, c, Read)
    case Insert(c) => AtStage(db, c, Checked)
    case Announce(c) => AtStage(db, c, Inserted) && db.calls[c].sawOpen
    case Count(c) => AtStage(db, c, Announced) || (AtStage(db, c, Inserted) && !db.calls[c].sawOpen)
    case BeginResolve(c, _) => c !in db.calls
    case FinishResolve(c) => c in db.calls && db.calls[c].ResolveCall?
  }

  function Moved(db: Db, c: CallId, stage: Stage): Db
    requires c in db.calls && db.calls[c].VoteCall?
  {
    db.(calls := db.calls[c := db.calls[c].(stage := stage)])
  }

  function Ended(db: Db, c: CallId): Db { db.(calls := db.calls - {c}) }

  function Tallied(db: Db, side: Side): Db {
    if side == Buyer then db.(buyerVotes := db.buyerVotes + 1) else db.(organizerVotes := db.organizerVotes + 1)
  }

  function Next(db: Db, s: Step): Db
    requires Enabled(db, s)
  {
    match s
    case BeginVote(c, voter, side) =>
      if Resolved(db.status) || db.status == Expired then db
      else db.(calls := db.calls[c := VoteCall(voter, side, db.status == Open, Read)])
    case CheckExisting(c) =>
      if db.calls[c].voter in db.votes then Ended(db, c) else Moved(db, c, Checked)
    case Insert(c) =>
      if db.calls[c].voter in db.votes then Ended(db, c)
      else Moved(db, c, Inserted).(votes := db.votes[db.calls[c].voter := db.calls[c].side])
    case Announce(c) => Moved(db, c, Announced).(status := Voting)
    case Count(c) => Tallied(Ended(db, c), db.calls[c].side)
    case BeginResolve(c, now) =>
      if Resolved(db.status) || db.status == Expired || db.closesAt < now then db
      else db.(calls := db.calls[c := ResolveCall(Decision(db))])
    case FinishResolve(c) =>
      Ended(db, c).(status := StatusOf(db.calls[c].decision), ruling := Some(db.calls[c].decision))
  }

  /** A dispute as it is inserted. */
  function Opened(totalEligible: int, closesAt: int): Db {
    Db(Open, 0, 0, None, totalEligible, closesAt, map[], map[])
  }

  ghost predicate IsRun(db: Db, steps: seq<Step>)
    decreases |steps|
  {
    steps == [] || (Enabled(db, steps[0]) && IsRun(Next(db, steps[0]), steps[1..]))
  }

  ghost function After(db: Db, steps: seq<Step>): Db
    requires IsRun(db, steps)
    decreases |steps|
  {
    if steps == [] then db else After(Next(db, steps[0]), steps[1..])
  }

  // ---------------------------------------------------------------------------
  // Conservation of votes under any interleaving
  // ---------------------------------------------------------------------------

  function Rows(db: Db, side: Side): set<VoterId> { set v | v in db.votes && db.votes[v] == side }

  /** A call has inserted its row but not yet counted it. */
  predicate Uncounted(db: Db, c: CallId, side: Side) {
    c in db.calls && db.calls[c].VoteCall? && db.calls[c].side == side
    && (db.calls[c].stage == Inserted || db.calls[c].stage == Announced)
  }

  function UncountedCalls(db: Db, side: Side): set<CallId> { set c | c in db.calls && Uncounted(db, c, side) }

  function Tally(db: Db, side: Side): nat { if side == Buyer then db.buyerVotes else db.organizerVotes }

  /** The counter and the votes still to be counted make up the rows. */
  ghost predicate Conserved(db: Db, side: Side) {
    Tally(db, side) + |UncountedCalls(db, side)| == |Rows(db, side)|
  }

  /** The step inserts a row for the side. */
  predicate Inserts(db: Db, s: Step, side: Side)
    requires Enabled(db, s)
  {
    s.Insert? && db.calls[s.call].voter !in db.votes && db.calls[s.call].side == side
  }

  /** The step adds one to the side's counter. */
  predicate Counts(db: Db, s: Step, side: Side)
    requires Enabled(db, s)
  {
    s.Count? && db.calls[s.call].side == side
  }

  lemma UncountedAfter(db: Db, s: Step, side: Side, c: CallId)
    requires Enabled(db, s)
    ensures Uncounted(Next(db, s), c, side) <==>
            (if c == s.call && Inserts(db, s, side) then true
             else if c == s.call && Counts(db, s, side) then false
             else Uncounted(db, c, side))
  {
    hide Decision, StatusOf;
  }

  lemma UncountedCallsAfter(db: Db, s: Step, side: Side)
    requires Enabled(db, s)
    ensures var u, u' := UncountedCalls(db, side), UncountedCalls(Next(db, s), side);
            u' == if Inserts(db, s, side) then u + {s.call} else if Counts(db, s, side) then u - {s.call} else u
    ensures Inserts(db, s, side) ==> s.call !in UncountedCalls(db, side)
    ensures Counts(db, s, side) ==> s.call in UncountedCalls(db, side)
  {
    hide Next;
    forall c: CallId ensures c in UncountedCalls(Next(db, s), side) <==> Uncounted(Next(db, s), c, side) {}
    forall c: CallId
      ensures c in UncountedCalls(Next(db, s), side) <==>
              c in (if Inserts(db, s, side) then UncountedCalls(db, side) + {s.call}
                    else if Counts(db, s, side) then UncountedCalls(db, side) - {s.call}
                    else UncountedCalls(db, side))
    {
      UncountedAfter(db, s, side, c);
    }
  }

  lemma RowsAfter(db: Db, s: Step, side: Side)
    requires Enabled(db, s)
    ensures Rows(Next(db, s), side) ==
            if Inserts(db, s, side) then Rows(db, side) + {db.calls[s.call].voter} else Rows(db, side)
    ensures Tally(Next(db, s), side) == Tally(db, side) + if Counts(db, s, side) then 1 else 0
  {
    hide Decision, StatusOf;
  }

  lemma ConservedByStep(db: Db, s: Step, side: Side)
    requires Enabled(db, s) && Conserved(db, side)
    ensures Conserved(Next(db, s), side)
  {
    UncountedCallsAfter(db, s, side);
    RowsAfter(db, s, side);
    hide Next, UncountedCalls, Tally;
  }

  /**
   * Conservation: at every point of any interleaving each side's counter plus the calls
   * that inserted but have not counted yet is the number of that side's rows.
   */
  lemma {:induction false} VotesAreConserved(db: Db, steps: seq<Step>, side: Side)
    requires IsRun(db, steps) && Conserved(db, side)
    ensures Conserved(After(db, steps), side)
    decreases |steps|
  {
    hide Conserved, Next, Enabled;
    if steps != [] {
      ConservedByStep(db, steps[0], side);
      VotesAreConserved(Next(db, steps[0]), steps[1..], side);
    }
  }

  /** From an opened dispute, and once no call is in flight, the counters are the row counts. */
  lemma TalliesMatchRows(totalEligible: int, closesAt: int, steps: seq<Step>, side: Side)
    requires IsRun(Opened(totalEligible, closesAt), steps)
    ensures var db := After(Opened(totalEligible, closesAt), steps);
            Conserved(db, side) && (db.calls == map[] ==> Tally(db, side) == |Rows(db, side)|)
  {
    var start := Opened(totalEligible, closesAt);
    assert UncountedCalls(start, side) == {} && Rows(start, side) == {};
    VotesAreConserved(start, steps, side);
    var db := After(start, steps);
    if db.calls == map[] { assert UncountedCalls(db, side) == {}; }
  }

  // ---------------------------------------------------------------------------
  // Is a resolution final?
  // ---------------------------------------------------------------------------

  /** The call can still change the status or the ruling of a resolved dispute. */
  predicate Armed(db: Db, c: CallId) {
    c in db.calls &&
    match db.calls[c]
    case ResolveCall(decision) => StatusOf(decision) != db.status || Some(decision) != db.ruling
    case VoteCall(voter, _, sawOpen, stage) =>
      sawOpen && (stage == Inserted || ((stage == Read || stage == Checked) && voter !in db.votes))
  }

  ghost predicate NoneArmed(db: Db) { forall c: CallId :: !Armed(db, c) }

  lemma UnarmedStaysPut(db: Db, s: Step)
    requires Enabled(db, s) && Resolved(db.status) && NoneArmed(db)
    ensures var after := Next(db, s); after.status == db.status && after.ruling == db.ruling && NoneArmed(after)
  {
    hide Quorum;
    var after := Next(db, s);
    assert !Armed(db, s.call);
    forall c: CallId ensures !Armed(after, c) {
      assert !Armed(db, c);
    }
  }

  lemma {:induction false} UnarmedStaysPutForever(db: Db, steps: seq<Step>)
    requires IsRun(db, steps) && Resolved(db.status) && NoneArmed(db)
    ensures After(db, steps).status == db.status && After(db, steps).ruling == db.ruling
    decreases |steps|
  {
    hide NoneArmed, Next, Enabled;
    if steps != [] {
      UnarmedStaysPut(db, steps[0]);
      UnarmedStaysPutForever(Next(db, steps[0]), steps[1..]);
    }
  }

  /** An armed call, left to run, changes the status or the ruling. */
  lemma ArmedCanChange(db: Db, c: CallId) returns (steps: seq<Step>)
    requires Resolved(db.status) && Armed(db, c)
    ensures IsRun(db, steps)
    ensures After(db, steps).status != db.status || After(db, steps).ruling != db.ruling
  {
    if db.calls[c].ResolveCall? {
      steps := [FinishResolve(c)];
      OneStep(db, FinishResolve(c));
    } else {
      if db.calls[c].stage == Read {
        steps := [CheckExisting(c), Insert(c), Announce(c)];
        var d1 := Next(db, CheckExisting(c));
        var d2 := Next(d1, Insert(c));
        FirstStep(db, CheckExisting(c), [Insert(c), Announce(c)]);
        FirstStep(d1, Insert(c), [Announce(c)]);
        OneStep(d2, Announce(c));
      } else if db.calls[c].stage == Checked {
        steps := [Insert(c), Announce(c)];
        var d2 := Next(db, Insert(c));
        FirstStep(db, Insert(c), [Announce(c)]);
        OneStep(d2, Announce(c));
      } else {
        steps := [Announce(c)];
        OneStep(db, Announce(c));
      }
    }
  }

  lemma FirstStep(db: Db, s: Step, rest: seq<Step>)
    requires Enabled(db, s)
    ensures IsRun(db, [s] + rest) <==> IsRun(Next(db, s), rest)
    ensures IsRun(db, [s] + rest) ==> After(db, [s] + rest) == After(Next(db, s), rest)
  {
    assert ([s] + rest)[0] == s && ([s] + rest)[1..] == rest;
  }

  lemma OneStep(db: Db, s: Step)
    requires Enabled(db, s)
    ensures IsRun(db, [s]) && After(db, [s]) == Next(db, s)
  {
    assert [s] == [s] + [];
    FirstStep(db, s, []);
  }

  lemma ThreeSteps(db: Db, s1: Step, s2: Step, s3: Step)
    requires Enabled(db, s1) && Enabled(Next(db, s1), s2) && Enabled(Next(Next(db, s1), s2), s3)
    ensures IsRun(db, [s1, s2, s3]) && After(db, [s1, s2, s3]) == Next(Next(Next(db, s1), s2), s3)
  {
    hide Enabled, Next, IsRun, After;
    OneStep(Next(Next(db, s1), s2), s3);
    FirstStep(Next(db, s1), s2, [s3]);
    FirstStep(db, s1, [s2, s3]);
    assert [s2, s3] == [s2] + [s3] && [s1, s2, s3] == [s1] + [s2, s3];
  }

  /**
   * A resolved dispute keeps its status and ruling, whatever statements follow, exactly
   * when no call in flight is armed: no voting call that read the dispute as open and can
   * still announce its vote, and no second resolution that decided otherwise.
   */
  lemma ResolutionIsFinalIffNoneArmed(db: Db)
    requires Resolved(db.status)
    ensures (forall steps :: IsRun(db, steps) ==> After(db, steps).status == db.status && After(db, steps).ruling == db.ruling)
       <==> NoneArmed(db)
  {
    if NoneArmed(db) {
      forall steps | IsRun(db, steps) ensures After(db, steps).status == db.status && After(db, steps).ruling == db.ruling {
        UnarmedStaysPutForever(db, steps);
      }
    } else {
      var c: CallId :| Armed(db, c);
      var steps := ArmedCanChange(db, c);
    }
  }

  /** A vote that read the dispute as open reopens it after it was resolved. */
  lemma ResolvedDisputeReopens(n: nat, closesAt: int)
    ensures var resolving, late := [BeginVote(1, 7, Buyer), BeginResolve(2, closesAt), FinishResolve(2)], [CheckExisting(1), Insert(1), Announce(1)];
            var db := Opened(n, closesAt);
            && IsRun(db, resolving) && After(db, resolving).status == ResolvedOrganizer
            && IsRun(After(db, resolving), late)
            && After(After(db, resolving), late).status == Voting
            && After(After(db, resolving), late).ruling == Some(Organizer)
  {
    hide Quorum, IsRun, After;
    var d0 := Opened(n, closesAt);
    QuorumIsCeiling(n);
    var d1 := Next(d0, BeginVote(1, 7, Buyer));
    var d2 := Next(d1, BeginResolve(2, closesAt));
    var d3 := Next(d2, FinishResolve(2));
    var d4 := Next(d3, CheckExisting(1));
    var d5 := Next(d4, Insert(1));
    ThreeSteps(d0, BeginVote(1, 7, Buyer), BeginResolve(2, closesAt), FinishResolve(2));
    ThreeSteps(d3, CheckExisting(1), Insert(1), Announce(1));
  }

  // ---------------------------------------------------------------------------
  // Handlers run one at a time
  // ---------------------------------------------------------------------------

  datatype Outcome = Done | InvalidVote | NotFound | Rejected | AlreadyVoted | AlreadyResolved

  /** A whole voting call with no statement of another call in between. */
  function Voted(db: Db, voter: VoterId, side: Side): Db {
    if Resolved(db.status) || db.status == Expired || voter in db.votes then db
    else Tallied(db.(votes := db.votes[voter := side], status := if db.status == Open then Voting else db.status), side)
  }

  /** A whole resolving call. */
  function Settled(db: Db, now: int): Db {
    if Resolved(db.status) || db.status == Expired || db.closesAt < now then db
    else db.(status := StatusOf(Decision(db)), ruling := Some(Decision(db)))
  }

  type DisputeId = nat

  function SideOf(vote: string): Side { if vote == "buyer_favor" then Buyer else Organizer }

  /** A voting call on this dispute goes through. */
  predicate Votable(db: Db, voter: VoterId) { !Resolved(db.status) && db.status != Expired && voter !in db.votes }

  /** The dispute table with the vote rows of each dispute. */
  class DisputeStore {
    var disputes: map<DisputeId, Db>

    constructor ()
      ensures disputes == map[]
    {
      disputes := map[];
    }

    method CastVote(id: DisputeId, voter: VoterId, vote: string) returns (r: Outcome)
      modifies this
      ensures r == InvalidVote <==> vote != "buyer_favor" && vote != "organizer_favor"
      ensures r == NotFound <==> r != InvalidVote && id !in old(disputes)
      ensures r == Rejected <==>
                r != InvalidVote && id in old(disputes)
                && (Resolved(old(disputes)[id].status) || old(disputes)[id].status == Expired)
      ensures r == AlreadyVoted <==>
                r != InvalidVote && r != Rejected && id in old(disputes) && voter in old(disputes)[id].votes
      ensures r == Done <==> r != InvalidVote && id in old(disputes) && Votable(old(disputes)[id], voter)
      ensures r == Done ==> disputes == old(disputes)[id := Voted(old(disputes)[id], voter, SideOf(vote))]
      ensures r == Done && vote == "buyer_favor" ==>
                && disputes[id].votes == old(disputes)[id].votes[voter := Buyer]
                && disputes[id].buyerVotes == old(disputes)[id].buyerVotes + 1
                && disputes[id].organizerVotes == old(disputes)[id].organizerVotes
      ensures r == Done && vote == "organizer_favor" ==>
                && disputes[id].votes == old(disputes)[id].votes[voter := Organizer]
                && disputes[id].buyerVotes == old(disputes)[id].buyerVotes
                && disputes[id].organizerVotes == old(disputes)[id].organizerVotes + 1
      ensures r == Done ==> disputes[id].status == Voting || (disputes[id].status == old(disputes)[id].status != Open)
      ensures r != Done ==> disputes == old(disputes)
    {
      if vote != "buyer_favor" && vote != "organizer_favor" {
        return InvalidVote;
      }
      if id !in disputes {
        return NotFound;
      }
      var dispute := disputes[id];
      if dispute.status == ResolvedBuyer || dispute.status == ResolvedOrganizer || dispute.status == Expired {
        return Rejected;
      }
      if voter in disputes[id].votes {
        return AlreadyVoted;
      }
      var row := dispute.(votes := dispute.votes[voter := SideOf(vote)]);
      if dispute.status == Open {
        row := row.(status := Voting);
      }
      if vote == "buyer_favor" {
        row := row.(buyerVotes := row.buyerVotes + 1);
      } else {
        row := row.(organizerVotes := row.organizerVotes + 1);
      }
      disputes := disputes[id := row];
      r := Done;
    }

    method ResolveDispute(id: DisputeId, now: int) returns (r: Outcome)
      modifies this
      ensures r == NotFound <==> id !in old(disputes)
      ensures r == AlreadyResolved <==> id in old(disputes) && Resolved(old(disputes)[id].status)
      ensures r == Rejected <==>
                id in old(disputes) && !Resolved(old(disputes)[id].status)
                && (old(disputes)[id].status == Expired || old(disputes)[id].closesAt < now)
      ensures r == Done ==> disputes == old(disputes)[id := Settled(old(disputes)[id], now)]
      ensures r == Done ==>
                var before, after := old(disputes)[id], disputes[id];
                && after == before.(status := after.status, ruling := after.ruling)
                && (10 * (before.buyerVotes - 1) >= 3 * before.totalEligible
                    <==> after.status == ResolvedBuyer && after.ruling == Some(Buyer))
                && (10 * (before.buyerVotes - 1) < 3 * before.totalEligible
                    <==> after.status == ResolvedOrganizer && after.ruling == Some(Organizer))
      ensures r != Done ==> disputes == old(disputes) && r in {NotFound, AlreadyResolved, Rejected}
    {
      if id !in disputes {
        return NotFound;
      }
      var dispute := disputes[id];
      if dispute.status == ResolvedBuyer || dispute.status == ResolvedOrganizer {
        return AlreadyResolved;
      }
      if dispute.status == Expired {
        return Rejected;
      }
      if dispute.closesAt < now {
        return Rejected;
      }
      var quorumThreshold := Quorum(dispute.totalEligible);
      var ruling, status := Organizer, ResolvedOrganizer;
      if dispute.buyerVotes > quorumThreshold {
        ruling, status := Buyer, ResolvedBuyer;
      }
      disputes := disputes[id := dispute.(status := status, ruling := Some(ruling))];
      r := Done;
    }
  }

  /** Uninterrupted, the statements of a call add up to the whole handler. */
  lemma StatementsMakeVote(db: Db, c: CallId, voter: VoterId, side: Side)
    requires c !in db.calls && !Resolved(db.status) && db.status != Expired && voter !in db.votes
    ensures var d1 := Next(db, BeginVote(c, voter, side));
            var d2 := Next(d1, CheckExisting(c));
            var d3 := Next(d2, Insert(c));
            var d4 := if db.status == Open then Next(d3, Announce(c)) else d3;
            Next(d4, Count(c)) == Voted(db, voter, side)
  {
    var d1 := Next(db, BeginVote(c, voter, side));
    var d2 := Next(d1, CheckExisting(c));
    var d3 := Next(d2, Insert(c));
    var d4 := if db.status == Open then Next(d3, Announce(c)) else d3;
    assert d4.calls - {c} == db.calls;
  }

  /** The same for resolving. */
  lemma StatementsMakeSettlement(db: Db, c: CallId, now: int)
    requires c !in db.calls && !Resolved(db.status) && db.status != Expired && now <= db.closesAt
    ensures Next(Next(db, BeginResolve(c, now)), FinishResolve(c)) == Settled(db, now)
  {
    hide Quorum;
    var d1 := Next(db, BeginResolve(c, now));
    assert d1.calls - {c} == db.calls;
  }

  datatype Handler = Vote(voter: VoterId, side: Side) | Resolve(now: int)

  function Handled(db: Db, h: Handler): Db {
    match h
    case Vote(voter, side) => Voted(db, voter, side)
    case Resolve(now) => Settled(db, now)
  }

  function AfterHandlers(db: Db, hs: seq<Handler>): Db {
    if hs == [] then db else Handled(AfterHandlers(db, hs[..|hs| - 1]), hs[|hs| - 1])
  }

  /** Exact tallies, and a resolved status with the ruling that the tallies and quorum demand. */
  ghost predicate Consistent(db: Db) {
    && db.calls == map[] && db.buyerVotes == |Rows(db, Buyer)| && db.organizerVotes == |Rows(db, Organizer)|
    && (db.ruling.Some? <==> Resolved(db.status))
    && (Resolved(db.status) ==> db.status == StatusOf(db.ruling.value) && db.ruling.value == Decision(db))
    && (db.status == Open ==> db.votes == map[])
  }

  lemma HandlerKeepsConsistent(db: Db, h: Handler)
    requires Consistent(db)
    ensures Consistent(Handled(db, h))
  {
    hide Quorum;
    if h.Vote? && Voted(db, h.voter, h.side) != db {
      var after := Voted(db, h.voter, h.side);
      assert Rows(after, h.side) == Rows(db, h.side) + {h.voter};
      var other := if h.side == Buyer then Organizer else Buyer;
      assert Rows(after, other) == Rows(db, other);
    }
  }

  /** Run one at a time, the handlers keep tallies, status and ruling consistent. */
  lemma {:induction false} HandlersAreConsistent(totalEligible: int, closesAt: int, hs: seq<Handler>)
    ensures Consistent(AfterHandlers(Opened(totalEligible, closesAt), hs))
  {
    hide Consistent, Handled;
    if hs == [] {
      OpenedIsConsistent(totalEligible, closesAt);
    } else {
      HandlersAreConsistent(totalEligible, closesAt, hs[..|hs| - 1]);
      HandlerKeepsConsistent(AfterHandlers(Opened(totalEligible, closesAt), hs[..|hs| - 1]), hs[|hs| - 1]);
    }
  }

  lemma OpenedIsConsistent(totalEligible: int, closesAt: int)
    ensures Consistent(Opened(totalEligible, closesAt))
  {
    var db := Opened(totalEligible, closesAt);
    assert Rows(db, Buyer) == {} && Rows(db, Organizer) == {};
  }

  lemma {:induction false} EligibleStays(db: Db, hs: seq<Handler>)
    ensures AfterHandlers(db, hs).totalEligible == db.totalEligible
  {
    if hs != [] { EligibleStays(db, hs[..|hs| - 1]); }
  }

  /**
   * Run one at a time, the ruling is the one the votes demand: a resolved dispute is ruled
   * for the buyer exactly when the buyers' rows exceed thirty percent of the tickets, rounded
   * up, and for the organizer otherwise.
   */
  lemma {:induction false} RulingFollowsVotes(totalEligible: int, closesAt: int, hs: seq<Handler>)
    ensures var db := AfterHandlers(Opened(totalEligible, closesAt), hs);
            var majority := 10 * (|Rows(db, Buyer)| - 1) >= 3 * totalEligible;
            && (db.status == ResolvedBuyer <==> db.ruling == Some(Buyer))
            && (db.status == ResolvedOrganizer <==> db.ruling == Some(Organizer))
            && (db.ruling == Some(Buyer) <==> Resolved(db.status) && majority)
            && (db.ruling == Some(Organizer) <==> Resolved(db.status) && !majority)
  {
    hide AfterHandlers, Rows;
    HandlersAreConsistent(totalEligible, closesAt, hs);
    EligibleStays(Opened(totalEligible, closesAt), hs);
  }

  /** Run one at a time, a resolution is final: no handler changes anything after it. */
  lemma {:induction false} ResolutionIsFinalInTurn(db: Db, hs: seq<Handler>)
    requires Resolved(db.status)
    ensures AfterHandlers(db, hs) == db
  {
    if hs != [] { ResolutionIsFinalInTurn(db, hs[..|hs| - 1]); }
  }
}
