/**
 * The clock discipline of the sync protocol and what it makes of `happened before`.
 *
 * Clients stamp each local mutation with their incremented clock and merge the clocks
 * they receive (apps/mobile/lib/syncEngine.ts:136-147 and 254-257). The server never
 * mutates; each request reads the server clock, joins it with the client's and writes
 * the result back (server/src/handlers/sync.rs:83-101), with no lock held in between, so
 * the clock it writes joins two snapshots that may both be old.
 */
module Causality {
  import opened VectorClocks

  /**
   * One step of the whole system. A snapshot is named by the node it was taken from and
   * the number of steps taken before it, so messages may be late, repeated or reordered.
   */
  datatype Step =
    | Mutate(node: NodeId)                                       // stamp a local mutation
    | Deliver(to: NodeId, from: NodeId, at: nat)                 // merge a received clock
    | Write(server: NodeId, ownAt: nat, client: NodeId, at: nat) // the server's unlocked write-back

  type Run = seq<Step>

  predicate IsMutation(run: Run, i: int) { 0 <= i < |run| && run[i].Mutate? }

  /** Snapshots come from the past, and a node that writes back never mutates. */
  predicate ValidStep(run: Run, i: nat)
    requires i < |run|
  {
    match run[i]
    case Mutate(_) => true
    case Deliver(_, _, at) => at <= i
    case Write(server, ownAt, _, at) =>
      ownAt <= i && at <= i && forall j :: 0 <= j < |run| ==> run[j] != Mutate(server)
  }

  predicate Valid(run: Run) { forall i :: 0 <= i < |run| ==> ValidStep(run, i) }

  /**
   * The clock a node holds after the first `k` steps. Clients start from their own entry
   * at zero; the server starts from the empty clock, which reads the same.
   */
  function ClockAt(run: Run, k: nat, n: NodeId): Clock
    requires k <= |run| && Valid(run)
  {
    if k == 0 then Single(n, 0) else
    var previous := ClockAt(run, k - 1, n);
    assert ValidStep(run, k - 1);
    match run[k - 1]
    case Mutate(node) => if node == n then Incremented(previous, n) else previous
    case Deliver(to, from, at) => if to == n then Join(previous, ClockAt(run, at, from)) else previous
    case Write(server, ownAt, client, at) =>
      if server == n then Join(ClockAt(run, ownAt, n), ClockAt(run, at, client)) else previous
  }

  /**
   * The mutations a node knows of after `k` steps, named by their position in the run.
   * This is the causal history: it is moved by the same messages, but no clock is read.
   */
  ghost function Known(run: Run, k: nat, n: NodeId): set<nat>
    requires k <= |run| && Valid(run)
  {
    if k == 0 then {} else
    var previous := Known(run, k - 1, n);
    assert ValidStep(run, k - 1);
    match run[k - 1]
    case Mutate(node) => if node == n then previous + {k - 1} else previous
    case Deliver(to, from, at) => if to == n then previous + Known(run, at, from) else previous
    case Write(server, ownAt, client, at) =>
      if server == n then Known(run, ownAt, n) + Known(run, at, client) else previous
  }

  /** The clock stored with the mutation at position `i`. */
  function Stamp(run: Run, i: nat): Clock
    requires Valid(run) && IsMutation(run, i)
  {
    ClockAt(run, i + 1, run[i].node)
  }

  /** The causal history of the mutation at position `i`, itself included. */
  ghost function History(run: Run, i: nat): set<nat>
    requires Valid(run) && IsMutation(run, i)
  {
    Known(run, i + 1, run[i].node)
  }

  /** How many of the first `k` steps are mutations of `n`. */
  function Count(run: Run, k: nat, n: NodeId): nat
    requires k <= |run|
  {
    if k == 0 then 0 else Count(run, k - 1, n) + if run[k - 1] == Mutate(n) then 1 else 0
  }

  /** How many of the first `k` steps are mutations of `n` that belong to `s`. */
  ghost function CountIn(run: Run, k: nat, n: NodeId, s: set<nat>): nat
    requires k <= |run|
  {
    if k == 0 then 0
    else CountIn(run, k - 1, n, s) + if run[k - 1] == Mutate(n) && k - 1 in s then 1 else 0
  }

  lemma {:induction false} CountMonotone(run: Run, j: nat, k: nat, n: NodeId)
    requires j <= k <= |run|
    ensures Count(run, j, n) <= Count(run, k, n)
  {
    if j < k { CountMonotone(run, j, k - 1, n); }
  }

  /** The rank of a mutation among those of its node. */
  function Rank(run: Run, i: nat): nat
    requires IsMutation(run, i)
  {
    Count(run, i + 1, run[i].node)
  }

  // ---------------------------------------------------------------------------
  // What every step keeps
  // ---------------------------------------------------------------------------

  /** Only mutations already made are known. */
  lemma {:induction false} KnownIsPast(run: Run, k: nat, n: NodeId, i: nat)
    requires k <= |run| && Valid(run) && i in Known(run, k, n)
    ensures i < k && IsMutation(run, i)
    decreases k
  {
    assert ValidStep(run, k - 1);
    match run[k - 1]
    case Mutate(node) =>
      if i in Known(run, k - 1, n) { KnownIsPast(run, k - 1, n, i); }
    case Deliver(to, from, at) =>
      if i in Known(run, k - 1, n) { KnownIsPast(run, k - 1, n, i); } else { KnownIsPast(run, at, from, i); }
    case Write(server, ownAt, client, at) =>
      if server != n { KnownIsPast(run, k - 1, n, i); }
      else if i in Known(run, ownAt, n) { KnownIsPast(run, ownAt, n, i); }
      else { KnownIsPast(run, at, client, i); }
  }

  /** No clock runs ahead of the mutations made, and a node's own entry is never behind. */
  lemma {:induction false} EntriesBounded(run: Run, k: nat, n: NodeId, m: NodeId)
    requires k <= |run| && Valid(run)
    ensures At(ClockAt(run, k, n), m) <= Count(run, k, m)
    ensures n == m ==> At(ClockAt(run, k, n), m) == Count(run, k, m)
    decreases k
  {
    if k > 0 {
      assert ValidStep(run, k - 1);
      EntriesBounded(run, k - 1, n, m);
      match run[k - 1]
      case Mutate(_) =>
      case Deliver(to, from, at) =>
        EntriesBounded(run, at, from, m);
        CountMonotone(run, at, k - 1, m);
      case Write(server, ownAt, client, at) =>
        EntriesBounded(run, ownAt, n, m);
        EntriesBounded(run, at, client, m);
        CountMonotone(run, ownAt, k - 1, m);
        CountMonotone(run, at, k - 1, m);
        NeverMutates(run, k, server);
    }
  }

  lemma {:induction false} NeverMutates(run: Run, k: nat, n: NodeId)
    requires k <= |run| && forall j :: 0 <= j < |run| ==> run[j] != Mutate(n)
    ensures Count(run, k, n) == 0
  {
    if k > 0 { NeverMutates(run, k - 1, n); }
  }

  /**
   * The entry for a node says exactly which of that node's mutations are known: the
   * first so many of them.
   */
  lemma {:induction false} EntryDecidesKnown(run: Run, k: nat, n: NodeId, i: nat)
    requires k <= |run| && Valid(run) && i < k && IsMutation(run, i)
    ensures i in Known(run, k, n) <==> Rank(run, i) <= At(ClockAt(run, k, n), run[i].node)
    decreases k, 0
  {
    assert ValidStep(run, k - 1);
    var m := run[i].node;
    CountMonotone(run, i + 1, k, m);
    match run[k - 1]
    case Mutate(node) =>
      EntriesBounded(run, k, n, m);
      EntriesBounded(run, k - 1, n, m);
      if i < k - 1 {
        EntryDecidesKnown(run, k - 1, n, i);
        CountMonotone(run, i + 1, k - 1, m);
      } else if node != n {
        if i in Known(run, k - 1, n) { KnownIsPast(run, k - 1, n, i); }
      }
    case Deliver(to, from, at) =>
      EntryDecidesKnown(run, k - 1, n, i);
      SnapshotDecidesKnown(run, k, from, at, i);
    case Write(server, ownAt, client, at) =>
      EntryDecidesKnown(run, k - 1, n, i);
      SnapshotDecidesKnown(run, k, n, ownAt, i);
      SnapshotDecidesKnown(run, k, client, at, i);
  }

  /** The same for a snapshot that may be older than the mutation. */
  lemma {:induction false} SnapshotDecidesKnown(run: Run, k: nat, n: NodeId, at: nat, i: nat)
    requires at < k <= |run| && Valid(run) && IsMutation(run, i)
    ensures i in Known(run, at, n) <==> Rank(run, i) <= At(ClockAt(run, at, n), run[i].node)
    decreases at, 1
  {
    if i < at {
      EntryDecidesKnown(run, at, n, i);
    } else {
      if i in Known(run, at, n) { KnownIsPast(run, at, n, i); }
      EntriesBounded(run, at, n, run[i].node);
      CountMonotone(run, at, i, run[i].node);
    }
  }

  /** A node that knows of a mutation holds a clock at least as large as its stamp. */
  lemma {:induction false} KnownIsBelow(run: Run, k: nat, n: NodeId, i: nat)
    requires k <= |run| && Valid(run) && i in Known(run, k, n)
    ensures IsMutation(run, i) && Leq(Stamp(run, i), ClockAt(run, k, n))
    decreases k
  {
    KnownIsPast(run, k, n, i);
    assert ValidStep(run, k - 1);
    var c := ClockAt(run, k, n);
    match run[k - 1]
    case Mutate(node) =>
      if i in Known(run, k - 1, n) {
        KnownIsBelow(run, k - 1, n, i);
        LeqTransitive(Stamp(run, i), ClockAt(run, k - 1, n), c);
      }
    case Deliver(to, from, at) =>
      if to == n { JoinIsLeastUpperBound(ClockAt(run, k - 1, n), ClockAt(run, at, from), c); }
      if i in Known(run, k - 1, n) {
        KnownIsBelow(run, k - 1, n, i);
        LeqTransitive(Stamp(run, i), ClockAt(run, k - 1, n), c);
      } else {
        KnownIsBelow(run, at, from, i);
        LeqTransitive(Stamp(run, i), ClockAt(run, at, from), c);
      }
    case Write(server, ownAt, client, at) =>
      if server != n {
        KnownIsBelow(run, k - 1, n, i);
      } else {
        JoinIsLeastUpperBound(ClockAt(run, ownAt, n), ClockAt(run, at, client), c);
        if i in Known(run, ownAt, n) {
          KnownIsBelow(run, ownAt, n, i);
          LeqTransitive(Stamp(run, i), ClockAt(run, ownAt, n), c);
        } else {
          KnownIsBelow(run, at, client, i);
          LeqTransitive(Stamp(run, i), ClockAt(run, at, client), c);
        }
      }
  }

  // ---------------------------------------------------------------------------
  // Causality
  // ---------------------------------------------------------------------------

  /** A node knows of a mutation exactly when its clock covers the mutation's stamp. */
  lemma KnownIffCovered(run: Run, k: nat, n: NodeId, i: nat)
    requires k <= |run| && Valid(run) && IsMutation(run, i)
    ensures i in Known(run, k, n) <==> Leq(Stamp(run, i), ClockAt(run, k, n))
  {
    if i in Known(run, k, n) {
      KnownIsBelow(run, k, n, i);
    } else if Leq(Stamp(run, i), ClockAt(run, k, n)) {
      var m := run[i].node;
      EntriesBounded(run, i + 1, m, m);
      assert At(Stamp(run, i), m) <= At(ClockAt(run, k, n), m);
      if i < k {
        EntryDecidesKnown(run, k, n, i);
      } else {
        EntriesBounded(run, k, n, m);
        CountMonotone(run, k, i, m);
      }
    }
  }

  /**
   * Causality: the stamp of one mutation is before that of another exactly when the first
   * lies in the causal history of the second, and two stamps are concurrent exactly when
   * neither mutation lies in the history of the other.
   */
  lemma HappenedBeforeIsCausality(run: Run, i: nat, j: nat)
    requires Valid(run) && IsMutation(run, i) && IsMutation(run, j) && i != j
    ensures Before(Stamp(run, i), Stamp(run, j)) <==> i in History(run, j)
    ensures Concurrent(Stamp(run, i), Stamp(run, j)) <==> i !in History(run, j) && j !in History(run, i)
    ensures !Same(Stamp(run, i), Stamp(run, j))
  {
    KnownIffCovered(run, j + 1, run[j].node, i);
    KnownIffCovered(run, i + 1, run[i].node, j);
    if i in History(run, j) && j in History(run, i) {
      KnownIsPast(run, j + 1, run[j].node, i);
      KnownIsPast(run, i + 1, run[i].node, j);
    }
    SameIsBothWays(Stamp(run, i), Stamp(run, j));
  }

  /** Each entry of a clock is the number of that node's mutations known. */
  lemma EntryIsCountOfKnown(run: Run, k: nat, n: NodeId, m: NodeId)
    requires k <= |run| && Valid(run)
    ensures At(ClockAt(run, k, n), m) == CountIn(run, k, m, Known(run, k, n))
  {
    EntriesBounded(run, k, n, m);
    CountOfKnownUpTo(run, k, n, m, k);
  }

  lemma {:induction false} CountOfKnownUpTo(run: Run, k: nat, n: NodeId, m: NodeId, j: nat)
    requires j <= k <= |run| && Valid(run)
    ensures CountIn(run, j, m, Known(run, k, n))
         == if Count(run, j, m) <= At(ClockAt(run, k, n), m) then Count(run, j, m) else At(ClockAt(run, k, n), m)
  {
    if j > 0 {
      CountOfKnownUpTo(run, k, n, m, j - 1);
      if run[j - 1] == Mutate(m) { EntryDecidesKnown(run, k, n, j - 1); }
    }
  }

  lemma {:induction false} CountOfSubset(run: Run, j: nat, k: nat, m: NodeId, s: set<nat>, t: set<nat>)
    requires j <= |run| && k <= |run| && s <= t && forall e :: e in t ==> e < k
    ensures CountIn(run, j, m, s) <= CountIn(run, k, m, t)
    decreases j + k
  {
    if j > 0 {
      CountOfSubset(run, j - 1, k, m, s, t);
      if run[j - 1] == Mutate(m) && j - 1 in s {
        CountInMonotone(run, j, k, m, s, t);
      }
    }
  }

  lemma {:induction false} CountInMonotone(run: Run, j: nat, k: nat, m: NodeId, s: set<nat>, t: set<nat>)
    requires j <= k <= |run| && s <= t
    ensures CountIn(run, j, m, s) <= CountIn(run, k, m, t)
    decreases k
  {
    if j < k {
      CountInMonotone(run, j, k - 1, m, s, t);
    } else if j > 0 {
      CountInMonotone(run, j - 1, k - 1, m, s, t);
    }
  }

  /**
   * Comparing two clocks compares what their holders know: one clock covers another
   * exactly when everything known at the second is known at the first.
   */
  lemma KnowledgeIsClockOrder(run: Run, j: nat, n: NodeId, k: nat, m: NodeId)
    requires j <= |run| && k <= |run| && Valid(run)
    ensures Leq(ClockAt(run, j, n), ClockAt(run, k, m)) <==> Known(run, j, n) <= Known(run, k, m)
  {
    var c, d := ClockAt(run, j, n), ClockAt(run, k, m);
    if Leq(c, d) {
      forall e | e in Known(run, j, n) ensures e in Known(run, k, m) {
        KnownIsBelow(run, j, n, e);
        LeqTransitive(Stamp(run, e), c, d);
        KnownIffCovered(run, k, m, e);
      }
    }
    if Known(run, j, n) <= Known(run, k, m) {
      forall e | e in Known(run, k, m) ensures e < k { KnownIsPast(run, k, m, e); }
      forall x: NodeId ensures At(c, x) <= At(d, x) {
        EntryIsCountOfKnown(run, j, n, x);
        EntryIsCountOfKnown(run, k, m, x);
        CountOfSubset(run, j, k, x, Known(run, j, n), Known(run, k, m));
      }
    }
  }

  /**
   * With two requests in flight the server's write-back can forget: here the second write
   * starts from a clock read before the first and drops the first client's mutation.
   */
  lemma ServerCanForget()
    ensures var run: Run := [Mutate("a"), Mutate("b"), Write("server", 0, "a", 2), Write("server", 0, "b", 2)];
            && Valid(run)
            && 0 in Known(run, 3, "server") && 0 !in Known(run, 4, "server")
            && !Leq(ClockAt(run, 3, "server"), ClockAt(run, 4, "server"))
  {
    var run: Run := [Mutate("a"), Mutate("b"), Write("server", 0, "a", 2), Write("server", 0, "b", 2)];
    assert ValidStep(run, 0) && ValidStep(run, 1) && ValidStep(run, 2) && ValidStep(run, 3);
    assert Known(run, 1, "a") == {0} && Known(run, 2, "a") == {0};
    assert Known(run, 1, "b") == {} && Known(run, 2, "b") == {1};
    assert Known(run, 3, "server") == {0} && Known(run, 4, "server") == {1};
    KnowledgeIsClockOrder(run, 3, "server", 4, "server");
  }

  /** Served one request at a time, no node ever forgets a mutation. */
  lemma {:induction false} KnowledgeGrowsWithoutOverlap(run: Run, k: nat, n: NodeId)
    requires k < |run| && Valid(run)
    requires run[k].Write? ==> run[k].ownAt == k
    ensures Known(run, k, n) <= Known(run, k + 1, n)
    ensures Leq(ClockAt(run, k, n), ClockAt(run, k + 1, n))
  {
    KnowledgeIsClockOrder(run, k, n, k + 1, n);
  }

  /** The step may change the clock of `n`. */
  predicate Touches(step: Step, n: NodeId) {
    match step
    case Mutate(node) => node == n
    case Deliver(to, _, _) => to == n
    case Write(server, _, _, _) => server == n
  }

  lemma {:induction false} StandsStill(run: Run, j: nat, k: nat, n: NodeId)
    requires j <= k <= |run| && Valid(run) && forall i :: j <= i < k ==> !Touches(run[i], n)
    ensures Known(run, k, n) == Known(run, j, n) && ClockAt(run, k, n) == ClockAt(run, j, n)
  {
    if j < k { StandsStill(run, j, k - 1, n); }
  }

  /** What the two snapshots of a write-back know together. */
  ghost function Gathered(run: Run, k: nat): set<nat>
    requires k < |run| && Valid(run) && run[k].Write?
  {
    assert ValidStep(run, k);
    Known(run, run[k].ownAt, run[k].server) + Known(run, run[k].at, run[k].client)
  }

  /**
   * When a write-back keeps what the server knew. Let `j` and `k` be consecutive write-backs
   * of a server. The second loses nothing exactly when its request read the server clock
   * after the first had written it, or when its two snapshots already cover those of the
   * first.
   */
  lemma {:induction false} WriteBackForgetsNothingIff(run: Run, j: nat, k: nat)
    requires j < k < |run| && Valid(run) && run[j].Write? && run[k].Write? && run[j].server == run[k].server
    requires forall i :: j < i < k ==> !Touches(run[i], run[k].server)
    ensures var s := run[k].server;
            && (Leq(ClockAt(run, k, s), ClockAt(run, k + 1, s)) <==> run[k].ownAt > j || Gathered(run, j) <= Gathered(run, k))
            && (Known(run, k, s) <= Known(run, k + 1, s) <==> run[k].ownAt > j || Gathered(run, j) <= Gathered(run, k))
  {
    var s := run[k].server;
    assert ValidStep(run, j) && ValidStep(run, k);
    StandsStill(run, j + 1, k, s);
    if run[k].ownAt > j { StandsStill(run, j + 1, run[k].ownAt, s); }
    KnowledgeIsClockOrder(run, k, s, k + 1, s);
  }

  /** The first write-back of a server that nothing else has reached has nothing to lose. */
  lemma {:induction false} FirstWriteBackForgetsNothing(run: Run, k: nat)
    requires k < |run| && Valid(run) && run[k].Write? && forall i :: 0 <= i < k ==> !Touches(run[i], run[k].server)
    ensures Known(run, k, run[k].server) == {}
    ensures Leq(ClockAt(run, k, run[k].server), ClockAt(run, k + 1, run[k].server))
  {
    StandsStill(run, 0, k, run[k].server);
    KnowledgeIsClockOrder(run, k, run[k].server, k + 1, run[k].server);
  }

  /** Histories are closed: what a known mutation knew is known too. */
  lemma HistoryIsTransitive(run: Run, i: nat, j: nat, e: nat)
    requires Valid(run) && IsMutation(run, i) && IsMutation(run, j)
    requires e in History(run, i) && i in History(run, j)
    ensures e in History(run, j)
  {
    KnownIsPast(run, i + 1, run[i].node, e);
    KnownIffCovered(run, i + 1, run[i].node, e);
    KnownIffCovered(run, j + 1, run[j].node, i);
    KnownIffCovered(run, j + 1, run[j].node, e);
    LeqTransitive(Stamp(run, e), Stamp(run, i), Stamp(run, j));
  }
}
