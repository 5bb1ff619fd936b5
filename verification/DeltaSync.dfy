/**
 * The sync endpoint and its client: which stored mutations a request gets back
 * (server/src/handlers/sync.rs), and the clock steps of the client engine
 * (apps/mobile/lib/syncEngine.ts).
 */
module DeltaSync {
  import opened VectorClocks
  import opened Causality

  /** A stored mutation with the clock it was stamped with. */
  datatype Delta = Delta(id: string, entityType: string, entityId: string, operation: string,
                         value: string, clock: Clock, timestamp: int)

  type DeltaStore = map<NodeId, seq<Delta>>

  /** The filter of the endpoint: before or concurrent with the client's clock. */
  ghost predicate Sends(delta: Clock, client: Clock) {
    Before(delta, client) || Concurrent(delta, client)
  }

  /** The stored deltas of one node that pass the filter, in stored order. */
  ghost function Selected(deltas: seq<Delta>, client: Clock): seq<Delta> {
    if deltas == [] then []
    else
      var last := deltas[|deltas| - 1];
      Selected(deltas[..|deltas| - 1], client) + if Sends(last.clock, client) then [last] else []
  }

  /** The selections of several nodes, one after the other. */
  ghost function SelectedOf(store: DeltaStore, order: seq<NodeId>, client: Clock): seq<Delta>
    requires forall n :: n in order ==> n in store
  {
    if order == [] then []
    else
      var last := order[|order| - 1];
      SelectedOf(store, order[..|order| - 1], client) + Selected(store[last], client)
  }

  ghost predicate Distinct<T>(s: seq<T>) { forall i, j :: 0 <= i < j < |s| ==> s[i] != s[j] }

  /** `order` names every node of the store once. */
  ghost predicate Enumerates(order: seq<NodeId>, store: DeltaStore) {
    Distinct(order) && forall n :: n in order <==> n in store
  }

  /** The inner loop, over the deltas of one node. */
  method AppendSelected(prefix: seq<Delta>, deltas: seq<Delta>, client: Clock) returns (out: seq<Delta>)
    ensures out == prefix + Selected(deltas, client)
  {
    out := prefix;
    for i := 0 to |deltas|
      invariant out == prefix + Selected(deltas[..i], client)
    {
      assert deltas[..i + 1][..i] == deltas[..i];
      var hb := HappenedBefore(deltas[i].clock, client);
      var co := IsConcurrent(deltas[i].clock, client);
      if hb || co {
        out := out + [deltas[i]];
      }
    }
    assert deltas[..|deltas|] == deltas;
  }

  /**
   * Collects what a client with the given clock is sent: every node's selection once, in
   * whichever order the hash map yields the nodes.
   */
  method ComputeServerDeltas(store: DeltaStore, client: Clock) returns (out: seq<Delta>)
    ensures exists order :: Enumerates(order, store) && out == SelectedOf(store, order, client)
  {
    out := [];
    ghost var order: seq<NodeId> := [];
    var rest := store.Keys;
    while rest != {}
      invariant rest <= store.Keys
      invariant Distinct(order) && forall n :: n in order <==> n in store && n !in rest
      invariant out == SelectedOf(store, order, client)
      decreases rest
    {
      var n :| n in rest;
      out := AppendSelected(out, store[n], client);
      ghost var earlier := order;
      order := order + [n];
      assert order[..|order| - 1] == earlier;
      rest := rest - {n};
    }
    assert Enumerates(order, store);
  }

  /** A selection holds exactly the stored deltas that pass the filter. */
  lemma {:induction false} SelectedExactly(deltas: seq<Delta>, client: Clock, d: Delta)
    ensures d in Selected(deltas, client) <==> d in deltas && Sends(d.clock, client)
  {
    if deltas != [] {
      var init := deltas[..|deltas| - 1];
      SelectedExactly(init, client, d);
      assert deltas == init + [deltas[|deltas| - 1]];
    }
  }

  /** `at` lists, in ascending order, the positions whose clock passes the filter. */
  ghost predicate ArePositions(at: seq<nat>, deltas: seq<Delta>, client: Clock) {
    && (forall i, j :: 0 <= i < j < |at| ==> at[i] < at[j])
    && (forall p: nat :: p in at <==> p < |deltas| && Sends(deltas[p].clock, client))
  }

  ghost predicate ReadsAt(selected: seq<Delta>, deltas: seq<Delta>, at: seq<nat>) {
    |at| == |selected| && forall i :: 0 <= i < |at| ==> at[i] < |deltas| && selected[i] == deltas[at[i]]
  }

  lemma PositionsOneMore(at: seq<nat>, deltas: seq<Delta>, d: Delta, client: Clock)
    requires ArePositions(at, deltas, client)
    ensures ArePositions(at + if Sends(d.clock, client) then [|deltas|] else [], deltas + [d], client)
  {
    hide Sends;
    var all, more := deltas + [d], at + if Sends(d.clock, client) then [|deltas|] else [];
    forall i | 0 <= i < |at| ensures at[i] < |deltas| { assert at[i] in at; }
    forall p: nat ensures p in more <==> p < |all| && Sends(all[p].clock, client) {
      assert p in more <==> p in at || (p == |deltas| && Sends(d.clock, client));
      if p < |deltas| { assert all[p] == deltas[p]; }
    }
  }

  /**
   * A selection keeps order and repetition: its entries are the stored deltas at exactly the
   * positions whose clock passes the filter, each position once, in ascending order.
   */
  lemma {:induction false} SelectedPositions(deltas: seq<Delta>, client: Clock) returns (at: seq<nat>)
    ensures ArePositions(at, deltas, client) && ReadsAt(Selected(deltas, client), deltas, at)
  {
    hide Sends, ArePositions;
    at := [];
    if deltas == [] {
      NoPositions(client);
    } else {
      var init, last := deltas[..|deltas| - 1], deltas[|deltas| - 1];
      at := SelectedPositions(init, client);
      PositionsOneMore(at, init, last, client);
      assert deltas == init + [last];
      at := at + if Sends(last.clock, client) then [|init|] else [];
    }
  }

  lemma NoPositions(client: Clock)
    ensures ArePositions([], [], client)
  {}

  /** All stored deltas of the nodes, one node after the other. */
  function StoredOf(store: DeltaStore, order: seq<NodeId>): seq<Delta>
    requires forall n :: n in order ==> n in store
  {
    if order == [] then [] else StoredOf(store, order[..|order| - 1]) + store[order[|order| - 1]]
  }

  lemma {:induction false} SelectedConcat(a: seq<Delta>, b: seq<Delta>, client: Clock)
    ensures Selected(a + b, client) == Selected(a, client) + Selected(b, client)
  {
    if b == [] {
      assert a + b == a;
    } else {
      assert (a + b)[..|a + b| - 1] == a + b[..|b| - 1];
      SelectedConcat(a, b[..|b| - 1], client);
    }
  }

  /** The returned list is one selection, with its order and repetition, of all that is stored. */
  lemma {:induction false} ReturnedIsSelection(store: DeltaStore, order: seq<NodeId>, client: Clock)
    requires forall n :: n in order ==> n in store
    ensures SelectedOf(store, order, client) == Selected(StoredOf(store, order), client)
  {
    if order != [] {
      var init, last := order[..|order| - 1], order[|order| - 1];
      ReturnedIsSelection(store, init, client);
      SelectedConcat(StoredOf(store, init), store[last], client);
    }
  }

  // ---------------------------------------------------------------------------
  // What the filter misses
  // ---------------------------------------------------------------------------

  /**
   * The endpoint means to return the deltas the client has not seen. It does so for a
   * given delta exactly when neither clock is strictly before the other; an unseen delta
   * is sent only when concurrent, and a seen one is sent again unless the clocks agree.
   */
  lemma FilterMatchesUnseenExactly(run: Run, k: nat, client: NodeId, i: nat)
    requires k <= |run| && Valid(run) && IsMutation(run, i)
    ensures var d, c := Stamp(run, i), ClockAt(run, k, client);
            && ((Sends(d, c) <==> i !in Known(run, k, client)) <==> Order(d, c) == 0)
            && (i !in Known(run, k, client) ==> (Sends(d, c) <==> !Before(c, d)))
            && (i in Known(run, k, client) ==> (Sends(d, c) <==> !Same(d, c)))
  {
    KnownIffCovered(run, k, client, i);
    SameIsBothWays(Stamp(run, i), ClockAt(run, k, client));
  }

  /**
   * A client is skipped exactly when the unseen mutation already knew everything the
   * client knows.
   */
  lemma SkippedExactlyWhenClientIsInHistory(run: Run, k: nat, client: NodeId, i: nat)
    requires k <= |run| && Valid(run) && IsMutation(run, i) && i !in Known(run, k, client)
    ensures !Sends(Stamp(run, i), ClockAt(run, k, client)) <==> Known(run, k, client) <= History(run, i)
  {
    FilterMatchesUnseenExactly(run, k, client, i);
    KnownIffCovered(run, k, client, i);
    KnowledgeIsClockOrder(run, k, client, i + 1, run[i].node);
  }

  /** What the endpoint returns, node by node, holds exactly the stored deltas that pass the filter. */
  lemma {:induction false} ReturnedExactly(store: DeltaStore, order: seq<NodeId>, client: Clock, d: Delta)
    requires forall n :: n in order ==> n in store
    ensures d in SelectedOf(store, order, client) <==> exists n :: n in order && d in store[n] && Sends(d.clock, client)
  {
    if order != [] {
      var init, last := order[..|order| - 1], order[|order| - 1];
      assert order == init + [last];
      ReturnedExactly(store, init, client, d);
      SelectedExactly(store[last], client, d);
    }
  }

  /** Every stored delta carries the stamp of a mutation of the run. */
  ghost predicate Stamped(run: Run, store: DeltaStore)
    requires Valid(run)
  {
    forall n, d :: n in store && d in store[n] ==> exists i: nat :: IsMutation(run, i) && d.clock == Stamp(run, i)
  }

  /** A client that has just joined knows nothing, so the endpoint returns an empty list. */
  lemma FreshClientGetsNothing(run: Run, k: nat, client: NodeId, store: DeltaStore, order: seq<NodeId>)
    requires k <= |run| && Valid(run) && Known(run, k, client) == {}
    requires Stamped(run, store) && Enumerates(order, store)
    ensures SelectedOf(store, order, ClockAt(run, k, client)) == []
  {
    hide Sends, Valid;
    var c := ClockAt(run, k, client);
    var out := SelectedOf(store, order, c);
    if out != [] {
      ReturnedExactly(store, order, c, out[0]);
      var i: nat :| IsMutation(run, i) && out[0].clock == Stamp(run, i);
      SkippedExactlyWhenClientIsInHistory(run, k, client, i);
    }
  }

  /**
   * A retry after a lost response. The tablet pushes a mutation and the answer is lost; the
   * phone hears of it and pushes one of its own; the tablet asks again with the same clock.
   * The endpoint does not return the phone's mutation.
   */
  lemma UnseenDeltaIsMissed(store: DeltaStore, order: seq<NodeId>, d: Delta)
    requires Enumerates(order, store)
    ensures var run: Run := [Mutate("tablet"), Write("server", 0, "tablet", 1), Deliver("phone", "server", 2),
                             Mutate("phone"), Write("server", 2, "phone", 4)];
            && Valid(run) && IsMutation(run, 3)
            && 3 in Known(run, 5, "server") && 3 !in Known(run, 5, "tablet")
            && (d.clock == Stamp(run, 3) ==> d !in SelectedOf(store, order, ClockAt(run, 5, "tablet")))
  {
    var run: Run := [Mutate("tablet"), Write("server", 0, "tablet", 1), Deliver("phone", "server", 2),
                     Mutate("phone"), Write("server", 2, "phone", 4)];
    assert ValidStep(run, 0) && ValidStep(run, 1) && ValidStep(run, 2) && ValidStep(run, 3) && ValidStep(run, 4);
    assert Known(run, 1, "tablet") == {0} && Known(run, 2, "tablet") == {0} && Known(run, 3, "tablet") == {0};
    assert Known(run, 4, "tablet") == {0} && Known(run, 5, "tablet") == {0};
    assert Known(run, 2, "server") == {0};
    assert Known(run, 2, "phone") == {} && Known(run, 3, "phone") == {0} && Known(run, 4, "phone") == {0, 3};
    assert Known(run, 5, "server") == {0, 3};
    SkippedExactlyWhenClientIsInHistory(run, 5, "tablet", 3);
    ReturnedExactly(store, order, ClockAt(run, 5, "tablet"), d);
  }

  // ---------------------------------------------------------------------------
  // The clock steps in place
  // ---------------------------------------------------------------------------

  /** The client engine: only its clock. */
  class SyncEngine {
    const nodeId: NodeId
    var localVectorClock: Clock

    constructor (nodeId: NodeId)
      ensures this.nodeId == nodeId && localVectorClock == Single(nodeId, 0)
    {
      this.nodeId := nodeId;
      localVectorClock := Single(nodeId, 0);
    }

    /** Queues a mutation: the returned stamp is the clock with the own entry advanced. */
    method QueueMutation() returns (stamp: Clock)
      modifies this
      ensures localVectorClock == stamp == Incremented(old(localVectorClock), nodeId)
      ensures Before(old(localVectorClock), stamp)
    {
      var clock := new VectorClock(nodeId, 0);
      clock.counters := localVectorClock;
      clock.Increment(nodeId);
      localVectorClock := clock.counters;
      stamp := localVectorClock;
    }

    /** Joins the server clock of a response into the local one. */
    method ProcessSyncResponse(serverVectorClock: Clock)
      modifies this
      ensures localVectorClock == Join(old(localVectorClock), serverVectorClock)
    {
      localVectorClock := Merge(localVectorClock, serverVectorClock);
    }
  }

  /** The server side of the exchange, one request at a time. */
  class SyncState {
    var serverVectorClock: Clock

    constructor ()
      ensures serverVectorClock == map[]
    {
      serverVectorClock := map[];
    }

    /** Answers with the clock before the request and stores the join with the client's. */
    method Exchange(client: Clock) returns (server: Clock, merged: Clock)
      modifies this
      ensures server == old(serverVectorClock)
      ensures merged == serverVectorClock == Join(old(serverVectorClock), client)
    {
      server := serverVectorClock;
      merged := Merge(server, client);
      serverVectorClock := merged;
    }
  }
}
