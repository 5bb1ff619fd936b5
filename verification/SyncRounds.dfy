/**
 * Whole sync rounds: what the clients send, what the server stores and answers, and what
 * the clients take in (apps/mobile/lib/syncEngine.ts:203-292 and
 * server/src/handlers/sync.rs:72-141, 231-251).
 *
 * Requests are served one at a time. A request may be served any number of times, as it is
 * when answers are lost and the client tries again, and the client may give up.
 */
module SyncRounds {
  import opened VectorClocks
  import opened Options
  import opened DeltaSync

  /** A queued or stored mutation; the server keeps them apart by author. */
  datatype Entry = Entry(author: NodeId, delta: Delta)

  datatype Request = Request(clock: Clock, entries: set<Entry>)

  /** `stored` is what the store held when the answer was made; it is not sent. */
  datatype Answer = Answer(clock: Clock, entries: set<Entry>, stored: set<Entry>)

  /**
   * A client. `received` are the entries of the answers it took in; `lastStored` and
   * `beforeLast` are what the store held when the last of them, and the one before, was made.
   */
  datatype Client = Client(clock: Clock, queue: set<Entry>, pending: Option<Request>, answers: set<Answer>,
                           received: set<Entry>, lastStored: set<Entry>, beforeLast: set<Entry>)

  datatype System = System(server: Clock, store: set<Entry>, clients: map<NodeId, Client>)

  function ClientOf(sys: System, c: NodeId): Client {
    if c in sys.clients then sys.clients[c] else Client(Single(c, 0), {}, None, {}, {}, {}, {})
  }

  function With(sys: System, c: NodeId, client: Client): System { sys.(clients := sys.clients[c := client]) }

  datatype Step =
    | Queue(client: NodeId, delta: Delta)     // stamp and queue a mutation
    | Send(client: NodeId)                    // start a round with all that is queued
    | Serve(client: NodeId)                   // the server handles the pending request
    | Receive(client: NodeId, answer: Answer) // the client takes one of the answers in
    | GiveUp(client: NodeId)                  // all retries failed

  predicate Enabled(sys: System, s: Step) {
    var client := ClientOf(sys, s.client);
    match s
    case Queue(_, _) => true
    case Send(_) => client.pending == None && client.queue != {}
    case Serve(_) => client.pending.Some?
    case Receive(_, answer) => client.pending.Some? && answer in client.answers
    case GiveUp(_) => client.pending.Some?
  }

  /** The entry that queueing makes: stamped with the incremented clock. */
  function Made(client: Client, c: NodeId, delta: Delta): Entry {
    Entry(c, delta.(clock := Incremented(client.clock, c)))
  }

  ghost function AnswerTo(sys: System, request: Request): Answer {
    Answer(sys.server, (set e | e in sys.store && Sends(e.delta.clock, request.clock)), sys.store)
  }

  /** The client of the step after it. */
  ghost function NextClient(sys: System, s: Step): Client
    requires Enabled(sys, s)
  {
    var client := ClientOf(sys, s.client);
    match s
    case Queue(c, delta) =>
      client.(clock := Incremented(client.clock, c), queue := client.queue + {Made(client, c, delta)})
    case Send(_) => client.(pending := Some(Request(client.clock, client.queue)), answers := {})
    case Serve(_) => client.(answers := client.answers + {AnswerTo(sys, client.pending.value)})
    case Receive(_, answer) =>
      client.(clock := Join(client.clock, answer.clock), received := client.received + answer.entries,
              queue := {}, pending := None, answers := {}, beforeLast := client.lastStored, lastStored := answer.stored)
    case GiveUp(_) => client.(pending := None, answers := {})
  }

  /** A step that is not possible changes nothing. */
  ghost function Next(sys: System, s: Step): System {
    if !Enabled(sys, s) then sys else
    var after := With(sys, s.client, NextClient(sys, s));
    if s.Serve? then
      var request := ClientOf(sys, s.client).pending.value;
      after.(server := Join(sys.server, request.clock), store := sys.store + request.entries)
    else after
  }

  const START := System(map[], {}, map[])

  type Run = seq<Step>

  ghost function SystemAt(run: Run, k: nat): System
    requires k <= |run|
  {
    if k == 0 then START else Next(SystemAt(run, k - 1), run[k - 1])
  }

  ghost function ClientAt(run: Run, k: nat, c: NodeId): Client
    requires k <= |run|
  {
    ClientOf(SystemAt(run, k), c)
  }

  // ---------------------------------------------------------------------------
  // What every step keeps
  // ---------------------------------------------------------------------------

  ghost predicate AllLeq(entries: set<Entry>, clock: Clock) { forall e :: e in entries ==> Leq(e.delta.clock, clock) }

  ghost predicate AllBefore(entries: set<Entry>, clock: Clock) { forall e :: e in entries ==> Before(e.delta.clock, clock) }

  lemma AllLeqLater(entries: set<Entry>, a: Clock, b: Clock)
    requires AllLeq(entries, a) && Leq(a, b)
    ensures AllLeq(entries, b)
  {
    forall e | e in entries ensures Leq(e.delta.clock, b) { LeqTransitive(e.delta.clock, a, b); }
  }

  lemma AllBeforeLater(entries: set<Entry>, a: Clock, b: Clock)
    requires AllLeq(entries, a) && Before(a, b)
    ensures AllBefore(entries, b)
  {
    forall e | e in entries ensures Before(e.delta.clock, b) {
      LeqTransitive(e.delta.clock, a, b);
      if Leq(b, e.delta.clock) { LeqTransitive(b, e.delta.clock, a); }
    }
  }

  lemma IncrementIsLater(a: Clock, n: NodeId)
    ensures Before(a, Incremented(a, n))
  {
    var b := Incremented(a, n);
    forall m: NodeId ensures At(a, m) <= At(b, m) {}
    assert At(a, n) < At(b, n);
  }

  /** The server clock covers the store. */
  ghost predicate SoundServer(sys: System) { AllLeq(sys.store, sys.server) }

  ghost predicate SoundAnswer(sys: System, client: Client, a: Answer) {
    && AllLeq(a.stored, a.clock) && a.stored <= sys.store && client.lastStored <= a.entries
    && client.pending.Some?
    && (forall e :: e in a.entries <==> e in a.stored && Sends(e.delta.clock, client.pending.value.clock))
  }

  /**
   * The client's clock covers what it queued and what the store held when its last answer
   * was made; once it queues again, and in every later request, strictly.
   */
  ghost predicate SoundClient(sys: System, client: Client) {
    && AllLeq(client.queue, client.clock) && AllLeq(client.lastStored, client.clock)
    && (client.queue != {} ==> AllBefore(client.lastStored, client.clock))
    && (client.pending.Some? ==>
          AllLeq(client.pending.value.entries, client.pending.value.clock)
          && AllBefore(client.lastStored, client.pending.value.clock))
    && client.lastStored <= sys.store
    && (forall a :: a in client.answers ==> SoundAnswer(sys, client, a))
    && client.beforeLast <= client.received
  }

  ghost predicate Sound(sys: System) { SoundServer(sys) && forall c: NodeId :: SoundClient(sys, ClientOf(sys, c)) }

  lemma ServerStaysSound(sys: System, s: Step)
    requires SoundServer(sys) && SoundClient(sys, ClientOf(sys, s.client))
    ensures SoundServer(Next(sys, s))
  {
    hide Leq, Join, SoundAnswer;
    if s.Serve? && Enabled(sys, s) {
      var request := ClientOf(sys, s.client).pending.value;
      var after := Join(sys.server, request.clock);
      JoinIsLeastUpperBound(sys.server, request.clock, after);
      AllLeqLater(sys.store, sys.server, after);
      AllLeqLater(request.entries, request.clock, after);
    }
  }

  /** A client that takes no part in the step stays sound: the store only grows. */
  lemma OthersStaySound(sys: System, s: Step, client: Client)
    requires SoundClient(sys, client)
    ensures SoundClient(Next(sys, s), client)
  {
    hide AllLeq, AllBefore;
    forall a | a in client.answers ensures SoundAnswer(Next(sys, s), client, a) { assert SoundAnswer(sys, client, a); }
  }

  /** What a request strictly covers is in the answer to it. */
  lemma AnswerHoldsLast(sys: System, client: Client)
    requires SoundServer(sys) && client.pending.Some? && client.lastStored <= sys.store
    requires AllBefore(client.lastStored, client.pending.value.clock)
    ensures SoundAnswer(sys, client, AnswerTo(sys, client.pending.value))
  {
    hide Before, Leq;
  }

  lemma ClientStaysSound(sys: System, s: Step)
    requires SoundServer(sys) && Enabled(sys, s) && SoundClient(sys, ClientOf(sys, s.client))
    ensures SoundClient(sys, NextClient(sys, s))
  {
    hide Leq, Before, Join, Incremented, SoundAnswer;
    var client, after := ClientOf(sys, s.client), NextClient(sys, s);
    match s
    case Queue(c, delta) =>
      IncrementIsLater(client.clock, c);
      assert Leq(client.clock, after.clock) by { BeforeIsLeq(client.clock, after.clock); }
      AllLeqLater(client.queue, client.clock, after.clock);
      AllLeqLater(client.lastStored, client.clock, after.clock);
      AllBeforeLater(client.lastStored, client.clock, after.clock);
      assert AllLeq(after.queue, after.clock) by { ReflexiveLeq(after.clock); }
      forall a | a in after.answers ensures SoundAnswer(sys, after, a) { SameAnswer(sys, client, after, a); }
    case Send(_) =>
    case Serve(_) =>
      AnswerHoldsLast(sys, client);
      forall a | a in after.answers ensures SoundAnswer(sys, after, a) {
        assert a in client.answers ==> SoundAnswer(sys, client, a);
        SameAnswer(sys, client, after, a);
      }
    case Receive(_, answer) =>
      assert SoundAnswer(sys, client, answer);
      JoinIsLeastUpperBound(client.clock, answer.clock, after.clock);
      AnswerParts(sys, client, answer);
      AllLeqLater(answer.stored, answer.clock, after.clock);
    case GiveUp(_) =>
  }

  lemma BeforeIsLeq(a: Clock, b: Clock)
    requires Before(a, b)
    ensures Leq(a, b)
  {}

  lemma ReflexiveLeq(a: Clock)
    ensures Leq(a, a)
  {}

  lemma SameAnswer(sys: System, client: Client, after: Client, a: Answer)
    requires SoundAnswer(sys, client, a) && after.lastStored == client.lastStored && after.pending == client.pending
    ensures SoundAnswer(sys, after, a)
  {}

  lemma AnswerParts(sys: System, client: Client, a: Answer)
    requires SoundAnswer(sys, client, a)
    ensures AllLeq(a.stored, a.clock) && a.stored <= sys.store && client.lastStored <= a.entries
  {}

  lemma StepStaysSound(sys: System, s: Step)
    requires Sound(sys)
    ensures Sound(Next(sys, s))
  {
    hide SoundServer, SoundClient, NextClient, Enabled;
    var after := Next(sys, s);
    assert SoundClient(sys, ClientOf(sys, s.client));
    ServerStaysSound(sys, s);
    forall c: NodeId ensures SoundClient(after, ClientOf(after, c)) {
      if c == s.client && Enabled(sys, s) {
        ClientStaysSound(sys, s);
        OthersStaySound(sys, s, NextClient(sys, s));
      } else {
        assert SoundClient(sys, ClientOf(sys, c));
        OthersStaySound(sys, s, ClientOf(sys, c));
      }
    }
  }

  lemma StartIsSound()
    ensures Sound(START)
  {}

  lemma {:induction false} RunsAreSound(run: Run, k: nat)
    requires k <= |run|
    ensures Sound(SystemAt(run, k))
  {
    hide Sound, Next;
    if k == 0 {
      StartIsSound();
    } else {
      RunsAreSound(run, k - 1);
      StepStaysSound(SystemAt(run, k - 1), run[k - 1]);
    }
  }

  /**
   * What one answer withholds the next one brings. In every run, of what the store held when
   * the last answer that a client took in was made, every entry lies strictly before the
   * clock of the client's next request, so each answer to that request holds it; all that
   * the store held when the answer before the last was made has been received; and an answer
   * holds exactly what of the store passes the filter at the clock of its request.
   */
  lemma {:induction false} WithheldComesWithNextAnswer(run: Run, k: nat, c: NodeId)
    requires k <= |run|
    ensures var client := ClientAt(run, k, c);
            && (client.pending.Some? ==> AllBefore(client.lastStored, client.pending.value.clock))
            && (forall a :: a in client.answers ==> client.lastStored <= a.entries)
            && (forall a, e :: a in client.answers && client.pending.Some? ==>
                  (e in a.entries <==> e in a.stored && Sends(e.delta.clock, client.pending.value.clock)))
            && client.beforeLast <= client.received
  {
    RunsAreSound(run, k);
    hide SystemAt, AllLeq, AllBefore;
    assert SoundClient(SystemAt(run, k), ClientAt(run, k, c));
    forall a | a in ClientAt(run, k, c).answers
      ensures ClientAt(run, k, c).pending.Some? && ClientAt(run, k, c).lastStored <= a.entries
      ensures forall e :: e in a.entries <==> e in a.stored && Sends(e.delta.clock, ClientAt(run, k, c).pending.value.clock)
    {
      assert SoundAnswer(SystemAt(run, k), ClientAt(run, k, c), a);
    }
  }

  // ---------------------------------------------------------------------------
  // Which mutations reach the server
  // ---------------------------------------------------------------------------

  /** The entry is one of the client's, no later than its clock. */
  predicate Owns(client: Client, c: NodeId, e: Entry) {
    e.author == c && At(e.delta.clock, c) <= At(client.clock, c)
  }

  /** Clients queue and send their own entries, and an answered request has been stored. */
  ghost predicate Owned(sys: System, c: NodeId) {
    var client := ClientOf(sys, c);
    && (forall e :: e in client.queue ==> Owns(client, c, e))
    && (client.pending.Some? ==> forall e :: e in client.pending.value.entries ==> Owns(client, c, e))
    && (forall e :: e in sys.store && e.author == c ==> Owns(client, c, e))
    && (client.answers != {} ==> client.pending.Some? && client.pending.value.entries <= sys.store)
  }

  lemma OwnEntryGrows(sys: System, s: Step)
    requires Enabled(sys, s)
    ensures At(ClientOf(sys, s.client).clock, s.client) <= At(NextClient(sys, s).clock, s.client)
    ensures s.Queue? ==> At(Made(ClientOf(sys, s.client), s.client, s.delta).delta.clock, s.client)
                         == At(ClientOf(sys, s.client).clock, s.client) + 1
                         == At(NextClient(sys, s).clock, s.client)
  {}

  lemma StepStaysOwned(sys: System, s: Step, c: NodeId)
    requires Owned(sys, c) && Owned(sys, s.client)
    ensures Owned(Next(sys, s), c)
  {
    hide At, Join, Incremented;
    if Enabled(sys, s) { OwnEntryGrows(sys, s); }
  }

  lemma {:induction false} RunsAreOwned(run: Run, k: nat, c: NodeId)
    requires k <= |run|
    ensures Owned(SystemAt(run, k), c)
  {
    hide Owned, Next;
    if k == 0 {
      StartIsOwned(c);
    } else {
      RunsAreOwned(run, k - 1, c);
      RunsAreOwned(run, k - 1, run[k - 1].client);
      StepStaysOwned(SystemAt(run, k - 1), run[k - 1], c);
    }
  }

  lemma StartIsOwned(c: NodeId)
    ensures Owned(START, c)
  {}

  /** Stored, or queued and part of any request under way. */
  predicate Safe(sys: System, c: NodeId, e: Entry) {
    var client := ClientOf(sys, c);
    e in sys.store || (e in client.queue && (client.pending.Some? ==> e in client.pending.value.entries))
  }

  /** Queued while a request without it is under way. */
  predicate Waits(sys: System, c: NodeId, e: Entry) {
    var client := ClientOf(sys, c);
    Owns(client, c, e) && e !in sys.store && e in client.queue && client.pending.Some? && e !in client.pending.value.entries
  }

  /** Neither stored nor queued nor under way. */
  predicate Gone(sys: System, c: NodeId, e: Entry) {
    var client := ClientOf(sys, c);
    Owns(client, c, e) && e !in sys.store && e !in client.queue && (client.pending.Some? ==> e !in client.pending.value.entries)
  }

  lemma MadeIsSafeOrWaits(sys: System, s: Step)
    requires s.Queue? && Owned(sys, s.client)
    ensures var client := ClientOf(sys, s.client);
            var e := Made(client, s.client, s.delta);
            if client.pending == None then Safe(Next(sys, s), s.client, e) else Waits(Next(sys, s), s.client, e)
  {
    hide At, Join, Incremented;
    OwnEntryGrows(sys, s);
  }

  lemma SafeStays(sys: System, s: Step, c: NodeId, e: Entry)
    requires Safe(sys, c, e) && Owned(sys, c)
    ensures Safe(Next(sys, s), c, e)
  {
    hide At, Join, Incremented;
  }

  lemma WaitsUntilRoundEnds(sys: System, s: Step, c: NodeId, e: Entry)
    requires Enabled(sys, s) && Waits(sys, c, e) && Owned(sys, s.client)
    ensures if s.client == c && s.Receive? then Gone(Next(sys, s), c, e)
            else if s.client == c && s.GiveUp? then Safe(Next(sys, s), c, e)
            else Waits(Next(sys, s), c, e)
  {
    hide At, Join, Incremented;
    OwnEntryGrows(sys, s);
  }

  lemma GoneStays(sys: System, s: Step, c: NodeId, e: Entry)
    requires Gone(sys, c, e) && Owned(sys, s.client)
    ensures Gone(Next(sys, s), c, e)
  {
    hide At, Join, Incremented;
    if Enabled(sys, s) { OwnEntryGrows(sys, s); }
  }

  ghost predicate IsRun(run: Run) { forall k :: 0 <= k < |run| ==> Enabled(SystemAt(run, k), run[k]) }

  predicate EndsRound(s: Step, c: NodeId) { s.client == c && (s.Receive? || s.GiveUp?) }

  /** No step between `i` and `k` ends a round of `c`. */
  predicate NoneEnds(run: Run, i: nat, k: nat, c: NodeId)
    requires k <= |run|
  {
    forall m :: i < m < k ==> !EndsRound(run[m], c)
  }

  /** The first step after `i` and before `k` that ends a round of `c` takes an answer in. */
  predicate AnswerTakenFirst(run: Run, i: nat, k: nat, c: NodeId)
    requires k <= |run|
  {
    exists m :: i < m < k && EndsRound(run[m], c) && run[m].Receive? && forall l :: i < l < m ==> !EndsRound(run[l], c)
  }

  /** The entry that step `i` of the run made. */
  ghost function MadeAt(run: Run, i: nat): Entry
    requires i < |run| && run[i].Queue?
  {
    Made(ClientAt(run, i, run[i].client), run[i].client, run[i].delta)
  }

  lemma RoundOneStepOn(run: Run, i: nat, k: nat, c: NodeId)
    requires i + 1 < k <= |run|
    ensures NoneEnds(run, i, k, c) <==> NoneEnds(run, i, k - 1, c) && !EndsRound(run[k - 1], c)
    ensures AnswerTakenFirst(run, i, k, c) <==>
            AnswerTakenFirst(run, i, k - 1, c) || (NoneEnds(run, i, k - 1, c) && EndsRound(run[k - 1], c) && run[k - 1].Receive?)
    ensures AnswerTakenFirst(run, i, k - 1, c) ==> !NoneEnds(run, i, k - 1, c)
  {
    hide EndsRound;
  }

  /**
   * Where an entry of `c` made at step `i` is after `k` steps; `idle` says that no request of
   * `c` was under way at that step.
   */
  predicate Fate(run: Run, i: nat, k: nat, idle: bool, sys: System, c: NodeId, e: Entry)
    requires k <= |run|
  {
    if idle then Safe(sys, c, e)
    else if NoneEnds(run, i, k, c) then Waits(sys, c, e)
    else if AnswerTakenFirst(run, i, k, c) then Gone(sys, c, e)
    else Safe(sys, c, e)
  }

  lemma FateOneStepOn(run: Run, i: nat, k: nat, idle: bool, sys: System, c: NodeId, e: Entry)
    requires i + 1 < k <= |run| && Enabled(sys, run[k - 1]) && Owned(sys, c) && Owned(sys, run[k - 1].client)
    requires Fate(run, i, k - 1, idle, sys, c, e)
    ensures Fate(run, i, k, idle, Next(sys, run[k - 1]), c, e)
  {
    RoundOneStepOn(run, i, k, c);
    hide Safe, Waits, Gone, Owned, Next, Enabled, NoneEnds, AnswerTakenFirst;
    var s := run[k - 1];
    if idle {
      SafeStays(sys, s, c, e);
    } else if NoneEnds(run, i, k - 1, c) {
      WaitsUntilRoundEnds(sys, s, c, e);
    } else if AnswerTakenFirst(run, i, k - 1, c) {
      GoneStays(sys, s, c, e);
    } else {
      SafeStays(sys, s, c, e);
    }
  }

  lemma FateAtFirst(run: Run, i: nat, sys: System)
    requires i < |run| && run[i].Queue? && Owned(sys, run[i].client)
    ensures var c, client := run[i].client, ClientOf(sys, run[i].client);
            Fate(run, i, i + 1, client.pending == None, Next(sys, run[i]), c, Made(client, c, run[i].delta))
  {
    hide Safe, Waits, Owned, Next, Made;
    MadeIsSafeOrWaits(sys, run[i]);
  }

  lemma {:induction false} WhereMadeEntryIs(run: Run, i: nat, k: nat)
    requires IsRun(run) && i < k <= |run| && run[i].Queue?
    ensures var c := run[i].client;
            Fate(run, i, k, ClientAt(run, i, c).pending == None, SystemAt(run, k), c, MadeAt(run, i))
    decreases k
  {
    hide Fate, Owned, Next, Made, Enabled;
    var c, sys := run[i].client, SystemAt(run, k - 1);
    RunsAreOwned(run, k - 1, c);
    if k == i + 1 {
      FateAtFirst(run, i, sys);
    } else {
      RunsAreOwned(run, k - 1, run[k - 1].client);
      assert Enabled(sys, run[k - 1]);
      WhereMadeEntryIs(run, i, k - 1);
      FateOneStepOn(run, i, k, ClientAt(run, i, c).pending == None, sys, c, MadeAt(run, i));
    }
  }

  /**
   * Taking an answer in empties the whole queue, not just what the request held. So a queued
   * mutation is still queued or stored, at every later point of every run, exactly unless it
   * was queued while a request was under way and that round ended by taking an answer in.
   */
  lemma {:induction false} MutationIsKeptIff(run: Run, i: nat, k: nat)
    requires IsRun(run) && i < k <= |run| && run[i].Queue?
    ensures var c, e := run[i].client, MadeAt(run, i);
            e in SystemAt(run, k).store || e in ClientAt(run, k, c).queue
            <==> ClientAt(run, i, c).pending == None || !AnswerTakenFirst(run, i, k, c)
  {
    hide SystemAt, Made, Owns;
    WhereMadeEntryIs(run, i, k);
  }

  /** Queued while the first request was under way, the second mutation is lost. */
  lemma MutationDuringRoundIsLost(c: NodeId, first: Delta, second: Delta)
    ensures var run := [Queue(c, first), Send(c), Serve(c), Queue(c, second), Receive(c, Answer(map[], {}, {}))];
            IsRun(run) && MadeAt(run, 3) !in SystemAt(run, 5).store && MadeAt(run, 3) !in ClientAt(run, 5, c).queue
  {
    var run := [Queue(c, first), Send(c), Serve(c), Queue(c, second), Receive(c, Answer(map[], {}, {}))];
    FirstRound(c, first, second);
    hide SystemAt, Made, Enabled;
    assert EndsRound(run[4], c);
    assert AnswerTakenFirst(run, 3, 5, c);
    MutationIsKeptIff(run, 3, 5);
  }

  lemma FirstRound(c: NodeId, first: Delta, second: Delta)
    ensures var run := [Queue(c, first), Send(c), Serve(c), Queue(c, second), Receive(c, Answer(map[], {}, {}))];
            IsRun(run) && ClientAt(run, 3, c).pending.Some?
  {
    hide Join, Incremented, Sends;
    var run := [Queue(c, first), Send(c), Serve(c), Queue(c, second), Receive(c, Answer(map[], {}, {}))];
    var s1 := Next(START, run[0]);
    var s2 := Next(s1, run[1]);
    var s3 := Next(s2, run[2]);
    var s4 := Next(s3, run[3]);
    assert SystemAt(run, 1) == s1 && SystemAt(run, 2) == s2 && SystemAt(run, 3) == s3 && SystemAt(run, 4) == s4;
    assert ClientOf(s1, c).queue != {} && ClientOf(s2, c).pending.Some?;
    assert s2.server == map[] && s2.store == {};
    assert AnswerTo(s2, ClientOf(s2, c).pending.value) == Answer(map[], {}, {});
    assert Answer(map[], {}, {}) in ClientOf(s4, c).answers;
  }
}
