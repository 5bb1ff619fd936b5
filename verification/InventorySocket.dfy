/**
 * The reconnecting socket of apps/mobile/utils/websocket.ts, with callbacks that do not
 * call back into it.
 *
 * The environment is part of the state: which sockets are open or opening, and which
 * timers are pending. Whether creating a socket throws is decided from outside.
 */
module InventorySockets {
  import opened Options

  const INITIAL_RECONNECT_DELAY_MS := 1000
  const MAX_RECONNECT_DELAY_MS := 30000

  datatype Status = Idle | Connecting | Connected | Reconnecting | Closed

  function Pow2(n: nat): nat { if n == 0 then 1 else 2 * Pow2(n - 1) }

  /** The delay before a reconnect attempt, counted from zero. */
  function BackoffDelay(attempt: int): int {
    var exponential := INITIAL_RECONNECT_DELAY_MS * Pow2(if attempt < 0 then 0 else attempt);
    if exponential < MAX_RECONNECT_DELAY_MS then exponential else MAX_RECONNECT_DELAY_MS
  }

  /** One, two, four, eight and sixteen seconds, then half a minute for good. */
  lemma {:induction false} BackoffSchedule(attempt: nat)
    ensures BackoffDelay(attempt) == if attempt == 0 then 1000 else if attempt == 1 then 2000 else if attempt == 2 then 4000
                                     else if attempt == 3 then 8000 else if attempt == 4 then 16000 else 30000
  {
    assert Pow2(1) == 2 && Pow2(2) == 4 && Pow2(3) == 8 && Pow2(4) == 16 && Pow2(5) == 32;
    if attempt > 5 { PowGrows(5, attempt); }
  }

  lemma {:induction false} PowGrows(m: nat, n: nat)
    requires m <= n
    ensures Pow2(m) <= Pow2(n)
  {
    if m < n { PowGrows(m, n - 1); }
  }

  /** The fields of the object, and the environment's live sockets, timers and record of delays. */
  datatype State = State(
    socket: Option<nat>, status: Status, reconnectAttempt: nat, reconnectTimer: Option<nat>, manuallyClosed: bool,
    live: set<nat>, timers: set<nat>, nextId: nat, delays: seq<int>, everConnected: bool)

  const FRESH := State(None, Idle, 0, None, false, {}, {}, 0, [], false)

  function ScheduledReconnect(s: State): State {
    if s.manuallyClosed || s.reconnectTimer.Some? then s
    else s.(reconnectAttempt := s.reconnectAttempt + 1, status := Reconnecting, reconnectTimer := Some(s.nextId),
            timers := s.timers + {s.nextId}, nextId := s.nextId + 1, delays := s.delays + [BackoffDelay(s.reconnectAttempt)])
  }

  function AfterConnect(s: State, works: bool): State {
    var t := s.(everConnected := true);
    if s.socket.Some? || s.manuallyClosed then t else
    var u := t.(status := if s.reconnectAttempt == 0 then Connecting else Reconnecting);
    if works then u.(socket := Some(s.nextId), live := s.live + {s.nextId}, nextId := s.nextId + 1)
    else ScheduledReconnect(u)
  }

  function AfterOpen(s: State): State { s.(reconnectAttempt := 0, status := Connected, delays := []) }

  function AfterDrop(s: State, id: nat): State {
    var t := s.(socket := None, live := s.live - {id});
    if s.manuallyClosed then t.(status := Closed) else ScheduledReconnect(t)
  }

  function AfterTimer(s: State, id: nat, works: bool): State {
    AfterConnect(s.(reconnectTimer := None, timers := s.timers - {id}), works)
  }

  function AfterClose(s: State): State {
    s.(manuallyClosed := true, status := Closed, socket := None, reconnectTimer := None,
       timers := if s.reconnectTimer.Some? then s.timers - {s.reconnectTimer.value} else s.timers,
       live := if s.socket.Some? then s.live - {s.socket.value} else s.live)
  }

  class InventorySocket {
    var socket: Option<nat>
    var status: Status
    var reconnectAttempt: nat
    var reconnectTimer: Option<nat>
    var manuallyClosed: bool
    ghost var live: set<nat>
    ghost var timers: set<nat>
    var nextId: nat
    ghost var delays: seq<int>
    ghost var everConnected: bool

    ghost function View(): State
      reads this
    {
      State(socket, status, reconnectAttempt, reconnectTimer, manuallyClosed, live, timers, nextId, delays, everConnected)
    }

    constructor ()
      ensures View() == FRESH
    {
      socket, status, reconnectAttempt, reconnectTimer, manuallyClosed := None, Idle, 0, None, false;
      live, timers, nextId, delays, everConnected := {}, {}, 0, [], false;
    }

    /** `works` says whether creating the socket succeeds or throws. */
    method Connect(works: bool)
      modifies this
      ensures View() == AfterConnect(old(View()), works)
      ensures old(socket).Some? || old(manuallyClosed) ==> socket == old(socket) && status == old(status) && timers == old(timers)
      ensures old(socket) == None && !old(manuallyClosed) && works ==>
                socket == Some(old(nextId)) && timers == old(timers)
                && status == if old(reconnectAttempt) == 0 then Connecting else Reconnecting
      ensures old(socket) == None && !old(manuallyClosed) && !works ==>
                socket == None && reconnectTimer.Some?
    {
      everConnected := true;
      if socket.Some? || manuallyClosed {
        return;
      }
      status := if reconnectAttempt == 0 then Connecting else Reconnecting;
      if !works {
        ScheduleReconnect();
        return;
      }
      socket, live, nextId := Some(nextId), live + {nextId}, nextId + 1;
    }

    method OnOpen()
      modifies this
      ensures View() == AfterOpen(old(View()))
      ensures reconnectAttempt == 0 && status == Connected && socket == old(socket) && timers == old(timers)
    {
      reconnectAttempt := 0;
      status := Connected;
      delays := [];
    }

    /** The socket `id` was closed from the other side or by a failure. */
    method OnClose(id: nat)
      modifies this
      ensures View() == AfterDrop(old(View()), id)
      ensures socket == None && live == old(live) - {id}
      ensures old(manuallyClosed) ==> status == Closed && timers == old(timers)
      ensures !old(manuallyClosed) && old(reconnectTimer) == None ==> status == Reconnecting && reconnectTimer.Some?
    {
      live := live - {id};
      socket := None;
      if manuallyClosed {
        status := Closed;
        return;
      }
      ScheduleReconnect();
    }

    method ScheduleReconnect()
      modifies this
      ensures View() == ScheduledReconnect(old(View()))
    {
      if manuallyClosed || reconnectTimer.Some? {
        return;
      }
      var delay := BackoffDelay(reconnectAttempt);
      reconnectAttempt := reconnectAttempt + 1;
      status := Reconnecting;
      reconnectTimer, timers, nextId, delays := Some(nextId), timers + {nextId}, nextId + 1, delays + [delay];
    }

    method OnTimer(id: nat, works: bool)
      modifies this
      ensures View() == AfterTimer(old(View()), id, works)
    {
      timers := timers - {id};
      reconnectTimer := None;
      Connect(works);
    }

    method Close()
      modifies this
      ensures View() == AfterClose(old(View()))
      ensures manuallyClosed && status == Closed && socket == None && reconnectTimer == None
    {
      manuallyClosed := true;
      if reconnectTimer.Some? {
        timers := timers - {reconnectTimer.value};
        reconnectTimer := None;
      }
      if socket.Some? {
        live := live - {socket.value};
        socket := None;
      }
      status := Closed;
    }
  }

  // ---------------------------------------------------------------------------
  // Runs
  // ---------------------------------------------------------------------------

  datatype Event =
    | Connect(works: bool)
    | Open(id: nat)               // a live socket reports that it is open
    | Drop(id: nat)               // a live socket reports that it is closed
    | Timer(id: nat, works: bool) // a pending timer fires
    | Close

  /** Only live sockets report and only pending timers fire. */
  predicate Enabled(s: State, e: Event) {
    match e
    case Open(id) => id in s.live
    case Drop(id) => id in s.live
    case Timer(id, _) => id in s.timers
    case _ => true
  }

  function Next(s: State, e: Event): State {
    match e
    case Connect(works) => AfterConnect(s, works)
    case Open(_) => AfterOpen(s)
    case Drop(id) => AfterDrop(s, id)
    case Timer(id, works) => AfterTimer(s, id, works)
    case Close => AfterClose(s)
  }

  function After(events: seq<Event>): State {
    if events == [] then FRESH else Next(After(events[..|events| - 1]), events[|events| - 1])
  }

  predicate IsRun(events: seq<Event>) {
    events == [] || (IsRun(events[..|events| - 1]) && Enabled(After(events[..|events| - 1]), events[|events| - 1]))
  }

  function AsSet(x: Option<nat>): set<nat> { if x.Some? then {x.value} else {} }

  /** What holds in every reachable state. */
  predicate Sound(s: State) {
    && s.live == AsSet(s.socket) && s.timers == AsSet(s.reconnectTimer)
    && (forall id :: id in s.live + s.timers ==> id < s.nextId)
    && (s.everConnected && !s.manuallyClosed ==> s.socket.Some? || s.reconnectTimer.Some?)
    && (!s.everConnected ==> s.socket == None && s.reconnectTimer == None)
    && (s.manuallyClosed ==> s.socket == None && s.reconnectTimer == None && s.status == Closed)
    && s.reconnectAttempt == |s.delays|
    && (forall k :: 0 <= k < |s.delays| ==> s.delays[k] == BackoffDelay(k))
  }

  /** Sound but for the lack of both socket and timer, which scheduling then repairs. */
  predicate SoundLoose(s: State) {
    && s.live == AsSet(s.socket) && s.timers == AsSet(s.reconnectTimer)
    && (forall id :: id in s.live + s.timers ==> id < s.nextId)
    && s.everConnected && !s.manuallyClosed
    && s.reconnectAttempt == |s.delays|
    && (forall k :: 0 <= k < |s.delays| ==> s.delays[k] == BackoffDelay(k))
  }

  lemma ScheduleIsSound(s: State)
    requires SoundLoose(s)
    ensures Sound(ScheduledReconnect(s))
  {
    hide BackoffDelay;
    var t := ScheduledReconnect(s);
    if s.reconnectTimer == None {
      assert t.timers == {s.nextId};
      forall id | id in t.live + t.timers ensures id < t.nextId { assert id in s.live + s.timers || id == s.nextId; }
    }
  }

  lemma ConnectIsSound(s: State, works: bool)
    requires SoundLoose(s.(everConnected := true)) || Sound(s)
    ensures Sound(AfterConnect(s, works))
  {
    hide BackoffDelay;
    if s.socket == None && !s.manuallyClosed {
      var u := s.(everConnected := true, status := if s.reconnectAttempt == 0 then Connecting else Reconnecting);
      if works {
        var t := AfterConnect(s, works);
        assert t.live == {s.nextId};
        forall id | id in t.live + t.timers ensures id < t.nextId { assert id in s.live + s.timers || id == s.nextId; }
      } else {
        ScheduleIsSound(u);
      }
    }
  }

  lemma SoundIsKept(s: State, e: Event)
    requires Sound(s) && Enabled(s, e)
    ensures Sound(Next(s, e))
  {
    hide BackoffDelay, AfterConnect, ScheduledReconnect;
    match e
    case Connect(works) => ConnectIsSound(s, works);
    case Open(_) =>
    case Drop(id) =>
      assert s.live - {id} == {};
      forall x | x in s.timers ensures x < s.nextId { assert x in s.live + s.timers; }
      ScheduleIsSound(s.(socket := None, live := {}));
    case Timer(id, works) =>
      assert s.timers - {id} == {};
      forall x | x in s.live ensures x < s.nextId { assert x in s.live + s.timers; }
      ConnectIsSound(s.(reconnectTimer := None, timers := {}), works);
    case Close =>
  }

  /**
   * In every reachable state there is at most one live socket and it is the one held, at
   * most one pending timer and it is the one held; after the first connect and before
   * close there is one or the other; and the delays scheduled since the last successful
   * open are the backoff schedule from its start.
   */
  lemma {:induction false} RunsAreSound(events: seq<Event>)
    requires IsRun(events)
    ensures Sound(After(events))
    ensures |After(events).live| <= 1 && |After(events).timers| <= 1
  {
    hide Sound, Next;
    if events == [] {
      assert Sound(FRESH) by { FreshIsSound(); }
    } else {
      RunsAreSound(events[..|events| - 1]);
      SoundIsKept(After(events[..|events| - 1]), events[|events| - 1]);
    }
    AtMostOne(After(events));
  }

  lemma FreshIsSound()
    ensures Sound(FRESH)
  {}

  lemma AtMostOne(s: State)
    requires Sound(s)
    ensures |s.live| <= 1 && |s.timers| <= 1
  {}

  /** Closing is final: nothing is opened or scheduled again and the status stays closed. */
  lemma {:induction false} ClosedIsFinal(before: seq<Event>, after: seq<Event>)
    requires IsRun(before + after) && After(before).manuallyClosed
    ensures var s := After(before + after);
            s.manuallyClosed && s.status == Closed && s.live == {} && s.timers == {} && s.nextId == After(before).nextId
  {
    RunPrefix(before, after);
    RunsAreSound(before);
    if after == [] {
      assert before + after == before;
    } else {
      var init := after[..|after| - 1];
      assert (before + after)[..|before + after| - 1] == before + init;
      ClosedIsFinal(before, init);
      RunsAreSound(before + init);
    }
  }

  lemma {:induction false} RunPrefix(before: seq<Event>, after: seq<Event>)
    requires IsRun(before + after)
    ensures IsRun(before)
  {
    if after == [] {
      assert before + after == before;
    } else {
      assert (before + after)[..|before + after| - 1] == before + after[..|after| - 1];
      RunPrefix(before, after[..|after| - 1]);
    }
  }

  /** How many timers were set since the last open, read off the events. */
  function Retries(events: seq<Event>): nat {
    if events == [] || events[|events| - 1].Open? then 0 else
    var init := events[..|events| - 1];
    Retries(init) + if After(events).reconnectTimer.Some? && After(events).reconnectTimer != After(init).reconnectTimer then 1 else 0
  }

  /** The recorded delays are those of the timers set since the last open, and so is the attempt count. */
  lemma {:induction false} DelaysCountRetries(events: seq<Event>)
    requires IsRun(events)
    ensures |After(events).delays| == After(events).reconnectAttempt == Retries(events)
  {
    RunsAreSound(events);
    if events != [] {
      DelaysCountRetries(events[..|events| - 1]);
      RunsAreSound(events[..|events| - 1]);
      if !events[|events| - 1].Open? { TimerOnlyWithDelay(After(events[..|events| - 1]), events[|events| - 1]); }
    }
  }

  lemma TimerOnlyWithDelay(s: State, e: Event)
    requires Sound(s) && Enabled(s, e) && !e.Open?
    ensures var t := Next(s, e);
            |t.delays| == |s.delays| + if t.reconnectTimer.Some? && t.reconnectTimer != s.reconnectTimer then 1 else 0
  {
    hide BackoffDelay;
    if s.reconnectTimer.Some? { assert s.reconnectTimer.value in s.live + s.timers; }
  }

  /** A drop right after an open waits one second, however many retries came before. */
  lemma OpenStartsOver(events: seq<Event>, id: nat)
    requires IsRun(events + [Open(id), Drop(id)]) && After(events).reconnectTimer == None
    ensures After(events + [Open(id), Drop(id)]).delays == [1000]
  {
    var first := events + [Open(id)];
    assert events + [Open(id), Drop(id)] == first + [Drop(id)];
    RunStep(events, Open(id));
    RunStep(first, Drop(id));
    RunsAreSound(first + [Drop(id)]);
    RunsAreSound(events);
    BackoffSchedule(0);
  }

  /** The k-th consecutive retry without an open waits min(1000 * 2^k, 30000) milliseconds. */
  lemma RetryDelays(events: seq<Event>, k: nat)
    requires IsRun(events) && k < Retries(events)
    ensures var exponential := 1000 * Pow2(k);
            |After(events).delays| == Retries(events)
            && After(events).delays[k] == if exponential < 30000 then exponential else 30000
  {
    RunsAreSound(events);
    DelaysCountRetries(events);
  }

  /**
   * What the reported status tells, in every reachable state: idle before the first connect,
   * closed for good after close, and otherwise reconnecting if some retry was scheduled since
   * the last open, and connecting or connected if none was.
   */
  predicate Tells(s: State) {
    && (s.status == Closed <==> s.manuallyClosed)
    && (s.status == Idle <==> !s.everConnected && !s.manuallyClosed)
    && (s.status == Reconnecting <==> s.everConnected && !s.manuallyClosed && s.reconnectAttempt > 0)
    && (s.status == Connecting || s.status == Connected <==> s.everConnected && !s.manuallyClosed && s.reconnectAttempt == 0)
  }

  lemma TellsIsKept(s: State, e: Event)
    requires Sound(s) && Enabled(s, e) && Tells(s)
    ensures Tells(Next(s, e))
  {
    hide BackoffDelay;
  }

  lemma {:induction false} StatusTells(events: seq<Event>)
    requires IsRun(events)
    ensures Tells(After(events))
  {
    hide Tells, Next, Enabled;
    if events == [] {
      FreshTells();
    } else {
      StatusTells(events[..|events| - 1]);
      RunsAreSound(events[..|events| - 1]);
      TellsIsKept(After(events[..|events| - 1]), events[|events| - 1]);
    }
  }

  lemma FreshTells()
    ensures Tells(FRESH)
  {}

  // ---------------------------------------------------------------------------
  // When the reported status is wrong
  // ---------------------------------------------------------------------------

  /** Reporting a connection means having a socket. */
  predicate Truthful(s: State) { s.status == Connected ==> s.socket.Some? }

  /**
   * One event makes a truthful status false exactly when a connected socket drops while a
   * timer is pending: scheduling is skipped then, and with it the change of status.
   */
  lemma StatusGoesStaleIff(events: seq<Event>, e: Event)
    requires IsRun(events) && Enabled(After(events), e) && Truthful(After(events))
    ensures !Truthful(Next(After(events), e))
       <==> e.Drop? && After(events).status == Connected && After(events).reconnectTimer.Some?
  {
    RunsAreSound(events);
    hide BackoffDelay;
  }

  /** Event `n` drops a connected socket while a timer is pending. */
  predicate DropsUnnoticed(events: seq<Event>, n: int) {
    && 0 <= n < |events| && events[n].Drop?
    && After(events[..n]).status == Connected && After(events[..n]).reconnectTimer.Some?
  }

  /** The status is right at every point of a run exactly when no drop goes unnoticed. */
  lemma {:induction false} TruthfulThroughoutIff(events: seq<Event>)
    requires IsRun(events)
    ensures (forall n :: 0 <= n <= |events| ==> Truthful(After(events[..n]))) <==> forall n :: !DropsUnnoticed(events, n)
  {
    hide Truthful;
    if forall n :: 0 <= n <= |events| ==> Truthful(After(events[..n])) {
      forall n ensures !DropsUnnoticed(events, n) {
        if 0 <= n < |events| { OneEventOn(events, n); }
      }
    }
    if forall n :: !DropsUnnoticed(events, n) {
      forall n | 0 <= n <= |events| ensures Truthful(After(events[..n])) { TruthfulUpTo(events, n); }
    }
  }

  /** The status after one more event of the run. */
  lemma OneEventOn(events: seq<Event>, n: nat)
    requires IsRun(events) && n < |events|
    ensures Truthful(After(events[..n])) ==> (!Truthful(After(events[..n + 1])) <==> DropsUnnoticed(events, n))
  {
    hide Truthful, After, IsRun, Next, Enabled;
    assert events == events[..n + 1] + events[n + 1..];
    RunPrefix(events[..n + 1], events[n + 1..]);
    assert events[..n + 1] == events[..n] + [events[n]];
    RunStep(events[..n], events[n]);
    if Truthful(After(events[..n])) { StatusGoesStaleIff(events[..n], events[n]); }
  }

  lemma {:induction false} TruthfulUpTo(events: seq<Event>, n: nat)
    requires IsRun(events) && n <= |events| && forall m :: !DropsUnnoticed(events, m)
    ensures Truthful(After(events[..n]))
  {
    if n == 0 {
      NoEvents();
    } else {
      TruthfulUpTo(events, n - 1);
      OneEventOn(events, n - 1);
    }
  }

  /** Connecting by hand while a timer is pending, then dropping: connected without a socket. */
  lemma ConnectedWithoutSocket()
    ensures var events := [Connect(true), Drop(0), Connect(true), Open(2), Drop(2)];
            IsRun(events) && After(events).status == Connected && After(events).live == {} && !Truthful(After(events))
  {
    hide BackoffDelay;
    var s1 := AfterConnect(FRESH, true);
    var s2 := AfterDrop(s1, 0);
    var s3 := AfterConnect(s2, true);
    var s4 := AfterOpen(s3);
    assert s4.live == s3.live && s4.status == Connected && s4.reconnectTimer.Some? && !s4.manuallyClosed;
    assert s1.live == {0} && s2.live == {} && s2.reconnectTimer == Some(1) && s3.live == {2};
    var e1, e2, e3, e4 := [Connect(true)], [Connect(true), Drop(0)], [Connect(true), Drop(0), Connect(true)],
                          [Connect(true), Drop(0), Connect(true), Open(2)];
    assert e1 == [] + [Connect(true)] && e2 == e1 + [Drop(0)] && e3 == e2 + [Connect(true)] && e4 == e3 + [Open(2)];
    assert [Connect(true), Drop(0), Connect(true), Open(2), Drop(2)] == e4 + [Drop(2)];
    hide AfterConnect, AfterDrop, AfterOpen, After, IsRun;
    NoEvents();
    RunStep([], Connect(true));
    RunStep(e1, Drop(0));
    RunStep(e2, Connect(true));
    RunStep(e3, Open(2));
    RunStep(e4, Drop(2));
    StaleDrop(s4);
  }

  lemma NoEvents()
    ensures After([]) == FRESH && IsRun([])
  {}

  lemma StaleDrop(s: State)
    requires s.live == {2} && s.status == Connected && s.reconnectTimer.Some? && !s.manuallyClosed
    ensures AfterDrop(s, 2).status == Connected && AfterDrop(s, 2).live == {} && !Truthful(AfterDrop(s, 2))
  {}

  lemma RunStep(events: seq<Event>, e: Event)
    ensures After(events + [e]) == Next(After(events), e)
    ensures IsRun(events + [e]) <==> IsRun(events) && Enabled(After(events), e)
  {
    assert (events + [e])[..|events|] == events;
  }

  /** Nobody connects by hand while a timer is pending. */
  predicate Patient(events: seq<Event>) {
    events == [] ||
    (Patient(events[..|events| - 1])
     && (events[|events| - 1].Connect? ==> After(events[..|events| - 1]).reconnectTimer == None))
  }

  /** Then a socket and a timer never coexist, and the status is truthful throughout. */
  lemma {:induction false} PatientRunsAreTruthful(events: seq<Event>)
    requires IsRun(events) && Patient(events)
    ensures Truthful(After(events))
    ensures After(events).socket == None || After(events).reconnectTimer == None
  {
    hide BackoffDelay;
    if events != [] {
      PatientRunsAreTruthful(events[..|events| - 1]);
      RunsAreSound(events[..|events| - 1]);
    }
  }
}
