/**
 * The incremental event-stream reader of apps/mobile/services/waitingRoom.ts: how the
 * growing response text is cut into frames, and which callbacks the frames cause.
 *
 * What a frame means (its `data:` lines and their JSON) is a parameter.
 */
module WaitingRoomStreams {

  // ---------------------------------------------------------------------------
  // Cutting at blank lines
  // ---------------------------------------------------------------------------

  predicate SeparatorAt(s: string, i: int) { 0 <= i && i + 1 < |s| && s[i] == '\n' && s[i + 1] == '\n' }

  predicate NoSeparator(s: string) { forall i :: 0 <= i < |s| ==> !SeparatorAt(s, i) }

  /** `indexOf("\n\n")` from position `from` on. */
  function FindSeparator(s: string, from: nat): (r: int)
    requires from <= |s|
    ensures r == -1 ==> forall i :: from <= i < |s| ==> !SeparatorAt(s, i)
    ensures r != -1 ==> from <= r && r + 2 <= |s| && SeparatorAt(s, r) && forall i :: from <= i < r ==> !SeparatorAt(s, i)
    decreases |s| - from
  {
    if from == |s| then -1 else if SeparatorAt(s, from) then from else FindSeparator(s, from + 1)
  }

  /** The frames that leftmost cutting yields. */
  function Frames(s: string): seq<string> {
    var i := FindSeparator(s, 0);
    if i == -1 then [] else [s[..i]] + Frames(s[i + 2..])
  }

  /** What is left after the last frame. */
  function Rest(s: string): string {
    var i := FindSeparator(s, 0);
    if i == -1 then s else Rest(s[i + 2..])
  }

  // ---------------------------------------------------------------------------
  // The cut is the only one possible
  // ---------------------------------------------------------------------------

  /** The frames put together again, each closed by a blank line. */
  function Together(frames: seq<string>, rest: string): string {
    if frames == [] then rest else frames[0] + "\n\n" + Together(frames[1..], rest)
  }

  /** No blank line inside, and none that starts with the frame's last character. */
  predicate IsFrame(f: string) { NoSeparator(f) && (f != "" ==> f[|f| - 1] != '\n') }

  predicate IsCut(s: string, frames: seq<string>, rest: string) {
    s == Together(frames, rest) && NoSeparator(rest) && forall i :: 0 <= i < |frames| ==> IsFrame(frames[i])
  }

  lemma FirstFrame(s: string)
    requires FindSeparator(s, 0) != -1
    ensures var i := FindSeparator(s, 0); IsFrame(s[..i]) && s == s[..i] + "\n\n" + s[i + 2..]
  {
    var i := FindSeparator(s, 0);
    var f := s[..i];
    forall j | 0 <= j < |f| ensures !SeparatorAt(f, j) { assert !SeparatorAt(s, j); }
    if f != "" { assert !SeparatorAt(s, i - 1); }
  }

  lemma {:induction false} FramesCut(s: string)
    ensures IsCut(s, Frames(s), Rest(s))
  {
    hide FindSeparator, IsFrame;
    var i := FindSeparator(s, 0);
    if i == -1 {
      assert NoSeparator(s);
    } else {
      FirstFrame(s);
      FramesCut(s[i + 2..]);
      assert Frames(s) == [s[..i]] + Frames(s[i + 2..]);
      assert Frames(s)[1..] == Frames(s[i + 2..]);
    }
  }

  /** The frame before a separator ends where the first separator is found. */
  lemma FrameEndsAtFirst(f: string, t: string)
    requires IsFrame(f)
    ensures FindSeparator(f + "\n\n" + t, 0) == |f|
  {
    var s := f + "\n\n" + t;
    assert SeparatorAt(s, |f|);
    forall j | 0 <= j < |f| ensures !SeparatorAt(s, j) {
      assert !SeparatorAt(f, j);
      assert s[j] == f[j];
      if j + 1 < |f| { assert s[j + 1] == f[j + 1]; }
    }
  }

  /** There is exactly one way to cut a text into frames, the one the reader finds. */
  lemma {:induction false} CutIsUnique(s: string, frames: seq<string>, rest: string)
    requires IsCut(s, frames, rest)
    ensures frames == Frames(s) && rest == Rest(s)
    decreases |frames|
  {
    if frames == [] {
      assert s == rest;
    } else {
      var f, t := frames[0], Together(frames[1..], rest);
      FrameEndsAtFirst(f, t);
      assert s == f + "\n\n" + t && s[..|f|] == f && s[|f| + 2..] == t;
      forall i | 0 <= i < |frames[1..]| ensures IsFrame(frames[1..][i]) { assert IsFrame(frames[i + 1]); }
      CutIsUnique(t, frames[1..], rest);
    }
  }

  /** A separator found in a prefix is the first one of the whole. */
  lemma FoundInPrefix(a: string, b: string)
    requires FindSeparator(a, 0) != -1
    ensures FindSeparator(a + b, 0) == FindSeparator(a, 0)
  {
    var i := FindSeparator(a, 0);
    assert SeparatorAt(a + b, i);
    forall j | 0 <= j < i ensures !SeparatorAt(a + b, j) { assert !SeparatorAt(a, j); }
  }

  lemma CutOnce(s: string)
    ensures var i := FindSeparator(s, 0);
            if i == -1 then Frames(s) == [] && Rest(s) == s
            else Frames(s) == [s[..i]] + Frames(s[i + 2..]) && Rest(s) == Rest(s[i + 2..])
  {}

  /** Cutting a prefix first and then what it left with the remainder changes nothing. */
  lemma {:induction false} CutInTwoSteps(a: string, b: string)
    ensures Frames(a + b) == Frames(a) + Frames(Rest(a) + b)
    ensures Rest(a + b) == Rest(Rest(a) + b)
  {
    hide FindSeparator, SeparatorAt, Frames, Rest;
    var i := FindSeparator(a, 0);
    CutOnce(a);
    if i == -1 {
      assert [] + Frames(a + b) == Frames(a + b);
    } else {
      var f, t := a[..i], a[i + 2..];
      CutInTwoSteps(t, b);
      FoundInPrefix(a, b);
      CutOnce(a + b);
      assert (a + b)[..i] == f && (a + b)[i + 2..] == t + b;
      assert [f] + (Frames(t) + Frames(Rest(t) + b)) == ([f] + Frames(t)) + Frames(Rest(t) + b);
    }
  }

  // ---------------------------------------------------------------------------
  // Callbacks
  // ---------------------------------------------------------------------------

  datatype Message = Position | Admitted(hasToken: bool) | NotInQueue | Failure | Other

  datatype Callback = OnPosition | OnAdmitted | OnError | OnClosed

  predicate Ends(m: Message) { m.Admitted? || m.NotInQueue? || m.Failure? }

  /** The callback that a message makes, apart from closing. */
  function Spoken(m: Message): seq<Callback> {
    match m
    case Position => [OnPosition]
    case Admitted(hasToken) => if hasToken then [OnAdmitted] else []
    case NotInQueue => [OnError]
    case Failure => [OnError]
    case Other => []
  }

  /** Callbacks and the finished flag after one message. */
  function AfterMessage(log: seq<Callback>, finished: bool, m: Message): (seq<Callback>, bool) {
    if Ends(m) then (log + Spoken(m) + (if finished then [] else [OnClosed]), true)
    else (log + Spoken(m), finished)
  }

  function AfterFrames(log: seq<Callback>, finished: bool, frames: seq<string>, meaning: string -> Message): (seq<Callback>, bool)
    decreases frames
  {
    if frames == [] then (log, finished) else
    var (l, f) := AfterMessage(log, finished, meaning(frames[0]));
    AfterFrames(l, f, frames[1..], meaning)
  }

  function ClosedCount(log: seq<Callback>): nat {
    if log == [] then 0 else ClosedCount(log[..|log| - 1]) + if log[|log| - 1] == OnClosed then 1 else 0
  }

  /** Closing is announced exactly when the reader is finished, and then once. */
  ghost predicate ClosedOnce(log: seq<Callback>, finished: bool) {
    ClosedCount(log) == if finished then 1 else 0
  }

  lemma CountAppend(log: seq<Callback>, c: Callback)
    ensures ClosedCount(log + [c]) == ClosedCount(log) + if c == OnClosed then 1 else 0
  {
    assert (log + [c])[..|log|] == log;
  }

  lemma MessageKeepsClosedOnce(log: seq<Callback>, finished: bool, m: Message)
    requires ClosedOnce(log, finished)
    ensures ClosedOnce(AfterMessage(log, finished, m).0, AfterMessage(log, finished, m).1)
  {
    var spoken := log + Spoken(m);
    if Spoken(m) != [] { CountAppend(log, Spoken(m)[0]); } else { assert spoken == log; }
    CountAppend(spoken, OnClosed);
    assert spoken + [] == spoken;
  }

  // ---------------------------------------------------------------------------
  // The reader in place
  // ---------------------------------------------------------------------------

  /** The reader's fields, with every raw frame handled so far. */
  datatype Reader = Reader(cursor: nat, buffer: string, frames: seq<string>, log: seq<Callback>, finished: bool)

  /** Every complete frame of the buffer handled. */
  function Drained(r: Reader, meaning: string -> Message): Reader {
    var (log, finished) := AfterFrames(r.log, r.finished, Frames(r.buffer), meaning);
    Reader(r.cursor, Rest(r.buffer), r.frames + Frames(r.buffer), log, finished)
  }

  /** The part of the text beyond the cursor moved into the buffer. */
  function TakenIn(r: Reader, text: string): Reader {
    if |text| > r.cursor then r.(cursor := |text|, buffer := r.buffer + text[r.cursor..]) else r
  }

  function Consumed(r: Reader, text: string, meaning: string -> Message): Reader {
    Drained(TakenIn(r, text), meaning)
  }

  function Finished(r: Reader): Reader {
    r.(log := r.log + (if r.finished then [] else [OnClosed]), finished := true)
  }

  /** Handling the first frame of the buffer leaves the same to be done. */
  lemma DrainStep(r: Reader, meaning: string -> Message)
    requires FindSeparator(r.buffer, 0) != -1
    ensures var i := FindSeparator(r.buffer, 0);
            var (log, finished) := AfterMessage(r.log, r.finished, meaning(r.buffer[..i]));
            Drained(r, meaning)
              == Drained(Reader(r.cursor, r.buffer[i + 2..], r.frames + [r.buffer[..i]], log, finished), meaning)
  {
    hide AfterMessage, FindSeparator;
    var i := FindSeparator(r.buffer, 0);
    var f, t := r.buffer[..i], r.buffer[i + 2..];
    assert Frames(r.buffer) == [f] + Frames(t) && ([f] + Frames(t))[1..] == Frames(t);
    assert r.frames + Frames(r.buffer) == r.frames + [f] + Frames(t);
  }

  lemma NothingToDrain(r: Reader, meaning: string -> Message)
    requires FindSeparator(r.buffer, 0) == -1
    ensures Drained(r, meaning) == r
  {
    assert r.frames + [] == r.frames;
  }

  class WaitingRoomStream {
    const meaning: string -> Message
    var cursor: nat
    var buffer: string
    var finished: bool
    var callbacks: seq<Callback>
    ghost var frames: seq<string>

    ghost function View(): Reader
      reads this
    {
      Reader(cursor, buffer, frames, callbacks, finished)
    }

    constructor (meaning: string -> Message)
      ensures this.meaning == meaning && View() == Reader(0, "", [], [], false)
    {
      this.meaning := meaning;
      cursor, buffer, finished, callbacks, frames := 0, "", false, [], [];
    }

    method Finish()
      modifies this`finished, this`callbacks
      ensures View() == Finished(old(View()))
    {
      if finished {
        assert callbacks + [] == callbacks;
        return;
      }
      finished := true;
      callbacks := callbacks + [OnClosed];
    }

    method HandleMessage(m: Message)
      modifies this`finished, this`callbacks
      ensures (callbacks, finished) == AfterMessage(old(callbacks), old(finished), m)
      ensures m == Position ==> callbacks == old(callbacks) + [OnPosition] && finished == old(finished)
      ensures m == Other ==> callbacks == old(callbacks) && finished == old(finished)
      ensures m != Position && m != Other ==>
                var said := if m == Admitted(true) then [OnAdmitted] else if m == Admitted(false) then [] else [OnError];
                finished && callbacks == old(callbacks) + said + if old(finished) then [] else [OnClosed]
    {
      ghost var before := callbacks;
      assert before + [] == before;
      match m
      case Position =>
        callbacks := callbacks + [OnPosition];
      case Admitted(hasToken) =>
        if hasToken { callbacks := callbacks + [OnAdmitted]; }
        Finish();
      case NotInQueue =>
        callbacks := callbacks + [OnError];
        Finish();
      case Failure =>
        callbacks := callbacks + [OnError];
        Finish();
      case Other =>
    }

    /** Handles every complete frame in the buffer. */
    method Drain()
      modifies this
      ensures View() == Drained(old(View()), meaning)
    {
      hide AfterMessage, FindSeparator, Drained;
      var separator := FindSeparator(buffer, 0);
      while separator != -1
        invariant separator == FindSeparator(buffer, 0)
        invariant Drained(View(), meaning) == Drained(old(View()), meaning)
        decreases |buffer|
      {
        DrainStep(View(), meaning);
        var rawEvent := buffer[..separator];
        buffer := buffer[separator + 2..];
        frames := frames + [rawEvent];
        HandleMessage(meaning(rawEvent));
        separator := FindSeparator(buffer, 0);
      }
      NothingToDrain(View(), meaning);
    }

    /** Takes in the new part of the response text and handles what it completes. */
    method ConsumeChunk(text: string)
      modifies this
      ensures View() == Consumed(old(View()), text, meaning)
    {
      hide Drained;
      if |text| > cursor {
        buffer := buffer + text[cursor..];
        cursor := |text|;
      }
      Drain();
    }

    method OnLoad(text: string)
      modifies this
      ensures View() == Finished(Consumed(old(View()), text, meaning))
    {
      ConsumeChunk(text);
      Finish();
    }

    method OnNetworkError()
      modifies this`finished, this`callbacks
      ensures View() == Finished(old(View()).(log := old(callbacks) + [OnError]))
    {
      callbacks := callbacks + [OnError];
      Finish();
    }
  }

  // ---------------------------------------------------------------------------
  // Runs
  // ---------------------------------------------------------------------------

  datatype Event = Progress(text: string) | Load(text: string) | NetworkError

  /** The reader after one event. */
  function AfterEvent(r: Reader, e: Event, meaning: string -> Message): Reader {
    match e
    case Progress(text) => Consumed(r, text, meaning)
    case Load(text) => Finished(Consumed(r, text, meaning))
    case NetworkError => Finished(r.(log := r.log + [OnError]))
  }

  function After(events: seq<Event>, meaning: string -> Message): Reader {
    if events == [] then Reader(0, "", [], [], false) else
    AfterEvent(After(events[..|events| - 1], meaning), events[|events| - 1], meaning)
  }

  /** The response text after the events: the last one reported. */
  function TextAfter(events: seq<Event>): string {
    if events == [] then ""
    else if events[|events| - 1].NetworkError? then TextAfter(events[..|events| - 1])
    else events[|events| - 1].text
  }

  /** A response text only grows. */
  ghost predicate Growing(events: seq<Event>) {
    events == [] ||
    (Growing(events[..|events| - 1]) && TextAfter(events[..|events| - 1]) <= TextAfter(events))
  }

  /** The reader has handled exactly the frames of `text` and kept its unfinished end. */
  ghost predicate Tracks(r: Reader, text: string) {
    r.frames == Frames(text) && r.buffer == Rest(text) && r.cursor == |text|
  }

  lemma ConsumedTracks(r: Reader, earlier: string, text: string, meaning: string -> Message)
    requires Tracks(r, earlier) && earlier <= text
    ensures Tracks(Consumed(r, text, meaning), text)
  {
    hide Frames, Rest, AfterFrames;
    var more := text[|earlier|..];
    assert text == earlier + more;
    CutInTwoSteps(earlier, more);
    if more == "" { assert r.buffer + more == r.buffer; }
    assert TakenIn(r, text).buffer == r.buffer + more;
  }

  /**
   * Chunking independence: however the text arrives, the frames handled are exactly those
   * of the whole text, and what is kept back is its unfinished end.
   */
  lemma {:induction false} ChunkingIndependence(events: seq<Event>, meaning: string -> Message)
    requires Growing(events)
    ensures Tracks(After(events, meaning), TextAfter(events))
    ensures NoSeparator(After(events, meaning).buffer)
  {
    hide Frames, Rest, Consumed, IsCut, NoSeparator;
    if events == [] {
      CutOnce("");
    } else {
      var before := events[..|events| - 1];
      ChunkingIndependence(before, meaning);
      if !events[|events| - 1].NetworkError? {
        ConsumedTracks(After(before, meaning), TextAfter(before), TextAfter(events), meaning);
      }
    }
    RestIsUncut(TextAfter(events));
  }

  lemma RestIsUncut(s: string)
    ensures NoSeparator(Rest(s))
  {
    FramesCut(s);
  }

  lemma {:induction false} FramesKeepClosedOnce(log: seq<Callback>, finished: bool, frames: seq<string>, meaning: string -> Message)
    requires ClosedOnce(log, finished)
    ensures var (l, f) := AfterFrames(log, finished, frames, meaning); ClosedOnce(l, f) && (finished ==> f)
    decreases frames
  {
    if frames != [] {
      var m := meaning(frames[0]);
      MessageKeepsClosedOnce(log, finished, m);
      var (l, f) := AfterMessage(log, finished, m);
      FramesKeepClosedOnce(l, f, frames[1..], meaning);
    }
  }

  /** In every run closing is announced at most once, and exactly when the reader is finished. */
  lemma {:induction false} ClosedAtMostOnce(events: seq<Event>, meaning: string -> Message)
    ensures ClosedOnce(After(events, meaning).log, After(events, meaning).finished)
  {
    hide AfterFrames;
    if events != [] {
      ClosedAtMostOnce(events[..|events| - 1], meaning);
      var r := After(events[..|events| - 1], meaning);
      match events[|events| - 1]
      case Progress(text) =>
        FramesKeepClosedOnce(r.log, r.finished, Frames(TakenIn(r, text).buffer), meaning);
      case Load(text) =>
        FramesKeepClosedOnce(r.log, r.finished, Frames(TakenIn(r, text).buffer), meaning);
        FinishKeepsClosedOnce(Consumed(r, text, meaning));
      case NetworkError =>
        CountAppend(r.log, OnError);
        FinishKeepsClosedOnce(r.(log := r.log + [OnError]));
    }
  }

  lemma FinishKeepsClosedOnce(r: Reader)
    requires ClosedOnce(r.log, r.finished)
    ensures ClosedOnce(Finished(r).log, true)
  {
    CountAppend(r.log, OnClosed);
    assert r.log + [] == r.log;
  }

  // ---------------------------------------------------------------------------
  // The whole log of callbacks, and where closing stands in it
  // ---------------------------------------------------------------------------

  /** What reaches the reader, one at a time: a frame's message, a failure, the end of loading. */
  datatype Signal = Said(message: Message) | Lost | Loaded

  predicate EndsStream(s: Signal) { s.Said? ==> Ends(s.message) }

  /** The callback that a signal makes, apart from closing. */
  function Voice(s: Signal): seq<Callback> {
    match s
    case Said(m) => Spoken(m)
    case Lost => [OnError]
    case Loaded => []
  }

  function Voices(signals: seq<Signal>): seq<Callback> {
    if signals == [] then [] else Voices(signals[..|signals| - 1]) + Voice(signals[|signals| - 1])
  }

  function SaidAll(frames: seq<string>, meaning: string -> Message): seq<Signal> {
    seq(|frames|, i requires 0 <= i < |frames| => Said(meaning(frames[i])))
  }

  /** The signals of one event, given the reader it meets. */
  function SignalsOf(r: Reader, e: Event, meaning: string -> Message): seq<Signal> {
    match e
    case Progress(text) => SaidAll(Frames(TakenIn(r, text).buffer), meaning)
    case Load(text) => SaidAll(Frames(TakenIn(r, text).buffer), meaning) + [Loaded]
    case NetworkError => [Lost]
  }

  function Signals(events: seq<Event>, meaning: string -> Message): seq<Signal> {
    if events == [] then [] else
    var before := events[..|events| - 1];
    Signals(before, meaning) + SignalsOf(After(before, meaning), events[|events| - 1], meaning)
  }

  /** Signal `e` is the first that ends the stream. */
  predicate IsFirstEnd(signals: seq<Signal>, e: int) {
    0 <= e < |signals| && EndsStream(signals[e]) && forall j :: 0 <= j < e ==> !EndsStream(signals[j])
  }

  predicate NoEnd(signals: seq<Signal>) { forall j :: 0 <= j < |signals| ==> !EndsStream(signals[j]) }

  /**
   * The log is what the signals say, with closing put right behind what the first ending
   * signal says.
   */
  ghost predicate Logs(signals: seq<Signal>, log: seq<Callback>, finished: bool) {
    && (NoEnd(signals) ==> log == Voices(signals) && !finished)
    && (forall e :: IsFirstEnd(signals, e) ==>
          log == Voices(signals[..e + 1]) + [OnClosed] + Voices(signals[e + 1..]) && finished)
  }

  lemma VoicesAppend(signals: seq<Signal>, s: Signal)
    ensures Voices(signals + [s]) == Voices(signals) + Voice(s)
  {
    assert (signals + [s])[..|signals|] == signals;
  }

  lemma FirstEndOrNone(signals: seq<Signal>) returns (e: int)
    ensures if NoEnd(signals) then e == -1 else IsFirstEnd(signals, e)
  {
    e := 0;
    while e < |signals| && !EndsStream(signals[e])
      invariant 0 <= e <= |signals| && forall j :: 0 <= j < e ==> !EndsStream(signals[j])
    {
      e := e + 1;
    }
    if e == |signals| { e := -1; }
  }

  /** One more signal: its own callback, and closing if it is the first to end the stream. */
  lemma LogsOneMore(signals: seq<Signal>, log: seq<Callback>, finished: bool, s: Signal)
    requires Logs(signals, log, finished)
    ensures Logs(signals + [s], log + Voice(s) + (if EndsStream(s) && !finished then [OnClosed] else []), finished || EndsStream(s))
  {
    hide EndsStream, Voice, Voices;
    var all := signals + [s];
    var e := FirstEndOrNone(signals);
    VoicesAppend(signals, s);
    assert forall j :: 0 <= j < |signals| ==> all[j] == signals[j];
    if e == -1 {
      assert all[|signals|] == s;
      assert all[..|signals| + 1] == all && all[|signals| + 1..] == [];
      NoVoices();
      if !EndsStream(s) { NotEndedYet(signals, s); }
    } else {
      assert IsFirstEnd(all, e);
      assert all[..e + 1] == signals[..e + 1] && all[e + 1..] == signals[e + 1..] + [s];
      VoicesAppend(signals[e + 1..], s);
      assert EndsStream(all[e]);
    }
  }

  lemma NoVoices()
    ensures Voices([]) == []
  {}

  lemma NotEndedYet(signals: seq<Signal>, s: Signal)
    requires NoEnd(signals) && !EndsStream(s)
    ensures NoEnd(signals + [s])
  {}

  lemma {:induction false} LogsFrames(signals: seq<Signal>, log: seq<Callback>, finished: bool, frames: seq<string>, meaning: string -> Message)
    requires Logs(signals, log, finished)
    ensures var (l, f) := AfterFrames(log, finished, frames, meaning); Logs(signals + SaidAll(frames, meaning), l, f)
    decreases |frames|
  {
    hide Logs, Spoken, Ends;
    if frames == [] {
      assert signals + SaidAll(frames, meaning) == signals;
    } else {
      var m := meaning(frames[0]);
      LogsOneMore(signals, log, finished, Said(m));
      var (l, f) := AfterMessage(log, finished, m);
      assert log + Spoken(m) + [] == log + Spoken(m);
      LogsFrames(signals + [Said(m)], l, f, frames[1..], meaning);
      assert signals + [Said(m)] + SaidAll(frames[1..], meaning) == signals + SaidAll(frames, meaning);
    }
  }

  /**
   * In every run the callbacks are exactly these: what the frames and failures say, in
   * order, with closing right behind what the first ending signal says, or not at all.
   */
  lemma {:induction false} LogOfRun(events: seq<Event>, meaning: string -> Message)
    ensures Logs(Signals(events, meaning), After(events, meaning).log, After(events, meaning).finished)
  {
    hide Logs, AfterFrames, Frames, Rest;
    if events == [] {
      NothingLogged();
    } else {
      var before, e := events[..|events| - 1], events[|events| - 1];
      LogOfRun(before, meaning);
      LogOfEvent(Signals(before, meaning), After(before, meaning), e, meaning);
    }
  }

  lemma NothingLogged()
    ensures Logs([], [], false)
  {}

  lemma LogOfEvent(signals: seq<Signal>, r: Reader, e: Event, meaning: string -> Message)
    requires Logs(signals, r.log, r.finished)
    ensures var t := AfterEvent(r, e, meaning); Logs(signals + SignalsOf(r, e, meaning), t.log, t.finished)
  {
    hide Logs, AfterFrames, Frames, Rest;
    if e.NetworkError? {
      LogsOneMore(signals, r.log, r.finished, Lost);
    } else {
      var frames := Frames(TakenIn(r, e.text).buffer);
      LogsFrames(signals, r.log, r.finished, frames, meaning);
      if e.Load? {
        var t := Consumed(r, e.text, meaning);
        LogsOneMore(signals + SaidAll(frames, meaning), t.log, t.finished, Loaded);
        assert t.log + [] == t.log;
        assert signals + SaidAll(frames, meaning) + [Loaded] == signals + (SaidAll(frames, meaning) + [Loaded]);
      }
    }
  }

  lemma VoiceNeverCloses(s: Signal)
    ensures forall i :: 0 <= i < |Voice(s)| ==> Voice(s)[i] != OnClosed
  {}

  lemma {:induction false} VoicesNeverClose(signals: seq<Signal>)
    ensures OnClosed !in Voices(signals)
    ensures Voices(signals) == [] <==> forall j :: 0 <= j < |signals| ==> Voice(signals[j]) == []
  {
    hide Voice;
    if signals != [] {
      var init, last := signals[..|signals| - 1], signals[|signals| - 1];
      VoicesNeverClose(init);
      VoiceNeverCloses(last);
      assert forall j :: 0 <= j < |init| ==> init[j] == signals[j];
      if Voices(signals) == [] {
        assert Voices(init) == [] && Voice(last) == [];
      }
    }
  }

  /**
   * The loop keeps handling frames after the one that ends the stream. So in a finished run
   * closing is the last callback exactly when no signal behind the first ending one, in the
   * same chunk or a later event, makes a callback.
   */
  lemma ClosedIsLastIffRestSilent(events: seq<Event>, meaning: string -> Message, e: int)
    requires IsFirstEnd(Signals(events, meaning), e)
    ensures var log, signals := After(events, meaning).log, Signals(events, meaning);
            && After(events, meaning).finished && log != []
            && (log[|log| - 1] == OnClosed <==> forall j :: e < j < |signals| ==> Voice(signals[j]) == [])
  {
    hide Signals, After, Voices, Voice, EndsStream;
    LogOfRun(events, meaning);
    var log, signals := After(events, meaning).log, Signals(events, meaning);
    var rest := signals[e + 1..];
    VoicesNeverClose(rest);
    assert log == Voices(signals[..e + 1]) + [OnClosed] + Voices(rest);
    if Voices(rest) == [] {
      forall j | e < j < |signals| ensures Voice(signals[j]) == [] { assert signals[j] == rest[j - e - 1]; }
    } else {
      var i :| 0 <= i < |rest| && Voice(rest[i]) != [];
      assert signals[i + e + 1] == rest[i];
    }
  }

  /** What each signal says and whether it ends the stream, case by case. */
  lemma SignalsCaseByCase(s: Signal)
    ensures s == Said(Position) ==> Voice(s) == [OnPosition] && !EndsStream(s)
    ensures s == Said(Other) ==> Voice(s) == [] && !EndsStream(s)
    ensures s == Said(Admitted(true)) ==> Voice(s) == [OnAdmitted] && EndsStream(s)
    ensures s == Said(Admitted(false)) ==> Voice(s) == [] && EndsStream(s)
    ensures s == Said(NotInQueue) || s == Said(Failure) || s == Lost ==> Voice(s) == [OnError] && EndsStream(s)
    ensures s == Loaded ==> Voice(s) == [] && EndsStream(s)
  {}

  /** The messages among the signals. */
  function Messages(signals: seq<Signal>): seq<Message> {
    if signals == [] then [] else
    var last := signals[|signals| - 1];
    Messages(signals[..|signals| - 1]) + if last.Said? then [last.message] else []
  }

  lemma {:induction false} MessagesConcat(a: seq<Signal>, b: seq<Signal>)
    ensures Messages(a + b) == Messages(a) + Messages(b)
  {
    if b == [] {
      assert a + b == a;
    } else {
      assert (a + b)[..|a + b| - 1] == a + b[..|b| - 1];
      MessagesConcat(a, b[..|b| - 1]);
    }
  }

  function Meanings(frames: seq<string>, meaning: string -> Message): seq<Message> {
    seq(|frames|, i requires 0 <= i < |frames| => meaning(frames[i]))
  }

  lemma {:induction false} MessagesOfFrames(frames: seq<string>, meaning: string -> Message)
    ensures Messages(SaidAll(frames, meaning)) == Meanings(frames, meaning)
  {
    if frames != [] {
      var init, all := frames[..|frames| - 1], SaidAll(frames, meaning);
      MessagesOfFrames(init, meaning);
      assert all[..|all| - 1] == SaidAll(init, meaning);
    }
  }

  lemma MeaningsConcat(a: seq<string>, b: seq<string>, meaning: string -> Message)
    ensures Meanings(a + b, meaning) == Meanings(a, meaning) + Meanings(b, meaning)
  {}

  lemma MessagesOfEvent(r: Reader, e: Event, meaning: string -> Message)
    ensures Meanings(AfterEvent(r, e, meaning).frames, meaning) == Meanings(r.frames, meaning) + Messages(SignalsOf(r, e, meaning))
  {
    hide AfterFrames, Frames, Rest, Meanings, SaidAll;
    if e.NetworkError? {
      assert Messages([Lost]) == [];
    } else {
      var frames := Frames(TakenIn(r, e.text).buffer);
      MessagesOfFrames(frames, meaning);
      MeaningsConcat(r.frames, frames, meaning);
      MessagesConcat(SaidAll(frames, meaning), [Loaded]);
      assert Messages([Loaded]) == [];
    }
  }

  lemma {:induction false} SignalsSayFrames(events: seq<Event>, meaning: string -> Message)
    ensures Messages(Signals(events, meaning)) == Meanings(After(events, meaning).frames, meaning)
  {
    hide AfterEvent, SignalsOf, Messages, Meanings;
    if events == [] {
      NothingSaid(meaning);
    } else {
      var before, e := events[..|events| - 1], events[|events| - 1];
      SignalsSayFrames(before, meaning);
      MessagesConcat(Signals(before, meaning), SignalsOf(After(before, meaning), e, meaning));
      MessagesOfEvent(After(before, meaning), e, meaning);
    }
  }

  lemma NothingSaid(meaning: string -> Message)
    ensures Messages([]) == Meanings([], meaning) == []
  {}

  /**
   * However a growing text arrives, the messages among the signals are those of the frames
   * of the whole text.
   */
  lemma {:induction false} SignalsAreTheText(events: seq<Event>, meaning: string -> Message)
    requires Growing(events)
    ensures Messages(Signals(events, meaning)) == Meanings(Frames(TextAfter(events)), meaning)
  {
    hide Frames, Rest, Signals, After;
    ChunkingIndependence(events, meaning);
    SignalsSayFrames(events, meaning);
  }

  /** An admission and a position update in one chunk: the position is reported after closing. */
  lemma PositionAfterClosed(a: string, p: string, meaning: string -> Message)
    requires IsFrame(a) && IsFrame(p) && meaning(a) == Admitted(true) && meaning(p) == Position
    ensures After([Progress(a + "\n\n" + p + "\n\n")], meaning).log == [OnAdmitted, OnClosed, OnPosition]
  {
    hide FindSeparator, Frames, Rest, IsFrame;
    var text := a + "\n\n" + p + "\n\n";
    assert [a, p][1..] == [p] && [p][1..] == [];
    assert Together([p], "") == p + "\n\n";
    assert Together([a, p], "") == text;
    CutIsUnique(text, [a, p], "");
    var r := Reader(0, "", [], [], false);
    assert After([], meaning) == r;
    assert [Progress(text)][..0] == [];
    assert TakenIn(r, text).buffer == text;
    assert AfterFrames([OnAdmitted, OnClosed], true, [p], meaning).0 == [OnAdmitted, OnClosed, OnPosition];
    var none: seq<Callback> := [];
    assert none + [OnAdmitted] + [OnClosed] == [OnAdmitted, OnClosed];
    assert AfterMessage([], false, meaning(a)) == ([OnAdmitted, OnClosed], true);
    assert AfterFrames([], false, [a, p], meaning).0 == [OnAdmitted, OnClosed, OnPosition];
  }
}
