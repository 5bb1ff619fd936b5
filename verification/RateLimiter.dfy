/**
 * The fixed-window rate limiter of apps/web/lib/rate-limit.ts. Times are milliseconds.
 */
module RateLimiters {

  const SWEEP_THRESHOLD := 10000

  datatype Window = Window(count: nat, resetAt: int)

  type Windows = map<string, Window>

  datatype Answer = Answer(allowed: bool, limit: nat, remaining: nat, resetAt: int, retryAfterSeconds: int)

  /** Entries that have not expired. */
  function Swept(w: Windows, now: int): Windows { map k | k in w && w[k].resetAt > now :: w[k] }

  function MaybeSwept(w: Windows, now: int): Windows { if |w| > SWEEP_THRESHOLD then Swept(w, now) else w }

  /** The window of a key with this call counted in. */
  function Counted(w: Windows, key: string, now: int, windowMs: int): Window {
    if key in w && w[key].resetAt > now then Window(w[key].count + 1, w[key].resetAt)
    else Window(1, now + windowMs)
  }

  function AnswerFor(entry: Window, now: int, limit: nat): Answer {
    var seconds := (entry.resetAt - now + 999) / 1000;
    Answer(entry.count <= limit, limit, if entry.count < limit then limit - entry.count else 0,
           entry.resetAt, if seconds < 1 then 1 else seconds)
  }

  class RateLimiter {
    const limit: nat
    const windowMs: int
    var windows: Windows

    constructor (limit: nat, windowMs: int)
      ensures this.limit == limit && this.windowMs == windowMs && windows == map[]
    {
      this.limit, this.windowMs := limit, windowMs;
      windows := map[];
    }

    /** Deletes expired entries while walking over the map. */
    method Sweep(now: int)
      modifies this
      ensures windows == Swept(old(windows), now)
    {
      var rest := windows.Keys;
      while rest != {}
        invariant rest <= old(windows).Keys
        invariant forall k :: k in windows <==> k in old(windows) && (k in rest || old(windows)[k].resetAt > now)
        invariant forall k :: k in windows ==> windows[k] == old(windows)[k]
        decreases rest
      {
        var key :| key in rest;
        if windows[key].resetAt <= now {
          windows := windows - {key};
        }
        rest := rest - {key};
      }
    }

    method Check(key: string, now: int) returns (r: Answer)
      modifies this
      ensures var w := MaybeSwept(old(windows), now);
              var entry := Counted(w, key, now, windowMs);
              windows == w[key := entry] && r == AnswerFor(entry, now, limit)
    {
      if |windows| > SWEEP_THRESHOLD {
        Sweep(now);
      }
      if key !in windows || windows[key].resetAt <= now {
        windows := windows[key := Window(0, now + windowMs)];
      }
      windows := windows[key := Window(windows[key].count + 1, windows[key].resetAt)];
      var entry := windows[key];
      var seconds := (entry.resetAt - now + 999) / 1000;
      r := Answer(entry.count <= limit, limit, if limit - entry.count > 0 then limit - entry.count else 0,
                  entry.resetAt, if seconds > 1 then seconds else 1);
    }

    method Reset()
      modifies this
      ensures windows == map[]
    {
      windows := map[];
    }
  }

  // ---------------------------------------------------------------------------
  // Runs
  // ---------------------------------------------------------------------------

  datatype Call = Call(key: string, now: int)

  datatype Config = Config(limit: nat, windowMs: int)

  /** Time never goes back and windows are not empty. */
  ghost predicate Proper(c: Config, run: seq<Call>) {
    c.windowMs > 0 && forall i, j :: 0 <= i < j < |run| ==> run[i].now <= run[j].now
  }

  /** The entries before call `k`, sweeping as the limiter does. */
  function WindowsAt(c: Config, run: seq<Call>, k: nat): Windows
    requires k <= |run|
  {
    if k == 0 then map[] else
    var w := MaybeSwept(WindowsAt(c, run, k - 1), run[k - 1].now);
    w[run[k - 1].key := Counted(w, run[k - 1].key, run[k - 1].now, c.windowMs)]
  }

  /** The entries of a limiter that never sweeps. */
  function PlainAt(c: Config, run: seq<Call>, k: nat): Windows
    requires k <= |run|
  {
    if k == 0 then map[] else
    var w := PlainAt(c, run, k - 1);
    w[run[k - 1].key := Counted(w, run[k - 1].key, run[k - 1].now, c.windowMs)]
  }

  function AnswerAt(c: Config, run: seq<Call>, i: nat): Answer
    requires i < |run|
  {
    var w := MaybeSwept(WindowsAt(c, run, i), run[i].now);
    AnswerFor(Counted(w, run[i].key, run[i].now, c.windowMs), run[i].now, c.limit)
  }

  /** The window that call `i` is counted in, in the limiter that never sweeps. */
  function WindowOf(c: Config, run: seq<Call>, i: nat): Window
    requires i < |run|
  {
    Counted(PlainAt(c, run, i), run[i].key, run[i].now, c.windowMs)
  }

  function PlainAnswerAt(c: Config, run: seq<Call>, i: nat): Answer
    requires i < |run|
  {
    AnswerFor(WindowOf(c, run, i), run[i].now, c.limit)
  }

  /** The two maps differ only in entries that have expired by `now`. */
  ghost predicate SameLive(w: Windows, p: Windows, now: int) {
    && (forall k :: k in w ==> k in p && p[k] == w[k])
    && (forall k :: k in p && k !in w ==> p[k].resetAt <= now)
  }

  lemma {:induction false} SweepingKeepsLive(c: Config, run: seq<Call>, k: nat, now: int)
    requires Proper(c, run) && k <= |run| && (k > 0 ==> run[k - 1].now <= now)
    ensures SameLive(WindowsAt(c, run, k), PlainAt(c, run, k), now)
  {
    if k > 0 { SweepingKeepsLive(c, run, k - 1, run[k - 1].now); }
  }

  /** Sweeping is invisible: every answer is that of a limiter that never sweeps. */
  lemma SweepingIsInvisible(c: Config, run: seq<Call>, i: nat)
    requires Proper(c, run) && i < |run|
    ensures AnswerAt(c, run, i) == PlainAnswerAt(c, run, i)
  {
    SweepingKeepsLive(c, run, i, run[i].now);
  }

  // ---------------------------------------------------------------------------
  // At most `limit` per window
  // ---------------------------------------------------------------------------

  /** How many of the first `k` calls of `key` fall in the window that ends at `resetAt`. */
  function CallsIn(c: Config, run: seq<Call>, k: nat, key: string, resetAt: int): nat
    requires k <= |run|
  {
    if k == 0 then 0
    else CallsIn(c, run, k - 1, key, resetAt)
         + if run[k - 1].key == key && WindowOf(c, run, k - 1).resetAt == resetAt then 1 else 0
  }

  /** The stored count is the number of calls in the current window; no later one exists. */
  lemma {:induction false} CountIsCallsIn(c: Config, run: seq<Call>, k: nat, key: string)
    requires Proper(c, run) && k <= |run|
    ensures var p := PlainAt(c, run, k);
            && (key in p ==> p[key].count == CallsIn(c, run, k, key, p[key].resetAt))
            && (forall r :: key !in p || r > p[key].resetAt ==> CallsIn(c, run, k, key, r) == 0)
  {
    if k > 0 { CountIsCallsIn(c, run, k - 1, key); }
  }

  /** A call is allowed exactly when fewer than `limit` calls came before it in its window. */
  lemma AllowedIffFewEarlier(c: Config, run: seq<Call>, i: nat)
    requires Proper(c, run) && i < |run|
    ensures AnswerAt(c, run, i).allowed <==> CallsIn(c, run, i, run[i].key, AnswerAt(c, run, i).resetAt) < c.limit
  {
    SweepingIsInvisible(c, run, i);
    CountIsCallsIn(c, run, i, run[i].key);
  }

  /**
   * What an answer tells: how many further calls of the key the window allows, when the
   * window ends, and the whole seconds until then, rounded up.
   */
  lemma AnswerTells(c: Config, run: seq<Call>, i: nat)
    requires Proper(c, run) && i < |run|
    ensures var a, now := AnswerAt(c, run, i), run[i].now;
            var used := CallsIn(c, run, i, run[i].key, a.resetAt) + 1;
            && a.limit == c.limit && a.remaining == (if used < c.limit then c.limit - used else 0)
            && now < a.resetAt <= now + c.windowMs
            && a.retryAfterSeconds >= 1 && 1000 * (a.retryAfterSeconds - 1) < a.resetAt - now <= 1000 * a.retryAfterSeconds
  {
    SweepingIsInvisible(c, run, i);
    CountIsCallsIn(c, run, i, run[i].key);
    if run[i].key in PlainAt(c, run, i) { WindowIsOpen(c, run, i, run[i].key, run[i].now); }
  }

  /** Call `j` opens the window of its key that ends at `resetAt`: the first call in it. */
  ghost predicate Opens(c: Config, run: seq<Call>, j: int, key: string, resetAt: int) {
    && 0 <= j < |run| && run[j].key == key && resetAt == run[j].now + c.windowMs
    && CallsIn(c, run, j, key, resetAt) == 0 && WindowOf(c, run, j).resetAt == resetAt
  }

  lemma {:induction false} EntryWasOpened(c: Config, run: seq<Call>, k: nat, key: string)
    requires Proper(c, run) && k <= |run| && key in PlainAt(c, run, k)
    ensures exists j :: j < k && Opens(c, run, j, key, PlainAt(c, run, k)[key].resetAt)
  {
    var p := PlainAt(c, run, k - 1);
    if run[k - 1].key != key || (key in p && p[key].resetAt > run[k - 1].now) {
      EntryWasOpened(c, run, k - 1, key);
    } else {
      CountIsCallsIn(c, run, k - 1, key);
      assert Opens(c, run, k - 1, key, run[k - 1].now + c.windowMs);
    }
  }

  /** Every window opens with its first call and lasts exactly `windowMs`. */
  lemma WindowOpensWithFirstCall(c: Config, run: seq<Call>, i: nat)
    requires Proper(c, run) && i < |run|
    ensures exists j :: j <= i && Opens(c, run, j, run[i].key, AnswerAt(c, run, i).resetAt)
  {
    hide AnswerAt;
    SameWindow(c, run, i);
    EntryWasOpened(c, run, i + 1, run[i].key);
  }

  ghost predicate AllLive(w: Windows, now: int) { forall key :: key in w ==> w[key].resetAt > now }

  /**
   * When memory is given back: a call that finds at most ten thousand entries deletes none,
   * and one that finds more leaves only live entries.
   */
  lemma SweptOnlyWhenLarge(c: Config, run: seq<Call>, k: nat)
    requires c.windowMs > 0 && k < |run|
    ensures |WindowsAt(c, run, k)| <= 10000 ==> WindowsAt(c, run, k).Keys <= WindowsAt(c, run, k + 1).Keys
    ensures |WindowsAt(c, run, k)| > 10000 ==> AllLive(WindowsAt(c, run, k + 1), run[k].now)
  {}

  /** How many of them were allowed. */
  function AllowedIn(c: Config, run: seq<Call>, k: nat, key: string, resetAt: int): nat
    requires k <= |run|
  {
    if k == 0 then 0
    else AllowedIn(c, run, k - 1, key, resetAt)
         + if run[k - 1].key == key && AnswerAt(c, run, k - 1).resetAt == resetAt && AnswerAt(c, run, k - 1).allowed
           then 1 else 0
  }

  /** In each window the first `limit` calls are allowed and no others. */
  lemma {:induction false} AllowedPerWindow(c: Config, run: seq<Call>, k: nat, key: string, resetAt: int)
    requires Proper(c, run) && k <= |run|
    ensures var n := CallsIn(c, run, k, key, resetAt);
            AllowedIn(c, run, k, key, resetAt) == if n < c.limit then n else c.limit
  {
    hide AnswerAt, WindowOf;
    if k > 0 {
      AllowedPerWindow(c, run, k - 1, key, resetAt);
      AllowedIffFewEarlier(c, run, k - 1);
      SameWindow(c, run, k - 1);
    }
  }

  lemma SameWindow(c: Config, run: seq<Call>, i: nat)
    requires Proper(c, run) && i < |run|
    ensures AnswerAt(c, run, i).resetAt == WindowOf(c, run, i).resetAt
    ensures AnswerAt(c, run, i).allowed <==> WindowOf(c, run, i).count <= c.limit
  {
    SweepingIsInvisible(c, run, i);
  }

  // ---------------------------------------------------------------------------
  // At most 2 * limit - 1 in any stretch of one window's length
  // ---------------------------------------------------------------------------

  /** How many of the first `k` calls of `key` were allowed at a time in [t, t + windowMs). */
  function AllowedSince(c: Config, run: seq<Call>, k: nat, key: string, t: int): nat
    requires k <= |run|
  {
    if k == 0 then 0
    else AllowedSince(c, run, k - 1, key, t)
         + if run[k - 1].key == key && t <= run[k - 1].now < t + c.windowMs && AnswerAt(c, run, k - 1).allowed
           then 1 else 0
  }

  /** All calls so far lie before the end of the key's current window. */
  lemma {:induction false} CallsBeforeReset(c: Config, run: seq<Call>, k: nat, i: nat)
    requires Proper(c, run) && i < k <= |run|
    ensures run[i].key in PlainAt(c, run, k) && run[i].now < PlainAt(c, run, k)[run[i].key].resetAt
  {
    if i < k - 1 { CallsBeforeReset(c, run, k - 1, i); }
  }

  /** The current window of a key opened at the time of some call already made. */
  lemma {:induction false} WindowIsOpen(c: Config, run: seq<Call>, k: nat, key: string, now: int)
    requires Proper(c, run) && k <= |run| && key in PlainAt(c, run, k)
    requires forall i :: 0 <= i < k ==> run[i].now <= now
    ensures PlainAt(c, run, k)[key].resetAt - c.windowMs <= now
  {
    if k > 0 && key in PlainAt(c, run, k - 1) { WindowIsOpen(c, run, k - 1, key, now); }
  }

  lemma {:induction false} NoneSince(c: Config, run: seq<Call>, k: nat, key: string, t: int)
    requires k <= |run| && forall i :: 0 <= i < k && run[i].key == key ==> run[i].now < t
    ensures AllowedSince(c, run, k, key, t) == 0
  {
    hide AnswerAt;
    if k > 0 { NoneSince(c, run, k - 1, key, t); }
  }

  function Min(a: int, b: int): int { if a < b then a else b }

  /**
   * The most that can have been allowed in [t, t + windowMs), given the key's current
   * window. The call that opens a window before `t` is not in the stretch.
   */
  function Bound(c: Config, entry: Window, t: int): int {
    var start, used := entry.resetAt - c.windowMs, Min(entry.count, c.limit);
    if start < t then used - 1
    else if start == t then used
    else if start < t + c.windowMs then c.limit - 1 + used
    else 2 * c.limit - 1
  }

  lemma {:induction false} WithinBound(c: Config, run: seq<Call>, k: nat, key: string, t: int)
    requires Proper(c, run) && k <= |run| && c.limit > 0
    ensures var p := PlainAt(c, run, k);
            && (key in p ==> p[key].count > 0 && AllowedSince(c, run, k, key, t) <= Bound(c, p[key], t))
            && (key !in p ==> AllowedSince(c, run, k, key, t) == 0)
  {
    hide AnswerAt;
    if k > 0 {
      WithinBound(c, run, k - 1, key, t);
      SameWindow(c, run, k - 1);
      var call, p := run[k - 1], PlainAt(c, run, k - 1);
      if key in p { WindowIsOpen(c, run, k - 1, key, call.now); }
      if call.key == key && key in p && p[key].resetAt <= call.now <= t {
        forall i | 0 <= i < k - 1 && run[i].key == key ensures run[i].now < t { CallsBeforeReset(c, run, k - 1, i); }
        NoneSince(c, run, k - 1, key, t);
      }
    }
  }

  /**
   * In any half-open stretch of one window's length a key has at most 2 * limit - 1
   * allowed calls, and none when the limit is zero.
   */
  lemma AllowedInAnyStretch(c: Config, run: seq<Call>, key: string, t: int)
    requires Proper(c, run)
    ensures AllowedSince(c, run, |run|, key, t) <= if c.limit == 0 then 0 else 2 * c.limit - 1
  {
    if c.limit > 0 {
      WithinBound(c, run, |run|, key, t);
    } else {
      NoneAllowed(c, run, |run|, key, t);
    }
  }

  lemma {:induction false} NoneAllowed(c: Config, run: seq<Call>, k: nat, key: string, t: int)
    requires Proper(c, run) && k <= |run| && c.limit == 0
    ensures AllowedSince(c, run, k, key, t) == 0
  {
    hide AnswerAt;
    if k > 0 {
      NoneAllowed(c, run, k - 1, key, t);
      SameWindow(c, run, k - 1);
    }
  }

  /** One call, `limit - 1` calls just before the window ends, `limit` calls when it ends. */
  function Burst(c: Config, key: string): seq<Call>
    requires c.limit > 0
  {
    seq(2 * c.limit, i => Call(key, if i == 0 then 0 else if i < c.limit then c.windowMs - 1 else c.windowMs))
  }

  lemma {:induction false} BurstAllowed(c: Config, key: string, k: nat)
    requires c.limit > 0 && c.windowMs > 1 && 0 < k <= 2 * c.limit && Proper(c, Burst(c, key))
    ensures var run := Burst(c, key);
            && key in PlainAt(c, run, k)
            && PlainAt(c, run, k)[key] == (if k <= c.limit then Window(k, c.windowMs) else Window(k - c.limit, 2 * c.windowMs))
            && AllowedSince(c, run, k, key, 1) == k - 1
  {
    hide AnswerAt;
    var run := Burst(c, key);
    SameWindow(c, run, k - 1);
    if k > 1 {
      BurstAllowed(c, key, k - 1);
    } else {
      assert AllowedSince(c, run, 0, key, 1) == 0;
    }
  }

  /** The bound is reached, for every limit and every window of at least two milliseconds. */
  lemma BoundIsReached(c: Config, key: string)
    requires c.limit > 0 && c.windowMs > 1
    ensures Proper(c, Burst(c, key))
    ensures AllowedSince(c, Burst(c, key), 2 * c.limit, key, 1) == 2 * c.limit - 1
  {
    BurstAllowed(c, key, 2 * c.limit);
  }
}
