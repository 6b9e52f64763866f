// The debounce engine of `watch_job`: a flush (rsync, then a rebuild of the
// watches) happens once the tree has been quiet for `delay_ms`.
//
// One iteration of the endless loop is a tick. A tick says whether the
// non-blocking `read` of the inotify descriptor returned events and what the
// monotonic clock read, in whole milliseconds; both clock readings of one
// iteration are taken to be the same instant. The loop sleeps 200 ms between
// ticks, so consecutive ticks are at least that far apart, but the model
// does not depend on the cadence.

module Debounce {

  /** `pending` and `last_event` of `watch_job`. */
  datatype State = State(pending: bool, lastEvent: int)

  /** `struct timespec last_event = {0}; int pending = 0;` */
  const Start: State := State(false, 0)

  datatype Poll = Poll(events: bool, now: int)

  /**
   * One iteration of the loop: events set `pending` and stamp `last_event`;
   * then, while pending, a flush happens once `now - last_event >= delay`,
   * and clears `pending`. The boolean says whether this tick flushed.
   */
  function Step(s: State, t: Poll, delay: int): (State, bool) {
    var s1 := if t.events then State(true, t.now) else s;
    if s1.pending && t.now - s1.lastEvent >= delay then (State(false, s1.lastEvent), true)
    else (s1, false)
  }

  /** The state after a sequence of ticks. */
  function Run(s: State, ts: seq<Poll>, delay: int): State
    decreases |ts|
  {
    if ts == [] then s else Step(Run(s, ts[..|ts| - 1], delay), ts[|ts| - 1], delay).0
  }

  /** The clock readings of the ticks that flushed, in order. */
  function Flushes(s: State, ts: seq<Poll>, delay: int): seq<int>
    decreases |ts|
  {
    if ts == [] then []
    else
      var last := ts[|ts| - 1];
      Flushes(s, ts[..|ts| - 1], delay)
        + if Step(Run(s, ts[..|ts| - 1], delay), last, delay).1 then [last.now] else []
  }

  /** The `pending`/`last_event` pair of one job's loop. */
  class Debouncer {
    var pending: bool
    var lastEvent: int
    const delayMs: int

    constructor (delayMs: int)
      ensures pending == Start.pending && lastEvent == Start.lastEvent
      ensures this.delayMs == delayMs
    {
      pending := false;
      lastEvent := 0;
      this.delayMs := delayMs;
    }

    function Current(): State
      reads this
    {
      State(pending, lastEvent)
    }

    /**
     * One iteration: a tick with events sets `pending` and resets
     * `last_event` to now; a flush happens exactly when, after that,
     * `pending` holds and at least `delayMs` have passed since `last_event`,
     * and it clears `pending`. This is Step on the old state.
     */
    method Tick(eventsArrived: bool, now: int) returns (flush: bool)
      modifies this
      ensures eventsArrived ==> lastEvent == now
      ensures !eventsArrived ==> lastEvent == old(lastEvent)
      ensures flush <==> (old(pending) || eventsArrived) && now - lastEvent >= delayMs
      ensures pending == ((old(pending) || eventsArrived) && !flush)
      ensures (Current(), flush) == Step(old(Current()), Poll(eventsArrived, now), delayMs)
    {
      if eventsArrived {
        pending := true;
        lastEvent := now;
      }
      flush := false;
      if pending {
        var diff := now - lastEvent;
        if diff >= delayMs {
          flush := true;
          pending := false;
        }
      }
    }
  }

  /** Running `a` and then `b` is running `a + b`; the flushes of the two add up. */
  lemma {:induction false} RunAppend(s: State, a: seq<Poll>, b: seq<Poll>, delay: int)
    ensures Run(s, a + b, delay) == Run(Run(s, a, delay), b, delay)
    ensures Flushes(s, a + b, delay) == Flushes(s, a, delay) + Flushes(Run(s, a, delay), b, delay)
    decreases |b|
  {
    if b == [] {
      assert a + b == a;
    } else {
      var b0 := b[..|b| - 1];
      assert (a + b)[..|a + b| - 1] == a + b0;
      assert (a + b)[|a + b| - 1] == b[|b| - 1];
      RunAppend(s, a, b0, delay);
    }
  }

  /** The clock reading of the latest tick with events, `dflt` when there is none. */
  function LastEventTime(ts: seq<Poll>, dflt: int): int
    decreases |ts|
  {
    if ts == [] then dflt
    else if ts[|ts| - 1].events then ts[|ts| - 1].now
    else LastEventTime(ts[..|ts| - 1], dflt)
  }

  /**
   * A burst: it starts and ends with events, and every tick in between
   * without events comes less than `delay` after the latest event before it
   * (as it does when consecutive events are less than `delay` apart).
   */
  predicate Burst(ts: seq<Poll>, delay: int) {
    && ts != [] && ts[0].events && ts[|ts| - 1].events
    && forall j :: 0 < j < |ts| && !ts[j].events ==> ts[j].now < LastEventTime(ts[..j], 0) + delay
  }

  /** Inside a burst nothing flushes, and the state is pending since the latest event. */
  lemma {:induction false} BurstPending(s: State, ts: seq<Poll>, j: nat, delay: int)
    requires delay > 0 && Burst(ts, delay) && 1 <= j <= |ts|
    ensures Run(s, ts[..j], delay) == State(true, LastEventTime(ts[..j], 0))
    ensures Flushes(s, ts[..j], delay) == []
    decreases j
  {
    var p := ts[..j];
    assert p[..j - 1] == ts[..j - 1];
    assert p[j - 1] == ts[j - 1];
    if j == 1 {
      assert p[..0] == [];
    } else {
      BurstPending(s, ts, j - 1, delay);
    }
  }

  /** From a pending state, eventless ticks before the deadline change nothing. */
  lemma {:induction false} QuietBeforeDeadline(st: State, ts: seq<Poll>, delay: int)
    requires st.pending
    requires forall j :: 0 <= j < |ts| ==> !ts[j].events && ts[j].now < st.lastEvent + delay
    ensures Run(st, ts, delay) == st && Flushes(st, ts, delay) == []
    decreases |ts|
  {
    if ts != [] {
      QuietBeforeDeadline(st, ts[..|ts| - 1], delay);
    }
  }

  /** From a state that is not pending, eventless ticks change nothing. */
  lemma {:induction false} QuietWhenIdle(st: State, ts: seq<Poll>, delay: int)
    requires !st.pending
    requires forall j :: 0 <= j < |ts| ==> !ts[j].events
    ensures Run(st, ts, delay) == st && Flushes(st, ts, delay) == []
    decreases |ts|
  {
    if ts != [] {
      QuietWhenIdle(st, ts[..|ts| - 1], delay);
    }
  }

  /** The tail of a burst: no events, and tick `k` is the first at or after the deadline. */
  predicate QuietTail(tail: seq<Poll>, k: nat, deadline: int) {
    && k < |tail|
    && (forall j :: 0 <= j < |tail| ==> !tail[j].events)
    && (forall j :: 0 <= j < k ==> tail[j].now < deadline)
    && tail[k].now >= deadline
  }

  /**
   * A burst followed by quiet gets exactly one flush, on the first tick at
   * least `delay` after the burst's last event; afterwards nothing is
   * pending. Whatever the state before the burst.
   */
  lemma BurstThenQuiet(s: State, burst: seq<Poll>, tail: seq<Poll>, k: nat, delay: int)
    requires delay > 0 && Burst(burst, delay)
    requires QuietTail(tail, k, burst[|burst| - 1].now + delay)
    ensures Flushes(s, burst + tail, delay) == [tail[k].now]
    ensures Run(s, burst + tail, delay) == State(false, burst[|burst| - 1].now)
  {
    var last := burst[|burst| - 1].now;
    BurstPending(s, burst, |burst|, delay);
    assert burst[..|burst|] == burst;
    var st := State(true, last);
    var before := tail[..k];
    var after := tail[k + 1..];
    assert tail == before + [tail[k]] + after;
    QuietBeforeDeadline(st, before, delay);
    var fired := State(false, last);
    QuietWhenIdle(fired, after, delay);
    assert Flushes(st, [tail[k]], delay) == [tail[k].now] by {
      assert [tail[k]][..0] == [];
    }
    assert Run(st, [tail[k]], delay) == fired by {
      assert [tail[k]][..0] == [];
    }
    RunAppend(st, before, [tail[k]], delay);
    RunAppend(st, before + [tail[k]], after, delay);
    RunAppend(s, burst, tail, delay);
  }

  /** A burst followed only by ticks before its deadline is still pending and has not flushed. */
  lemma BurstWithoutExpiry(s: State, burst: seq<Poll>, tail: seq<Poll>, delay: int)
    requires delay > 0 && Burst(burst, delay)
    requires forall j :: 0 <= j < |tail| ==>
      !tail[j].events && tail[j].now < burst[|burst| - 1].now + delay
    ensures Flushes(s, burst + tail, delay) == []
    ensures Run(s, burst + tail, delay).pending
  {
    BurstPending(s, burst, |burst|, delay);
    assert burst[..|burst|] == burst;
    QuietBeforeDeadline(Run(s, burst, delay), tail, delay);
    RunAppend(s, burst, tail, delay);
  }

  /**
   * Two sub-bursts each get their own flush when the quiet gap after the
   * first contains a tick at least `delay` after its last event.
   */
  lemma TwoBursts(s: State, b1: seq<Poll>, t1: seq<Poll>, k1: nat,
                  b2: seq<Poll>, t2: seq<Poll>, k2: nat, delay: int)
    requires delay > 0 && Burst(b1, delay) && Burst(b2, delay)
    requires QuietTail(t1, k1, b1[|b1| - 1].now + delay)
    requires QuietTail(t2, k2, b2[|b2| - 1].now + delay)
    ensures Flushes(s, (b1 + t1) + (b2 + t2), delay) == [t1[k1].now, t2[k2].now]
  {
    BurstThenQuiet(s, b1, t1, k1, delay);
    BurstThenQuiet(Run(s, b1 + t1, delay), b2, t2, k2, delay);
    RunAppend(s, b1 + t1, b2 + t2, delay);
  }

  /**
   * When no tick lands between the deadline of one event and the next
   * event, the two merge into one flush even though they are more than
   * `delay` apart: with a delay of 500 ms, events seen at 0 and 600 ms and
   * ticks every 200 ms, the only flush is at 1200 ms.
   */
  lemma MergedBursts()
    ensures var ts := [Poll(true, 0), Poll(false, 200), Poll(false, 400), Poll(true, 600),
                       Poll(false, 800), Poll(false, 1000), Poll(false, 1200)];
      ts[3].now - ts[0].now >= 500 && Flushes(Start, ts, 500) == [1200]
  {
    var ts := [Poll(true, 0), Poll(false, 200), Poll(false, 400), Poll(true, 600),
               Poll(false, 800), Poll(false, 1000), Poll(false, 1200)];
    var burst := ts[..4];
    var tail := ts[4..];
    assert ts == burst + tail;
    assert burst[..1] == [Poll(true, 0)];
    assert burst[..2] == [Poll(true, 0), Poll(false, 200)];
    assert burst[..3] == [Poll(true, 0), Poll(false, 200), Poll(false, 400)];
    assert LastEventTime(burst[..2], 0) == 0 by {
      assert burst[..2][..1] == burst[..1];
    }
    assert LastEventTime(burst[..3], 0) == 0 by {
      assert burst[..3][..2] == burst[..2];
    }
    assert Burst(burst, 500);
    assert QuietTail(tail, 2, 1100);
    BurstThenQuiet(Start, burst, tail, 2, 500);
  }

  /**
   * A single write at 0 ms with the default 500 ms delay and ticks every
   * 200 ms: nothing flushes up to 400 ms, and the flush comes at 600 ms,
   * within one polling interval of the deadline.
   */
  lemma SingleEventFlushesOnce()
    ensures var ts := [Poll(true, 0), Poll(false, 200), Poll(false, 400), Poll(false, 600)];
      Flushes(Start, ts[..3], 500) == [] && Flushes(Start, ts, 500) == [600]
  {
    var ts := [Poll(true, 0), Poll(false, 200), Poll(false, 400), Poll(false, 600)];
    var burst := [Poll(true, 0)];
    assert burst[..1] == burst;
    assert Burst(burst, 500);
    assert ts == burst + ts[1..];
    assert QuietTail(ts[1..], 2, 500);
    BurstThenQuiet(Start, burst, ts[1..], 2, 500);
    assert ts[..3] == burst + ts[1..3];
    BurstWithoutExpiry(Start, burst, ts[1..3], 500);
  }

  /**
   * Writes seen at 0, 300 and 600 ms with a 500 ms delay: no flush at
   * 500 ms, and the one flush no earlier than 1100 ms, at the 1200 ms tick.
   */
  lemma RepeatedEventsPostponeFlush()
    ensures var ts := [Poll(true, 0), Poll(true, 300), Poll(true, 600),
                       Poll(false, 800), Poll(false, 1000), Poll(false, 1200)];
      Flushes(Start, ts, 500) == [1200]
  {
    var ts := [Poll(true, 0), Poll(true, 300), Poll(true, 600),
               Poll(false, 800), Poll(false, 1000), Poll(false, 1200)];
    var burst := ts[..3];
    assert Burst(burst, 500);
    assert ts == burst + ts[3..];
    assert QuietTail(ts[3..], 2, 1100);
    BurstThenQuiet(Start, burst, ts[3..], 2, 500);
  }

  // ---------------------------------------------------------------------
  // The elapsed-time expression on `struct timespec` readings.

  const NSEC_PER_SEC: int := 1_000_000_000
  const NSEC_PER_MSEC: int := 1_000_000

  datatype Timespec = Timespec(sec: int, nsec: int)

  predicate ValidTimespec(t: Timespec) {
    0 <= t.nsec < NSEC_PER_SEC
  }

  function Nanos(t: Timespec): int {
    t.sec * NSEC_PER_SEC + t.nsec
  }

  /** C's `/` on `long`: the quotient rounded toward zero. */
  function CDiv(a: int, b: int): (q: int)
    requires b > 0
    ensures a >= 0 ==> q * b <= a < q * b + b
    ensures a < 0 ==> q * b - b < a <= q * b
  {
    if a >= 0 then a / b else -((-a) / b)
  }

  /**
   * `(now.tv_sec - last_event.tv_sec) * 1000 + (now.tv_nsec -
   * last_event.tv_nsec) / 1000000`: on valid readings it is within one
   * millisecond of the true elapsed time, on either side.
   */
  function ElapsedMsAsWritten(last: Timespec, now: Timespec): (d: int)
    requires ValidTimespec(last) && ValidTimespec(now)
    ensures (d - 1) * NSEC_PER_MSEC < Nanos(now) - Nanos(last) < (d + 1) * NSEC_PER_MSEC
  {
    (now.sec - last.sec) * 1000 + CDiv(now.nsec - last.nsec, NSEC_PER_MSEC)
  }

  /**
   * As written, the expression can round up: 499.5 ms after the last event
   * it already reports 500, so a 500 ms delay is taken as elapsed.
   */
  lemma ElapsedMsAsWrittenRoundsUp()
    ensures var last := Timespec(0, 600_000_000);
      var now := Timespec(1, 99_500_000);
      && ValidTimespec(last) && ValidTimespec(now)
      && Nanos(now) - Nanos(last) < 500 * NSEC_PER_MSEC
      && ElapsedMsAsWritten(last, now) >= 500
  {
  }

  /** The whole milliseconds elapsed between two readings, rounded down. */
  function ElapsedMs(last: Timespec, now: Timespec): int {
    (Nanos(now) - Nanos(last)) / NSEC_PER_MSEC
  }

  /** With the rounded-down difference, the guard holds exactly when `delay` ms have passed. */
  lemma ElapsedMsGuard(last: Timespec, now: Timespec, delay: int)
    ensures ElapsedMs(last, now) >= delay <==> Nanos(now) - Nanos(last) >= delay * NSEC_PER_MSEC
  {
    var d := Nanos(now) - Nanos(last);
    var q := d / NSEC_PER_MSEC;
    assert d == q * NSEC_PER_MSEC + d % NSEC_PER_MSEC;
    if q >= delay {
      assert q * NSEC_PER_MSEC >= delay * NSEC_PER_MSEC;
    } else {
      assert q + 1 <= delay;
      assert (q + 1) * NSEC_PER_MSEC <= delay * NSEC_PER_MSEC;
    }
  }

  /**
   * On readings that fall on whole milliseconds (the clock of the tick
   * model) both expressions are the plain difference of the millisecond
   * readings, which is what Step uses.
   */
  lemma ElapsedMsOnWholeMs(lastMs: int, nowMs: int)
    ensures var last := Timespec(lastMs / 1000, (lastMs % 1000) * NSEC_PER_MSEC);
      var now := Timespec(nowMs / 1000, (nowMs % 1000) * NSEC_PER_MSEC);
      && ElapsedMs(last, now) == nowMs - lastMs
      && ElapsedMsAsWritten(last, now) == nowMs - lastMs
  {
    var last := Timespec(lastMs / 1000, (lastMs % 1000) * NSEC_PER_MSEC);
    var now := Timespec(nowMs / 1000, (nowMs % 1000) * NSEC_PER_MSEC);
    assert Nanos(last) == lastMs * NSEC_PER_MSEC;
    assert Nanos(now) == nowMs * NSEC_PER_MSEC;
    var dn := (nowMs % 1000 - lastMs % 1000) * NSEC_PER_MSEC;
    assert CDiv(dn, NSEC_PER_MSEC) == nowMs % 1000 - lastMs % 1000;
  }
}
