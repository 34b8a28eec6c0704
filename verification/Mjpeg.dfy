/** The rate-limiting loop of the live stream. */
module Mjpeg {
  import opened Common

  type Duration = d: real | d >= 0.0

  /** The time one iteration spends where the loop has no say: producing its part, waiting for the
      consumer to take it, and waking up (or just going round) later than asked. */
  datatype Lap = Lap(work: Duration, consumer: Duration, late: Duration)

  /** When an iteration began and when its part was handed out. */
  datatype Part = Part(start: real, emitted: real)

  function Longer(a: real, b: real): real {
    if a < b then b else a
  }

  /** When iteration `k` begins: each one lasts an interval, or as long as work and consumer took if
      that is longer, and what it is late by. */
  function Start(t0: real, interval: real, laps: seq<Lap>, k: nat): real
    requires k <= |laps|
  {
    if k == 0 then t0
    else
      var lap := laps[k - 1];
      Start(t0, interval, laps, k - 1) + Longer(interval, lap.work + lap.consumer) + lap.late
  }

  function Emitted(t0: real, interval: real, laps: seq<Lap>, k: nat): real
    requires k < |laps|
  {
    Start(t0, interval, laps, k) + laps[k].work
  }

  /** Each part began and came out at its time. */
  ghost predicate OnTime(parts: seq<Part>, t0: real, interval: real, laps: seq<Lap>)
    requires |parts| <= |laps|
  {
    forall k :: 0 <= k < |parts| ==>
      parts[k] == Part(Start(t0, interval, laps, k), Emitted(t0, interval, laps, k))
  }

  class Clock {
    var now: real

    constructor (now: real)
      ensures this.now == now
    {
      this.now := now;
    }

    method Pass(d: Duration)
      modifies this
      ensures now == old(now) + d
    {
      now := now + d;
    }

    method Sleep(d: real)
      requires d > 0.0
      modifies this
      ensures now == old(now) + d
    {
      now := now + d;
    }
  }

  /** The loop: its parts come out at exactly the times above, for every course the laps can take. */
  method GenerateStream(clock: Clock, fps: real, maxFrames: Option<int>, laps: seq<Lap>) returns (parts: seq<Part>)
    requires fps > 0.0
    modifies clock
    ensures maxFrames.None? ==> |parts| == |laps|
    ensures maxFrames.Some? ==>
              |parts| == if maxFrames.value <= 0 then 0
                         else if maxFrames.value < |laps| then maxFrames.value
                         else |laps|
    ensures OnTime(parts, old(clock.now), 1.0 / fps, laps)
  {
    var interval := 1.0 / fps;
    ghost var t0 := clock.now;
    parts := [];
    var emitted := 0;
    while emitted < |laps| && (maxFrames.None? || emitted < maxFrames.value)
      invariant |parts| == emitted <= |laps|
      invariant maxFrames.Some? ==> emitted <= Max(maxFrames.value, 0)
      invariant clock.now == Start(t0, interval, laps, emitted)
      invariant OnTime(parts, t0, interval, laps)
    {
      var lap := laps[emitted];
      var start := clock.now;
      clock.Pass(lap.work);
      parts := parts + [Part(start, clock.now)];
      clock.Pass(lap.consumer);
      emitted := emitted + 1;
      var elapsed := clock.now - start;
      var remaining := interval - elapsed;
      if remaining > 0.0 {
        clock.Sleep(remaining);
      }
      clock.Pass(lap.late);
    }
  }

  /** The loop waits for the interval when work and consumer fit in it, and not at all when they do not:
      the next iteration begins on the interval, or when they are through, and what it is late by after. */
  lemma NextStart(t0: real, interval: real, laps: seq<Lap>, k: nat)
    requires k < |laps|
    ensures var spent := laps[k].work + laps[k].consumer;
            && (spent <= interval ==>
                  Start(t0, interval, laps, k + 1) == Start(t0, interval, laps, k) + interval + laps[k].late)
            && (spent >= interval ==>
                  Start(t0, interval, laps, k + 1) == Start(t0, interval, laps, k) + spent + laps[k].late)
            && Start(t0, interval, laps, 0) == t0
            && Emitted(t0, interval, laps, k) == Start(t0, interval, laps, k) + laps[k].work
  {
  }

  /** With prompt wake-ups and laps that fit, the full rate is reached: part `k` is out exactly `k`
      intervals after the first start, and its own work. */
  lemma {:induction false} FullRate(t0: real, interval: real, laps: seq<Lap>, k: nat)
    requires k < |laps|
    requires forall i :: 0 <= i < |laps| ==> laps[i].work + laps[i].consumer <= interval && laps[i].late == 0.0
    ensures Emitted(t0, interval, laps, k) == t0 + k as real * interval + laps[k].work
  {
    if k > 0 {
      FullRate(t0, interval, laps, k - 1);
      NextStart(t0, interval, laps, k - 1);
      OneMoreInterval(k - 1, interval);
    }
  }

  /** Iterations begin at least an interval apart. */
  lemma {:induction false} StartsSpread(t0: real, interval: real, laps: seq<Lap>, i: nat, k: nat)
    requires i <= k <= |laps|
    ensures Start(t0, interval, laps, k) - Start(t0, interval, laps, i) >= (k - i) as real * interval
  {
    if i < k {
      StartsSpread(t0, interval, laps, i, k - 1);
      OneMoreInterval(k - 1 - i, interval);
    }
  }

  lemma OneMoreInterval(n: nat, interval: real)
    ensures (n + 1) as real * interval == n as real * interval + interval
  {
    assert (n + 1) as real == n as real + 1.0;
  }

  /** Part `k` is never out before `k` intervals have passed since the first iteration began. */
  lemma NotEarly(t0: real, interval: real, laps: seq<Lap>, k: nat)
    requires k < |laps|
    ensures Emitted(t0, interval, laps, k) >= t0 + k as real * interval
  {
    StartsSpread(t0, interval, laps, 0, k);
  }

  /** The parts that come out in the closed window `[from, to]`, by number. */
  ghost function EmittedIn(t0: real, interval: real, laps: seq<Lap>, from: real, to: real): set<int> {
    set k | 0 <= k < |laps| && from <= Emitted(t0, interval, laps, k) <= to
  }

  /** At most `floor(T * fps) + 1` parts are out within `T` seconds of the first start. */
  lemma RateBound(t0: real, fps: real, laps: seq<Lap>, span: Duration)
    requires fps > 0.0
    ensures |EmittedIn(t0, 1.0 / fps, laps, t0, t0 + span)| <= (span * fps).Floor + 1
  {
    var out := EmittedIn(t0, 1.0 / fps, laps, t0, t0 + span);
    assert span * fps >= 0.0;
    forall k | k in out
      ensures 0 <= k < (span * fps).Floor + 1
    {
      NotEarly(t0, 1.0 / fps, laps, k);
      Intervals(k, fps, span);
    }
    BoundedCount(out, 0, (span * fps).Floor + 1);
  }

  lemma Intervals(k: nat, fps: real, span: real)
    requires fps > 0.0 && k as real * (1.0 / fps) <= span
    ensures k as real <= span * fps
    ensures k <= (span * fps).Floor
  {
  }

  /** Parts come out in order, so a later one is apart from an earlier one by the intervals between their
      starts, less the work the earlier one took. */
  lemma EmissionsSpread(t0: real, interval: real, laps: seq<Lap>, i: nat, k: nat)
    requires i <= k < |laps|
    ensures Emitted(t0, interval, laps, k) - Emitted(t0, interval, laps, i)
         >= (k - i) as real * interval + laps[k].work - laps[i].work
  {
    StartsSpread(t0, interval, laps, i, k);
  }

  lemma {:induction false} Least(s: set<int>) returns (least: int)
    requires s != {}
    ensures least in s && forall k :: k in s ==> least <= k
  {
    least := Member(s);
    var rest := s - {least};
    assert forall k :: k in s ==> k == least || k in rest;
    if rest != {} {
      var other := Least(rest);
      least := if least < other then least else other;
    }
  }

  lemma WithinReach(t0: real, fps: real, laps: seq<Lap>, span: Duration, slowest: Duration, i: nat, k: nat)
    requires fps > 0.0 && i <= k < |laps| && laps[i].work <= slowest
    requires Emitted(t0, 1.0 / fps, laps, k) - Emitted(t0, 1.0 / fps, laps, i) <= span
    ensures k - i <= ((span + slowest) * fps).Floor
  {
    EmissionsSpread(t0, 1.0 / fps, laps, i, k);
    Intervals(k - i, fps, span + slowest);
  }

  /** In any window of `T` seconds, wherever it begins: when no part takes longer than `slowest` to
      produce, at most `floor((T + slowest) * fps) + 1` parts come out. So parts can bunch, but by no
      more than the parts due while one is being produced. */
  lemma WindowBound(t0: real, fps: real, laps: seq<Lap>, from: real, span: Duration, slowest: Duration)
    requires fps > 0.0
    requires forall k :: 0 <= k < |laps| ==> laps[k].work <= slowest
    ensures |EmittedIn(t0, 1.0 / fps, laps, from, from + span)| <= ((span + slowest) * fps).Floor + 1
  {
    var interval := 1.0 / fps;
    var out := EmittedIn(t0, interval, laps, from, from + span);
    var most := ((span + slowest) * fps).Floor;
    assert (span + slowest) * fps >= 0.0;
    if out != {} {
      var first := Least(out);
      forall k | k in out
        ensures first <= k < first + most + 1
      {
        WithinReach(t0, fps, laps, span, slowest, first, k);
      }
      BoundedCount(out, first, first + most + 1);
    }
  }

  /** The parts of a list that came out in `[from, to]`, by number. */
  ghost function OutIn(parts: seq<Part>, from: real, to: real): set<int> {
    set k | 0 <= k < |parts| && from <= parts[k].emitted <= to
  }

  /** Both bounds, for any window and any bound on the work, on the parts the loop hands out. */
  method BoundedStream(clock: Clock, fps: real, maxFrames: Option<int>, laps: seq<Lap>,
                       ghost from: real, ghost span: Duration, ghost slowest: Duration) returns (parts: seq<Part>)
    requires fps > 0.0
    modifies clock
    ensures |OutIn(parts, old(clock.now), old(clock.now) + span)| <= (span * fps).Floor + 1
    ensures (forall k :: 0 <= k < |laps| ==> laps[k].work <= slowest) ==>
              |OutIn(parts, from, from + span)| <= ((span + slowest) * fps).Floor + 1
  {
    ghost var t0 := clock.now;
    parts := GenerateStream(clock, fps, maxFrames, laps);
    RateBound(t0, fps, laps, span);
    OutOnTime(parts, t0, 1.0 / fps, laps, t0, t0 + span);
    if forall k :: 0 <= k < |laps| ==> laps[k].work <= slowest {
      WindowBound(t0, fps, laps, from, span, slowest);
      OutOnTime(parts, t0, 1.0 / fps, laps, from, from + span);
    }
  }

  lemma OutOnTime(parts: seq<Part>, t0: real, interval: real, laps: seq<Lap>, from: real, to: real)
    requires |parts| <= |laps| && OnTime(parts, t0, interval, laps)
    ensures |OutIn(parts, from, to)| <= |EmittedIn(t0, interval, laps, from, to)|
  {
    Fewer(OutIn(parts, from, to), EmittedIn(t0, interval, laps, from, to));
  }

  /** The documented bound, that parts come out at least an interval apart, holds between two parts
      exactly when producing the first took no longer than producing the second and whatever the first
      iteration overran the interval by, waiting for its consumer or waking late. */
  lemma ApartIff(t0: real, interval: real, laps: seq<Lap>, k: nat)
    requires k + 1 < |laps|
    ensures var (now, next) := (laps[k], laps[k + 1]);
            var overrun := Longer(0.0, now.work + now.consumer - interval) + now.late;
            Emitted(t0, interval, laps, k + 1) - Emitted(t0, interval, laps, k) >= interval
            <==> now.work <= next.work + overrun
  {
  }

  /** Hence it holds throughout whenever work never shrinks from one part to the next. */
  lemma SteadyWorkKeepsApart(t0: real, interval: real, laps: seq<Lap>, i: nat, k: nat)
    requires i < k < |laps|
    requires forall a, b :: 0 <= a < b < |laps| ==> laps[a].work <= laps[b].work
    ensures Emitted(t0, interval, laps, k) - Emitted(t0, interval, laps, i) >= (k - i) as real * interval
  {
    EmissionsSpread(t0, interval, laps, i, k);
  }

  /** A part that takes a whole interval to produce, then a quick one. */
  function SlowThenQuick(interval: Duration, gap: Duration): seq<Lap> {
    [Lap(interval, 0.0, 0.0), Lap(gap, 0.0, 0.0)]
  }

  /** Those two come out closer together than the interval, at any gap below it. */
  lemma PartsBunch(t0: real, interval: Duration, gap: Duration)
    requires gap < interval
    ensures var laps := SlowThenQuick(interval, gap);
            Emitted(t0, interval, laps, 1) - Emitted(t0, interval, laps, 0) == gap < interval
  {
    var laps := SlowThenQuick(interval, gap);
    assert Start(t0, interval, laps, 1) == Start(t0, interval, laps, 0) + interval;
  }

  /** The loop itself does so. */
  method BunchedStream(clock: Clock, fps: real, gap: Duration) returns (parts: seq<Part>)
    requires fps > 0.0 && gap < 1.0 / fps
    modifies clock
    ensures |parts| == 2 && parts[1].emitted - parts[0].emitted == gap
  {
    PartsBunch(clock.now, 1.0 / fps, gap);
    parts := GenerateStream(clock, fps, None, SlowThenQuick(1.0 / fps, gap));
  }
}
