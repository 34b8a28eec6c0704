/** The rolling-window frame-rate estimate. */
module FpsTracker {

  /** The entries at or after `cutoff`, in order. */
  function Since(ticks: seq<real>, cutoff: real): seq<real> {
    if |ticks| == 0 then []
    else (if ticks[0] >= cutoff then [ticks[0]] else []) + Since(ticks[1..], cutoff)
  }

  /** What remains of the arrivals is a tail of them: those at or after the cutoff, and no earlier one. */
  lemma {:induction false} SinceIsTail(ticks: seq<real>, cutoff: real) returns (k: nat)
    requires NeverDecreasing(ticks)
    ensures k <= |ticks| && Since(ticks, cutoff) == ticks[k..]
    ensures forall i :: 0 <= i < |ticks| ==> (ticks[i] >= cutoff <==> k <= i)
  {
    if |ticks| == 0 || ticks[0] >= cutoff {
      k := 0;
      SinceAll(ticks, cutoff);
    } else {
      k := SinceIsTail(ticks[1..], cutoff);
      k := k + 1;
    }
  }

  ghost predicate NeverDecreasing(ticks: seq<real>) {
    forall i, j :: 0 <= i < j < |ticks| ==> ticks[i] <= ticks[j]
  }

  /** What the estimate is from the arrivals of the window, the last of them `now`: positive exactly with
      two arrivals at different times, and then the gaps over the time they span, at least the gaps
      spread over the whole window. */
  ghost predicate IsRate(fps: real, window: seq<real>, now: real, windowSeconds: real) {
    && fps >= 0.0
    && (fps > 0.0 <==> |window| >= 2 && window[0] < now)
    && (fps > 0.0 ==>
          && fps * (now - window[0]) == (|window| - 1) as real
          && windowSeconds > 0.0
          && fps >= (|window| - 1) as real / windowSeconds)
  }

  class FpsTracker {
    const windowSeconds: real
    var timestamps: seq<real>
    /** Every arrival so far. */
    ghost var ticks: seq<real>

    ghost predicate Valid()
      reads this
    {
      && NeverDecreasing(ticks)
      && timestamps == Since(ticks, LastCutoff())
    }

    ghost function LastCutoff(): real
      reads this
    {
      if |ticks| == 0 then 0.0 else ticks[|ticks| - 1] - windowSeconds
    }

    constructor (windowSeconds: real := 5.0)
      ensures Valid() && ticks == [] && this.windowSeconds == windowSeconds
    {
      this.windowSeconds := windowSeconds;
      this.timestamps := [];
      this.ticks := [];
    }

    /** Evicting only from the left leaves exactly the arrivals of the last window, in order. The
        estimate is the number of gaps between them over the time they span, and never less than
        those gaps spread over the whole window. */
    method Tick(now: real) returns (fps: real)
      requires Valid()
      requires |ticks| > 0 ==> ticks[|ticks| - 1] <= now
      modifies this
      ensures Valid()
      ensures ticks == old(ticks) + [now]
      ensures timestamps == Since(ticks, now - windowSeconds)
      ensures IsRate(fps, timestamps, now, windowSeconds)
    {
      ArriveAndEvict(now);
      LastArrival(ticks, now, now - windowSeconds);
      if |timestamps| < 2 {
        return 0.0;
      }
      var span := timestamps[|timestamps| - 1] - timestamps[0];
      if span > 0.0 {
        fps := (|timestamps| - 1) as real / span;
        GapsOverSpan(timestamps, now, windowSeconds);
      } else {
        fps := 0.0;
      }
    }

    method ArriveAndEvict(now: real)
      requires Valid()
      requires |ticks| > 0 ==> ticks[|ticks| - 1] <= now
      modifies this
      ensures Valid()
      ensures ticks == old(ticks) + [now]
      ensures timestamps == Since(ticks, now - windowSeconds)
    {
      var cutoff := now - windowSeconds;
      ghost var loose := if |ticks| == 0 then cutoff else LastCutoff();
      assert timestamps == Since(ticks, loose);
      WindowMoves(ticks, now, loose, cutoff);
      WindowOrdered(ticks, now, loose);
      timestamps := timestamps + [now];
      ticks := ticks + [now];
      Evict(cutoff);
    }

    /** The left end is as far as the loop needs to look. */
    method Evict(cutoff: real)
      requires NeverDecreasing(timestamps)
      modifies this`timestamps
      ensures timestamps == Since(old(timestamps), cutoff)
    {
      while |timestamps| > 0 && timestamps[0] < cutoff
        invariant NeverDecreasing(timestamps)
        invariant Since(timestamps, cutoff) == Since(old(timestamps), cutoff)
      {
        EvictOne(timestamps, cutoff);
        timestamps := timestamps[1..];
      }
      SinceAll(timestamps, cutoff);
    }
  }

  /** The new arrival joins a list from which only entries before the new cutoff are missing. */
  lemma WindowMoves(ticks: seq<real>, now: real, loose: real, cutoff: real)
    requires loose <= cutoff
    ensures Since(Since(ticks, loose) + [now], cutoff) == Since(ticks + [now], cutoff)
  {
    SinceAppend(Since(ticks, loose), now, cutoff);
    SinceAppend(ticks, now, cutoff);
    SinceTwice(ticks, loose, cutoff);
  }

  lemma WindowOrdered(ticks: seq<real>, now: real, loose: real)
    requires NeverDecreasing(ticks)
    requires |ticks| > 0 ==> ticks[|ticks| - 1] <= now
    ensures NeverDecreasing(ticks + [now]) && NeverDecreasing(Since(ticks, loose) + [now])
  {
    SinceOrdered(ticks, loose);
    forall t | t in ticks
      ensures t <= now
    {
      var k :| 0 <= k < |ticks| && ticks[k] == t;
    }
    OrderedAppend(ticks, now);
    OrderedAppend(Since(ticks, loose), now);
  }

  lemma OrderedAppend(s: seq<real>, now: real)
    requires NeverDecreasing(s) && forall t :: t in s ==> t <= now
    ensures NeverDecreasing(s + [now])
  {
    forall k | 0 <= k < |s|
      ensures s[k] <= now
    {
      assert s[k] in s;
    }
  }

  lemma EvictOne(ticks: seq<real>, cutoff: real)
    requires |ticks| > 0 && ticks[0] < cutoff && NeverDecreasing(ticks)
    ensures Since(ticks[1..], cutoff) == Since(ticks, cutoff) && NeverDecreasing(ticks[1..])
  {
  }

  lemma LastArrival(ticks: seq<real>, now: real, cutoff: real)
    requires |ticks| > 0 && ticks[|ticks| - 1] == now && NeverDecreasing(ticks)
    ensures var kept := Since(ticks, cutoff);
            |kept| > 0 ==> kept[|kept| - 1] == now && cutoff <= kept[0] <= now
  {
  }

  lemma GapsOverSpan(window: seq<real>, now: real, windowSeconds: real)
    requires |window| >= 2 && now - windowSeconds <= window[0] < now
    ensures IsRate((|window| - 1) as real / (now - window[0]), window, now, windowSeconds)
  {
    SmallerDivisor((|window| - 1) as real, now - window[0], windowSeconds);
  }

  lemma SmallerDivisor(gaps: real, span: real, window: real)
    requires gaps > 0.0 && 0.0 < span <= window
    ensures gaps / span >= gaps / window
    ensures gaps / span > 0.0 && gaps / span * span == gaps
  {
  }

  lemma {:induction false} SinceAppend(ticks: seq<real>, now: real, cutoff: real)
    ensures Since(ticks + [now], cutoff) == Since(ticks, cutoff) + if now >= cutoff then [now] else []
  {
    if |ticks| > 0 {
      SinceAppend(ticks[1..], now, cutoff);
      assert (ticks + [now])[1..] == ticks[1..] + [now];
    }
  }

  /** An earlier, looser cut does not change a later one. */
  lemma {:induction false} SinceTwice(ticks: seq<real>, loose: real, tight: real)
    requires loose <= tight
    ensures Since(Since(ticks, loose), tight) == Since(ticks, tight)
  {
    if |ticks| > 0 {
      SinceTwice(ticks[1..], loose, tight);
      var rest := Since(ticks[1..], loose);
      if ticks[0] >= loose {
        assert Since(ticks, loose) == [ticks[0]] + rest;
        assert ([ticks[0]] + rest)[1..] == rest;
      } else {
        assert Since(ticks, loose) == rest;
      }
    }
  }

  lemma {:induction false} SinceOrdered(ticks: seq<real>, cutoff: real)
    requires NeverDecreasing(ticks)
    ensures NeverDecreasing(Since(ticks, cutoff))
    ensures forall t :: t in Since(ticks, cutoff) ==> t in ticks && t >= cutoff
  {
    if |ticks| > 0 {
      var rest := Since(ticks[1..], cutoff);
      SinceOrdered(ticks[1..], cutoff);
      forall k | 0 <= k < |rest|
        ensures ticks[0] <= rest[k]
      {
        assert rest[k] in rest;
      }
    }
  }

  lemma {:induction false} SinceAll(ticks: seq<real>, cutoff: real)
    requires NeverDecreasing(ticks) && (|ticks| > 0 ==> ticks[0] >= cutoff)
    ensures Since(ticks, cutoff) == ticks
  {
    if |ticks| > 0 {
      SinceAll(ticks[1..], cutoff);
    }
  }
}
