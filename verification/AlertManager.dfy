/** Per-zone cooldown and the isolated, deterrent-first fan-out of alerts. */
module AlertManager {
  import opened Common
  import opened Models

  /** One `maybe_alert` call: the triggered zones and the clock reading taken inside the call. */
  datatype Call = Call(zones: set<ZoneId>, at: real)

  /** The cooldown table and the log of the calls that were dispatched. */
  datatype State = State(lastAlert: map<ZoneId, real>, dispatches: seq<Call>)

  /** A missing zone counts as alerted infinitely long ago. */
  predicate WithinCooldown(lastAlert: map<ZoneId, real>, zones: set<ZoneId>, now: real, cooldown: real) {
    zones != {} && forall z | z in zones :: z in lastAlert && now - lastAlert[z] < cooldown
  }

  function Marked(lastAlert: map<ZoneId, real>, zones: set<ZoneId>, now: real): map<ZoneId, real> {
    lastAlert + map z | z in zones :: now
  }

  function Step(s: State, c: Call, cooldown: real): State {
    if WithinCooldown(s.lastAlert, c.zones, c.at, cooldown) then s
    else State(Marked(s.lastAlert, c.zones, c.at), s.dispatches + [c])
  }

  function Run(calls: seq<Call>, cooldown: real): State {
    if |calls| == 0 then State(map[], [])
    else Step(Run(calls[..|calls| - 1], cooldown), calls[|calls| - 1], cooldown)
  }

  /** There are zones, and each was part of some dispatch less than the cooldown ago. */
  ghost predicate AllRecent(log: seq<Call>, zones: set<ZoneId>, now: real, cooldown: real) {
    zones != {} && forall z :: z in zones ==> Recent(log, z, now, cooldown)
  }

  ghost predicate Recent(log: seq<Call>, z: ZoneId, now: real, cooldown: real) {
    exists d :: d in log && z in d.zones && now - d.at < cooldown
  }

  /** The monotonic clock: readings never decrease. */
  ghost predicate InTimeOrder(calls: seq<Call>) {
    forall i, j :: 0 <= i < j < |calls| ==> calls[i].at <= calls[j].at
  }

  type Handler = string

  /** One handler invocation. */
  datatype HandlerCall = HandlerCall(handler: Handler, frameId: int, zones: set<ZoneId>)

  function FanOut(handlers: seq<Handler>, frameId: int, zones: set<ZoneId>): seq<HandlerCall> {
    if |handlers| == 0 then []
    else
      var n := |handlers| - 1;
      FanOut(handlers[..n], frameId, zones) + [HandlerCall(handlers[n], frameId, zones)]
  }

  /** The handlers that raise, in order. */
  function Raising(handlers: seq<Handler>, raises: Handler -> bool): seq<Handler> {
    if |handlers| == 0 then []
    else
      var n := |handlers| - 1;
      Raising(handlers[..n], raises) + if raises(handlers[n]) then [handlers[n]] else []
  }

  /** What the list of failures is: empty for no handlers, a handler's own when there is one, and the first
      part's before the second's. Hence exactly the raising handlers, in order, each as often as it is
      registered. */
  lemma {:induction false} RaisingIs(a: seq<Handler>, b: seq<Handler>, h: Handler, raises: Handler -> bool)
    ensures Raising([], raises) == []
    ensures Raising([h], raises) == if raises(h) then [h] else []
    ensures Raising(a + b, raises) == Raising(a, raises) + Raising(b, raises)
    ensures forall x :: x in Raising(a, raises) <==> x in a && raises(x)
    decreases |a| + |b|
  {
    assert [h][..0] == [];
    if |b| > 0 {
      var n := |b| - 1;
      RaisingIs(a, b[..n], h, raises);
      assert (a + b)[..|a + b| - 1] == a + b[..n];
    } else {
      assert a + b == a;
      if |a| > 0 {
        var n := |a| - 1;
        RaisingIs(a[..n], [], h, raises);
        assert forall x :: x in a <==> x in a[..n] || x == a[n];
      }
    }
  }

  lemma {:induction false} FanOutAt(handlers: seq<Handler>, frameId: int, zones: set<ZoneId>)
    ensures var fired := FanOut(handlers, frameId, zones);
            && |fired| == |handlers|
            && forall i :: 0 <= i < |handlers| ==> fired[i] == HandlerCall(handlers[i], frameId, zones)
  {
    if |handlers| > 0 {
      FanOutAt(handlers[..|handlers| - 1], frameId, zones);
    }
  }

  class AlertManager {
    const deterrent: Option<Handler>
    const handlers: seq<Handler>
    const cooldownSeconds: real
    var lastAlert: map<ZoneId, real>
    /** Every handler invocation made so far, in order. */
    var journal: seq<HandlerCall>
    /** The handlers whose exceptions were caught and logged, in order. */
    var failures: seq<Handler>
    /** Every `maybe_alert` call made so far, in order. */
    ghost var calls: seq<Call>

    ghost predicate Valid()
      reads this
    {
      lastAlert == Run(calls, cooldownSeconds).lastAlert
    }

    constructor (handlers: seq<Handler>, cooldownSeconds: real, deterrent: Option<Handler> := None)
      ensures Valid() && calls == [] && journal == [] && failures == []
      ensures this.handlers == handlers && this.deterrent == deterrent
      ensures this.cooldownSeconds == cooldownSeconds
    {
      this.deterrent := deterrent;
      this.handlers := handlers;
      this.cooldownSeconds := cooldownSeconds;
      this.lastAlert := map[];
      this.journal := [];
      this.failures := [];
      this.calls := [];
    }

    function AllHandlers(): seq<Handler> {
      (if deterrent.Some? then [deterrent.value] else []) + handlers
    }

    /** A fan-out invokes the deterrent, if there is one, before every other handler, the others in their
        order, and each exactly once. */
    lemma DeterrentFirst(frameId: int, zones: set<ZoneId>)
      ensures var fired := FanOut(AllHandlers(), frameId, zones);
              var first := if deterrent.Some? then 1 else 0;
              && |fired| == first + |handlers|
              && (deterrent.Some? ==> fired[0] == HandlerCall(deterrent.value, frameId, zones))
              && forall i :: 0 <= i < |handlers| ==> fired[first + i] == HandlerCall(handlers[i], frameId, zones)
    {
      FanOutAt(AllHandlers(), frameId, zones);
    }

    /** The call is suppressed exactly when it names a zone and every zone it names was part of an
        earlier dispatch less than the cooldown ago. A dispatch marks every zone and fans out to every
        handler; a suppressed call changes nothing. */
    method MaybeAlert(frameId: int, zones: set<ZoneId>, now: real, raises: Handler -> bool)
      returns (dispatched: bool)
      requires Valid()
      requires InTimeOrder(calls + [Call(zones, now)])
      modifies this
      ensures Valid()
      ensures calls == old(calls) + [Call(zones, now)]
      ensures dispatched <==> Run(calls, cooldownSeconds).dispatches
                              == old(Run(calls, cooldownSeconds).dispatches) + [Call(zones, now)]
      ensures !dispatched <==> AllRecent(old(Run(calls, cooldownSeconds).dispatches), zones, now, cooldownSeconds)
      ensures !dispatched ==> lastAlert == old(lastAlert) && journal == old(journal) && failures == old(failures)
      ensures dispatched ==> journal == old(journal) + FanOut(AllHandlers(), frameId, zones)
      ensures dispatched ==> failures == old(failures) + Raising(AllHandlers(), raises)
      ensures dispatched ==> forall z :: z in zones ==> z in lastAlert && lastAlert[z] == now
    {
      ghost var c := Call(zones, now);
      SuppressedIff(calls, c, cooldownSeconds);
      RunStep(calls, c, cooldownSeconds);
      calls := calls + [c];
      if WithinCooldown(lastAlert, zones, now, cooldownSeconds) {
        return false;
      }
      MarkZones(zones, now);
      TriggerAll(frameId, zones, raises);
      dispatched := true;
    }

    method MarkZones(zones: set<ZoneId>, now: real)
      modifies this`lastAlert
      ensures lastAlert == Marked(old(lastAlert), zones, now)
    {
      var rest := zones;
      while rest != {}
        invariant rest <= zones
        invariant lastAlert == Marked(old(lastAlert), zones - rest, now)
        decreases rest
      {
        var z :| z in rest;
        lastAlert := lastAlert[z := now];
        rest := rest - {z};
      }
      assert zones - rest == zones;
    }

    /** Every handler is invoked, whichever of them raise: an exception is logged, and the loop goes on. */
    method TriggerAll(frameId: int, zones: set<ZoneId>, raises: Handler -> bool)
      modifies this`journal, this`failures
      ensures journal == old(journal) + FanOut(AllHandlers(), frameId, zones)
      ensures failures == old(failures) + Raising(AllHandlers(), raises)
    {
      var all := AllHandlers();
      for n := 0 to |all|
        invariant journal == old(journal) + FanOut(all[..n], frameId, zones)
        invariant failures == old(failures) + Raising(all[..n], raises)
      {
        assert all[..n + 1][..n] == all[..n];
        var outcome := Trigger(all[n], frameId, zones, raises);
        if outcome.Err? {
          failures := failures + [outcome.error];
        }
      }
      assert all[..|all|] == all;
    }

    /** One handler; it may raise at any point of its work. */
    method Trigger(handler: Handler, frameId: int, zones: set<ZoneId>, raises: Handler -> bool)
      returns (outcome: Result<(), Handler>)
      modifies this`journal
      ensures journal == old(journal) + [HandlerCall(handler, frameId, zones)]
      ensures outcome == if raises(handler) then Err(handler) else Ok(())
    {
      journal := journal + [HandlerCall(handler, frameId, zones)];
      if raises(handler) {
        return Err(handler);
      }
      return Ok(());
    }
  }

  /** The cooldown table holds, for each zone, the time of its latest dispatch, and no other zone. */
  ghost predicate Agrees(s: State) {
    && (forall k, z :: 0 <= k < |s.dispatches| && z in s.dispatches[k].zones ==>
          z in s.lastAlert && s.dispatches[k].at <= s.lastAlert[z])
    && (forall z :: z in s.lastAlert ==>
          exists k :: 0 <= k < |s.dispatches| && z in s.dispatches[k].zones && s.dispatches[k].at == s.lastAlert[z])
  }

  /** Dispatches are some of the calls, so none is later than the last call. */
  lemma {:induction false} DispatchesAreCalls(calls: seq<Call>, cooldown: real)
    ensures forall d :: d in Run(calls, cooldown).dispatches ==> d in calls
  {
    if |calls| > 0 {
      DispatchesAreCalls(calls[..|calls| - 1], cooldown);
      assert calls == calls[..|calls| - 1] + [calls[|calls| - 1]];
    }
  }

  lemma MarkAgrees(s: State, c: Call)
    requires Agrees(s)
    requires forall k :: 0 <= k < |s.dispatches| ==> s.dispatches[k].at <= c.at
    ensures Agrees(State(Marked(s.lastAlert, c.zones, c.at), s.dispatches + [c]))
  {
    var s' := State(Marked(s.lastAlert, c.zones, c.at), s.dispatches + [c]);
    forall z | z in s'.lastAlert
      ensures exists k :: 0 <= k < |s'.dispatches| && z in s'.dispatches[k].zones
                          && s'.dispatches[k].at == s'.lastAlert[z]
    {
      if z in c.zones {
        assert s'.dispatches[|s.dispatches|] == c;
      } else {
        var k :| 0 <= k < |s.dispatches| && z in s.dispatches[k].zones && s.dispatches[k].at == s.lastAlert[z];
        assert s'.dispatches[k] == s.dispatches[k];
      }
    }
  }

  lemma {:induction false} TableAgreesWithLog(calls: seq<Call>, cooldown: real)
    requires InTimeOrder(calls)
    ensures Agrees(Run(calls, cooldown))
  {
    if |calls| > 0 {
      var shorter, c := calls[..|calls| - 1], calls[|calls| - 1];
      TableAgreesWithLog(shorter, cooldown);
      DispatchesAreCalls(shorter, cooldown);
      var s := Run(shorter, cooldown);
      forall k | 0 <= k < |s.dispatches|
        ensures s.dispatches[k].at <= c.at
      {
        assert s.dispatches[k] in shorter;
      }
      MarkAgrees(s, c);
    }
  }

  /** One more call adds itself to the log, unless it is suppressed. */
  lemma RunStep(calls: seq<Call>, c: Call, cooldown: real)
    ensures Run(calls + [c], cooldown) == Step(Run(calls, cooldown), c, cooldown)
  {
  }

  /** A zone is fresh in the table exactly when a recent dispatch names it. */
  lemma RecentIff(s: State, z: ZoneId, now: real, cooldown: real)
    requires Agrees(s)
    ensures z in s.lastAlert && now - s.lastAlert[z] < cooldown
       <==> Recent(s.dispatches, z, now, cooldown)
  {
  }

  /** Suppression read off the log of dispatches instead of the table; a suppressed call leaves the
      whole state as it was. */
  lemma SuppressedIff(calls: seq<Call>, c: Call, cooldown: real)
    requires InTimeOrder(calls + [c])
    ensures var s := Run(calls, cooldown);
            && (WithinCooldown(s.lastAlert, c.zones, c.at, cooldown)
                <==> AllRecent(s.dispatches, c.zones, c.at, cooldown))
            && (WithinCooldown(s.lastAlert, c.zones, c.at, cooldown) <==> Run(calls + [c], cooldown) == s)
            && (!WithinCooldown(s.lastAlert, c.zones, c.at, cooldown)
                <==> Run(calls + [c], cooldown).dispatches == s.dispatches + [c])
  {
    var s := Run(calls, cooldown);
    assert InTimeOrder(calls) by {
      assert forall i :: 0 <= i < |calls| ==> calls[i] == (calls + [c])[i];
    }
    TableAgreesWithLog(calls, cooldown);
    RunStep(calls, c, cooldown);
    forall z | z in c.zones
      ensures z in s.lastAlert && c.at - s.lastAlert[z] < cooldown <==> Recent(s.dispatches, z, c.at, cooldown)
    {
      RecentIff(s, z, c.at, cooldown);
    }
    assert |s.dispatches + [c]| != |s.dispatches|;
  }

  /** Zone `z` of dispatch `k` was off cooldown: no earlier dispatch naming it is less than the
      cooldown before. */
  ghost predicate Witness(log: seq<Call>, cooldown: real, k: nat, z: ZoneId)
    requires k < |log|
  {
    z in log[k].zones && forall j :: 0 <= j < k && z in log[j].zones ==> log[k].at - log[j].at >= cooldown
  }

  ghost predicate Justified(log: seq<Call>, cooldown: real) {
    forall k :: 0 <= k < |log| && log[k].zones != {} ==> exists z :: Witness(log, cooldown, k, z)
  }

  /** Every dispatch that names a zone names one that was off cooldown. */
  lemma {:induction false} DispatchesJustified(calls: seq<Call>, cooldown: real)
    requires InTimeOrder(calls)
    ensures Justified(Run(calls, cooldown).dispatches, cooldown)
  {
    if |calls| > 0 {
      var shorter, c := calls[..|calls| - 1], calls[|calls| - 1];
      DispatchesJustified(shorter, cooldown);
      assert shorter + [c] == calls;
      SuppressedIff(shorter, c, cooldown);
      var log, log' := Run(shorter, cooldown).dispatches, Run(calls, cooldown).dispatches;
      forall k | 0 <= k < |log'| && log'[k].zones != {}
        ensures exists z :: Witness(log', cooldown, k, z)
      {
        if k < |log| {
          assert log'[k] == log[k];
          var z :| Witness(log, cooldown, k, z);
          assert Witness(log', cooldown, k, z);
        } else {
          var z :| z in c.zones && !Recent(log, z, c.at, cooldown);
          assert Witness(log', cooldown, k, z);
        }
      }
    }
  }

  /** The cooldown is per zone but the test is per call: a call that names a zone dispatched less than a
      cooldown ago is dispatched all the same exactly when it also names a zone that was not. */
  lemma RepeatIff(calls: seq<Call>, c: Call, cooldown: real, z: ZoneId)
    requires InTimeOrder(calls + [c])
    requires z in c.zones && Recent(Run(calls, cooldown).dispatches, z, c.at, cooldown)
    ensures var log := Run(calls, cooldown).dispatches;
            Run(calls + [c], cooldown).dispatches == log + [c]
            <==> exists other :: other in c.zones && other != z && !Recent(log, other, c.at, cooldown)
  {
    SuppressedIff(calls, c, cooldown);
  }

  /** It happens: the second call comes a fifth of the cooldown after the first and repeats its zone. */
  lemma RepeatHappens()
    ensures var calls := [Call({"a"}, 0.0), Call({"a", "b"}, 1.0)];
            InTimeOrder(calls) && Run(calls, 5.0).dispatches == calls
  {
    var first, second := Call({"a"}, 0.0), Call({"a", "b"}, 1.0);
    RunStep([], first, 5.0);
    RunStep([first], second, 5.0);
    var s := Run([first], 5.0);
    assert [] + [first] == [first] && [first] + [second] == [first, second];
    assert "b" !in s.lastAlert && "b" in second.zones;
  }

  /** In a log: two dispatches of one zone less than a cooldown apart mean that the later named another
      zone, off cooldown. Dispatches that name one and the same single zone are a cooldown apart. */
  lemma RepeatNeedsAnother(calls: seq<Call>, cooldown: real, j: nat, k: nat, z: ZoneId)
    requires InTimeOrder(calls)
    requires j < k < |Run(calls, cooldown).dispatches|
    requires z in Run(calls, cooldown).dispatches[j].zones && z in Run(calls, cooldown).dispatches[k].zones
    ensures var log := Run(calls, cooldown).dispatches;
            log[k].at - log[j].at < cooldown ==> exists other :: other != z && Witness(log, cooldown, k, other)
  {
    DispatchesJustified(calls, cooldown);
    var log := Run(calls, cooldown).dispatches;
    assert log[k].zones != {};
    var other :| Witness(log, cooldown, k, other);
  }

  /** The dispatches at times in `[from, to)` that name a zone, by position in the log. */
  ghost function NamingIn(log: seq<Call>, from: real, to: real): set<int> {
    set k | 0 <= k < |log| && from <= log[k].at < to && log[k].zones != {}
  }

  ghost function ZonesIn(log: seq<Call>, from: real, to: real): set<ZoneId> {
    set k, z | k in NamingIn(log, from, to) && z in log[k].zones :: z
  }

  lemma {:induction false} WindowBound(log: seq<Call>, cooldown: real, from: real)
    requires Justified(log, cooldown)
    ensures |NamingIn(log, from, from + cooldown)| <= |ZonesIn(log, from, from + cooldown)|
  {
    var to := from + cooldown;
    if |log| == 0 {
      assert NamingIn(log, from, to) == {};
    } else {
      var shorter := log[..|log| - 1];
      JustifiedPrefix(log, cooldown);
      WindowBound(shorter, cooldown, from);
      PrefixInWindow(log, from, to);
      if |log| - 1 in NamingIn(log, from, to) {
        var z := LastWitness(log, cooldown);
        NewZoneInWindow(log, cooldown, from, z);
        Fewer(ZonesIn(shorter, from, to) + {z}, ZonesIn(log, from, to));
      } else {
        Fewer(ZonesIn(shorter, from, to), ZonesIn(log, from, to));
      }
    }
  }

  lemma LastWitness(log: seq<Call>, cooldown: real) returns (z: ZoneId)
    requires |log| > 0 && Justified(log, cooldown) && log[|log| - 1].zones != {}
    ensures Witness(log, cooldown, |log| - 1, z)
  {
    z :| Witness(log, cooldown, |log| - 1, z);
  }

  lemma JustifiedPrefix(log: seq<Call>, cooldown: real)
    requires |log| > 0 && Justified(log, cooldown)
    ensures Justified(log[..|log| - 1], cooldown)
  {
    var shorter := log[..|log| - 1];
    forall j | 0 <= j < |shorter| && shorter[j].zones != {}
      ensures exists z :: Witness(shorter, cooldown, j, z)
    {
      assert log[j].zones != {};
      var z :| Witness(log, cooldown, j, z);
      assert Witness(shorter, cooldown, j, z);
    }
  }

  lemma PrefixInWindow(log: seq<Call>, from: real, to: real)
    requires |log| > 0
    ensures var k := |log| - 1;
            && |NamingIn(log, from, to)|
               == |NamingIn(log[..k], from, to)| + (if k in NamingIn(log, from, to) then 1 else 0)
            && ZonesIn(log[..k], from, to) <= ZonesIn(log, from, to)
  {
    var k := |log| - 1;
    var before := NamingIn(log[..k], from, to);
    assert NamingIn(log, from, to) == before + (if from <= log[k].at < to && log[k].zones != {} then {k} else {});
    assert k !in before;
    forall z | z in ZonesIn(log[..k], from, to)
      ensures z in ZonesIn(log, from, to)
    {
      var j :| j in before && z in log[..k][j].zones;
      assert j in NamingIn(log, from, to) && z in log[j].zones;
    }
  }

  /** The witness of the last dispatch of a window was not named earlier in that window. */
  lemma NewZoneInWindow(log: seq<Call>, cooldown: real, from: real, z: ZoneId)
    requires |log| > 0 && |log| - 1 in NamingIn(log, from, from + cooldown)
    requires Witness(log, cooldown, |log| - 1, z)
    ensures z in ZonesIn(log, from, from + cooldown)
    ensures z !in ZonesIn(log[..|log| - 1], from, from + cooldown)
  {
  }

  /** The rate bound: over any run, the dispatches in a half-open window of one cooldown that name a
      zone are no more than the zones they name. */
  lemma RateBound(calls: seq<Call>, cooldown: real, from: real)
    requires InTimeOrder(calls)
    ensures var log := Run(calls, cooldown).dispatches;
            |NamingIn(log, from, from + cooldown)| <= |ZonesIn(log, from, from + cooldown)|
  {
    DispatchesJustified(calls, cooldown);
    WindowBound(Run(calls, cooldown).dispatches, cooldown, from);
  }

  /** The same bound against any set that holds every zone of the run. */
  lemma CooldownBound(calls: seq<Call>, cooldown: real, from: real, zones: set<ZoneId>)
    requires InTimeOrder(calls)
    requires forall c :: c in calls ==> c.zones <= zones
    ensures |NamingIn(Run(calls, cooldown).dispatches, from, from + cooldown)| <= |zones|
  {
    var log, to := Run(calls, cooldown).dispatches, from + cooldown;
    RateBound(calls, cooldown, from);
    DispatchesAreCalls(calls, cooldown);
    forall z | z in ZonesIn(log, from, to)
      ensures z in zones
    {
      var k :| k in NamingIn(log, from, to) && z in log[k].zones;
      assert log[k] in log;
    }
    Fewer(ZonesIn(log, from, to), zones);
  }

  lemma SplitWindow(log: seq<Call>, from: real, mid: real, to: real)
    requires from <= mid <= to
    ensures |NamingIn(log, from, to)| == |NamingIn(log, from, mid)| + |NamingIn(log, mid, to)|
  {
    var a, b := NamingIn(log, from, mid), NamingIn(log, mid, to);
    assert NamingIn(log, from, to) == a + b;
    assert a !! b;
  }

  /** `m` cooldowns after `from`. */
  ghost function Later(from: real, cooldown: real, m: nat): real {
    if m == 0 then from else Later(from, cooldown, m - 1) + cooldown
  }

  ghost function Times(n: nat, m: nat): nat {
    if m == 0 then 0 else Times(n, m - 1) + n
  }

  lemma {:induction false} LaterIs(from: real, cooldown: real, m: nat)
    ensures Later(from, cooldown, m) == from + m as real * cooldown
  {
    if m > 0 {
      LaterIs(from, cooldown, m - 1);
      assert m as real == (m - 1) as real + 1.0;
    }
  }

  lemma {:induction false} TimesIs(n: nat, m: nat)
    ensures Times(n, m) == n * m
  {
    if m > 0 {
      TimesIs(n, m - 1);
    }
  }

  lemma OneMoreWindow(calls: seq<Call>, cooldown: real, from: real, mid: real, zones: set<ZoneId>)
    requires InTimeOrder(calls)
    requires cooldown >= 0.0 && from <= mid
    requires forall c :: c in calls ==> c.zones <= zones
    ensures var log := Run(calls, cooldown).dispatches;
            |NamingIn(log, from, mid + cooldown)| <= |NamingIn(log, from, mid)| + |zones|
  {
    CooldownBound(calls, cooldown, mid, zones);
    SplitWindow(Run(calls, cooldown).dispatches, from, mid, mid + cooldown);
  }

  lemma {:induction false} StepwiseBound(calls: seq<Call>, cooldown: real, from: real, zones: set<ZoneId>, m: nat)
    requires InTimeOrder(calls)
    requires cooldown >= 0.0
    requires forall c :: c in calls ==> c.zones <= zones
    ensures from <= Later(from, cooldown, m)
    ensures |NamingIn(Run(calls, cooldown).dispatches, from, Later(from, cooldown, m))| <= Times(|zones|, m)
  {
    if m == 0 {
      assert NamingIn(Run(calls, cooldown).dispatches, from, from) == {};
    } else {
      StepwiseBound(calls, cooldown, from, zones, m - 1);
      OneMoreWindow(calls, cooldown, from, Later(from, cooldown, m - 1), zones);
    }
  }

  /** With `n` zones in all, `m` cooldowns of time hold at most `n * m` dispatches that name a zone. */
  lemma LongRunBound(calls: seq<Call>, cooldown: real, from: real, zones: set<ZoneId>, m: nat)
    requires InTimeOrder(calls)
    requires cooldown >= 0.0
    requires forall c :: c in calls ==> c.zones <= zones
    ensures |NamingIn(Run(calls, cooldown).dispatches, from, from + m as real * cooldown)| <= |zones| * m
  {
    StepwiseBound(calls, cooldown, from, zones, m);
    LaterIs(from, cooldown, m);
    TimesIs(|zones|, m);
  }
}
