/** The result callback: classify, debounce, publish, alert; and what its runs guarantee. */
module Pipeline {
  import opened Common
  import opened Models
  import opened Geometry
  import opened Debounce
  import opened Dashboard
  import AM = AlertManager
  import FT = FpsTracker

  /** One result as the callback sees it: the server's answer, the zone snapshot, and the clock
      readings taken while handling it. */
  datatype Observation = Observation(
    frameId: int, boxes: seq<BoundingBox>, zones: seq<Zone>, tickAt: real, alertAt: real, wallTime: int)

  datatype Config = Config(scene: Scene, historySize: int, cooldown: real)

  ghost function Triggered(cfg: Config, o: Observation): set<ZoneId> {
    Analysis(cfg.scene, o.boxes, o.zones).triggeredZones
  }

  ghost function Record(cfg: Config, o: Observation): FrameRecord {
    FrameRecord(o.frameId, Analysis(cfg.scene, o.boxes, o.zones).elevated)
  }

  ghost function Records(cfg: Config, obs: seq<Observation>): seq<FrameRecord> {
    seq(|obs|, i requires 0 <= i < |obs| => Record(cfg, obs[i]))
  }

  /** The debounced state after all of `obs`. */
  ghost predicate Actionable(cfg: Config, obs: seq<Observation>) {
    AdjacentGapWithin(Retained(Records(cfg, obs), cfg.historySize), DEFAULT_MAX_GAP)
  }

  ghost function CallFor(cfg: Config, o: Observation): AM.Call {
    AM.Call(Triggered(cfg, o), o.alertAt)
  }

  /** Both clocks are monotonic. */
  ghost predicate InOrder(obs: seq<Observation>) {
    forall i, j :: 0 <= i < j < |obs| ==> obs[i].alertAt <= obs[j].alertAt && obs[i].tickAt <= obs[j].tickAt
  }

  // ----- The callback -----

  /** Everything ever added to the callback's collaborators. */
  datatype Histories = Histories(
    log: seq<FrameRecord>, calls: seq<AM.Call>, ticks: seq<real>, entries: seq<AlertHistoryEntry>)

  const NOTHING := Histories([], [], [], [])

  ghost predicate ActionableNext(cfg: Config, h: Histories, o: Observation) {
    AdjacentGapWithin(Retained(h.log + [Record(cfg, o)], cfg.historySize), DEFAULT_MAX_GAP)
  }

  /** One result: it is recorded and ticked; if that makes the history actionable, the manager is called
      and the dashboard gets an entry, whether or not the manager then dispatches. */
  ghost function Next(cfg: Config, h: Histories, o: Observation): Histories {
    var heard := h.(log := h.log + [Record(cfg, o)], ticks := h.ticks + [o.tickAt]);
    if ActionableNext(cfg, h, o) then
      heard.(calls := h.calls + [CallFor(cfg, o)],
             entries := h.entries + [AlertHistoryEntry(o.wallTime, Triggered(cfg, o), o.frameId)])
    else heard
  }

  /** That result leads to a dispatch. */
  ghost predicate DispatchesNext(cfg: Config, h: Histories, o: Observation) {
    && ActionableNext(cfg, h, o)
    && !AM.WithinCooldown(AM.Run(h.calls, cfg.cooldown).lastAlert, Triggered(cfg, o), o.alertAt, cfg.cooldown)
  }

  ghost function RunOf(cfg: Config, obs: seq<Observation>): Histories {
    if |obs| == 0 then NOTHING else Next(cfg, RunOf(cfg, obs[..|obs| - 1]), obs[|obs| - 1])
  }

  /** The `maybe_alert` calls made while handling `obs`. */
  ghost function Calls(cfg: Config, obs: seq<Observation>): seq<AM.Call> {
    RunOf(cfg, obs).calls
  }

  /** Result `k` led to a dispatch. */
  ghost predicate DispatchedAt(cfg: Config, obs: seq<Observation>, k: int)
    requires 0 <= k < |obs|
  {
    DispatchesNext(cfg, RunOf(cfg, obs[..k]), obs[k])
  }

  class ResultHandler {
    /** The scene, and the capacity and cooldown of the collaborators below. */
    const cfg: Config
    const history: DetectionHistory
    const manager: AM.AlertManager
    const dashboard: DashboardState
    const fps: FT.FpsTracker

    ghost predicate Valid()
      reads this, history, manager, dashboard, fps
    {
      && history.Valid() && manager.Valid() && dashboard.Valid() && fps.Valid()
      && history.maxSize == cfg.historySize && manager.cooldownSeconds == cfg.cooldown
    }

    ghost function View(): Histories
      reads history, manager, dashboard, fps
    {
      Histories(history.log, manager.calls, fps.ticks, dashboard.recorded)
    }

    constructor (cfg: Config, history: DetectionHistory, manager: AM.AlertManager, dashboard: DashboardState,
                 fps: FT.FpsTracker)
      requires history.Valid() && manager.Valid() && dashboard.Valid() && fps.Valid()
      requires history.maxSize == cfg.historySize && manager.cooldownSeconds == cfg.cooldown
      ensures Valid() && this.cfg == cfg
      ensures this.history == history && this.manager == manager && this.dashboard == dashboard && this.fps == fps
    {
      this.cfg := cfg;
      this.history := history;
      this.manager := manager;
      this.dashboard := dashboard;
      this.fps := fps;
    }

    /** Handles one result. `frame` is what the session still retains under the result's id. */
    method OnResult(o: Observation, latency: real, frame: Option<Frame>, raises: AM.Handler -> bool)
      returns (actionable: bool, dispatched: bool)
      requires Valid()
      requires AM.InTimeOrder(manager.calls + [CallFor(cfg, o)])
      requires |fps.ticks| > 0 ==> fps.ticks[|fps.ticks| - 1] <= o.tickAt
      modifies history, manager, dashboard, fps
      ensures Valid()
      ensures View() == Next(cfg, old(View()), o)
      ensures actionable <==> ActionableNext(cfg, old(View()), o)
      ensures dispatched <==> DispatchesNext(cfg, old(View()), o)
      ensures manager.journal == if dispatched then
                  old(manager.journal) + AM.FanOut(manager.AllHandlers(), o.frameId, Triggered(cfg, o))
                else old(manager.journal)
      ensures dashboard.frame == if frame.Some? then frame else old(dashboard.frame)
      ensures dashboard.detection == DetectionSnapshot(o.boxes, Triggered(cfg, o), actionable)
      ensures dashboard.stats.serverConnected && dashboard.stats.latencyMs == latency * 1000.0
      ensures FT.IsRate(dashboard.stats.fps, FT.Since(fps.ticks, o.tickAt - fps.windowSeconds),
                        o.tickAt, fps.windowSeconds)
    {
      var zones;
      zones, actionable := Classify(o);
      Publish(o, zones, actionable, latency, frame);
      dispatched := Alert(o, zones, actionable, raises);
    }

    method Classify(o: Observation) returns (zones: set<ZoneId>, actionable: bool)
      requires history.Valid() && history.maxSize == cfg.historySize
      modifies history
      ensures history.Valid()
      ensures zones == Triggered(cfg, o)
      ensures history.log == old(history.log) + [Record(cfg, o)]
      ensures actionable <==> AdjacentGapWithin(Retained(history.log, cfg.historySize), DEFAULT_MAX_GAP)
    {
      var analysis := AnalyzeDetections(cfg.scene, o.boxes, o.zones);
      history.Add(o.frameId, analysis.elevated);
      actionable := history.IsConsecutiveElevated();
      zones := analysis.triggeredZones;
    }

    method Publish(o: Observation, zones: set<ZoneId>, actionable: bool, latency: real, frame: Option<Frame>)
      requires dashboard.Valid() && fps.Valid()
      requires |fps.ticks| > 0 ==> fps.ticks[|fps.ticks| - 1] <= o.tickAt
      modifies dashboard, fps
      ensures dashboard.Valid() && fps.Valid()
      ensures fps.ticks == old(fps.ticks) + [o.tickAt]
      ensures dashboard.recorded == old(dashboard.recorded)
      ensures dashboard.frame == if frame.Some? then frame else old(dashboard.frame)
      ensures dashboard.detection == DetectionSnapshot(o.boxes, zones, actionable)
      ensures dashboard.stats.serverConnected && dashboard.stats.latencyMs == latency * 1000.0
      ensures FT.IsRate(dashboard.stats.fps, FT.Since(fps.ticks, o.tickAt - fps.windowSeconds),
                        o.tickAt, fps.windowSeconds)
    {
      if frame.Some? {
        dashboard.UpdateFrame(frame.value);
      }
      dashboard.UpdateDetection(o.boxes, zones, actionable);
      ShowRate(o.tickAt, latency * 1000.0);
    }

    method ShowRate(tickAt: real, latencyMs: real)
      requires dashboard.Valid() && fps.Valid()
      requires |fps.ticks| > 0 ==> fps.ticks[|fps.ticks| - 1] <= tickAt
      modifies dashboard`stats, fps
      ensures dashboard.Valid() && fps.Valid()
      ensures fps.ticks == old(fps.ticks) + [tickAt]
      ensures dashboard.stats == StatsSnapshot(dashboard.stats.fps, latencyMs, true)
      ensures FT.IsRate(dashboard.stats.fps, FT.Since(fps.ticks, tickAt - fps.windowSeconds),
                        tickAt, fps.windowSeconds)
    {
      var rate := fps.Tick(tickAt);
      dashboard.UpdateStats(rate, latencyMs, true);
    }

    method Alert(o: Observation, zones: set<ZoneId>, actionable: bool, raises: AM.Handler -> bool)
      returns (dispatched: bool)
      requires manager.Valid() && dashboard.Valid()
      requires AM.InTimeOrder(manager.calls + [AM.Call(zones, o.alertAt)])
      modifies manager, dashboard`alerts, dashboard`recorded
      ensures manager.Valid() && dashboard.Valid()
      ensures manager.calls == if actionable then old(manager.calls) + [AM.Call(zones, o.alertAt)]
                               else old(manager.calls)
      ensures dispatched <==> actionable && !AM.WithinCooldown(
                AM.Run(old(manager.calls), manager.cooldownSeconds).lastAlert,
                zones, o.alertAt, manager.cooldownSeconds)
      ensures manager.journal == if dispatched then
                  old(manager.journal) + AM.FanOut(manager.AllHandlers(), o.frameId, zones)
                else old(manager.journal)
      ensures dashboard.recorded == if actionable then
                  old(dashboard.recorded) + [AlertHistoryEntry(o.wallTime, zones, o.frameId)]
                else old(dashboard.recorded)
    {
      dispatched := false;
      if actionable {
        AM.SuppressedIff(manager.calls, AM.Call(zones, o.alertAt), manager.cooldownSeconds);
        dispatched := manager.MaybeAlert(o.frameId, zones, o.alertAt, raises);
        dashboard.RecordAlert(AlertHistoryEntry(o.wallTime, zones, o.frameId));
      }
    }
  }

  /** The callback as the entry point puts it together: a history of 20 results, a rate over 5 seconds, 50
      alerts on the dashboard, and nothing handled yet. */
  method Assemble(scene: Scene, cooldown: real, handlers: seq<AM.Handler>, deterrent: Option<AM.Handler>)
    returns (handler: ResultHandler)
    ensures fresh(handler) && handler.Valid() && handler.View() == NOTHING
    ensures handler.cfg == Config(scene, 20, cooldown)
    ensures handler.fps.windowSeconds == 5.0 && handler.dashboard.capacity == 50
    ensures handler.manager.handlers == handlers && handler.manager.deterrent == deterrent
  {
    var history := new DetectionHistory();
    var manager := new AM.AlertManager(handlers, cooldown, deterrent);
    var dashboard := new DashboardState();
    var fps := new FT.FpsTracker();
    handler := new ResultHandler(Config(scene, DEFAULT_MAX_SIZE, cooldown), history, manager, dashboard, fps);
  }

  /** The callback, run on one result after another, records every result and calls the manager exactly
      for the actionable ones. */
  lemma {:induction false} RunRecords(cfg: Config, obs: seq<Observation>)
    ensures RunOf(cfg, obs).log == Records(cfg, obs)
    ensures |obs| > 0 ==>
              var before := Calls(cfg, obs[..|obs| - 1]);
              Calls(cfg, obs) == if Actionable(cfg, obs) then before + [CallFor(cfg, obs[|obs| - 1])] else before
  {
    if |obs| > 0 {
      var n := |obs| - 1;
      RunRecords(cfg, obs[..n]);
      RecordsGrow(cfg, obs, n);
      assert obs[..n + 1] == obs;
    }
  }

  lemma RecordsGrow(cfg: Config, obs: seq<Observation>, n: nat)
    requires n < |obs|
    ensures Records(cfg, obs[..n + 1]) == Records(cfg, obs[..n]) + [Record(cfg, obs[n])]
  {
  }

  /** The dashboard's history has one entry for every call of the manager, dispatched or suppressed: entry
      `i` is about the result that made call `i`, at its wall time, under its frame id; and every result,
      whatever it led to, ticked the rate. */
  lemma {:induction false} RunShowsCalls(cfg: Config, obs: seq<Observation>)
    ensures ShowsCalls(cfg, obs, RunOf(cfg, obs))
  {
    if |obs| > 0 {
      var n := |obs| - 1;
      RunShowsCalls(cfg, obs[..n]);
      NextShowsCalls(cfg, obs[..n], RunOf(cfg, obs[..n]), obs[n]);
      assert obs[..n] + [obs[n]] == obs;
    }
  }

  ghost predicate ShowsCalls(cfg: Config, obs: seq<Observation>, h: Histories) {
    && |h.entries| == |h.calls|
    && (forall i :: 0 <= i < |h.calls| ==> Explained(cfg, obs, h, i))
    && |h.ticks| == |obs|
    && forall k :: 0 <= k < |obs| ==> h.ticks[k] == obs[k].tickAt
  }

  lemma NextShowsCalls(cfg: Config, obs: seq<Observation>, h: Histories, o: Observation)
    requires ShowsCalls(cfg, obs, h)
    ensures ShowsCalls(cfg, obs + [o], Next(cfg, h, o))
  {
    var all, h' := obs + [o], Next(cfg, h, o);
    forall i | 0 <= i < |h'.calls|
      ensures Explained(cfg, all, h', i)
    {
      if i < |h.calls| {
        assert Explained(cfg, obs, h, i);
        var k :| 0 <= k < |obs| && MadeCall(cfg, h, i, obs[k]);
        assert MadeCall(cfg, h', i, all[k]);
      } else {
        assert MadeCall(cfg, h', i, all[|obs|]);
      }
    }
  }

  ghost predicate Explained(cfg: Config, obs: seq<Observation>, h: Histories, i: int)
    requires 0 <= i < |h.calls| == |h.entries|
  {
    exists k :: 0 <= k < |obs| && MadeCall(cfg, h, i, obs[k])
  }

  ghost predicate MadeCall(cfg: Config, h: Histories, i: int, o: Observation)
    requires 0 <= i < |h.calls| == |h.entries|
  {
    && h.calls[i] == CallFor(cfg, o)
    && h.entries[i] == AlertHistoryEntry(o.wallTime, Triggered(cfg, o), o.frameId)
  }

  /** Result `k` is dispatched when it makes the history actionable and the manager does not suppress it. */
  lemma DispatchedWhen(cfg: Config, obs: seq<Observation>, k: nat)
    requires k < |obs|
    ensures DispatchedAt(cfg, obs, k)
       <==> && Actionable(cfg, obs[..k + 1])
            && !AM.WithinCooldown(AM.Run(Calls(cfg, obs[..k]), cfg.cooldown).lastAlert,
                                  Triggered(cfg, obs[k]), obs[k].alertAt, cfg.cooldown)
  {
    RunRecords(cfg, obs[..k]);
    RecordsGrow(cfg, obs, k);
  }

  ghost predicate FromResult(cfg: Config, obs: seq<Observation>, c: AM.Call) {
    exists k :: 0 <= k < |obs| && c == CallFor(cfg, obs[k])
  }

  lemma {:induction false} CallsFromResults(cfg: Config, obs: seq<Observation>)
    ensures forall c :: c in Calls(cfg, obs) ==> FromResult(cfg, obs, c)
  {
    if |obs| > 0 {
      var n := |obs| - 1;
      CallsFromResults(cfg, obs[..n]);
      RunRecords(cfg, obs);
      forall c | c in Calls(cfg, obs[..n])
        ensures FromResult(cfg, obs, c)
      {
        var k :| 0 <= k < n && c == CallFor(cfg, obs[..n][k]);
        assert c == CallFor(cfg, obs[k]);
      }
      assert FromResult(cfg, obs, CallFor(cfg, obs[n]));
    }
  }

  lemma {:induction false} CallsInOrder(cfg: Config, obs: seq<Observation>)
    requires InOrder(obs)
    ensures AM.InTimeOrder(Calls(cfg, obs))
  {
    if |obs| > 0 {
      var n := |obs| - 1;
      var before := Calls(cfg, obs[..n]);
      CallsInOrder(cfg, obs[..n]);
      CallsFromResults(cfg, obs[..n]);
      RunRecords(cfg, obs);
      forall i | 0 <= i < |before|
        ensures before[i].at <= obs[n].alertAt
      {
        assert before[i] in before;
        NoLater(cfg, obs, before[i]);
      }
    }
  }

  lemma NoLater(cfg: Config, obs: seq<Observation>, c: AM.Call)
    requires |obs| > 0 && InOrder(obs) && FromResult(cfg, obs[..|obs| - 1], c)
    ensures c.at <= obs[|obs| - 1].alertAt
  {
  }

  lemma LogGrows(cfg: Config, obs: seq<Observation>, n: nat)
    requires n < |obs|
    ensures var before := AM.Run(Calls(cfg, obs[..n]), cfg.cooldown).dispatches;
            AM.Run(Calls(cfg, obs[..n + 1]), cfg.cooldown).dispatches
            == if DispatchedAt(cfg, obs, n) then before + [CallFor(cfg, obs[n])] else before
  {
    assert obs[..n + 1][..n] == obs[..n];
    RunRecords(cfg, obs[..n + 1]);
    DispatchedWhen(cfg, obs, n);
    AM.RunStep(Calls(cfg, obs[..n]), CallFor(cfg, obs[n]), cfg.cooldown);
  }

  /** Of `call(0)`, ..., `call(n - 1)`, those that `flag` selects, in order. */
  function Chosen(n: nat, flag: int -> bool, call: int -> AM.Call): seq<AM.Call> {
    if n == 0 then [] else Chosen(n - 1, flag, call) + if flag(n - 1) then [call(n - 1)] else []
  }

  lemma {:induction false} ChosenMembers(n: nat, flag: int -> bool, call: int -> AM.Call, d: AM.Call)
    ensures d in Chosen(n, flag, call) <==> exists k :: 0 <= k < n && flag(k) && call(k) == d
  {
    if n > 0 {
      ChosenMembers(n - 1, flag, call, d);
    }
  }

  lemma {:induction false} GrowsToChosen(n: nat, log: int -> seq<AM.Call>, flag: int -> bool, call: int -> AM.Call)
    requires log(0) == []
    requires forall k {:trigger flag(k)} :: 0 <= k < n ==> log(k + 1) == log(k) + if flag(k) then [call(k)] else []
    ensures log(n) == Chosen(n, flag, call)
  {
    if n > 0 {
      GrowsToChosen(n - 1, log, flag, call);
      assert log(n - 1 + 1) == log(n);
    }
  }

  ghost function FlagOf(cfg: Config, obs: seq<Observation>): int -> bool {
    k => 0 <= k < |obs| && DispatchedAt(cfg, obs, k)
  }

  ghost function CallOf(cfg: Config, obs: seq<Observation>): int -> AM.Call {
    k => if 0 <= k < |obs| then CallFor(cfg, obs[k]) else AM.Call({}, 0.0)
  }

  ghost function LogAfter(cfg: Config, obs: seq<Observation>): int -> seq<AM.Call> {
    k => if 0 <= k <= |obs| then AM.Run(Calls(cfg, obs[..k]), cfg.cooldown).dispatches else []
  }

  lemma LogStarts(cfg: Config, obs: seq<Observation>)
    ensures LogAfter(cfg, obs)(0) == []
  {
    assert obs[..0] == [];
  }

  lemma LogSteps(cfg: Config, obs: seq<Observation>, k: nat)
    requires k < |obs|
    ensures LogAfter(cfg, obs)(k + 1)
         == LogAfter(cfg, obs)(k) + if FlagOf(cfg, obs)(k) then [CallOf(cfg, obs)(k)] else []
  {
    LogGrows(cfg, obs, k);
  }

  lemma LogGrowsToChosen(cfg: Config, obs: seq<Observation>, n: nat)
    requires n <= |obs|
    ensures LogAfter(cfg, obs)(n) == Chosen(n, FlagOf(cfg, obs), CallOf(cfg, obs))
  {
    var log, flag, call := LogAfter(cfg, obs), FlagOf(cfg, obs), CallOf(cfg, obs);
    LogStarts(cfg, obs);
    forall k {:trigger flag(k)} | 0 <= k < n
      ensures log(k + 1) == log(k) + if flag(k) then [call(k)] else []
    {
      LogSteps(cfg, obs, k);
    }
    GrowsToChosen(n, log, flag, call);
  }

  /** The manager's log of dispatches is the dispatched results, in order. */
  lemma LogIsDispatchedResults(cfg: Config, obs: seq<Observation>, n: nat)
    requires n <= |obs|
    ensures AM.Run(Calls(cfg, obs[..n]), cfg.cooldown).dispatches == Chosen(n, FlagOf(cfg, obs), CallOf(cfg, obs))
  {
    LogGrowsToChosen(cfg, obs, n);
  }

  lemma InLogIff(cfg: Config, obs: seq<Observation>, n: nat, d: AM.Call)
    requires n <= |obs|
    ensures d in AM.Run(Calls(cfg, obs[..n]), cfg.cooldown).dispatches
       <==> exists k :: 0 <= k < n && DispatchedAt(cfg, obs, k) && d == CallFor(cfg, obs[k])
  {
    var flag, call := FlagOf(cfg, obs), CallOf(cfg, obs);
    LogIsDispatchedResults(cfg, obs, n);
    ChosenMembers(n, flag, call, d);
    if k :| 0 <= k < n && DispatchedAt(cfg, obs, k) && d == CallFor(cfg, obs[k]) {
      assert flag(k) && call(k) == d;
    }
  }

  /** Some box is taller than the ratio and has a test point in an enabled zone. */
  ghost predicate ShowsDog(cfg: Config, boxes: seq<BoundingBox>, zones: seq<Zone>) {
    exists b, z, p :: b in boxes && z in zones && p in BoxTestPoints(b)
                      && Tall(cfg.scene, b) && z.enabled && cfg.scene.contains(z.polygon, p)
  }

  /** The result shows a dog up, by its own boxes and zone snapshot. */
  ghost predicate DogUp(cfg: Config, o: Observation) {
    ShowsDog(cfg, o.boxes, o.zones)
  }

  /** Two of the last `historySize` results up to `k` show a dog up, with ids at most 2 apart. */
  ghost predicate TwoRecentlyUp(cfg: Config, obs: seq<Observation>, k: int)
    requires 0 <= k < |obs|
  {
    exists i, j :: Max(0, k + 1 - cfg.historySize) <= i < j <= k && DogUp(cfg, obs[i]) && DogUp(cfg, obs[j])
                   && -2 <= obs[i].frameId - obs[j].frameId <= 2
  }

  /** The current zones are none at all, or one of them was in no dispatch within the cooldown. */
  ghost predicate SomeZoneReady(cfg: Config, obs: seq<Observation>, k: int)
    requires 0 <= k < |obs|
  {
    Triggered(cfg, obs[k]) == {}
    || exists z :: z in Triggered(cfg, obs[k]) && ZoneReady(cfg, obs, k, z)
  }

  ghost predicate ZoneReady(cfg: Config, obs: seq<Observation>, k: int, z: ZoneId)
    requires 0 <= k < |obs|
  {
    forall e :: 0 <= e < k && DispatchedAt(cfg, obs, e) && z in Triggered(cfg, obs[e]) ==>
                  obs[k].alertAt - obs[e].alertAt >= cfg.cooldown
  }

  lemma RecordIsDogUp(cfg: Config, o: Observation)
    ensures Record(cfg, o).isElevated <==> DogUp(cfg, o)
    ensures !DogUp(cfg, o) ==> Triggered(cfg, o) == {}
  {
    ElevatedIff(cfg.scene, o.boxes, o.zones);
  }

  /** The debounced state is about the last `historySize` records. */
  lemma ActionableByWindow(cfg: Config, obs: seq<Observation>)
    requires cfg.historySize >= 1
    ensures Actionable(cfg, obs) <==> AnyTwoWithin(LastN(Records(cfg, obs), cfg.historySize), DEFAULT_MAX_GAP)
  {
    RetainedIsWindow(Records(cfg, obs), cfg.historySize);
    AdjacentGapIffAnyTwo(Retained(Records(cfg, obs), cfg.historySize), DEFAULT_MAX_GAP);
  }

  lemma WindowToUp(cfg: Config, obs: seq<Observation>, k: nat)
    requires k < |obs| && cfg.historySize >= 1
    requires AnyTwoWithin(LastN(Records(cfg, obs[..k + 1]), cfg.historySize), DEFAULT_MAX_GAP)
    ensures TwoRecentlyUp(cfg, obs, k)
  {
  }

  lemma UpToWindow(cfg: Config, obs: seq<Observation>, k: nat)
    requires k < |obs| && cfg.historySize >= 1
    requires TwoRecentlyUp(cfg, obs, k)
    ensures AnyTwoWithin(LastN(Records(cfg, obs[..k + 1]), cfg.historySize), DEFAULT_MAX_GAP)
  {
    var log := Records(cfg, obs[..k + 1]);
    WindowByIndex(log, cfg.historySize, DEFAULT_MAX_GAP);
    var i, j :| Max(0, k + 1 - cfg.historySize) <= i < j <= k && DogUp(cfg, obs[i]) && DogUp(cfg, obs[j])
                && -2 <= obs[i].frameId - obs[j].frameId <= 2;
    PairIsUp(cfg, obs, i, j);
    assert log[i].isElevated && log[j].isElevated && Near(log[i], log[j], DEFAULT_MAX_GAP);
  }

  /** The debounced state in terms of the frames themselves. */
  lemma ActionableIff(cfg: Config, obs: seq<Observation>, k: nat)
    requires k < |obs| && cfg.historySize >= 1
    ensures Actionable(cfg, obs[..k + 1]) <==> TwoRecentlyUp(cfg, obs, k)
  {
    ActionableByWindow(cfg, obs[..k + 1]);
    if Actionable(cfg, obs[..k + 1]) {
      WindowToUp(cfg, obs, k);
    } else if TwoRecentlyUp(cfg, obs, k) {
      UpToWindow(cfg, obs, k);
    }
  }

  lemma PairIsUp(cfg: Config, obs: seq<Observation>, i: nat, j: nat)
    requires i < |obs| && j < |obs|
    ensures Record(cfg, obs[i]).isElevated <==> DogUp(cfg, obs[i])
    ensures Record(cfg, obs[j]).isElevated <==> DogUp(cfg, obs[j])
  {
    RecordIsDogUp(cfg, obs[i]);
    RecordIsDogUp(cfg, obs[j]);
  }

  lemma ZoneReadyIff(cfg: Config, obs: seq<Observation>, k: nat, z: ZoneId)
    requires k < |obs|
    ensures ZoneReady(cfg, obs, k, z)
       <==> !AM.Recent(AM.Run(Calls(cfg, obs[..k]), cfg.cooldown).dispatches, z, obs[k].alertAt, cfg.cooldown)
  {
    var log := AM.Run(Calls(cfg, obs[..k]), cfg.cooldown).dispatches;
    if d :| d in log && z in d.zones && obs[k].alertAt - d.at < cfg.cooldown {
      InLogIff(cfg, obs, k, d);
      var e :| 0 <= e < k && DispatchedAt(cfg, obs, e) && d == CallFor(cfg, obs[e]);
      assert !ZoneReady(cfg, obs, k, z);
    } else {
      forall e | 0 <= e < k && DispatchedAt(cfg, obs, e) && z in Triggered(cfg, obs[e])
        ensures obs[k].alertAt - obs[e].alertAt >= cfg.cooldown
      {
        InLogIff(cfg, obs, k, CallFor(cfg, obs[e]));
        assert CallFor(cfg, obs[e]) in log;
      }
    }
  }

  lemma CooldownIff(cfg: Config, obs: seq<Observation>, k: nat)
    requires k < |obs| && InOrder(obs) && Actionable(cfg, obs[..k + 1])
    ensures DispatchedAt(cfg, obs, k) <==> SomeZoneReady(cfg, obs, k)
  {
    var now := obs[..k + 1];
    assert now[..k] == obs[..k] && now[k] == obs[k];
    CallsInOrder(cfg, now);
    RunRecords(cfg, now);
    DispatchedWhen(cfg, obs, k);
    AM.SuppressedIff(Calls(cfg, obs[..k]), CallFor(cfg, obs[k]), cfg.cooldown);
    forall z | z in Triggered(cfg, obs[k])
      ensures ZoneReady(cfg, obs, k, z)
         <==> !AM.Recent(AM.Run(Calls(cfg, obs[..k]), cfg.cooldown).dispatches, z, obs[k].alertAt, cfg.cooldown)
    {
      ZoneReadyIff(cfg, obs, k, z);
    }
  }

  /** An alert goes out at a result exactly when two recent results show a dog up with ids at most 2
      apart, and the current zones are none or include one that is off cooldown. */
  lemma EndToEnd(cfg: Config, obs: seq<Observation>, k: nat)
    requires k < |obs| && InOrder(obs)
    requires cfg.historySize >= 1
    ensures DispatchedAt(cfg, obs, k) <==> TwoRecentlyUp(cfg, obs, k) && SomeZoneReady(cfg, obs, k)
  {
    ActionableIff(cfg, obs, k);
    DispatchedWhen(cfg, obs, k);
    if Actionable(cfg, obs[..k + 1]) {
      CooldownIff(cfg, obs, k);
    }
  }

  /** From result `m` on, no dog is up. */
  ghost predicate QuietFrom(cfg: Config, obs: seq<Observation>, m: nat) {
    forall k :: m <= k < |obs| ==> !DogUp(cfg, obs[k])
  }

  /** In a quiet stretch: actionability once lost does not come back, and is gone by the
      `historySize - 1`-th quiet result; every dispatch names no zone, so the cooldown never holds
      one back: each actionable quiet result is dispatched. */
  lemma QuietStretch(cfg: Config, obs: seq<Observation>, m: nat, k: nat)
    requires m <= k < |obs| && QuietFrom(cfg, obs, m)
    requires cfg.historySize >= 1
    ensures k > 0 && Actionable(cfg, obs[..k + 1]) ==> Actionable(cfg, obs[..k])
    ensures k == 0 ==> !Actionable(cfg, obs[..k + 1])
    ensures k >= m + cfg.historySize - 2 ==> !Actionable(cfg, obs[..k + 1])
    ensures Triggered(cfg, obs[k]) == {}
    ensures DispatchedAt(cfg, obs, k) <==> Actionable(cfg, obs[..k + 1])
  {
    var log, log' := Records(cfg, obs[..k]), Records(cfg, obs[..k + 1]);
    ActionableByWindow(cfg, obs[..k]);
    ActionableByWindow(cfg, obs[..k + 1]);
    RecordIsDogUp(cfg, obs[k]);
    RecordsGrow(cfg, obs, k);
    DispatchedWhen(cfg, obs, k);
    if AnyTwoWithin(LastN(log', cfg.historySize), DEFAULT_MAX_GAP) {
      QuietAdd(log, Record(cfg, obs[k]), cfg.historySize, DEFAULT_MAX_GAP);
    }
    if k >= m + cfg.historySize - 2 {
      forall i | m <= i <= k
        ensures !log'[i].isElevated
      {
        RecordIsDogUp(cfg, obs[i]);
      }
      QuietTail(log', cfg.historySize, DEFAULT_MAX_GAP);
    }
  }

  /** Once lost, lost for the rest of the stretch. */
  lemma {:induction false} NotRegained(cfg: Config, obs: seq<Observation>, m: nat, a: nat, b: nat)
    requires m <= a <= b <= |obs| && QuietFrom(cfg, obs, m)
    requires cfg.historySize >= 1
    requires !Actionable(cfg, obs[..a])
    ensures !Actionable(cfg, obs[..b])
    decreases b - a
  {
    if a < b {
      QuietStretch(cfg, obs, m, a);
      NotRegained(cfg, obs, m, a + 1, b);
    }
  }

  ghost function QuietDispatches(cfg: Config, obs: seq<Observation>, m: nat): set<int> {
    set k | m <= k < |obs| && DispatchedAt(cfg, obs, k)
  }

  /** A trigger outlives the dog by at most `historySize - 2` alerts. */
  lemma QuietBound(cfg: Config, obs: seq<Observation>, m: nat)
    requires QuietFrom(cfg, obs, m)
    requires cfg.historySize >= 1
    ensures |QuietDispatches(cfg, obs, m)| <= Max(cfg.historySize - 2, 0)
  {
    forall k | k in QuietDispatches(cfg, obs, m)
      ensures m <= k < m + Max(cfg.historySize - 2, 0)
    {
      QuietStretch(cfg, obs, m, k);
    }
    BoundedCount(QuietDispatches(cfg, obs, m), m, m + Max(cfg.historySize - 2, 0));
  }

  /** The bound is reached, whatever the cooldown: when the stretch follows directly on two results
      with the dog up and ids at most 2 apart, every one of its first `historySize - 2` results is
      dispatched. */
  lemma QuietBoundReached(cfg: Config, obs: seq<Observation>, m: nat, k: nat)
    requires 2 <= m <= k < |obs| && QuietFrom(cfg, obs, m)
    requires cfg.historySize >= 1
    requires DogUp(cfg, obs[m - 2]) && DogUp(cfg, obs[m - 1]) && -2 <= obs[m - 2].frameId - obs[m - 1].frameId <= 2
    ensures DispatchedAt(cfg, obs, k) <==> k < m + cfg.historySize - 2
  {
    QuietStretch(cfg, obs, m, k);
    ActionableIff(cfg, obs, k);
    if k < m + cfg.historySize - 2 {
      assert TwoRecentlyUp(cfg, obs, k);
    }
  }

  // ----- The bound met by a run -----

  const COUNTER := Zone("counter", "counter", true, [(0, 0), (640, 0), (0, 480)])
  const DOG := BoundingBox(100, 100, 200, 300, 0.9)

  /** A scene whose one polygon is taken to hold every point. */
  function OpenScene(): Scene {
    Scene((polygon, p) => true, 480, 0.15)
  }

  /** Two results with a dog in the zone, then `quiet` without any box, one per second. */
  function DogThenNone(quiet: nat): seq<Observation> {
    seq(quiet + 2, k requires 0 <= k < quiet + 2 =>
      Observation(k + 1, if k < 2 then [DOG] else [], [COUNTER], k as real, k as real, k))
  }

  /** After the dog has left, `historySize - 2` alerts that name no zone go out, whatever the cooldown. */
  lemma AlertsWithoutDog(historySize: nat, cooldown: real)
    requires historySize >= 2
    ensures var cfg, obs := Config(OpenScene(), historySize, cooldown), DogThenNone(historySize);
            && InOrder(obs) && QuietFrom(cfg, obs, 2)
            && (forall k :: 2 <= k < |obs| ==> (DispatchedAt(cfg, obs, k) <==> k < historySize))
            && |QuietDispatches(cfg, obs, 2)| == historySize - 2
  {
    var cfg, obs := Config(OpenScene(), historySize, cooldown), DogThenNone(historySize);
    DogIsSeen(cfg, obs[0]);
    DogIsSeen(cfg, obs[1]);
    forall k | 2 <= k < |obs|
      ensures DispatchedAt(cfg, obs, k) <==> k < historySize
    {
      QuietBoundReached(cfg, obs, 2, k);
    }
    var expected := seq(historySize - 2, i requires 0 <= i < historySize - 2 => 2 + i);
    forall k
      ensures k in QuietDispatches(cfg, obs, 2) <==> k in expected
    {
      if 2 <= k < historySize {
        assert expected[k - 2] == k;
      }
    }
    DistinctCount(expected, QuietDispatches(cfg, obs, 2));
  }

  lemma DogIsSeen(cfg: Config, o: Observation)
    requires cfg.scene == OpenScene() && o.boxes == [DOG] && o.zones == [COUNTER]
    ensures DogUp(cfg, o)
  {
    var p := BoxTestPoints(DOG)[0];
    assert DOG in o.boxes && COUNTER in o.zones && p in BoxTestPoints(DOG);
    assert Tall(cfg.scene, DOG) && cfg.scene.contains(COUNTER.polygon, p);
  }
}
