/** The dashboard's view of the running client. Each method is one critical section of the single lock. */
module Dashboard {
  import opened Common
  import opened Models

  datatype DetectionSnapshot = DetectionSnapshot(
    detections: seq<BoundingBox>, triggeredZones: set<ZoneId>, elevated: bool)

  datatype StatsSnapshot = StatsSnapshot(fps: real, latencyMs: real, serverConnected: bool)

  datatype AlertHistoryEntry = AlertHistoryEntry(time: int, triggeredZones: set<ZoneId>, frameId: int)

  const INITIAL_STATS := StatsSnapshot(0.0, 0.0, false)

  class DashboardState {
    var frame: Option<Frame>
    var detection: DetectionSnapshot
    var stats: StatsSnapshot
    var alerts: seq<AlertHistoryEntry>
    const capacity: nat
    /** Every entry ever recorded, oldest first. */
    ghost var recorded: seq<AlertHistoryEntry>

    /** The history holds the newest entries, newest first, as many as fit. */
    ghost predicate Valid()
      reads this
    {
      && |alerts| == (if |recorded| < capacity then |recorded| else capacity)
      && forall i :: 0 <= i < |alerts| ==> alerts[i] == recorded[|recorded| - 1 - i]
    }

    constructor (capacity: nat := 50)
      ensures Valid() && recorded == [] && this.capacity == capacity
      ensures frame == None && stats == INITIAL_STATS
    {
      this.frame := None;
      this.detection := DetectionSnapshot([], {}, false);
      this.stats := INITIAL_STATS;
      this.alerts := [];
      this.capacity := capacity;
      this.recorded := [];
    }

    method UpdateFrame(frame: Frame)
      requires Valid()
      modifies this`frame
      ensures Valid() && this.frame == Some(frame)
    {
      this.frame := Some(frame);
    }

    method UpdateDetection(detections: seq<BoundingBox>, triggeredZones: set<ZoneId>, elevated: bool)
      requires Valid()
      modifies this`detection
      ensures Valid() && detection == DetectionSnapshot(detections, triggeredZones, elevated)
    {
      detection := DetectionSnapshot(detections, triggeredZones, elevated);
    }

    method UpdateStats(fps: real, latencyMs: real, serverConnected: bool)
      requires Valid()
      modifies this`stats
      ensures Valid() && stats == StatsSnapshot(fps, latencyMs, serverConnected)
    {
      stats := StatsSnapshot(fps, latencyMs, serverConnected);
    }

    /** Only the flag changes. */
    method SetServerConnected(connected: bool)
      requires Valid()
      modifies this`stats
      ensures Valid()
      ensures stats.serverConnected == connected
      ensures stats.fps == old(stats.fps) && stats.latencyMs == old(stats.latencyMs)
    {
      stats := StatsSnapshot(stats.fps, stats.latencyMs, connected);
    }

    /** A bounded deque: push on the left, drop from the right beyond the capacity. */
    method RecordAlert(entry: AlertHistoryEntry)
      requires Valid()
      modifies this`alerts, this`recorded
      ensures Valid() && recorded == old(recorded) + [entry]
    {
      alerts := [entry] + alerts;
      if |alerts| > capacity {
        alerts := alerts[..capacity];
      }
      recorded := recorded + [entry];
    }

    method GetAlerts() returns (newestFirst: seq<AlertHistoryEntry>)
      requires Valid()
      ensures |newestFirst| == if |recorded| < capacity then |recorded| else capacity
      ensures forall i :: 0 <= i < |newestFirst| ==> newestFirst[i] == recorded[|recorded| - 1 - i]
    {
      newestFirst := alerts;
    }
  }
}
