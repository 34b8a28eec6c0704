/** The session as a whole: client, server handler and the two channels between them, over any run
    of sends, replies, receives, drops, reconnects and stops. */
module SessionProtocol {
  import opened Common
  import opened Models
  import opened Dashboard
  import opened Transport
  import SH = ServerHandler

  /** The client's settings and the server's model. */
  datatype Setup = Setup(client: Settings, detect: SH.Detector)

  /** Where the client's outer loop is. */
  datatype Phase = Connecting | Serving | Waiting | Ended

  datatype World = World(
    phase: Phase,
    client: ClientState,
    /** The frame registered by the send loop but not yet handed to the socket. */
    sending: Option<Capture>,
    toServer: seq<Capture>,
    toClient: seq<Message>,
    stats: StatsSnapshot,
    clock: real,
    // What has happened so far: the id reached when this connection began, the frames the camera gave on
    // it, the messages received before it and on it, every numbered frame and its registration time by
    // id, every detection handed to the callback.
    base: nat,
    readable: seq<Frame>,
    earlier: seq<Message>,
    consumed: seq<Message>,
    frames: seq<Frame>,
    assignedAt: seq<real>,
    delivered: seq<Delivery>)

  datatype Event =
    | ConnectSucceeds
    | ConnectFails
    | RetryDue
    | SendPass(read: Option<Frame>, encodes: bool, now: real)
    | HandOver
    | ServerReplies(raises: bool)
    | ClientReceives(now: real, fps: real)
    | ConnectionDrops
    | StopRequested
    | Finishes

  const START :=
    World(Connecting, ClientState(0, [], map[], 0, true), None, [], [], INITIAL_STATS, 0.0, 0, [], [], [], [], [], [])

  function Connected(w: World): World {
    w.(phase := Serving, client := Fresh(w.client), sending := None, toServer := [], toClient := [],
       stats := w.stats.(serverConnected := true), base := w.client.frameId, readable := [],
       earlier := w.earlier + w.consumed, consumed := [])
  }

  /** The connection failed or dropped: the callback reports it, then the loop waits or stops. */
  function Disconnected(w: World): World {
    w.(phase := if w.client.running then Waiting else Ended, stats := w.stats.(serverConnected := false))
  }

  function Sent(setup: Setup, w: World, read: Option<Frame>, encodes: bool, now: real): World {
    var (c, attempt) := TrySend(setup.client, w.client, read, encodes, now);
    if read.None? then w.(client := c, clock := now)
    else
      var seen := w.(client := c, clock := now, readable := w.readable + [read.value]);
      if attempt.NothingToSend? then seen
      else
        var w' := seen.(frames := w.frames + [read.value], assignedAt := w.assignedAt + [now]);
        if attempt.ToSend? then w'.(sending := Some(Capture(attempt.id, read.value))) else w'.(phase := Ended)
  }

  function Replied(setup: Setup, w: World, raises: bool): World
    requires |w.toServer| > 0
  {
    var sent := w.toServer[0];
    var reply := SH.Reply(SH.FrameMessage(sent.id, sent.frame), setup.detect, raises);
    w.(toServer := w.toServer[1..], toClient := w.toClient + [reply.value])
  }

  function Received(w: World, now: real, fps: real): World
    requires |w.toClient| > 0
  {
    var msg := w.toClient[0];
    var (c, delivery) := Accept(w.client, msg, now);
    var w' := w.(client := c, clock := now, toClient := w.toClient[1..], consumed := w.consumed + [msg]);
    match delivery
    case None => w'
    case Some(d) => w'.(delivered := w.delivered + [d], stats := StatsSnapshot(fps, d.latency * 1000.0, true))
  }

  /** An event that cannot happen now changes nothing. Clock readings never decrease. */
  function Step(setup: Setup, w: World, e: Event): World {
    match e
    case ConnectSucceeds => if w.phase.Connecting? then Connected(w) else w
    case ConnectFails => if w.phase.Connecting? then Disconnected(w) else w
    case RetryDue =>
      if w.phase.Waiting? then w.(phase := if w.client.running then Connecting else Ended) else w
    case SendPass(read, encodes, now) =>
      if w.phase.Serving? && w.client.running && w.sending.None? && now >= w.clock
      then Sent(setup, w, read, encodes, now) else w
    case HandOver =>
      if w.phase.Serving? && w.sending.Some? then w.(sending := None, toServer := w.toServer + [w.sending.value]) else w
    case ServerReplies(raises) =>
      if w.phase.Serving? && |w.toServer| > 0 then Replied(setup, w, raises) else w
    case ClientReceives(now, fps) =>
      if w.phase.Serving? && |w.toClient| > 0 && now >= w.clock then Received(w, now, fps) else w
    case ConnectionDrops => if w.phase.Serving? then Disconnected(w) else w
    case StopRequested => w.(client := w.client.(running := false))
    case Finishes =>
      if w.phase.Serving? && !w.client.running && w.sending.None? then w.(phase := Ended) else w
  }

  function Run(setup: Setup, events: seq<Event>): World {
    if |events| == 0 then START
    else Step(setup, Run(setup, events[..|events| - 1]), events[|events| - 1])
  }

  // ----- Conservation of ids -----

  function AtSocket(w: World): seq<Capture> {
    if w.sending.Some? then [w.sending.value] else []
  }

  function CaptureIds(cs: seq<Capture>): seq<int> {
    seq(|cs|, i requires 0 <= i < |cs| => cs[i].id)
  }

  /** The ids sent or being sent but not yet answered to the client. */
  function UnderWay(w: World): seq<int> {
    Ids(w.toClient) + CaptureIds(w.toServer) + CaptureIds(AtSocket(w))
  }

  /** Ids received on this connection, then ids on the way back, on the way there, and at the socket. */
  function Line(w: World): seq<int> {
    Ids(w.consumed) + UnderWay(w)
  }

  function Upto(low: int, high: int): seq<int>
    requires low <= high
  {
    seq(high - low, i => low + 1 + i)
  }

  /** Frame `id` of this connection has been answered with a detection the client has received. */
  ghost predicate Matched(w: World, id: int) {
    w.base < id <= w.base + |w.consumed| && w.consumed[id - w.base - 1].Detection?
  }

  ghost predicate Conserved(setup: Setup, w: World) {
    && w.base + |w.consumed| <= w.client.frameId
    && (w.phase.Serving? ==>
          && Line(w) == Upto(w.base, w.client.frameId)
          && forall id :: id in w.client.pending <==> w.base < id <= w.client.frameId && !Matched(w, id))
  }

  lemma SentConserved(setup: Setup, w: World, read: Option<Frame>, encodes: bool, now: real)
    requires Conserved(setup, w) && w.phase.Serving? && w.client.running && w.sending.None?
    ensures Conserved(setup, Sent(setup, w, read, encodes, now))
  {
    var w' := Sent(setup, w, read, encodes, now);
    if w'.sending.Some? {
      assert Line(w') == Line(w) + [w'.sending.value.id];
      assert Line(w') == Upto(w'.base, w'.client.frameId);
    }
  }

  lemma HandOverConserved(setup: Setup, w: World)
    requires Conserved(setup, w) && w.phase.Serving? && w.sending.Some?
    ensures Conserved(setup, Step(setup, w, HandOver))
  {
    assert UnderWay(Step(setup, w, HandOver)) == UnderWay(w);
  }

  lemma RepliedConserved(setup: Setup, w: World, raises: bool)
    requires Conserved(setup, w) && w.phase.Serving? && |w.toServer| > 0
    ensures Conserved(setup, Replied(setup, w, raises))
  {
    var w' := Replied(setup, w, raises);
    assert UnderWay(w') == UnderWay(w);
  }

  lemma ReceivedConserved(setup: Setup, w: World, now: real, fps: real)
    requires Conserved(setup, w) && w.phase.Serving? && |w.toClient| > 0
    ensures Conserved(setup, Received(w, now, fps))
    ensures IdOf(w.toClient[0]) == w.base + |w.consumed| + 1
    ensures w.toClient[0].Detection? ==> w.toClient[0].frameId in w.client.pending
  {
    var w' := Received(w, now, fps);
    var m := w.toClient[0];
    assert Ids(w'.consumed) == Ids(w.consumed) + [IdOf(m)];
    assert Ids(w.toClient) == [IdOf(m)] + Ids(w'.toClient);
    assert Line(w') == Line(w);
    assert Line(w)[|w.consumed|] == IdOf(m);
    assert Upto(w.base, w.client.frameId)[|w.consumed|] == w.base + 1 + |w.consumed|;
    assert |Line(w)| > |w.consumed|;
  }

  lemma StepConserved(setup: Setup, w: World, e: Event)
    requires Conserved(setup, w)
    ensures Conserved(setup, Step(setup, w, e))
  {
    if Step(setup, w, e) != w {
      match e
      case SendPass(read, encodes, now) => SentConserved(setup, w, read, encodes, now);
      case HandOver => HandOverConserved(setup, w);
      case ServerReplies(raises) => RepliedConserved(setup, w, raises);
      case ClientReceives(now, fps) => ReceivedConserved(setup, w, now, fps);
      case _ => OthersConserve(setup, w, e);
    }
  }

  lemma OthersConserve(setup: Setup, w: World, e: Event)
    requires Conserved(setup, w)
    requires !e.SendPass? && !e.HandOver? && !e.ServerReplies? && !e.ClientReceives?
    ensures Conserved(setup, Step(setup, w, e))
  {
  }

  lemma {:induction false} RunConserved(setup: Setup, events: seq<Event>)
    ensures Conserved(setup, Run(setup, events))
  {
    if |events| > 0 {
      RunConserved(setup, events[..|events| - 1]);
      StepConserved(setup, Run(setup, events[..|events| - 1]), events[|events| - 1]);
    }
  }

  ghost function Members(s: seq<int>): set<int> {
    set x | x in s
  }

  /** While a connection is served: what was received, what is on its way back, what is on its way
      there and what is being sent are together exactly the ids assigned on this connection, each
      once and in order; the pending table is what is still under way plus what was answered by an
      error. */
  lemma Conservation(setup: Setup, events: seq<Event>)
    ensures var w := Run(setup, events);
            w.phase.Serving? ==>
              && w.base <= w.client.frameId
              && Line(w) == Upto(w.base, w.client.frameId)
              && w.client.pending.Keys == Members(UnderWay(w)) + Failed(w)
  {
    RunConserved(setup, events);
    var w := Run(setup, events);
    if w.phase.Serving? {
      PendingIsUnderWay(setup, w);
    }
  }

  lemma LineByParts(setup: Setup, w: World)
    requires Conserved(setup, w) && w.phase.Serving?
    ensures var underWay := UnderWay(w);
            var n := |w.consumed|;
            && n + |underWay| == w.client.frameId - w.base
            && (forall k :: 0 <= k < n ==> IdOf(w.consumed[k]) == w.base + 1 + k)
            && (forall k :: 0 <= k < |underWay| ==> underWay[k] == w.base + 1 + n + k)
  {
    var underWay := UnderWay(w);
    var n := |w.consumed|;
    assert Line(w) == Ids(w.consumed) + underWay;
    forall k | 0 <= k < n
      ensures IdOf(w.consumed[k]) == w.base + 1 + k
    {
      assert Line(w)[k] == Ids(w.consumed)[k];
    }
    forall k | 0 <= k < |underWay|
      ensures underWay[k] == w.base + 1 + n + k
    {
      assert Line(w)[n + k] == underWay[k];
    }
  }

  /** The frames of this connection that came back as errors. */
  ghost function Failed(w: World): set<int> {
    set k | 0 <= k < |w.consumed| && !w.consumed[k].Detection? :: IdOf(w.consumed[k])
  }

  lemma PendingIsUnderWay(setup: Setup, w: World)
    requires Conserved(setup, w) && w.phase.Serving?
    ensures w.client.pending.Keys == Members(UnderWay(w)) + Failed(w)
  {
    var underWay := UnderWay(w);
    var n := |w.consumed|;
    LineByParts(setup, w);
    forall id | id in w.client.pending
      ensures id in Members(underWay) + Failed(w)
    {
      if id <= w.base + n {
        assert IdOf(w.consumed[id - w.base - 1]) == id;
      } else {
        assert underWay[id - w.base - n - 1] == id;
      }
    }
    forall id | id in Members(underWay)
      ensures id in w.client.pending
    {
      var k :| 0 <= k < |underWay| && underWay[k] == id;
    }
    forall id | id in Failed(w)
      ensures id in w.client.pending
    {
      var k :| 0 <= k < n && !w.consumed[k].Detection? && IdOf(w.consumed[k]) == id;
    }
  }

  // ----- Which frames are numbered -----

  lemma CountSkip(count: nat, skip: FrameSkip)
    ensures (count + 1) / skip == if (count + 1) % skip == 0 then count / skip + 1 else count / skip
    ensures (count + 1) % skip == 0 ==> (count / skip + 1) * skip == count + 1
  {
    var q, r := count / skip, count % skip;
    var q', r' := (count + 1) / skip, (count + 1) % skip;
    assert count == q * skip + r && count + 1 == q' * skip + r';
    Spread(q, q', skip);
  }

  lemma Spread(q: int, q': int, skip: int)
    requires skip >= 1
    ensures q' * skip - q * skip == (q' - q) * skip
    ensures q' - q >= 2 ==> q' * skip - q * skip >= skip + skip
    ensures q' - q == 1 ==> q' * skip - q * skip == skip
    ensures q' - q <= -1 ==> q' * skip - q * skip <= -skip
  {
  }

  /** Frame `base + i + 1` is the readable frame at position `(i + 1) * frameSkip`. */
  ghost predicate IsDue(setup: Setup, w: World, i: nat) {
    var position := (i + 1) * setup.client.frameSkip;
    && 1 <= position <= |w.readable| && w.base + i < |w.frames|
    && w.frames[w.base + i] == w.readable[position - 1]
  }

  ghost predicate SkipsRight(setup: Setup, w: World) {
    && w.client.count == |w.readable|
    && |w.frames| == w.client.frameId == w.base + |w.readable| / setup.client.frameSkip
    && forall i: nat :: i < |w.frames| - w.base ==> IsDue(setup, w, i)
  }

  lemma SentSkips(setup: Setup, w: World, read: Option<Frame>, encodes: bool, now: real)
    requires SkipsRight(setup, w)
    ensures SkipsRight(setup, Sent(setup, w, read, encodes, now))
  {
    CountSkip(|w.readable|, setup.client.frameSkip);
    var w' := Sent(setup, w, read, encodes, now);
    assert w.readable <= w'.readable && w.frames <= w'.frames && w'.base == w.base;
    forall i: nat | i < |w'.frames| - w.base
      ensures IsDue(setup, w', i)
    {
      if i < |w.frames| - w.base {
        assert IsDue(setup, w, i);
      }
    }
  }

  /** Over any run: of the frames the camera gave on this connection exactly every `frameSkip`-th was
      numbered, in order; frames that could not be read do not count. */
  lemma {:induction false} EveryNthIsNumbered(setup: Setup, events: seq<Event>)
    ensures var w := Run(setup, events);
            && w.client.count == |w.readable|
            && |w.frames| == w.client.frameId == w.base + |w.readable| / setup.client.frameSkip
            && forall i: nat :: i < |w.frames| - w.base ==> IsDue(setup, w, i)
  {
    if |events| > 0 {
      var before, e := Run(setup, events[..|events| - 1]), events[|events| - 1];
      EveryNthIsNumbered(setup, events[..|events| - 1]);
      if e.SendPass? {
        SentSkips(setup, before, e.read, e.encodes, e.now);
      } else {
        OthersSkip(setup, before, e);
      }
    }
  }

  lemma OthersSkip(setup: Setup, w: World, e: Event)
    requires SkipsRight(setup, w) && !e.SendPass?
    ensures SkipsRight(setup, Step(setup, w, e))
  {
    var w' := Step(setup, w, e);
    assert w'.frames == w.frames && w'.client.frameId == w.client.frameId;
    if e != ConnectSucceeds {
      SkipsKept(setup, w, w');
    }
  }

  lemma SkipsKept(setup: Setup, w: World, w': World)
    requires SkipsRight(setup, w)
    requires w'.frames == w.frames && w'.client.frameId == w.client.frameId
    requires w'.readable == w.readable && w'.base == w.base && w'.client.count == w.client.count
    ensures SkipsRight(setup, w')
  {
    forall i: nat | i < |w'.frames| - w'.base
      ensures IsDue(setup, w', i)
    {
      assert IsDue(setup, w, i);
    }
  }

  // ----- Deliveries -----

  /** Registration times are kept by id, none in the future, and the pending table agrees with them. */
  ghost predicate TimesKept(w: World) {
    && |w.assignedAt| == w.client.frameId
    && (forall k :: 0 <= k < |w.assignedAt| ==> w.assignedAt[k] <= w.clock)
    && (w.phase.Serving? ==>
          forall id :: id in w.client.pending && 1 <= id <= |w.assignedAt| ==>
                         w.client.pending[id] == w.assignedAt[id - 1])
  }

  /** Delivery `d` is about a frame already answered, with the time since that frame was registered. */
  ghost predicate DeliverySound(w: World, d: Delivery) {
    && 1 <= d.frameId <= w.base + |w.consumed| <= |w.assignedAt|
    && d.latency == d.at - w.assignedAt[d.frameId - 1] >= 0.0
  }

  /** Deliveries are sound and come in strictly increasing id order. */
  ghost predicate DeliveriesSound(w: World) {
    && TimesKept(w)
    && (forall i :: 0 <= i < |w.delivered| ==> DeliverySound(w, w.delivered[i]))
    && (forall i, j :: 0 <= i < j < |w.delivered| ==> w.delivered[i].frameId < w.delivered[j].frameId)
    && w.base + |w.consumed| <= |w.assignedAt|
  }

  /** The detections among some messages, in order. */
  function Detections(ms: seq<Message>): seq<Message> {
    if |ms| == 0 then []
    else
      var n := |ms| - 1;
      Detections(ms[..n]) + if ms[n].Detection? then [ms[n]] else []
  }

  /** Every message received in the session. */
  function Heard(w: World): seq<Message> {
    w.earlier + w.consumed
  }

  /** What the callback was given, as messages. */
  function Reports(ds: seq<Delivery>): seq<Message> {
    seq(|ds|, i requires 0 <= i < |ds| => Detection(ds[i].frameId, ds[i].boxes))
  }

  /** The callback was given the detections received in the session: each, once, in order, and no more. */
  ghost predicate DeliveriesComplete(w: World) {
    Reports(w.delivered) == Detections(Heard(w))
  }

  lemma StepDelivers(setup: Setup, w: World, e: Event)
    requires Conserved(setup, w) && DeliveriesSound(w) && DeliveriesComplete(w)
    ensures DeliveriesSound(Step(setup, w, e)) && DeliveriesComplete(Step(setup, w, e))
  {
    if Step(setup, w, e) != w {
      match e
      case SendPass(read, encodes, now) => SentDelivers(setup, w, read, encodes, now);
      case ClientReceives(now, fps) => ReceivedDelivers(setup, w, now, fps);
      case _ => OthersDeliver(setup, w, e);
    }
  }

  lemma OthersDeliver(setup: Setup, w: World, e: Event)
    requires Conserved(setup, w) && DeliveriesSound(w) && DeliveriesComplete(w)
    requires !e.SendPass? && !e.ClientReceives?
    ensures DeliveriesSound(Step(setup, w, e)) && DeliveriesComplete(Step(setup, w, e))
  {
    var w' := Step(setup, w, e);
    assert Heard(w') == Heard(w) && w'.delivered == w.delivered;
    assert w'.assignedAt == w.assignedAt && w'.client.frameId == w.client.frameId && w'.clock == w.clock;
  }

  lemma SentDelivers(setup: Setup, w: World, read: Option<Frame>, encodes: bool, now: real)
    requires w.phase.Serving? && now >= w.clock
    requires DeliveriesSound(w) && DeliveriesComplete(w)
    ensures DeliveriesSound(Sent(setup, w, read, encodes, now))
    ensures DeliveriesComplete(Sent(setup, w, read, encodes, now))
  {
    var w' := Sent(setup, w, read, encodes, now);
    assert w'.delivered == w.delivered && w'.earlier == w.earlier && w'.consumed == w.consumed;
    assert w.assignedAt <= w'.assignedAt && |w'.assignedAt| == w'.client.frameId;
  }

  lemma ReceivedDelivers(setup: Setup, w: World, now: real, fps: real)
    requires Conserved(setup, w) && w.phase.Serving? && |w.toClient| > 0 && now >= w.clock
    requires DeliveriesSound(w) && DeliveriesComplete(w)
    ensures DeliveriesSound(Received(w, now, fps)) && DeliveriesComplete(Received(w, now, fps))
  {
    ReceivedSound(setup, w, now, fps);
    ReceivedComplete(w, now, fps);
  }

  lemma ReceivedTimes(w: World, now: real, fps: real)
    requires |w.toClient| > 0 && now >= w.clock && TimesKept(w)
    ensures TimesKept(Received(w, now, fps))
  {
  }

  lemma ReceivedSound(setup: Setup, w: World, now: real, fps: real)
    requires Conserved(setup, w) && w.phase.Serving? && |w.toClient| > 0 && now >= w.clock
    requires DeliveriesSound(w)
    ensures DeliveriesSound(Received(w, now, fps))
  {
    var w', m := Received(w, now, fps), w.toClient[0];
    ReceivedTimes(w, now, fps);
    ReceivedConserved(setup, w, now, fps);
    assert w'.assignedAt == w.assignedAt && w'.base == w.base && |w'.consumed| == |w.consumed| + 1;
    assert forall d :: DeliverySound(w, d) ==> DeliverySound(w', d);
    if m.Detection? {
      var d := Delivery(m.frameId, m.boxes, now - w.assignedAt[m.frameId - 1], now);
      assert w'.delivered == w.delivered + [d] && DeliverySound(w', d);
    }
  }

  lemma ReceivedComplete(w: World, now: real, fps: real)
    requires |w.toClient| > 0 && DeliveriesComplete(w)
    ensures DeliveriesComplete(Received(w, now, fps))
  {
    var w', m := Received(w, now, fps), w.toClient[0];
    assert Heard(w') == Heard(w) + [m];
    OneMoreHeard(Heard(w), m);
    if m.Detection? {
      OneMoreReport(w.delivered, w'.delivered[|w.delivered|]);
    }
  }

  lemma OneMoreHeard(ms: seq<Message>, m: Message)
    ensures Detections(ms + [m]) == Detections(ms) + if m.Detection? then [m] else []
  {
    assert (ms + [m])[..|ms|] == ms;
  }

  lemma OneMoreReport(ds: seq<Delivery>, d: Delivery)
    ensures Reports(ds + [d]) == Reports(ds) + [Detection(d.frameId, d.boxes)]
  {
  }

  lemma {:induction false} RunDelivers(setup: Setup, events: seq<Event>)
    ensures DeliveriesSound(Run(setup, events)) && DeliveriesComplete(Run(setup, events))
  {
    if |events| > 0 {
      RunDelivers(setup, events[..|events| - 1]);
      RunConserved(setup, events[..|events| - 1]);
      StepDelivers(setup, Run(setup, events[..|events| - 1]), events[|events| - 1]);
    }
  }

  // ----- Answers are about their frames -----

  /** Every frame under way is the one captured under its id, and every detection, on its way back or
      delivered, is what the model finds in that frame. */
  ghost predicate Genuine(setup: Setup, w: World) {
    && |w.frames| == w.client.frameId
    && (forall k :: 0 <= k < |w.toServer| ==> IsCaptured(w, w.toServer[k]))
    && (w.sending.Some? ==> IsCaptured(w, w.sending.value))
    && (forall k :: 0 <= k < |w.toClient| && w.toClient[k].Detection? ==>
          FoundIn(setup, w, w.toClient[k].frameId, w.toClient[k].boxes))
    && (forall k :: 0 <= k < |w.delivered| ==> FoundIn(setup, w, w.delivered[k].frameId, w.delivered[k].boxes))
  }

  ghost predicate IsCaptured(w: World, c: Capture) {
    1 <= c.id <= |w.frames| && w.frames[c.id - 1] == c.frame
  }

  ghost predicate FoundIn(setup: Setup, w: World, id: int, boxes: seq<BoundingBox>) {
    1 <= id <= |w.frames| && boxes == setup.detect(w.frames[id - 1])
  }

  lemma StepGenuine(setup: Setup, w: World, e: Event)
    requires Genuine(setup, w)
    ensures Genuine(setup, Step(setup, w, e))
  {
    if Step(setup, w, e) != w {
      match e
      case SendPass(read, encodes, now) => SentGenuine(setup, w, read, encodes, now);
      case ServerReplies(raises) => RepliedGenuine(setup, w, raises);
      case ClientReceives(now, fps) => ReceivedGenuine(setup, w, now, fps);
      case _ => OthersGenuine(setup, w, e);
    }
  }

  lemma OthersGenuine(setup: Setup, w: World, e: Event)
    requires Genuine(setup, w)
    requires !e.SendPass? && !e.ServerReplies? && !e.ClientReceives?
    ensures Genuine(setup, Step(setup, w, e))
  {
    var w' := Step(setup, w, e);
    assert w'.frames == w.frames && w'.client.frameId == w.client.frameId;
  }

  lemma SentGenuine(setup: Setup, w: World, read: Option<Frame>, encodes: bool, now: real)
    requires Genuine(setup, w)
    ensures Genuine(setup, Sent(setup, w, read, encodes, now))
  {
    var w' := Sent(setup, w, read, encodes, now);
    assert w.frames <= w'.frames && |w'.frames| == w'.client.frameId;
  }

  lemma RepliedGenuine(setup: Setup, w: World, raises: bool)
    requires Genuine(setup, w) && |w.toServer| > 0
    ensures Genuine(setup, Replied(setup, w, raises))
  {
    assert IsCaptured(w, w.toServer[0]);
  }

  lemma ReceivedGenuine(setup: Setup, w: World, now: real, fps: real)
    requires Genuine(setup, w) && |w.toClient| > 0
    ensures Genuine(setup, Received(w, now, fps))
  {
    var m := w.toClient[0];
    assert m.Detection? ==> FoundIn(setup, w, m.frameId, m.boxes);
  }

  lemma {:induction false} RunGenuine(setup: Setup, events: seq<Event>)
    ensures Genuine(setup, Run(setup, events))
  {
    if |events| > 0 {
      RunGenuine(setup, events[..|events| - 1]);
      StepGenuine(setup, Run(setup, events[..|events| - 1]), events[|events| - 1]);
    }
  }

  /** Over the whole session, across any number of reconnects: the callback is given exactly the
      detections received, in the order received; their ids strictly increase, hence no id comes twice;
      each comes with the exact time since its own frame was registered, never the fallback; and its
      boxes are what the model finds in the frame that was captured under its id. */
  lemma DeliveredInOrder(setup: Setup, events: seq<Event>)
    ensures var w := Run(setup, events);
            && Reports(w.delivered) == Detections(Heard(w))
            && (forall i, j :: 0 <= i < j < |w.delivered| ==> w.delivered[i].frameId < w.delivered[j].frameId)
            && |w.frames| == |w.assignedAt|
            && forall i :: 0 <= i < |w.delivered| ==>
                 var d := w.delivered[i];
                 && 1 <= d.frameId <= |w.frames|
                 && d.latency == d.at - w.assignedAt[d.frameId - 1] >= 0.0
                 && d.boxes == setup.detect(w.frames[d.frameId - 1])
  {
    RunDelivers(setup, events);
    RunGenuine(setup, events);
  }

  /** World `w'` is `w` after the message at its head was received at clock reading `now`: a detection is
      handed to the callback with the time since its frame was registered, and the dashboard shows that
      time; an error is handed to nobody. */
  ghost predicate HandedOn(w: World, w': World, now: real, fps: real)
    requires |w.toClient| > 0
  {
    match w.toClient[0]
    case Detection(id, boxes) =>
      && 1 <= id <= |w.assignedAt|
      && w'.delivered == w.delivered + [Delivery(id, boxes, now - w.assignedAt[id - 1], now)]
      && w'.stats == StatsSnapshot(fps, (now - w.assignedAt[id - 1]) * 1000.0, true)
      && id !in w'.client.pending
    case _ =>
      w'.delivered == w.delivered && w'.stats == w.stats && w'.client.pending == w.client.pending
  }

  /** In every run, receiving hands on the message at once, with the exact time up to this clock reading. */
  lemma ReceivesExactly(setup: Setup, events: seq<Event>, now: real, fps: real)
    ensures var w := Run(setup, events);
            w.phase.Serving? && |w.toClient| > 0 && now >= w.clock ==>
              HandedOn(w, Step(setup, w, ClientReceives(now, fps)), now, fps)
  {
    var w := Run(setup, events);
    RunConserved(setup, events);
    RunDelivers(setup, events);
    if w.phase.Serving? && |w.toClient| > 0 && now >= w.clock {
      HeadHandedOn(setup, w, now, fps);
    }
  }

  lemma HeadHandedOn(setup: Setup, w: World, now: real, fps: real)
    requires Conserved(setup, w) && DeliveriesSound(w) && w.phase.Serving? && |w.toClient| > 0
    ensures HandedOn(w, Received(w, now, fps), now, fps)
  {
    if w.toClient[0].Detection? {
      HeadDelivered(setup, w, now, fps);
    }
  }

  lemma HeadDelivered(setup: Setup, w: World, now: real, fps: real)
    requires Conserved(setup, w) && DeliveriesSound(w) && w.phase.Serving?
    requires |w.toClient| > 0 && w.toClient[0].Detection?
    ensures var id := w.toClient[0].frameId;
            var w' := Received(w, now, fps);
            && 1 <= id <= |w.assignedAt|
            && w'.delivered
               == w.delivered + [Delivery(id, w.toClient[0].boxes, now - w.assignedAt[id - 1], now)]
            && w'.stats == StatsSnapshot(fps, (now - w.assignedAt[id - 1]) * 1000.0, true)
            && id !in w'.client.pending
  {
    ReceivedConserved(setup, w, now, fps);
  }

  /** The next message never takes the latency fallback: a detection's id is in the pending table. */
  lemma NoFallback(setup: Setup, events: seq<Event>)
    ensures var w := Run(setup, events);
            w.phase.Serving? && |w.toClient| > 0 && w.toClient[0].Detection? ==>
              w.toClient[0].frameId in w.client.pending
  {
    RunConserved(setup, events);
    var w := Run(setup, events);
    if w.phase.Serving? && |w.toClient| > 0 {
      ReceivedConserved(setup, w, w.clock, 0.0);
    }
  }

  // ----- The frame buffer -----

  ghost predicate BufferExact(setup: Setup, w: World) {
    && |w.frames| == w.client.frameId
    && w.client.buffer == LastN(Numbered(w.frames), Max(setup.client.capacity, 0))
  }

  lemma StepBuffers(setup: Setup, w: World, e: Event)
    requires BufferExact(setup, w)
    ensures BufferExact(setup, Step(setup, w, e))
  {
    if e.SendPass? && Step(setup, w, e) != w {
      SentBuffers(setup, w, e.read, e.encodes, e.now);
    }
  }

  lemma SentBuffers(setup: Setup, w: World, read: Option<Frame>, encodes: bool, now: real)
    requires BufferExact(setup, w)
    ensures BufferExact(setup, Sent(setup, w, read, encodes, now))
  {
    var (c, attempt) := TrySend(setup.client, w.client, read, encodes, now);
    if attempt.NothingToSend? {
      assert c.buffer == w.client.buffer && c.frameId == w.client.frameId;
    } else {
      RetainKeepsNewest(w.frames, read.value, setup.client.capacity);
      assert c.buffer == Retain(w.client.buffer, |w.frames| + 1, read.value, setup.client.capacity);
    }
  }

  /** After any run the buffer is the last `capacity` frames captured for sending, in order, under
      their ids: a lookup finds the very frame captured under an id, or nothing once that id is
      `capacity` or more behind. */
  lemma {:induction false} FrameBuffer(setup: Setup, events: seq<Event>)
    ensures var w := Run(setup, events);
            && BufferExact(setup, w)
            && |w.frames| == w.client.frameId
            && forall id :: Lookup(w.client.buffer, id) == FrameUnder(w.frames, setup.client.capacity, id)
  {
    if |events| > 0 {
      FrameBuffer(setup, events[..|events| - 1]);
      StepBuffers(setup, Run(setup, events[..|events| - 1]), events[|events| - 1]);
    }
    var w := Run(setup, events);
    forall id
      ensures Lookup(w.client.buffer, id) == FrameUnder(w.frames, setup.client.capacity, id)
    {
      LookupNewest(w.frames, setup.client.capacity, id);
    }
  }

  /** When the next message is a detection, the callback finds the frame it is about exactly when fewer
      than `capacity` frames are under way behind it. */
  lemma DetectionFindsFrame(setup: Setup, events: seq<Event>)
    ensures var w := Run(setup, events);
            w.phase.Serving? && |w.toClient| > 0 ==>
              var id := IdOf(w.toClient[0]);
              var behind := |w.toClient| - 1 + |w.toServer| + |AtSocket(w)|;
              && 1 <= id <= |w.frames|
              && Lookup(w.client.buffer, id) == if behind < setup.client.capacity then Some(w.frames[id - 1]) else None
  {
    RunConserved(setup, events);
    FrameBuffer(setup, events);
    if Run(setup, events).phase.Serving? && |Run(setup, events).toClient| > 0 {
      HeadFound(setup, Run(setup, events));
    }
  }

  lemma HeadFound(setup: Setup, w: World)
    requires Conserved(setup, w) && BufferExact(setup, w) && w.phase.Serving? && |w.toClient| > 0
    ensures var id := IdOf(w.toClient[0]);
            var behind := |w.toClient| - 1 + |w.toServer| + |AtSocket(w)|;
            && 1 <= id <= |w.frames|
            && Lookup(w.client.buffer, id) == if behind < setup.client.capacity then Some(w.frames[id - 1]) else None
  {
    NextId(setup, w);
    LookupNewest(w.frames, setup.client.capacity, IdOf(w.toClient[0]));
  }

  /** The id of the next message, counted from either end of the line. */
  lemma NextId(setup: Setup, w: World)
    requires Conserved(setup, w) && w.phase.Serving? && |w.toClient| > 0
    ensures IdOf(w.toClient[0]) == w.base + |w.consumed| + 1
    ensures w.client.frameId - IdOf(w.toClient[0]) == |w.toClient| - 1 + |w.toServer| + |AtSocket(w)|
  {
    ReceivedConserved(setup, w, w.clock, 0.0);
    assert |Line(w)| == w.client.frameId - w.base;
  }

  // ----- The connection flag -----

  ghost predicate SameFigures(a: StatsSnapshot, b: StatsSnapshot) {
    a.fps == b.fps && a.latencyMs == b.latencyMs
  }

  ghost predicate FlagRight(w: World) {
    && (w.phase.Serving? ==> w.stats.serverConnected)
    && (w.phase.Connecting? || w.phase.Waiting? ==> !w.stats.serverConnected)
  }

  lemma StepFlag(setup: Setup, w: World, e: Event)
    requires FlagRight(w)
    ensures FlagRight(Step(setup, w, e))
    ensures e.ClientReceives? || SameFigures(Step(setup, w, e).stats, w.stats)
  {
  }

  /** The dashboard's flag is up while a connection is served and down while connecting or waiting,
      however results and drops interleave; and only results change the other figures: connecting and
      losing the connection keep them. */
  lemma {:induction false} ConnectionFlag(setup: Setup, events: seq<Event>, next: Event)
    ensures var w := Run(setup, events);
            && (w.phase.Serving? ==> w.stats.serverConnected)
            && (w.phase.Connecting? || w.phase.Waiting? ==> !w.stats.serverConnected)
            && (next.ClientReceives? || SameFigures(Step(setup, w, next).stats, w.stats))
  {
    if |events| > 0 {
      var n := |events| - 1;
      ConnectionFlag(setup, events[..n], events[n]);
      StepFlag(setup, Run(setup, events[..n]), events[n]);
    }
    StepFlag(setup, Run(setup, events), next);
  }

  lemma StoppedStep(setup: Setup, w: World, e: Event)
    requires !w.client.running
    ensures var w' := Step(setup, w, e);
            && !w'.client.running && w'.client.frameId == w.client.frameId && w'.frames == w.frames
            && (w.phase.Waiting? || w.phase.Ended? ==> w'.phase == w.phase || w'.phase.Ended?)
  {
  }

  /** After a stop no further frame is numbered, and a session that was waiting to retry, or has ended,
      does not connect again. */
  lemma {:induction false} StopIsFinal(setup: Setup, events: seq<Event>, n: nat)
    requires n <= |events|
    requires !Run(setup, events[..n]).client.running
    ensures var w, w' := Run(setup, events[..n]), Run(setup, events);
            && !w'.client.running
            && w'.client.frameId == w.client.frameId && w'.frames == w.frames
            && (w.phase.Waiting? ==> w'.phase.Waiting? || w'.phase.Ended?)
            && (w.phase.Ended? ==> w'.phase.Ended?)
    decreases |events|
  {
    if n == |events| {
      assert events[..n] == events;
    } else {
      var m := |events| - 1;
      assert events[..m][..n] == events[..n];
      StopIsFinal(setup, events[..m], n);
      StoppedStep(setup, Run(setup, events[..m]), events[m]);
    }
  }
}
