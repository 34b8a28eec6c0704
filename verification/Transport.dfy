/** The client session's own state: frame ids, the frame buffer and the pending table. */
module Transport {
  import opened Common
  import opened Models

  type FrameSkip = n: int | n >= 1 witness 3

  datatype Settings = Settings(frameSkip: FrameSkip, capacity: int)

  /** A captured frame under its id: an entry of the insertion-ordered frame buffer, or of the socket. */
  datatype Capture = Capture(id: int, frame: Frame)

  datatype ClientState = ClientState(
    frameId: nat, buffer: seq<Capture>, pending: map<int, real>, count: nat, running: bool)

  /** A detection handed to the result callback. */
  datatype Delivery = Delivery(frameId: int, boxes: seq<BoundingBox>, latency: real, at: real)

  /** How one pass of the send loop ends, up to the send itself. */
  datatype Attempt = NothingToSend | EncodingFailed | ToSend(id: nat)

  /** Assignment to a key of an insertion-ordered dictionary. */
  function Put(buffer: seq<Capture>, id: int, frame: Frame): seq<Capture> {
    if |buffer| == 0 then [Capture(id, frame)]
    else if buffer[0].id == id then [Capture(id, frame)] + buffer[1..]
    else [buffer[0]] + Put(buffer[1..], id, frame)
  }

  function Lookup(buffer: seq<Capture>, id: int): Option<Frame> {
    if |buffer| == 0 then None
    else if buffer[0].id == id then Some(buffer[0].frame)
    else Lookup(buffer[1..], id)
  }

  /** Assign, then evict the oldest entry if there is one too many. */
  function Retain(buffer: seq<Capture>, id: int, frame: Frame, capacity: int): seq<Capture> {
    var grown := Put(buffer, id, frame);
    if |grown| > capacity && |grown| > 0 then grown[1..] else grown
  }

  /** One pass of the send loop up to the send: read, count, skip, number, keep, encode, register. */
  function TrySend(
    cfg: Settings, c: ClientState, read: Option<Frame>, encodes: bool, now: real): (ClientState, Attempt)
  {
    if read.None? then (c, NothingToSend)
    else if (c.count + 1) % cfg.frameSkip != 0 then (c.(count := c.count + 1), NothingToSend)
    else
      var id := c.frameId + 1;
      var kept := c.(count := c.count + 1, frameId := id, buffer := Retain(c.buffer, id, read.value, cfg.capacity));
      if encodes then (kept.(pending := kept.pending[id := now]), ToSend(id)) else (kept, EncodingFailed)
  }

  /** One message in the receive loop. */
  function Accept(c: ClientState, msg: Message, now: real): (ClientState, Option<Delivery>) {
    match msg
    case Detection(id, boxes) =>
      var latency := if id in c.pending then now - c.pending[id] else 0.0;
      (c.(pending := c.pending - {id}), Some(Delivery(id, boxes, latency, now)))
    case _ => (c, None)
  }

  /** A new connection forgets what was pending and restarts the read counter. */
  function Fresh(c: ClientState): ClientState {
    c.(pending := map[], count := 0)
  }

  class ClientSession {
    const cfg: Settings
    var running: bool
    var pending: map<int, real>
    var frameId: nat
    var frameBuffer: seq<Capture>
    var count: nat

    ghost function View(): ClientState
      reads this
    {
      ClientState(frameId, frameBuffer, pending, count, running)
    }

    constructor (cfg: Settings)
      ensures this.cfg == cfg && View() == ClientState(0, [], map[], 0, true)
    {
      this.cfg := cfg;
      running := true;
      pending := map[];
      frameId := 0;
      frameBuffer := [];
      count := 0;
    }

    method BeginConnection()
      modifies this
      ensures View() == Fresh(old(View()))
    {
      pending := map[];
      count := 0;
    }

    method SendPass(read: Option<Frame>, encodes: bool, now: real) returns (attempt: Attempt)
      modifies this
      ensures (View(), attempt) == TrySend(cfg, old(View()), read, encodes, now)
    {
      if read.None? {
        return NothingToSend;
      }
      count := count + 1;
      if count % cfg.frameSkip != 0 {
        return NothingToSend;
      }
      frameId := frameId + 1;
      frameBuffer := Put(frameBuffer, frameId, read.value);
      if |frameBuffer| > cfg.capacity {
        PutAdds(old(frameBuffer), frameId, read.value);
        frameBuffer := frameBuffer[1..];
      }
      if !encodes {
        return EncodingFailed;
      }
      pending := pending[frameId := now];
      return ToSend(frameId);
    }

    method ReceivePass(msg: Message, now: real) returns (delivery: Option<Delivery>)
      modifies this
      ensures (View(), delivery) == Accept(old(View()), msg, now)
    {
      delivery := None;
      match msg {
        case Detection(id, boxes) =>
          var latency := 0.0;
          if id in pending {
            latency := now - pending[id];
          }
          pending := pending - {id};
          delivery := Some(Delivery(id, boxes, latency, now));
        case Error(_) =>
        case Pong(_) =>
      }
    }

    method GetFrame(id: int) returns (frame: Option<Frame>)
      ensures frame == Lookup(frameBuffer, id)
    {
      frame := Lookup(frameBuffer, id);
    }

    method Stop()
      modifies this`running
      ensures View() == old(View()).(running := false)
    {
      running := false;
    }
  }

  lemma {:induction false} PutAdds(buffer: seq<Capture>, id: int, frame: Frame)
    ensures |Put(buffer, id, frame)| > 0
    ensures (forall k :: 0 <= k < |buffer| ==> buffer[k].id != id) ==>
              Put(buffer, id, frame) == buffer + [Capture(id, frame)]
  {
    if |buffer| > 0 {
      PutAdds(buffer[1..], id, frame);
    }
  }

  /** Assigning and looking up: the assigned frame under its id, and under every other what was there. */
  lemma {:induction false} LookupAfterPut(buffer: seq<Capture>, id: int, frame: Frame, other: int)
    ensures Lookup(Put(buffer, id, frame), other) == if other == id then Some(frame) else Lookup(buffer, other)
  {
    if |buffer| > 0 && buffer[0].id != id {
      LookupAfterPut(buffer[1..], id, frame, other);
    }
  }

  /** Every frame of the session under its id: the first is 1. */
  function Numbered(frames: seq<Frame>): seq<Capture> {
    seq(|frames|, i requires 0 <= i < |frames| => Capture(i + 1, frames[i]))
  }

  /** Keeping one more frame in a buffer of the most recent ones. A capacity of zero or less keeps none. */
  lemma RetainKeepsNewest(frames: seq<Frame>, frame: Frame, capacity: int)
    ensures Retain(LastN(Numbered(frames), Max(capacity, 0)), |frames| + 1, frame, capacity)
         == LastN(Numbered(frames + [frame]), Max(capacity, 0))
  {
    var n := Max(capacity, 0);
    var buffer := LastN(Numbered(frames), n);
    var id := |frames| + 1;
    PutAdds(buffer, id, frame);
    assert Numbered(frames + [frame]) == Numbered(frames) + [Capture(id, frame)];
    LastNAppend(Numbered(frames), Capture(id, frame), n);
  }

  lemma {:induction false} LookupIn(buffer: seq<Capture>, first: int, id: int)
    requires forall k :: 0 <= k < |buffer| ==> buffer[k].id == first + k
    ensures Lookup(buffer, id) == if first <= id < first + |buffer| then Some(buffer[id - first].frame) else None
  {
    if |buffer| > 0 {
      LookupIn(buffer[1..], first + 1, id);
    }
  }

  /** The frame captured under an id, if it is among the last `capacity`. */
  function FrameUnder(frames: seq<Frame>, capacity: int, id: int): Option<Frame> {
    if 1 <= id <= |frames| && id > |frames| - capacity then Some(frames[id - 1]) else None
  }

  /** What `get_frame` finds in a buffer of the most recent frames. */
  lemma LookupNewest(frames: seq<Frame>, capacity: int, id: int)
    ensures Lookup(LastN(Numbered(frames), Max(capacity, 0)), id) == FrameUnder(frames, capacity, id)
  {
    var n := Max(capacity, 0);
    var first := Max(|frames| - n, 0) + 1;
    LookupIn(LastN(Numbered(frames), n), first, id);
  }
}
