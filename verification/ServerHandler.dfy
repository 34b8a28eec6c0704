/** The server's connection handler: one reply per frame, in order, with an error fallback. */
module ServerHandler {
  import opened Common
  import opened Models

  /** What arrives on the socket, by what parsing makes of it. */
  datatype Incoming =
    | FrameMessage(frameId: int, frame: Frame)
    | PingMessage(timestamp: int)
    | OtherMessage
    | Malformed

  /** What the model finds in a captured frame, through the picture codec: a fixed function of the frame. */
  type Detector = Frame -> seq<BoundingBox>

  /** The answer to one message; `raises` when decoding the frame or running the model on it failed. */
  function Reply(msg: Incoming, detect: Detector, raises: bool): Option<Message> {
    match msg
    case PingMessage(t) => Some(Pong(t))
    case FrameMessage(id, frame) => Some(if raises then Error(Some(id)) else Detection(id, detect(frame)))
    case OtherMessage => None
    case Malformed => Some(Error(None))
  }

  function Replies(msgs: seq<Incoming>, detect: Detector, raises: seq<bool>): seq<Message>
    requires |msgs| == |raises|
  {
    if |msgs| == 0 then []
    else
      var n := |msgs| - 1;
      var before := Replies(msgs[..n], detect, raises[..n]);
      match Reply(msgs[n], detect, raises[n])
      case Some(m) => before + [m]
      case None => before
  }

  /** The receive loop. The peer goes away once `sendable` messages were sent: the next send raises
      and ends the handler. What was sent is always a prefix of the replies. */
  method HandleConnection(msgs: seq<Incoming>, detect: Detector, raises: seq<bool>, sendable: nat)
    returns (sent: seq<Message>)
    requires |msgs| == |raises|
    ensures var all := Replies(msgs, detect, raises);
            sent == if |all| <= sendable then all else all[..sendable]
  {
    sent := [];
    for n := 0 to |msgs|
      invariant |sent| <= sendable
      invariant sent == Replies(msgs[..n], detect, raises[..n])
    {
      var reply := None;
      var failed, failedFrame := false, None;
      match msgs[n] {
        case PingMessage(t) => reply := Some(Pong(t));
        case FrameMessage(id, frame) =>
          if raises[n] {
            failed, failedFrame := true, Some(id);
          } else {
            reply := Some(Detection(id, detect(frame)));
          }
        case OtherMessage =>
        case Malformed => failed := true;
      }
      if failed {
        reply := Some(Error(failedFrame));
      }
      assert msgs[..n + 1][..n] == msgs[..n] && raises[..n + 1][..n] == raises[..n];
      if reply.Some? {
        if |sent| == sendable {
          RepliesGrow(msgs, detect, raises, n + 1);
          return;
        }
        sent := sent + [reply.value];
      }
    }
    assert msgs[..|msgs|] == msgs && raises[..|msgs|] == raises;
  }

  lemma {:induction false} RepliesGrow(msgs: seq<Incoming>, detect: Detector, raises: seq<bool>, n: nat)
    requires n <= |msgs| == |raises|
    ensures Replies(msgs[..n], detect, raises[..n]) <= Replies(msgs, detect, raises)
    decreases |msgs|
  {
    if n < |msgs| {
      var m := |msgs| - 1;
      RepliesGrow(msgs[..m], detect, raises[..m], n);
      assert msgs[..m][..n] == msgs[..n] && raises[..m][..n] == raises[..n];
    } else {
      assert msgs[..n] == msgs && raises[..n] == raises;
    }
  }

  /** How many of some messages are answered. */
  function Answered(msgs: seq<Incoming>): nat {
    if |msgs| == 0 then 0
    else Answered(msgs[..|msgs| - 1]) + if msgs[|msgs| - 1].OtherMessage? then 0 else 1
  }

  /** The answer to a message that has one: to a ping by its own timestamp, to a frame by its boxes or an
      error under its id, to what cannot be parsed by an error under no id. */
  function AnswerTo(msg: Incoming, detect: Detector, raises: bool): Message
    requires !msg.OtherMessage?
  {
    match msg
    case PingMessage(t) => Pong(t)
    case FrameMessage(id, frame) => if raises then Error(Some(id)) else Detection(id, detect(frame))
    case Malformed => Error(None)
  }

  /** Message `k` has its answer among the replies, at its place. */
  ghost predicate AnsweredAt(msgs: seq<Incoming>, detect: Detector, raises: seq<bool>, replies: seq<Message>, k: nat)
    requires k < |msgs| == |raises|
  {
    msgs[k].OtherMessage?
    || (Answered(msgs[..k]) < |replies| && replies[Answered(msgs[..k])] == AnswerTo(msgs[k], detect, raises[k]))
  }

  /** Any messages: each has its answer, in order, except those the server has none for; and there are no
      other replies. */
  lemma {:induction false} EveryMessageAnswered(msgs: seq<Incoming>, detect: Detector, raises: seq<bool>)
    requires |msgs| == |raises|
    ensures var replies := Replies(msgs, detect, raises);
            && |replies| == Answered(msgs)
            && forall k: nat :: k < |msgs| ==> AnsweredAt(msgs, detect, raises, replies, k)
  {
    if |msgs| > 0 {
      var n := |msgs| - 1;
      var before, replies := Replies(msgs[..n], detect, raises[..n]), Replies(msgs, detect, raises);
      EveryMessageAnswered(msgs[..n], detect, raises[..n]);
      assert before <= replies;
      forall k: nat | k < n
        ensures AnsweredAt(msgs, detect, raises, replies, k)
      {
        assert AnsweredAt(msgs[..n], detect, raises[..n], before, k);
        assert msgs[..n][..k] == msgs[..k];
      }
      assert AnsweredAt(msgs, detect, raises, replies, n);
    }
  }

  predicate OnlyFrames(msgs: seq<Incoming>) {
    forall k | 0 <= k < |msgs| :: msgs[k].FrameMessage?
  }

  /** A client that sends only frames is answered once per frame, in order, each answer carrying the
      frame's id: what the model finds in that very frame, or an error when that raised. */
  lemma {:induction false} OneReplyPerFrame(msgs: seq<Incoming>, detect: Detector, raises: seq<bool>)
    requires |msgs| == |raises| && OnlyFrames(msgs)
    ensures var replies := Replies(msgs, detect, raises);
            && |replies| == |msgs|
            && forall k :: 0 <= k < |msgs| ==>
                 replies[k] == if raises[k] then Error(Some(msgs[k].frameId))
                               else Detection(msgs[k].frameId, detect(msgs[k].frame))
  {
    if |msgs| > 0 {
      var n := |msgs| - 1;
      assert msgs[n].FrameMessage?;
      assert OnlyFrames(msgs[..n]);
      OneReplyPerFrame(msgs[..n], detect, raises[..n]);
    }
  }
}
