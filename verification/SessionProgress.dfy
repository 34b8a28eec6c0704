/** That the session gets on: frames due are sent, everything sent is answered, lost connections come
    back, and only a stop or a frame that cannot be encoded ends it. */
module SessionProgress {
  import opened Common
  import opened Models
  import opened Dashboard
  import opened Transport
  import opened SessionProtocol

  /** The run continued from a world. */
  function From(setup: Setup, w: World, events: seq<Event>): World
    decreases |events|
  {
    if |events| == 0 then w else From(setup, Step(setup, w, events[0]), events[1..])
  }

  lemma {:induction false} RunContinues(setup: Setup, events: seq<Event>, more: seq<Event>)
    ensures Run(setup, events + more) == From(setup, Run(setup, events), more)
    decreases |more|
  {
    if |more| == 0 {
      assert events + more == events;
    } else {
      assert events + more == (events + [more[0]]) + more[1..];
      assert (events + [more[0]])[..|events|] == events;
      RunContinues(setup, events + [more[0]], more[1..]);
    }
  }

  lemma {:induction false} FromAppends(setup: Setup, w: World, a: seq<Event>, b: seq<Event>)
    ensures From(setup, w, a + b) == From(setup, From(setup, w, a), b)
    decreases |a|
  {
    if |a| == 0 {
      assert a + b == b;
    } else {
      assert (a + b)[1..] == a[1..] + b;
      FromAppends(setup, Step(setup, w, a[0]), a[1..], b);
    }
  }

  // ----- Sending -----

  /** One pass of the send loop, by what the camera gave on this connection: an unreadable frame is
      nothing; one that is not the `frameSkip`-th is only counted; the `frameSkip`-th gets the next id and
      its registration time, and is at the socket, unless it cannot be encoded, which ends the session. */
  lemma PassSends(setup: Setup, events: seq<Event>, read: Option<Frame>, encodes: bool, now: real)
    ensures var w := Run(setup, events);
            var w' := Step(setup, w, SendPass(read, encodes, now));
            w.phase.Serving? && w.client.running && w.sending.None? && now >= w.clock ==>
              && w'.toServer == w.toServer && w'.toClient == w.toClient && w'.delivered == w.delivered
              && w'.stats == w.stats
              && match read
                 case None => w' == w.(clock := now)
                 case Some(frame) =>
                   && w'.readable == w.readable + [frame]
                   && if |w'.readable| % setup.client.frameSkip != 0 then
                        && w'.phase.Serving? && w'.frames == w.frames
                        && w'.sending == None && w'.client.pending == w.client.pending
                      else
                        var id := |w.frames| + 1;
                        && w'.frames == w.frames + [frame]
                        && w'.assignedAt == w.assignedAt + [now]
                        && if encodes then
                             && w'.phase.Serving? && w'.sending == Some(Capture(id, frame))
                             && w'.client.pending == w.client.pending[id := now]
                           else
                             w'.phase.Ended? && w'.sending == None && w'.client.pending == w.client.pending
  {
    EveryNthIsNumbered(setup, events);
  }

  // ----- Answering -----

  /** What the server makes of each frame: what the model finds in it, or an error, under its id. */
  function Answers(setup: Setup, sent: seq<Capture>, raises: seq<bool>): seq<Message>
    requires |sent| == |raises|
  {
    seq(|sent|, k requires 0 <= k < |sent| =>
      if raises[k] then Error(Some(sent[k].id)) else Detection(sent[k].id, setup.detect(sent[k].frame)))
  }

  function HandOvers(n: nat): seq<Event> {
    seq(n, k => HandOver)
  }

  function AllReply(raises: seq<bool>): seq<Event> {
    seq(|raises|, k requires 0 <= k < |raises| => ServerReplies(raises[k]))
  }

  function AllReceive(n: nat, now: real, fps: real): seq<Event> {
    seq(n, k => ClientReceives(now, fps))
  }

  lemma HandsOver(setup: Setup, w: World)
    requires w.phase.Serving?
    ensures From(setup, w, HandOvers(|AtSocket(w)|)) == w.(sending := None, toServer := w.toServer + AtSocket(w))
  {
    var events := HandOvers(|AtSocket(w)|);
    if w.sending.Some? {
      assert events[0] == HandOver && events[1..] == [];
    }
  }

  lemma {:induction false} RepliesToAll(setup: Setup, w: World, raises: seq<bool>)
    requires w.phase.Serving? && |raises| == |w.toServer|
    ensures From(setup, w, AllReply(raises))
         == w.(toServer := [], toClient := w.toClient + Answers(setup, w.toServer, raises))
    decreases |raises|
  {
    var answers := Answers(setup, w.toServer, raises);
    if |raises| == 0 {
      assert w.toClient + answers == w.toClient;
    } else {
      var w' := Step(setup, w, ServerReplies(raises[0]));
      assert AllReply(raises)[1..] == AllReply(raises[1..]);
      RepliesToAll(setup, w', raises[1..]);
      assert answers == [answers[0]] + Answers(setup, w.toServer[1..], raises[1..]);
      assert w'.toClient == w.toClient + [answers[0]];
      assert w'.toClient + Answers(setup, w.toServer[1..], raises[1..]) == w.toClient + answers;
    }
  }

  lemma {:induction false} ReceivesAll(setup: Setup, w: World, now: real, fps: real)
    requires w.phase.Serving? && now >= w.clock
    ensures var w' := From(setup, w, AllReceive(|w.toClient|, now, fps));
            && w'.phase.Serving? && w'.toClient == [] && w'.toServer == w.toServer && w'.sending == w.sending
            && w'.consumed == w.consumed + w.toClient && w'.base == w.base
            && w'.client.frameId == w.client.frameId && w'.frames == w.frames
    decreases |w.toClient|
  {
    var n := |w.toClient|;
    if n > 0 {
      var w1 := Step(setup, w, ClientReceives(now, fps));
      assert AllReceive(n, now, fps)[1..] == AllReceive(n - 1, now, fps);
      assert w1.consumed == w.consumed + [w.toClient[0]] && w1.toClient == w.toClient[1..];
      ReceivesAll(setup, w1, now, fps);
      assert w1.consumed + w1.toClient == w.consumed + w.toClient;
    } else {
      assert w.consumed + w.toClient == w.consumed;
    }
  }

  /** Socket, server and client each get to all that waits for them. */
  function CatchUp(w: World, raises: seq<bool>, now: real, fps: real): seq<Event> {
    HandOvers(|AtSocket(w)|) + (AllReply(raises)
    + AllReceive(|w.toClient| + |w.toServer| + |AtSocket(w)|, now, fps))
  }

  lemma CatchesUp(setup: Setup, w: World, raises: seq<bool>, now: real, fps: real)
    requires w.phase.Serving? && now >= w.clock && |raises| == |w.toServer + AtSocket(w)|
    ensures var w' := From(setup, w, CatchUp(w, raises, now, fps));
            && w'.phase.Serving? && w'.toClient == [] && w'.toServer == [] && w'.sending == None
            && w'.consumed == w.consumed + (w.toClient + Answers(setup, w.toServer + AtSocket(w), raises))
            && w'.base == w.base && w'.client.frameId == w.client.frameId && w'.frames == w.frames
  {
    var w1 := w.(sending := None, toServer := w.toServer + AtSocket(w));
    var w2 := w1.(toServer := [], toClient := w.toClient + Answers(setup, w1.toServer, raises));
    var receives := AllReceive(|w2.toClient|, now, fps);
    HandsOver(setup, w);
    RepliesToAll(setup, w1, raises);
    ReceivesAll(setup, w2, now, fps);
    FromAppends(setup, w, HandOvers(|AtSocket(w)|), AllReply(raises) + receives);
    FromAppends(setup, w1, AllReply(raises), receives);
  }

  /** From any point of any run at which a connection is served, without another frame sent: every frame
      sent is answered, by what the model finds in it or by an error; every answer is received, in order;
      and then every id of the connection is accounted for and nothing is under way. */
  lemma EverythingIsAnswered(setup: Setup, events: seq<Event>, raises: seq<bool>, now: real, fps: real)
    requires var w := Run(setup, events);
             w.phase.Serving? && now >= w.clock && |raises| == |w.toServer + AtSocket(w)|
    ensures var w := Run(setup, events);
            var w' := Run(setup, events + CatchUp(w, raises, now, fps));
            && w'.phase.Serving? && UnderWay(w') == []
            && w'.consumed == w.consumed + (w.toClient + Answers(setup, w.toServer + AtSocket(w), raises))
            && w'.base == w.base && w'.frames == w.frames
            && w.base <= |w.frames| && Ids(w'.consumed) == Upto(w.base, |w.frames|)
            && Reports(w'.delivered) == Detections(Heard(w'))
  {
    var w := Run(setup, events);
    var catchUp := CatchUp(w, raises, now, fps);
    CatchesUp(setup, w, raises, now, fps);
    RunContinues(setup, events, catchUp);
    RunConserved(setup, events + catchUp);
    RunGenuine(setup, events + catchUp);
    RunDelivers(setup, events + catchUp);
    NothingUnderWay(setup, Run(setup, events + catchUp));
  }

  lemma NothingUnderWay(setup: Setup, w: World)
    requires Conserved(setup, w) && Genuine(setup, w)
    requires w.phase.Serving? && w.toClient == [] && w.toServer == [] && w.sending == None
    ensures UnderWay(w) == [] && w.base <= |w.frames| && Ids(w.consumed) == Upto(w.base, |w.frames|)
  {
    assert Line(w) == Ids(w.consumed);
  }

  // ----- Connecting again, and ending -----

  /** Unless stopped, a session whose connection failed or dropped waits, tries again, and serves again
      once it can connect: with its ids, frames and deliveries kept, and nothing pending. */
  lemma ConnectsAgain(setup: Setup, w: World)
    requires w.client.running
    ensures w.phase.Serving? ==>
              && From(setup, w, [ConnectionDrops]).phase.Waiting?
              && From(setup, w, [ConnectionDrops, RetryDue]).phase.Connecting?
              && BackAgain(w, From(setup, w, [ConnectionDrops, RetryDue, ConnectSucceeds]))
    ensures w.phase.Connecting? ==>
              && BackAgain(w, From(setup, w, [ConnectSucceeds]))
              && From(setup, w, [ConnectFails]).phase.Waiting?
              && BackAgain(w, From(setup, w, [ConnectFails, RetryDue, ConnectSucceeds]))
  {
    var lost := if w.phase.Serving? then ConnectionDrops else ConnectFails;
    Unfold3(setup, w, lost, RetryDue, ConnectSucceeds);
    Unfold3(setup, w, ConnectSucceeds, RetryDue, ConnectSucceeds);
  }

  lemma Unfold(setup: Setup, w: World, events: seq<Event>)
    requires |events| > 0
    ensures From(setup, w, events) == From(setup, Step(setup, w, events[0]), events[1..])
    ensures |events| == 1 ==> From(setup, w, events) == Step(setup, w, events[0])
  {
  }

  lemma Unfold3(setup: Setup, w: World, a: Event, b: Event, c: Event)
    ensures From(setup, w, [a]) == Step(setup, w, a)
    ensures From(setup, w, [a, b]) == Step(setup, Step(setup, w, a), b)
    ensures From(setup, w, [a, b, c]) == Step(setup, Step(setup, Step(setup, w, a), b), c)
  {
    assert [a, b, c][1..] == [b, c] && [b, c][1..] == [c] && [a, b][1..] == [b];
    var w1 := Step(setup, w, a);
    Unfold(setup, w, [a]);
    Unfold(setup, w, [a, b]);
    Unfold(setup, w, [a, b, c]);
    Unfold(setup, w1, [b]);
    Unfold(setup, w1, [b, c]);
    Unfold(setup, Step(setup, w1, b), [c]);
  }

  ghost predicate BackAgain(w: World, w': World) {
    && w'.phase.Serving? && w'.client.running && w'.stats == w.stats.(serverConnected := true)
    && w'.client.frameId == w.client.frameId && w'.client.buffer == w.client.buffer
    && w'.frames == w.frames && w'.delivered == w.delivered && Heard(w') == Heard(w)
    && w'.client.pending == map[] && w'.readable == [] && UnderWay(w') == []
  }

  /** Event `k` was a pass that numbered a frame that could not be encoded. */
  ghost predicate EncodingFailedAt(setup: Setup, events: seq<Event>, k: int) {
    && 0 <= k < |events|
    && events[k].SendPass? && events[k].read.Some? && !events[k].encodes
    && |Run(setup, events[..k + 1]).frames| == |Run(setup, events[..k]).frames| + 1
  }

  /** A session that has ended was stopped, or could not encode a frame. */
  lemma {:induction false} EndsOnlyFor(setup: Setup, events: seq<Event>)
    requires Run(setup, events).phase.Ended?
    ensures !Run(setup, events).client.running || exists k :: EncodingFailedAt(setup, events, k)
  {
    var n := |events| - 1;
    var before, e := Run(setup, events[..n]), events[n];
    assert events[..n + 1] == events;
    if before.phase.Ended? {
      EndsOnlyFor(setup, events[..n]);
      if k :| EncodingFailedAt(setup, events[..n], k) {
        assert events[..n][..k] == events[..k] && events[..n][..k + 1] == events[..k + 1];
        assert EncodingFailedAt(setup, events, k);
      }
    } else if e.SendPass? && Step(setup, before, e).phase.Ended? {
      assert EncodingFailedAt(setup, events, n);
    }
  }

  /** After a stop, wherever the session is, it ends: when the frame at the socket is handed over, when the
      connection drops, when the wait is over, or when the attempt to connect fails or has succeeded. */
  lemma StopEnds(setup: Setup, w: World)
    ensures var stopped := Step(setup, w, StopRequested);
            && !stopped.client.running
            && (w.phase.Serving? ==>
                  && From(setup, stopped, [HandOver, Finishes]).phase.Ended?
                  && Step(setup, stopped, ConnectionDrops).phase.Ended?)
            && (w.phase.Waiting? ==> Step(setup, stopped, RetryDue).phase.Ended?)
            && (w.phase.Connecting? ==>
                  && Step(setup, stopped, ConnectFails).phase.Ended?
                  && From(setup, stopped, [ConnectSucceeds, Finishes]).phase.Ended?)
  {
    var stopped := Step(setup, w, StopRequested);
    Unfold3(setup, stopped, HandOver, Finishes, Finishes);
    Unfold3(setup, stopped, ConnectSucceeds, Finishes, Finishes);
  }
}
