/** The session and the result callback together: what an alert says about the frames behind it. */
module ClientRuns {
  import opened Common
  import P = Pipeline
  import S = SessionProtocol

  /** The callback was run once for each delivery of the session, in order, on what was delivered. */
  ghost predicate Handled(w: S.World, obs: seq<P.Observation>) {
    && |obs| == |w.delivered|
    && forall k :: 0 <= k < |obs| ==> obs[k].frameId == w.delivered[k].frameId && obs[k].boxes == w.delivered[k].boxes
  }

  /** Result `i` is about captured frame `id`, and that frame shows a dog up under the zones read when
      the result was handled. */
  ghost predicate SeenAt(setup: S.Setup, cfg: P.Config, w: S.World, obs: seq<P.Observation>, i: int, id: int)
    requires 0 <= i < |obs|
  {
    && obs[i].frameId == id && 1 <= id <= |w.frames|
    && P.ShowsDog(cfg, setup.detect(w.frames[id - 1]), obs[i].zones)
  }

  /** Frames `a` and `b` of the session, captured one or two numbers apart, both show a dog up, and both
      were answered among the last `historySize` results up to `k`. */
  ghost predicate TwoFrames(setup: S.Setup, cfg: P.Config, w: S.World, obs: seq<P.Observation>, k: nat, a: int, b: int)
    requires k < |obs|
  {
    && a < b <= a + 2
    && exists i, j :: Max(0, k + 1 - cfg.historySize) <= i < j <= k
                      && SeenAt(setup, cfg, w, obs, i, a) && SeenAt(setup, cfg, w, obs, j, b)
  }

  /** Whatever the interleaving of sends, drops, reconnects and errors: an alert goes out at result `k`
      exactly when two different frames captured in this session, at most two numbers apart, show a dog
      up and were answered recently, and the current zones are none or include one off cooldown. */
  lemma AlertsComeFromTwoFrames(
    setup: S.Setup, events: seq<S.Event>, cfg: P.Config, obs: seq<P.Observation>, k: nat)
    requires Handled(S.Run(setup, events), obs)
    requires P.InOrder(obs) && cfg.historySize >= 1 && k < |obs|
    ensures var w := S.Run(setup, events);
            P.DispatchedAt(cfg, obs, k)
            <==> P.SomeZoneReady(cfg, obs, k) && exists a, b :: TwoFrames(setup, cfg, w, obs, k, a, b)
  {
    S.DeliveredInOrder(setup, events);
    P.EndToEnd(cfg, obs, k);
    TwoFramesIff(setup, cfg, S.Run(setup, events), obs, k);
  }

  /** Every result is about the frame captured under its id, and ids increase. */
  ghost predicate AboutFrames(setup: S.Setup, w: S.World, obs: seq<P.Observation>) {
    && (forall i :: 0 <= i < |obs| ==> S.FoundIn(setup, w, obs[i].frameId, obs[i].boxes))
    && (forall i, j :: 0 <= i < j < |obs| ==> obs[i].frameId < obs[j].frameId)
  }

  lemma SeenIsUp(setup: S.Setup, cfg: P.Config, w: S.World, obs: seq<P.Observation>, i: nat)
    requires AboutFrames(setup, w, obs) && i < |obs|
    ensures SeenAt(setup, cfg, w, obs, i, obs[i].frameId) <==> P.DogUp(cfg, obs[i])
  {
    assert S.FoundIn(setup, w, obs[i].frameId, obs[i].boxes);
  }

  lemma TwoFramesIff(setup: S.Setup, cfg: P.Config, w: S.World, obs: seq<P.Observation>, k: nat)
    requires AboutFrames(setup, w, obs) && k < |obs|
    ensures P.TwoRecentlyUp(cfg, obs, k) <==> exists a, b :: TwoFrames(setup, cfg, w, obs, k, a, b)
  {
    if P.TwoRecentlyUp(cfg, obs, k) {
      var i, j :| Max(0, k + 1 - cfg.historySize) <= i < j <= k && P.DogUp(cfg, obs[i]) && P.DogUp(cfg, obs[j])
                  && -2 <= obs[i].frameId - obs[j].frameId <= 2;
      SeenIsUp(setup, cfg, w, obs, i);
      SeenIsUp(setup, cfg, w, obs, j);
      assert TwoFrames(setup, cfg, w, obs, k, obs[i].frameId, obs[j].frameId);
    }
    if a, b :| TwoFrames(setup, cfg, w, obs, k, a, b) {
      UpFromFrames(setup, cfg, w, obs, k, a, b);
    }
  }

  lemma UpFromFrames(setup: S.Setup, cfg: P.Config, w: S.World, obs: seq<P.Observation>, k: nat, a: int, b: int)
    requires AboutFrames(setup, w, obs) && k < |obs|
    requires TwoFrames(setup, cfg, w, obs, k, a, b)
    ensures P.TwoRecentlyUp(cfg, obs, k)
  {
    var i, j :| Max(0, k + 1 - cfg.historySize) <= i < j <= k
                && SeenAt(setup, cfg, w, obs, i, a) && SeenAt(setup, cfg, w, obs, j, b);
    SeenIsUp(setup, cfg, w, obs, i);
    SeenIsUp(setup, cfg, w, obs, j);
    assert P.DogUp(cfg, obs[i]) && P.DogUp(cfg, obs[j]) && -2 <= obs[i].frameId - obs[j].frameId <= 2;
  }
}
