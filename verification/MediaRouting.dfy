/** The receiver is told which mid carries each source's screen. */
module MediaRouting {
  import opened Common
  import opened MidPool
  import opened MediaState

  /** The mid named by the latest routing message about a source. */
  function LastRoute(routed: seq<Route>, p: Pid): Option<Mid> {
    if routed == [] then None
    else if routed[|routed| - 1].from == p then Some(routed[|routed| - 1].mid)
    else LastRoute(routed[..|routed| - 1], p)
  }

  ghost predicate RoutedTo(pool: Pool, routed: seq<Route>, p: Pid) {
    ScreenOf(pool, p).Some? ==> LastRoute(routed, p) == ScreenOf(pool, p)
  }

  /** Whenever a source has a screen mid, the latest message about it names that mid. */
  ghost predicate Informed(pool: Pool, routed: seq<Route>) {
    forall p :: RoutedTo(pool, routed, p)
  }

  lemma LastRouteAppend(routed: seq<Route>, r: Route, p: Pid)
    ensures LastRoute(routed + [r], p) == if r.from == p then Some(r.mid) else LastRoute(routed, p)
  {
    assert (routed + [r])[..|routed|] == routed;
  }

  /** The branch of the allocator that gives a source a screen mid. */
  predicate GainsScreen(pool: Pool, p: Packet) {
    p.isScreen && p.source in pool.slots && pool.slots[p.source].screenMid.None? && FreeVideo(pool).Some?
  }

  /** Forwarding changes no screen mid but the packet's own source's, and that one
      only from nothing to the first free video mid. */
  lemma ForwardScreen(st: State, p: Packet, q: Pid)
    ensures ScreenOf(Forward(st, p).pool, q) ==
            if q == p.source && GainsScreen(st.pool, p) then FreeVideo(st.pool) else ScreenOf(st.pool, q)
  {
  }

  lemma CreateScreen(pool: Pool, w: map<Mid, nat>, source: Pid, isScreen: bool, q: Pid)
    requires source !in pool.slots
    ensures ScreenOf(GetOrCreate(pool, w, source, isScreen).0, q) == ScreenOf(pool, q)
  {
  }

  /** A flushed packet is not announced: the receiver stays informed exactly when the
      packet gains its source no screen mid, or only one already announced. */
  lemma FlushedPacketInformsIff(st: State, p: Packet)
    requires Informed(st.pool, st.routed)
    ensures Forward(st, p).routed == st.routed
    ensures Informed(Forward(st, p).pool, st.routed) <==>
            !GainsScreen(st.pool, p) || LastRoute(st.routed, p.source) == FreeVideo(st.pool)
  {
    var pool := Forward(st, p).pool;
    ForwardScreen(st, p, p.source);
    if !GainsScreen(st.pool, p) || LastRoute(st.routed, p.source) == FreeVideo(st.pool) {
      forall q
        ensures RoutedTo(pool, st.routed, q)
      {
        ForwardScreen(st, p, q);
        assert RoutedTo(st.pool, st.routed, q);
      }
    } else {
      assert !RoutedTo(pool, st.routed, p.source);
    }
  }

  lemma OnMediaInforms(st: State, p: Packet)
    requires Informed(st.pool, st.routed)
    ensures Informed(OnMedia(st, p).pool, OnMedia(st, p).routed)
  {
    var st' := OnMedia(st, p);
    forall q
      ensures RoutedTo(st'.pool, st'.routed, q)
    {
      OnMediaScreen(st, p, q);
      assert RoutedTo(st.pool, st.routed, q);
      if Announcement(ScreenOf(st.pool, p.source).Some?, st'.pool, p.source) != [] {
        LastRouteAppend(st.routed, Route(p.source, ScreenOf(st'.pool, p.source).value), q);
      } else {
        assert st.routed + [] == st.routed;
      }
    }
  }

  lemma OnMediaScreen(st: State, p: Packet, q: Pid)
    ensures ScreenOf(OnMedia(st, p).pool, q) == ScreenOf(st.pool, q) ||
            (q == p.source && ScreenOf(st.pool, q).None?)
    ensures OnMedia(st, p).routed ==
            st.routed + Announcement(ScreenOf(st.pool, p.source).Some?, OnMedia(st, p).pool, p.source)
  {
    if !(p.isAudio && p.source in st.muted) {
      var (pool, hasSlot) := Acquire(st.pool, st.watermark, p);
      if p.source !in st.pool.slots {
        CreateScreen(st.pool, st.watermark, p.source, p.isScreen, q);
        CreateScreen(st.pool, st.watermark, p.source, p.isScreen, p.source);
      }
      ForwardScreen(st.(pool := pool), p, q);
    }
  }

  /** No buffered screen packet is young enough to be flushed. */
  predicate NoScreenToFlush(packets: seq<Packet>, now: nat) {
    forall i :: 0 <= i < |packets| && packets[i].isScreen ==> Stale(packets[i], now)
  }

  predicate QuietBuffers(pending: map<Pid, seq<Packet>>, now: nat) {
    forall p :: p in pending ==> NoScreenToFlush(pending[p], now)
  }

  lemma {:induction false} ForwardFreshInforms(st: State, packets: seq<Packet>, now: nat)
    requires Informed(st.pool, st.routed) && NoScreenToFlush(packets, now)
    ensures Informed(ForwardFresh(st, packets, now).pool, st.routed)
    ensures ForwardFresh(st, packets, now).routed == st.routed
    ensures ForwardFresh(st, packets, now).pending == st.pending
    decreases |packets|
  {
    if packets != [] {
      if !Stale(packets[0], now) {
        FlushedPacketInformsIff(st, packets[0]);
      }
      ForwardFreshInforms(if Stale(packets[0], now) then st else Forward(st, packets[0]), packets[1..], now);
    }
  }

  lemma {:induction false} FlushInforms(st: State, order: seq<Pid>, now: nat)
    requires Informed(st.pool, st.routed) && QuietBuffers(st.pending, now)
    ensures Informed(Flush(st, order, now).pool, Flush(st, order, now).routed)
    decreases |order|
  {
    if order != [] {
      if order[0] in st.pending {
        ForwardFreshInforms(st.(pending := st.pending - {order[0]}), st.pending[order[0]], now);
      }
      FlushInforms(FlushOne(st, order[0], now), order[1..], now);
    }
  }

  lemma AnnounceAllScreen(pool: Pool, mids: Mids, wantScreen: bool, routed: seq<Route>)
    requires Informed(pool, routed)
    ensures Informed(AnnounceAll(pool, mids, wantScreen), routed)
    decreases |mids|
  {
    if mids != [] {
      var pool' := Announce(pool, mids[0].0, mids[0].1, wantScreen);
      assert forall p :: RoutedTo(pool, routed, p) ==> RoutedTo(pool', routed, p);
      AnnounceAllScreen(pool', mids[1..], wantScreen, routed);
    }
  }

  /** Dropping a slot or its screen mid keeps the receiver informed. */
  lemma FewerScreens(pool: Pool, pool': Pool, routed: seq<Route>)
    requires Informed(pool, routed)
    requires forall p :: ScreenOf(pool', p) == ScreenOf(pool, p) || ScreenOf(pool', p).None?
    ensures Informed(pool', routed)
  {
    forall p
      ensures RoutedTo(pool', routed, p)
    {
      assert RoutedTo(pool, routed, p);
    }
  }

  /** What a command must meet so that screens are announced. */
  predicate Quiet(st: State, cmd: Cmd) {
    cmd.Offer? ==> QuietBuffers(st.pending, cmd.now)
  }

  lemma StepInforms(st: State, cmd: Cmd)
    requires Informed(st.pool, st.routed) && Quiet(st, cmd)
    ensures Informed(Step(st, cmd).pool, Step(st, cmd).routed)
  {
    match cmd
    case Media(p) => OnMediaInforms(st, p);
    case Offer(mids, order, now) =>
      AnnounceAllScreen(st.pool, mids, st.screenPending || st.screenActive, st.routed);
      FlushInforms(Renegotiate(st, mids), order, now);
    case MediaAdded(mids) => AnnounceAllScreen(st.pool, mids, false, st.routed);
    case ScreenShareActive(_) => FewerScreens(st.pool, Step(st, cmd).pool, st.routed);
    case PeerMuteChanged(_, _) =>
    case PeerLeft(pid) => FewerScreens(st.pool, Step(st, cmd).pool, st.routed);
    case SourceScreenStopped(pid) => FewerScreens(st.pool, Step(st, cmd).pool, st.routed);
    case PeerCountChanged(_) =>
  }

  ghost predicate QuietRun(mids: Mids, cmds: seq<Cmd>) {
    cmds == [] || (QuietRun(mids, cmds[..|cmds| - 1]) && Quiet(Run(mids, cmds[..|cmds| - 1]), cmds[|cmds| - 1]))
  }

  /** In every run where no buffered screen packet is flushed, a source's screen mid is
      the one the latest routing message about that source names, through any stop,
      restart, departure and return. */
  lemma {:induction false} ScreensAnnounced(mids: Mids, cmds: seq<Cmd>)
    requires QuietRun(mids, cmds)
    ensures Informed(Run(mids, cmds).pool, Run(mids, cmds).routed)
  {
    if cmds == [] {
      NoSlots(mids);
      forall p
        ensures RoutedTo(InitialPool(mids), [], p)
      {
      }
    } else {
      ScreensAnnounced(mids, cmds[..|cmds| - 1]);
      StepInforms(Run(mids, cmds[..|cmds| - 1]), cmds[|cmds| - 1]);
    }
  }

  lemma {:induction false} NoSlots(mids: Mids)
    ensures InitialPool(mids).slots == map[]
  {
    if mids != [] {
      NoSlots(mids[..|mids| - 1]);
    }
  }

  /** A flushed packet must gain no screen mid that was not announced before. */
  predicate ForwardInforms(st: State, p: Packet) {
    !GainsScreen(st.pool, p) || LastRoute(st.routed, p.source) == FreeVideo(st.pool)
  }

  predicate FreshInforms(st: State, packets: seq<Packet>, now: nat)
    decreases |packets|
  {
    packets == [] ||
    if Stale(packets[0], now) then FreshInforms(st, packets[1..], now)
    else ForwardInforms(st, packets[0]) && FreshInforms(Forward(st, packets[0]), packets[1..], now)
  }

  predicate FlushInformsAll(st: State, order: seq<Pid>, now: nat)
    decreases |order|
  {
    order == [] ||
    (&& (order[0] in st.pending ==>
           FreshInforms(st.(pending := st.pending - {order[0]}), st.pending[order[0]], now))
     && FlushInformsAll(FlushOne(st, order[0], now), order[1..], now))
  }

  /** Flushing cannot make up for a screen that was not announced. */
  lemma ForwardUninformed(st: State, p: Packet, q: Pid)
    requires !RoutedTo(st.pool, st.routed, q)
    ensures !RoutedTo(Forward(st, p).pool, Forward(st, p).routed, q)
  {
    ForwardScreen(st, p, q);
  }

  lemma {:induction false} FreshUninformed(st: State, packets: seq<Packet>, now: nat, q: Pid)
    requires !RoutedTo(st.pool, st.routed, q)
    ensures var st' := ForwardFresh(st, packets, now); !RoutedTo(st'.pool, st'.routed, q)
    decreases |packets|
  {
    if packets != [] {
      if !Stale(packets[0], now) {
        ForwardUninformed(st, packets[0], q);
      }
      FreshUninformed(if Stale(packets[0], now) then st else Forward(st, packets[0]), packets[1..], now, q);
    }
  }

  lemma {:induction false} FlushUninformed(st: State, order: seq<Pid>, now: nat, q: Pid)
    requires !RoutedTo(st.pool, st.routed, q)
    ensures var st' := Flush(st, order, now); !RoutedTo(st'.pool, st'.routed, q)
    decreases |order|
  {
    if order != [] {
      if order[0] in st.pending {
        FreshUninformed(st.(pending := st.pending - {order[0]}), st.pending[order[0]], now, q);
      }
      FlushUninformed(FlushOne(st, order[0], now), order[1..], now, q);
    }
  }

  lemma {:induction false} FreshInformsIff(st: State, packets: seq<Packet>, now: nat)
    requires Informed(st.pool, st.routed)
    ensures var st' := ForwardFresh(st, packets, now);
            Informed(st'.pool, st'.routed) <==> FreshInforms(st, packets, now)
    decreases |packets|
  {
    if packets != [] {
      if Stale(packets[0], now) {
        FreshInformsIff(st, packets[1..], now);
      } else {
        var st1 := Forward(st, packets[0]);
        FlushedPacketInformsIff(st, packets[0]);
        if ForwardInforms(st, packets[0]) {
          FreshInformsIff(st1, packets[1..], now);
        } else {
          var q :| !RoutedTo(st1.pool, st1.routed, q);
          FreshUninformed(st1, packets[1..], now, q);
        }
      }
    }
  }

  lemma {:induction false} FlushInformsIff(st: State, order: seq<Pid>, now: nat)
    requires Informed(st.pool, st.routed)
    ensures var st' := Flush(st, order, now);
            Informed(st'.pool, st'.routed) <==> FlushInformsAll(st, order, now)
    decreases |order|
  {
    if order != [] {
      var st1 := FlushOne(st, order[0], now);
      if order[0] in st.pending {
        FreshInformsIff(st.(pending := st.pending - {order[0]}), st.pending[order[0]], now);
      }
      if Informed(st1.pool, st1.routed) {
        FlushInformsIff(st1, order[1..], now);
      } else {
        var q :| !RoutedTo(st1.pool, st1.routed, q);
        FlushUninformed(st1, order[1..], now, q);
      }
    }
  }

  /** What a command must meet: only offers can fail it. */
  predicate StepAnnounces(st: State, cmd: Cmd) {
    cmd.Offer? ==> FlushInformsAll(Renegotiate(st, cmd.mids), cmd.order, cmd.now)
  }

  lemma StepInformsIff(st: State, cmd: Cmd)
    requires Informed(st.pool, st.routed)
    ensures Informed(Step(st, cmd).pool, Step(st, cmd).routed) <==> StepAnnounces(st, cmd)
  {
    if cmd.Offer? {
      AnnounceAllScreen(st.pool, cmd.mids, st.screenPending || st.screenActive, st.routed);
      FlushInformsIff(Renegotiate(st, cmd.mids), cmd.order, cmd.now);
    } else {
      StepInforms(st, cmd);
    }
  }

  ghost predicate RunAnnounces(mids: Mids, cmds: seq<Cmd>) {
    cmds == [] ||
    (var n := |cmds| - 1; RunAnnounces(mids, cmds[..n]) && StepAnnounces(Run(mids, cmds[..n]), cmds[n]))
  }

  ghost predicate AlwaysInformed(mids: Mids, cmds: seq<Cmd>) {
    && Informed(Run(mids, cmds).pool, Run(mids, cmds).routed)
    && (cmds != [] ==> AlwaysInformed(mids, cmds[..|cmds| - 1]))
  }

  /** For every run: the receiver knows all screen mids throughout exactly if no flush gives
      a source a screen mid that was not announced before. */
  lemma {:induction false} AlwaysInformedIff(mids: Mids, cmds: seq<Cmd>)
    ensures AlwaysInformed(mids, cmds) <==> RunAnnounces(mids, cmds)
  {
    if cmds == [] {
      ScreensAnnounced(mids, []);
    } else {
      var n := |cmds| - 1;
      AlwaysInformedIff(mids, cmds[..n]);
      if AlwaysInformed(mids, cmds[..n]) {
        StepInformsIff(Run(mids, cmds[..n]), cmds[n]);
      }
    }
  }
}
