/** When the media task tells the receiver where a screen goes and asks for more mids, and
    how long a source keeps its mids. */
module MediaNotices {
  import opened Common
  import opened MidPool
  import opened MediaState
  import opened MediaInvariant
  import opened MediaForwarding
  import opened MediaMuting
  import opened MediaRouting
  import opened Renegotiation

  function FreeVideos(pool: Pool): seq<Mid> {
    Candidates(pool.allMids, Video, VideoTaken(pool))
  }

  /** A packet's screen finds a mid: after the camera's if the source is new. */
  predicate ScreenRoom(pool: Pool, p: Packet) {
    && p.isScreen && ScreenOf(pool, p.source).None?
    && if p.source in pool.slots then |FreeVideos(pool)| > 0 else AudioFree(pool) > 0 && |FreeVideos(pool)| > 1
  }

  /** The mid it finds: the first free one, or the second if the source is new. */
  function ScreenMid(pool: Pool, p: Packet): Mid
    requires ScreenRoom(pool, p)
  {
    FreeVideos(pool)[if p.source in pool.slots then 0 else 1]
  }

  lemma {:induction false} ExcludeFirst(mids: Mids, kind: Kind, taken: set<Mid>, m: Mid)
    requires DistinctMids(mids) && Candidates(mids, kind, taken) != [] && Candidates(mids, kind, taken)[0] == m
    ensures Candidates(mids, kind, taken + {m}) == Candidates(mids, kind, taken)[1..]
  {
    DistinctTail(mids);
    if mids[0].1 == kind && mids[0].0 !in taken {
      ExcludeOther(mids[1..], kind, taken, m);
    } else {
      ExcludeFirst(mids[1..], kind, taken, m);
    }
  }

  lemma {:induction false} ExcludeOther(mids: Mids, kind: Kind, taken: set<Mid>, m: Mid)
    requires (m, kind) !in mids
    ensures Candidates(mids, kind, taken + {m}) == Candidates(mids, kind, taken)
  {
    if mids != [] {
      ExcludeOther(mids[1..], kind, taken, m);
    }
  }

  lemma NewSlotVideos(pool: Pool, source: Pid, s: Slot)
    requires Inv(pool) && source !in pool.slots && s.screenMid.None?
    requires FreeAudio(pool) == Some(s.audioMid) && FreeVideo(pool) == Some(s.videoMid)
    ensures FreeVideos(pool.(slots := pool.slots[source := s])) == FreeVideos(pool)[1..]
  {
    var a, v := s.audioMid, s.videoMid;
    var pool' := pool.(slots := pool.slots[source := s]);
    UsedAfter(pool.slots, source, s);
    assert VideoTaken(pool') == VideoTaken(pool) + {v} + {a};
    KindsApart(pool.allMids, a, v);
    ExcludeOther(pool.allMids, Video, VideoTaken(pool) + {v}, a);
    ExcludeFirst(pool.allMids, Video, VideoTaken(pool), v);
  }

  /** A live packet gives its source a screen mid exactly if there is room for one, and
      then the mid that first fit names. */
  lemma ScreenGained(st: State, p: Packet)
    requires Inv(st.pool) && !(p.isAudio && p.source in st.muted)
    ensures ScreenOf(OnMedia(st, p).pool, p.source) ==
            if ScreenRoom(st.pool, p) then Some(ScreenMid(st.pool, p)) else ScreenOf(st.pool, p.source)
  {
    hide Inv;
    var (pool, hasSlot) := Acquire(st.pool, st.watermark, p);
    AcquireIffPair(st.pool, st.watermark, p);
    if hasSlot {
      ForwardScreen(st.(pool := pool), p, p.source);
      if p.source !in st.pool.slots {
        NewSlotVideos(st.pool, p.source, pool.slots[p.source]);
      }
    }
  }

  lemma {:induction false} FreshKeepsNotices(st: State, packets: seq<Packet>, now: nat)
    ensures var st' := ForwardFresh(st, packets, now); st'.routed == st.routed && st'.requested == st.requested
    decreases |packets|
  {
    if packets != [] {
      FreshKeepsNotices(if Stale(packets[0], now) then st else Forward(st, packets[0]), packets[1..], now);
    }
  }

  lemma {:induction false} FlushKeepsNotices(st: State, order: seq<Pid>, now: nat)
    ensures var st' := Flush(st, order, now); st'.routed == st.routed && st'.requested == st.requested
    decreases |order|
  {
    if order != [] {
      if order[0] in st.pending {
        FreshKeepsNotices(st.(pending := st.pending - {order[0]}), st.pending[order[0]], now);
      }
      FlushKeepsNotices(FlushOne(st, order[0], now), order[1..], now);
    }
  }

  /** The routing message a command causes. */
  function RouteFor(pool: Pool, cmd: Cmd, muted: bool): seq<Route> {
    if cmd.Media? && !(cmd.packet.isAudio && muted) && ScreenRoom(pool, cmd.packet)
    then [Route(cmd.packet.source, ScreenMid(pool, cmd.packet))] else []
  }

  /** The request for more mids a command causes. */
  function RequestFor(pool: Pool, cmd: Cmd): seq<u32> {
    if cmd.PeerCountChanged? && Shortfall(pool, Minus(cmd.count, |Sources(pool.slots)|)) > 0
    then [Shortfall(pool, Minus(cmd.count, |Sources(pool.slots)|)) % 0x1_0000_0000] else []
  }

  lemma MediaNotifies(st: State, p: Packet)
    requires Inv(st.pool)
    ensures OnMedia(st, p).routed == st.routed + RouteFor(st.pool, Media(p), p.source in st.muted)
    ensures OnMedia(st, p).requested == st.requested
  {
    hide ScreenRoom, ScreenMid, Inv, Forward, Acquire;
    assert st.routed + [] == st.routed;
    ForwardRequestsNothing(st.(pool := Acquire(st.pool, st.watermark, p).0), p);
    if !(p.isAudio && p.source in st.muted) {
      OnMediaScreen(st, p, p.source);
      ScreenGained(st, p);
      RoomMeansNone(st.pool, p);
    }
  }

  lemma RoomMeansNone(pool: Pool, p: Packet)
    ensures ScreenRoom(pool, p) ==> ScreenOf(pool, p.source).None?
  {
  }

  lemma ForwardRequestsNothing(st: State, p: Packet)
    ensures Forward(st, p).requested == st.requested
  {
  }

  lemma RequestsShortfall(pool: Pool, count: nat)
    requires Inv(pool)
    ensures Requests(pool, count) == RequestFor(pool, PeerCountChanged(count))
  {
    hide NeedsRenegotiation, AudioFree, VideoFree;
    RequestCountsFree(pool, count);
  }

  /** In every run a routing message goes out exactly when a live packet of a source that
      is not muted gains it a screen mid, and names that mid. More mids are asked for
      exactly when the peer count changes and the free mids fall short, by that number. */
  lemma NoticesExact(mids: Mids, cmds: seq<Cmd>, cmd: Cmd)
    requires DistinctMids(mids)
    ensures var st := Run(mids, cmds);
            var st' := Step(st, cmd);
            && st'.routed == st.routed + RouteFor(st.pool, cmd, cmd.Media? && Muted(cmds, cmd.packet.source))
            && st'.requested == st.requested + RequestFor(st.pool, cmd)
  {
    hide OnMedia, Inv, ScreenRoom, ScreenMid, Shortfall, Requests;
    var st := Run(mids, cmds);
    ReachableInv(mids, cmds);
    assert st.requested + [] == st.requested && st.routed + [] == st.routed;
    match cmd
    case Media(p) =>
      MutedFollowsCommands(mids, cmds, p.source);
      MediaNotifies(st, p);
    case Offer(offered, order, now) => FlushKeepsNotices(Renegotiate(st, offered), order, now);
    case PeerCountChanged(count) => RequestsShortfall(st.pool, count);
    case _ =>
  }

  /** A source keeps its audio and video mids, and its screen mid unless stopped. */
  ghost predicate Keeps(a: Pool, b: Pool, p: Pid) {
    p in a.slots ==>
      && p in b.slots
      && b.slots[p].audioMid == a.slots[p].audioMid && b.slots[p].videoMid == a.slots[p].videoMid
      && (a.slots[p].screenMid.Some? ==> b.slots[p].screenMid == a.slots[p].screenMid)
  }

  lemma CreateKeepsMids(pool: Pool, w: map<Mid, nat>, source: Pid, isScreen: bool, p: Pid)
    ensures Keeps(pool, GetOrCreate(pool, w, source, isScreen).0, p)
  {
  }

  lemma ForwardKeepsMids(st: State, q: Packet, p: Pid)
    ensures Keeps(st.pool, Forward(st, q).pool, p)
  {
    hide GetOrCreate;
    CreateKeepsMids(st.pool, st.watermark, q.source, q.isScreen, p);
  }

  lemma {:induction false} FreshKeepsMids(st: State, packets: seq<Packet>, now: nat, p: Pid)
    ensures Keeps(st.pool, ForwardFresh(st, packets, now).pool, p)
    decreases |packets|
  {
    hide Forward;
    if packets != [] {
      ForwardKeepsMids(st, packets[0], p);
      FreshKeepsMids(if Stale(packets[0], now) then st else Forward(st, packets[0]), packets[1..], now, p);
    }
  }

  lemma {:induction false} FlushKeepsMids(st: State, order: seq<Pid>, now: nat, p: Pid)
    ensures Keeps(st.pool, Flush(st, order, now).pool, p)
    decreases |order|
  {
    if order != [] {
      if order[0] in st.pending {
        FreshKeepsMids(st.(pending := st.pending - {order[0]}), st.pending[order[0]], now, p);
      }
      FlushKeepsMids(FlushOne(st, order[0], now), order[1..], now, p);
    }
  }

  lemma MediaKeepsMids(st: State, q: Packet, p: Pid)
    ensures Keeps(st.pool, OnMedia(st, q).pool, p)
  {
    hide GetOrCreate, Forward;
    CreateKeepsMids(st.pool, st.watermark, q.source, q.isScreen, p);
    ForwardKeepsMids(st.(pool := Acquire(st.pool, st.watermark, q).0), q, p);
  }

  /** A source loses its mids by leaving and its screen mid by stopping, and not otherwise. */
  lemma StepKeepsMids(st: State, cmd: Cmd, p: Pid)
    ensures cmd != PeerLeft(p) && cmd != SourceScreenStopped(p) ==> Keeps(st.pool, Step(st, cmd).pool, p)
    ensures cmd == PeerLeft(p) ==> p !in Step(st, cmd).pool.slots
    ensures cmd == SourceScreenStopped(p) ==>
              && ScreenOf(Step(st, cmd).pool, p).None?
              && Keeps(StopScreen(st.pool, p), Step(st, cmd).pool, p)
              && (p in st.pool.slots ==>
                    p in StopScreen(st.pool, p).slots
                    && StopScreen(st.pool, p).slots[p] == st.pool.slots[p].(screenMid := None))
  {
    hide OnMedia;
    match cmd
    case Media(q) => MediaKeepsMids(st, q, p);
    case Offer(offered, order, now) =>
      AnnounceAllSlots(st.pool, offered, st.screenPending || st.screenActive);
      FlushKeepsMids(Renegotiate(st, offered), order, now, p);
    case MediaAdded(added) => AnnounceAllSlots(st.pool, added, false);
    case _ =>
  }

  /** Over every continuation in which a source neither leaves nor stops its screen, its
      packets keep going to the same mids. */
  lemma {:induction false} MidsStay(mids: Mids, cmds: seq<Cmd>, more: seq<Cmd>, p: Pid)
    requires PeerLeft(p) !in more && SourceScreenStopped(p) !in more
    ensures Keeps(Run(mids, cmds).pool, Run(mids, cmds + more).pool, p)
    decreases |more|
  {
    hide Step;
    if more == [] {
      assert cmds + more == cmds;
    } else {
      var n := |more| - 1;
      MidsStay(mids, cmds, more[..n], p);
      assert (cmds + more)[..|cmds| + n] == cmds + more[..n];
      StepKeepsMids(Run(mids, cmds + more[..n]), more[n], p);
    }
  }

  /** After leaving, a source has no mid until a packet of its own gets it a pair. */
  lemma GainedIff(mids: Mids, cmds: seq<Cmd>, cmd: Cmd, p: Pid)
    requires DistinctMids(mids) && p !in Run(mids, cmds).pool.slots && !cmd.Offer?
    ensures var st := Run(mids, cmds);
            p in Step(st, cmd).pool.slots <==>
            && cmd.Media? && cmd.packet.source == p && !(cmd.packet.isAudio && Muted(cmds, p))
            && AudioFree(st.pool) > 0 && VideoFree(st.pool) > 0
  {
    hide Inv, Forward, GetOrCreate, Acquire;
    var st := Run(mids, cmds);
    ReachableInv(mids, cmds);
    match cmd
    case Media(q) =>
      MutedFollowsCommands(mids, cmds, q.source);
      AcquireIffPair(st.pool, st.watermark, q);
      if !(q.isAudio && q.source in st.muted) {
        OthersGainNothing(st, q, p);
      }
    case MediaAdded(added) => AnnounceAllSlots(st.pool, added, false);
    case _ =>
  }

  lemma OthersGainNothing(st: State, q: Packet, p: Pid)
    requires p !in st.pool.slots && !(q.isAudio && q.source in st.muted)
    ensures p in OnMedia(st, q).pool.slots <==> q.source == p && Acquire(st.pool, st.watermark, q).1
  {
    hide Forward, GetOrCreate;
    var (pool, hasSlot) := Acquire(st.pool, st.watermark, q);
    CreateForOne(st.pool, st.watermark, q.source, q.isScreen, p);
    if hasSlot {
      ForwardForOne(st.(pool := pool), q, p);
    }
  }

  lemma CreateForOne(pool: Pool, w: map<Mid, nat>, source: Pid, isScreen: bool, p: Pid)
    ensures var (pool', ok) := GetOrCreate(pool, w, source, isScreen);
            p in pool'.slots <==> p in pool.slots || (p == source && ok)
  {
  }

  lemma ForwardForOne(st: State, q: Packet, p: Pid)
    requires q.source in st.pool.slots
    ensures p in Forward(st, q).pool.slots <==> p in st.pool.slots
  {
  }
}
