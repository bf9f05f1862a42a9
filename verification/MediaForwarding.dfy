/** Where forwarded packets go, and which of them go out at all. */
module MediaForwarding {
  import opened Common
  import opened MidPool
  import opened MediaState
  import opened MediaInvariant
  import opened MediaRouting
  import opened Renegotiation

  function KindOf(p: Packet): Kind {
    if p.isAudio then Audio else Video
  }

  ghost predicate KindRight(mids: Mids, w: Write) {
    (w.mid, KindOf(w.packet)) in mids
  }

  /** Audio went to audio mids only, camera and screen to video mids only. */
  ghost predicate KindsRight(mids: Mids, written: seq<Write>) {
    forall w :: w in written ==> KindRight(mids, w)
  }

  lemma EmitKind(pool: Pool, p: Packet)
    requires Inv(pool) && p.source in pool.slots
    ensures KindsRight(pool.allMids, Emit(pool.slots[p.source], p).1)
  {
    assert SlotOk(pool, pool.slots[p.source]);
  }

  lemma ForwardKinds(st: State, p: Packet)
    requires Inv(st.pool) && KindsRight(st.pool.allMids, st.written)
    ensures KindsRight(Forward(st, p).pool.allMids, Forward(st, p).written)
  {
    GetOrCreateKeeps(st.pool, st.watermark, p.source, p.isScreen);
    var (pool, ok) := GetOrCreate(st.pool, st.watermark, p.source, p.isScreen);
    if ok {
      EmitKind(pool, p);
    }
  }

  lemma OnMediaKinds(st: State, p: Packet)
    requires Inv(st.pool) && KindsRight(st.pool.allMids, st.written)
    ensures KindsRight(OnMedia(st, p).pool.allMids, OnMedia(st, p).written)
  {
    var (pool, _) := Acquire(st.pool, st.watermark, p);
    GetOrCreateKeeps(st.pool, st.watermark, p.source, p.isScreen);
    ForwardKinds(st.(pool := pool), p);
  }

  lemma {:induction false} AnnounceAllKinds(pool: Pool, mids: Mids, wantScreen: bool, written: seq<Write>)
    requires KindsRight(pool.allMids, written)
    ensures KindsRight(AnnounceAll(pool, mids, wantScreen).allMids, written)
    decreases |mids|
  {
    if mids != [] {
      AnnounceAllKinds(Announce(pool, mids[0].0, mids[0].1, wantScreen), mids[1..], wantScreen, written);
    }
  }

  lemma {:induction false} ForwardFreshKinds(st: State, packets: seq<Packet>, now: nat)
    requires Inv(st.pool) && KindsRight(st.pool.allMids, st.written)
    ensures KindsRight(ForwardFresh(st, packets, now).pool.allMids, ForwardFresh(st, packets, now).written)
    ensures ForwardFresh(st, packets, now).pending == st.pending
    decreases |packets|
  {
    if packets != [] {
      if !Stale(packets[0], now) {
        ForwardKeeps(st, packets[0]);
        ForwardKinds(st, packets[0]);
      }
      ForwardFreshKinds(if Stale(packets[0], now) then st else Forward(st, packets[0]), packets[1..], now);
    }
  }

  /** No source has more than the allowed number of packets buffered. */
  ghost predicate BuffersBounded(pending: map<Pid, seq<Packet>>) {
    forall p :: p in pending ==> |pending[p]| <= MEDIA_BUFFER_CAP
  }

  lemma {:induction false} FlushKinds(st: State, order: seq<Pid>, now: nat)
    requires Inv(st.pool) && KindsRight(st.pool.allMids, st.written) && BuffersBounded(st.pending)
    ensures KindsRight(Flush(st, order, now).pool.allMids, Flush(st, order, now).written)
    ensures BuffersBounded(Flush(st, order, now).pending)
    decreases |order|
  {
    if order != [] {
      FlushOneKeeps(st, order[0], now);
      if order[0] in st.pending {
        ForwardFreshKinds(st.(pending := st.pending - {order[0]}), st.pending[order[0]], now);
      }
      FlushKinds(FlushOne(st, order[0], now), order[1..], now);
    }
  }

  lemma BufferBounded(pending: map<Pid, seq<Packet>>, p: Packet)
    requires BuffersBounded(pending)
    ensures BuffersBounded(Buffer(pending, p))
  {
  }

  lemma OnMediaBuffers(st: State, p: Packet)
    requires BuffersBounded(st.pending)
    ensures BuffersBounded(OnMedia(st, p).pending)
  {
    BufferBounded(st.pending, p);
    if !(p.isAudio && p.source in st.muted) {
      BufferedIffNoSlot(st, p);
    }
  }

  lemma StepKinds(st: State, cmd: Cmd)
    requires Inv(st.pool) && KindsRight(st.pool.allMids, st.written) && BuffersBounded(st.pending)
    ensures KindsRight(Step(st, cmd).pool.allMids, Step(st, cmd).written)
    ensures BuffersBounded(Step(st, cmd).pending)
  {
    match cmd
    case Media(p) =>
      OnMediaKinds(st, p);
      OnMediaBuffers(st, p);
    case Offer(mids, order, now) =>
      var wantScreen := st.screenPending || st.screenActive;
      AnnounceAllKeeps(st.pool, mids, wantScreen);
      AnnounceAllKinds(st.pool, mids, wantScreen, st.written);
      FlushKinds(Renegotiate(st, mids), order, now);
    case MediaAdded(mids) => AnnounceAllKinds(st.pool, mids, false, st.written);
    case ScreenShareActive(_) =>
    case PeerMuteChanged(_, _) =>
    case PeerLeft(pid) =>
    case SourceScreenStopped(pid) =>
    case PeerCountChanged(_) =>
  }

  /** In every run, packets went out only on mids of their kind, and no buffer outgrew
      its bound. */
  lemma {:induction false} KindsAlwaysRight(mids: Mids, cmds: seq<Cmd>)
    requires DistinctMids(mids)
    ensures KindsRight(Run(mids, cmds).pool.allMids, Run(mids, cmds).written)
    ensures BuffersBounded(Run(mids, cmds).pending)
  {
    if cmds != [] {
      var n := |cmds| - 1;
      KindsAlwaysRight(mids, cmds[..n]);
      ReachableInv(mids, cmds[..n]);
      StepKinds(Run(mids, cmds[..n]), cmds[n]);
    }
  }

  predicate WantsScreen(p: Packet) {
    p.isScreen && !p.isAudio
  }

  /** Whether the mids at hand suffice for a packet: a new source needs a free mid of each
      kind, and two video mids if it starts with its screen. */
  predicate Suffices(pool: Pool, p: Packet) {
    if p.source in pool.slots
    then WantsScreen(p) ==> pool.slots[p.source].screenMid.Some? || VideoFree(pool) > 0
    else AudioFree(pool) > 0 && VideoFree(pool) > if WantsScreen(p) then 1 else 0
  }

  /** Exactly one write of the packet was added, or none. */
  ghost predicate AddsWrite(before: seq<Write>, after: seq<Write>, p: Packet, goesOut: bool) {
    if goesOut then |after| == |before| + 1 && after == before + [after[|before|]] && after[|before|].packet == p
    else after == before
  }

  lemma ForwardWritesIff(st: State, p: Packet)
    requires p.source in st.pool.slots
    ensures AddsWrite(st.written, Forward(st, p).written, p, Suffices(st.pool, p))
  {
    assert st.written + [] == st.written;
  }

  /** A packet that is not muted goes out at once exactly if the mids suffice. */
  lemma WrittenIffSuffices(st: State, p: Packet)
    requires Inv(st.pool) && !(p.isAudio && p.source in st.muted)
    ensures AddsWrite(st.written, OnMedia(st, p).written, p, Suffices(st.pool, p))
  {
    var (pool, hasSlot) := Acquire(st.pool, st.watermark, p);
    if hasSlot {
      ForwardWritesIff(st.(pool := pool), p);
      NewSlotSuffices(st.pool, st.watermark, p);
    } else {
      NoSlotNoPair(st.pool, st.watermark, p);
    }
  }

  /** It is kept back exactly if its source has no slot and no pair of mids is free. */
  lemma HeldBackIffNoPair(st: State, p: Packet)
    requires Inv(st.pool) && !(p.isAudio && p.source in st.muted)
    ensures OnMedia(st, p).pending ==
            if p.source in st.pool.slots || (AudioFree(st.pool) > 0 && VideoFree(st.pool) > 0)
            then st.pending else Buffer(st.pending, p)
  {
    AcquireIffPair(st.pool, st.watermark, p);
    BufferedIffNoSlot(st, p);
  }

  lemma BufferedIffNoSlot(st: State, p: Packet)
    requires !(p.isAudio && p.source in st.muted)
    ensures OnMedia(st, p).pending ==
            if Acquire(st.pool, st.watermark, p).1 then st.pending else Buffer(st.pending, p)
  {
  }

  lemma AcquireIffPair(pool: Pool, w: map<Mid, nat>, p: Packet)
    requires Inv(pool)
    ensures Acquire(pool, w, p).1 <==> p.source in pool.slots || (AudioFree(pool) > 0 && VideoFree(pool) > 0)
  {
    if p.source !in pool.slots {
      CreateIgnoresScreen(pool, w, p.source, p.isScreen);
      CreateTakesPair(pool, w, p.source);
    }
  }

  lemma NoSlotNoPair(pool: Pool, w: map<Mid, nat>, p: Packet)
    requires Inv(pool) && !Acquire(pool, w, p).1
    ensures !Suffices(pool, p)
  {
    CreateIgnoresScreen(pool, w, p.source, p.isScreen);
    CreateTakesPair(pool, w, p.source);
  }

  lemma CreateIgnoresScreen(pool: Pool, w: map<Mid, nat>, source: Pid, isScreen: bool)
    requires source !in pool.slots
    ensures GetOrCreate(pool, w, source, isScreen) == GetOrCreate(pool, w, source, false)
  {
  }

  lemma NewSlotSuffices(pool: Pool, w: map<Mid, nat>, p: Packet)
    requires Inv(pool) && Acquire(pool, w, p).1
    ensures Suffices(Acquire(pool, w, p).0, p) <==> Suffices(pool, p)
  {
    if p.source !in pool.slots {
      CreateIgnoresScreen(pool, w, p.source, p.isScreen);
      CreateTakesPair(pool, w, p.source);
    }
  }

  /** A live screen packet goes out on the mid that the receiver was told. */
  lemma ScreenGoesWhereAnnounced(st: State, p: Packet)
    requires Inv(st.pool) && Informed(st.pool, st.routed) && WantsScreen(p) && Suffices(st.pool, p)
    ensures var st' := OnMedia(st, p);
            |st'.written| == |st.written| + 1 && LastRoute(st'.routed, p.source) == Some(st'.written[|st.written|].mid)
  {
    var st' := OnMedia(st, p);
    WrittenIffSuffices(st, p);
    OnMediaInforms(st, p);
    assert RoutedTo(st'.pool, st'.routed, p.source);
    ScreenMidUsed(st.(pool := Acquire(st.pool, st.watermark, p).0), p);
  }

  lemma ScreenMidUsed(st: State, p: Packet)
    requires p.source in st.pool.slots && WantsScreen(p)
    ensures var st' := Forward(st, p);
            |st'.written| > |st.written| ==> ScreenOf(st'.pool, p.source) == Some(st'.written[|st.written|].mid)
  {
  }
}
