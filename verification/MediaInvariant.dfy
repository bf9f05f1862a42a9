/** Slots never share mids: an invariant of every run of the media task. */
module MediaInvariant {
  import opened Common
  import opened MidPool
  import opened MediaState

  /** The receiver's own mids are listed with the right kind and differ; a missing
      one means no mid of that kind is listed. */
  ghost predicate OwnOk(pool: Pool) {
    && (if pool.ownAudio.Some? then (pool.ownAudio.value, Audio) in pool.allMids else NoneOf(pool.allMids, Audio))
    && (if pool.ownVideo.Some? then (pool.ownVideo.value, Video) in pool.allMids else NoneOf(pool.allMids, Video))
    && (pool.ownScreen.Some? ==> (pool.ownScreen.value, Video) in pool.allMids && pool.ownVideo != pool.ownScreen)
  }

  ghost predicate NoneOf(mids: Mids, kind: Kind) {
    forall i :: 0 <= i < |mids| ==> mids[i].1 != kind
  }

  ghost predicate IsOwn(pool: Pool, m: Mid) {
    pool.ownAudio == Some(m) || pool.ownVideo == Some(m) || pool.ownScreen == Some(m)
  }

  /** A mid of this kind is listed and is not an own mid. */
  ghost predicate Usable(pool: Pool, m: Mid, kind: Kind) {
    (m, kind) in pool.allMids && !IsOwn(pool, m)
  }

  ghost predicate SlotOk(pool: Pool, s: Slot) {
    && Usable(pool, s.audioMid, Audio) && Usable(pool, s.videoMid, Video)
    && (s.screenMid.Some? ==> Usable(pool, s.screenMid.value, Video) && s.screenMid.value != s.videoMid)
  }

  /** No mid is held by two slots. */
  ghost predicate Separate(slots: map<Pid, Slot>) {
    forall p, q, m :: p in slots && q in slots && Holds(slots[p], m) && Holds(slots[q], m) ==> p == q
  }

  ghost predicate Inv(pool: Pool) {
    && DistinctMids(pool.allMids)
    && OwnOk(pool)
    && (forall p :: p in pool.slots ==> SlotOk(pool, pool.slots[p]))
    && Separate(pool.slots)
  }

  /** Setting one slot to mids that are its old ones or unused keeps slots apart. */
  lemma InvUpdate(pool: Pool, p: Pid, s: Slot)
    requires Inv(pool) && SlotOk(pool, s)
    requires forall m :: Holds(s, m) ==> !InUse(pool.slots, m) || (p in pool.slots && Holds(pool.slots[p], m))
    ensures Inv(pool.(slots := pool.slots[p := s]))
  {
  }

  lemma FreeVideoUsable(pool: Pool)
    requires Inv(pool) && FreeVideo(pool).Some?
    ensures Usable(pool, FreeVideo(pool).value, Video) && !InUse(pool.slots, FreeVideo(pool).value)
  {
    var m := FreeVideo(pool).value;
    if pool.ownAudio == Some(m) {
      OneKind(pool.allMids, m, Audio, Video);
    }
  }

  lemma FreeAudioUsable(pool: Pool)
    requires Inv(pool) && FreeAudio(pool).Some?
    ensures Usable(pool, FreeAudio(pool).value, Audio) && !InUse(pool.slots, FreeAudio(pool).value)
  {
    var m := FreeAudio(pool).value;
    if pool.ownVideo == Some(m) || pool.ownScreen == Some(m) {
      OneKind(pool.allMids, m, Audio, Video);
    }
  }

  lemma GetOrCreateKeeps(pool: Pool, w: map<Mid, nat>, source: Pid, isScreen: bool)
    requires Inv(pool)
    ensures Inv(GetOrCreate(pool, w, source, isScreen).0)
  {
    if source in pool.slots {
      if isScreen && pool.slots[source].screenMid.None? && FreeVideo(pool).Some? {
        FreeVideoUsable(pool);
        assert SlotOk(pool, pool.slots[source]) && InUse(pool.slots, pool.slots[source].videoMid);
        InvUpdate(pool, source, pool.slots[source].(screenMid := FreeVideo(pool)));
      }
    } else if FreeAudio(pool).Some? && FreeVideo(pool).Some? {
      var a, v := FreeAudio(pool).value, FreeVideo(pool).value;
      FreeAudioUsable(pool);
      FreeVideoUsable(pool);
      InvUpdate(pool, source, Slot(a, v, None, Seed(w, a), Seed(w, v), 0));
    }
  }

  lemma EmitKeeps(pool: Pool, p: Packet)
    requires Inv(pool) && p.source in pool.slots
    ensures Inv(pool.(slots := pool.slots[p.source := Emit(pool.slots[p.source], p).0]))
  {
    assert SlotOk(pool, pool.slots[p.source]);
    InvUpdate(pool, p.source, Emit(pool.slots[p.source], p).0);
  }

  lemma ForwardKeeps(st: State, p: Packet)
    requires Inv(st.pool)
    ensures Inv(Forward(st, p).pool)
  {
    GetOrCreateKeeps(st.pool, st.watermark, p.source, p.isScreen);
    var (pool, ok) := GetOrCreate(st.pool, st.watermark, p.source, p.isScreen);
    if ok {
      EmitKeeps(pool, p);
    }
  }

  lemma OnMediaKeeps(st: State, p: Packet)
    requires Inv(st.pool)
    ensures Inv(OnMedia(st, p).pool)
  {
    var (pool, hasSlot) := Acquire(st.pool, st.watermark, p);
    GetOrCreateKeeps(st.pool, st.watermark, p.source, p.isScreen);
    ForwardKeeps(st.(pool := pool), p);
  }

  lemma AnnounceKeeps(pool: Pool, m: Mid, kind: Kind, wantScreen: bool)
    requires Inv(pool)
    ensures Inv(Announce(pool, m, kind, wantScreen))
  {
    if !Listed(pool.allMids, m) {
      var pool' := Announce(pool, m, kind, wantScreen);
      OwnStays(pool, m, kind, wantScreen);
      forall p | p in pool.slots
        ensures SlotOk(pool', pool.slots[p])
      {
        UsableStays(pool, pool', m, kind, pool.slots[p]);
      }
    }
  }

  lemma OwnStays(pool: Pool, m: Mid, kind: Kind, wantScreen: bool)
    requires OwnOk(pool) && DistinctMids(pool.allMids) && !Listed(pool.allMids, m)
    ensures OwnOk(Announce(pool, m, kind, wantScreen)) && DistinctMids(Announce(pool, m, kind, wantScreen).allMids)
  {
    var mids := pool.allMids + [(m, kind)];
    assert mids[|pool.allMids|] == (m, kind);
    DistinctExtend(pool.allMids, m, kind);
    if pool.ownVideo.Some? {
      ListedIn(pool.allMids, pool.ownVideo.value, Video);
    }
  }

  lemma UsableStays(pool: Pool, pool': Pool, m: Mid, kind: Kind, s: Slot)
    requires SlotOk(pool, s) && !Listed(pool.allMids, m)
    requires pool'.allMids == pool.allMids + [(m, kind)]
    requires forall k :: IsOwn(pool', k) ==> IsOwn(pool, k) || k == m
    ensures SlotOk(pool', s)
  {
    ListedIn(pool.allMids, s.audioMid, Audio);
    ListedIn(pool.allMids, s.videoMid, Video);
    if s.screenMid.Some? {
      ListedIn(pool.allMids, s.screenMid.value, Video);
    }
  }

  lemma {:induction false} AnnounceAllKeeps(pool: Pool, mids: Mids, wantScreen: bool)
    requires Inv(pool)
    ensures Inv(AnnounceAll(pool, mids, wantScreen))
    decreases |mids|
  {
    if mids != [] {
      AnnounceKeeps(pool, mids[0].0, mids[0].1, wantScreen);
      AnnounceAllKeeps(Announce(pool, mids[0].0, mids[0].1, wantScreen), mids[1..], wantScreen);
    }
  }

  lemma {:induction false} AnnounceAllSlots(pool: Pool, mids: Mids, wantScreen: bool)
    ensures AnnounceAll(pool, mids, wantScreen).slots == pool.slots
    decreases |mids|
  {
    if mids != [] {
      AnnounceAllSlots(Announce(pool, mids[0].0, mids[0].1, wantScreen), mids[1..], wantScreen);
    }
  }

  lemma {:induction false} ForwardFreshKeeps(st: State, packets: seq<Packet>, now: nat)
    requires Inv(st.pool)
    ensures Inv(ForwardFresh(st, packets, now).pool)
    decreases |packets|
  {
    if packets != [] {
      ForwardKeeps(st, packets[0]);
      ForwardFreshKeeps(if Stale(packets[0], now) then st else Forward(st, packets[0]), packets[1..], now);
    }
  }

  lemma {:induction false} FlushKeeps(st: State, order: seq<Pid>, now: nat)
    requires Inv(st.pool)
    ensures Inv(Flush(st, order, now).pool)
    decreases |order|
  {
    if order != [] {
      FlushOneKeeps(st, order[0], now);
      FlushKeeps(FlushOne(st, order[0], now), order[1..], now);
    }
  }

  lemma FlushOneKeeps(st: State, source: Pid, now: nat)
    requires Inv(st.pool)
    ensures Inv(FlushOne(st, source, now).pool)
  {
    if source in st.pending {
      ForwardFreshKeeps(st.(pending := st.pending - {source}), st.pending[source], now);
    }
  }

  lemma PeerLeftKeeps(pool: Pool, pid: Pid)
    requires Inv(pool)
    ensures Inv(pool.(slots := pool.slots - {pid}))
  {
    var pool' := pool.(slots := pool.slots - {pid});
    forall p | p in pool'.slots
      ensures SlotOk(pool', pool'.slots[p])
    {
      assert SlotOk(pool, pool.slots[p]);
    }
  }

  lemma StopScreenKeeps(pool: Pool, pid: Pid)
    requires Inv(pool)
    ensures Inv(StopScreen(pool, pid))
  {
    if pid in pool.slots {
      assert SlotOk(pool, pool.slots[pid]);
      InvUpdate(pool, pid, pool.slots[pid].(screenMid := None));
    }
  }

  lemma OwnScreenDropped(pool: Pool)
    requires Inv(pool)
    ensures Inv(pool.(ownScreen := None))
  {
    forall p | p in pool.slots
      ensures SlotOk(pool.(ownScreen := None), pool.slots[p])
    {
      assert SlotOk(pool, pool.slots[p]);
    }
  }

  lemma StepKeeps(st: State, cmd: Cmd)
    requires Inv(st.pool)
    ensures Inv(Step(st, cmd).pool)
  {
    match cmd
    case Media(p) => OnMediaKeeps(st, p);
    case Offer(mids, order, now) =>
      AnnounceAllKeeps(st.pool, mids, st.screenPending || st.screenActive);
      FlushKeeps(Renegotiate(st, mids), order, now);
    case MediaAdded(mids) => AnnounceAllKeeps(st.pool, mids, false);
    case ScreenShareActive(active) => OwnScreenDropped(st.pool);
    case PeerMuteChanged(_, _) =>
    case PeerLeft(pid) => PeerLeftKeeps(st.pool, pid);
    case SourceScreenStopped(pid) => StopScreenKeeps(st.pool, pid);
    case PeerCountChanged(_) =>
  }

  lemma {:induction false} InitialInv(mids: Mids)
    requires DistinctMids(mids)
    ensures Inv(InitialPool(mids)) && InitialPool(mids).allMids == mids && InitialPool(mids).slots == map[]
    ensures InitialPool(mids).ownScreen.None?
  {
    if mids != [] {
      var n := |mids| - 1;
      assert mids == mids[..n] + [mids[n]];
      DistinctExtend(mids[..n], mids[n].0, mids[n].1);
      InitialInv(mids[..n]);
    }
  }

  /** In every reachable state all mids held by slots are pairwise distinct, listed
      with the right kind, and different from the receiver's own mids. */
  lemma {:induction false} ReachableInv(mids: Mids, cmds: seq<Cmd>)
    requires DistinctMids(mids)
    ensures Inv(Run(mids, cmds).pool)
  {
    if cmds == [] {
      InitialInv(mids);
    } else {
      ReachableInv(mids, cmds[..|cmds| - 1]);
      StepKeeps(Run(mids, cmds[..|cmds| - 1]), cmds[|cmds| - 1]);
    }
  }
}
