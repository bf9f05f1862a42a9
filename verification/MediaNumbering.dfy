/** Exactly when the packets sent on a mid are numbered without a gap or a repetition. */
module MediaNumbering {
  import opened Common
  import opened MidPool
  import opened MediaState
  import opened MediaInvariant
  import opened MediaSequence

  /** What is known of a mid: its next packet will carry the next number; it will not, but
      nothing went wrong yet; or some packet went out with a wrong number. */
  datatype Watch = OnTrack | OffTrack | Spoiled

  ghost function StatusOf(slots: map<Pid, Slot>, w: map<Mid, nat>, written: seq<Write>, m: Mid): Watch {
    if !InSequence(written, m) then Spoiled
    else if NextIs(slots, w, m, Count(written, m)) then OnTrack
    else OffTrack
  }

  ghost function Status(st: State, m: Mid): Watch {
    StatusOf(st.pool.slots, st.watermark, st.written, m)
  }

  // ---- Following a mid through the commands ----

  /** On or off track, as the condition says, unless it is spoiled already. */
  function Set(watch: Watch, right: bool): Watch {
    if watch.Spoiled? then Spoiled else if right then OnTrack else OffTrack
  }

  /** A screen that gains the mid brings its own counter. */
  ghost function WatchGain(st: State, p: Packet, m: Mid, watch: Watch): Watch {
    if Gains(st.pool, p.source, p.isScreen, m)
    then Set(watch, st.pool.slots[p.source].screenSeq == Count(st.written, m)) else watch
  }

  /** The stream a packet of a source with a slot goes out on. */
  function StreamOf(slot: Slot, p: Packet): Option<Mid> {
    if p.isAudio then Some(slot.audioMid) else if p.isScreen then slot.screenMid else Some(slot.videoMid)
  }

  function WatchWrite(slot: Slot, p: Packet, m: Mid, watch: Watch): Watch {
    if StreamOf(slot, p) == Some(m) && watch.OffTrack? then Spoiled else watch
  }

  /** One forwarded packet: a gain, then the write. */
  ghost function WatchForward(st: State, p: Packet, m: Mid, watch: Watch): Watch {
    var (pool, ok) := GetOrCreate(st.pool, st.watermark, p.source, p.isScreen);
    var gained := WatchGain(st, p, m, watch);
    if ok then WatchWrite(pool.slots[p.source], p, m, gained) else gained
  }

  ghost function WatchMedia(st: State, p: Packet, m: Mid, watch: Watch): Watch {
    var (pool, hasSlot) := Acquire(st.pool, st.watermark, p);
    if (p.isAudio && p.source in st.muted) || !hasSlot then watch
    else WatchForward(st.(pool := pool), p, m, watch)
  }

  ghost function WatchFresh(st: State, packets: seq<Packet>, now: nat, m: Mid, watch: Watch): Watch
    decreases |packets|
  {
    if packets == [] then watch
    else if Stale(packets[0], now) then WatchFresh(st, packets[1..], now, m, watch)
    else WatchFresh(Forward(st, packets[0]), packets[1..], now, m, WatchForward(st, packets[0], m, watch))
  }

  ghost function WatchFlush(st: State, order: seq<Pid>, now: nat, m: Mid, watch: Watch): Watch
    decreases |order|
  {
    if order == [] then watch
    else
      var flushed :=
        if order[0] in st.pending
        then WatchFresh(st.(pending := st.pending - {order[0]}), st.pending[order[0]], now, m, watch)
        else watch;
      WatchFlush(FlushOne(st, order[0], now), order[1..], now, m, flushed)
  }

  /** A screen that stops leaves the mid to its watermark. Sources that come and go pass
      the state of the mid on. */
  ghost function WatchStep(st: State, cmd: Cmd, m: Mid, watch: Watch): Watch {
    match cmd
    case Media(p) => WatchMedia(st, p, m, watch)
    case Offer(mids, order, now) => WatchFlush(Renegotiate(st, mids), order, now, m, watch)
    case SourceScreenStopped(pid) =>
      if ScreenOf(st.pool, pid) == Some(m) then Set(watch, Seed(st.watermark, m) == Count(st.written, m)) else watch
    case _ => watch
  }

  ghost function WatchRun(mids: Mids, cmds: seq<Cmd>, m: Mid): Watch {
    if cmds == [] then OnTrack
    else
      var n := |cmds| - 1;
      WatchStep(Run(mids, cmds[..n]), cmds[n], m, WatchRun(mids, cmds[..n], m))
  }

  // ---- It follows the mid exactly ----

  function CounterFor(s: Slot, m: Mid): nat {
    if s.audioMid == m then s.audioSeq else if s.videoMid == m then s.videoSeq else s.screenSeq
  }

  /** Every mid has one next number. */
  lemma NextExists(pool: Pool, w: map<Mid, nat>, m: Mid) returns (n: nat)
    requires Inv(pool)
    ensures NextIs(pool.slots, w, m, n)
  {
    if InUse(pool.slots, m) {
      var q :| q in pool.slots && Holds(pool.slots[q], m);
      assert SlotOk(pool, pool.slots[q]);
      StreamsDiffer(pool, pool.slots[q]);
      n := CounterFor(pool.slots[q], m);
      forall r | r in pool.slots
        ensures CounterIs(pool.slots[r], m, n)
      {
        assert r != q ==> !Holds(pool.slots[r], m);
      }
    } else {
      n := Seed(w, m);
      assert forall r :: r in pool.slots ==> !Holds(pool.slots[r], m);
    }
  }

  lemma NextUnique(slots: map<Pid, Slot>, w: map<Mid, nat>, m: Mid, a: nat, b: nat)
    requires NextIs(slots, w, m, a) && NextIs(slots, w, m, b)
    ensures a == b
  {
    if InUse(slots, m) {
      var q :| q in slots && Holds(slots[q], m);
      assert CounterIs(slots[q], m, a) && CounterIs(slots[q], m, b);
    }
  }

  /** What keeps one next number keeps the answer whether any number is next. */
  lemma SameNext(slots: map<Pid, Slot>, w: map<Mid, nat>, slots': map<Pid, Slot>, w': map<Mid, nat>, m: Mid, n: nat,
                 k: nat)
    requires NextIs(slots, w, m, n) && NextIs(slots', w', m, n)
    ensures NextIs(slots, w, m, k) <==> NextIs(slots', w', m, k)
  {
    if NextIs(slots, w, m, k) {
      NextUnique(slots, w, m, n, k);
    }
    if NextIs(slots', w', m, k) {
      NextUnique(slots', w', m, n, k);
    }
  }

  lemma CreateWatched(pool: Pool, w: map<Mid, nat>, source: Pid, isScreen: bool, written: seq<Write>, m: Mid)
    requires Inv(pool) && !Gains(pool, source, isScreen, m)
    ensures StatusOf(GetOrCreate(pool, w, source, isScreen).0.slots, w, written, m) ==
            StatusOf(pool.slots, w, written, m)
  {
    var n := NextExists(pool, w, m);
    GetOrCreateContinues(pool, w, source, isScreen, m, n);
    SameNext(pool.slots, w, GetOrCreate(pool, w, source, isScreen).0.slots, w, m, n, Count(written, m));
  }

  /** A screen that gains the mid is the only one to hold it. */
  lemma GainedNext(pool: Pool, w: map<Mid, nat>, source: Pid, m: Mid, n: nat)
    requires Inv(pool) && Gains(pool, source, true, m)
    ensures NextIs(GetOrCreate(pool, w, source, true).0.slots, w, m, n) <==> pool.slots[source].screenSeq == n
  {
    FreeVideoUsable(pool);
    var slots := GetOrCreate(pool, w, source, true).0.slots;
    assert Holds(slots[source], m) && !Holds(pool.slots[source], m);
    if pool.slots[source].screenSeq == n {
      forall q | q in slots
        ensures CounterIs(slots[q], m, n)
      {
        assert !Holds(pool.slots[q], m);
      }
    } else {
      assert !CounterIs(slots[source], m, n);
    }
  }

  lemma GetWatched(st: State, p: Packet, m: Mid)
    requires Inv(st.pool)
    ensures var pool := GetOrCreate(st.pool, st.watermark, p.source, p.isScreen).0;
            StatusOf(pool.slots, st.watermark, st.written, m) == WatchGain(st, p, m, Status(st, m))
  {
    if Gains(st.pool, p.source, p.isScreen, m) {
      GainedNext(st.pool, st.watermark, p.source, m, Count(st.written, m));
    } else {
      CreateWatched(st.pool, st.watermark, p.source, p.isScreen, st.written, m);
    }
  }

  /** A packet written to the mid off track is out of sequence; other writes leave the mid
      off track. */
  lemma EmitOffTrack(st: State, p: Packet, m: Mid)
    requires Inv(st.pool) && p.source in st.pool.slots && Status(st, m).OffTrack?
    ensures var (slot, writes) := Emit(st.pool.slots[p.source], p);
            StatusOf(st.pool.slots[p.source := slot], st.watermark, st.written + writes, m) ==
            WatchWrite(st.pool.slots[p.source], p, m, OffTrack)
  {
    var before := st.pool.slots[p.source];
    var (slot, writes) := Emit(before, p);
    var n := NextExists(st.pool, st.watermark, m);
    assert SlotOk(st.pool, before);
    StreamsDiffer(st.pool, before);
    EmitOne(before, p, m, n);
    if writes == [] {
      assert st.written + writes == st.written && st.pool.slots[p.source := slot] == st.pool.slots;
    } else {
      assert writes == [writes[0]];
      if writes[0].mid == m {
        OutOfSequence(st.written, writes[0]);
      } else {
        OtherWrite(st, p.source, slot, writes[0], m, n);
      }
    }
  }

  lemma OtherWrite(st: State, source: Pid, slot: Slot, w: Write, m: Mid, n: nat)
    requires Inv(st.pool) && source in st.pool.slots && Status(st, m).OffTrack?
    requires NextIs(st.pool.slots, st.watermark, m, n) && w.mid != m && Holds(st.pool.slots[source], w.mid)
    requires var before := st.pool.slots[source];
             && slot.audioMid == before.audioMid && slot.videoMid == before.videoMid
             && slot.screenMid == before.screenMid && CounterIs(slot, m, n)
    ensures StatusOf(st.pool.slots[source := slot], st.watermark, st.written + [w], m) == OffTrack
  {
    CountAppend(st.written, w, m);
    InSequenceAppend(st.written, w, m);
    AdvanceOwner(st.pool.slots, st.watermark, source, slot, w.mid, m, n);
    SameNext(st.pool.slots, st.watermark, st.pool.slots[source := slot], st.watermark, m, n, Count(st.written, m));
  }

  lemma EmitWatched(st: State, p: Packet, m: Mid)
    requires Inv(st.pool) && p.source in st.pool.slots
    ensures var (slot, writes) := Emit(st.pool.slots[p.source], p);
            StatusOf(st.pool.slots[p.source := slot], st.watermark, st.written + writes, m) ==
            WatchWrite(st.pool.slots[p.source], p, m, Status(st, m))
  {
    match Status(st, m)
    case OnTrack => EmitContinues(st, p, m);
    case OffTrack => EmitOffTrack(st, p, m);
    case Spoiled => OutOfSequenceStays(st.written, Emit(st.pool.slots[p.source], p).1, m);
  }

  lemma ForwardWatched(st: State, p: Packet, m: Mid)
    requires Inv(st.pool)
    ensures Status(Forward(st, p), m) == WatchForward(st, p, m, Status(st, m))
  {
    var (pool, ok) := GetOrCreate(st.pool, st.watermark, p.source, p.isScreen);
    GetOrCreateKeeps(st.pool, st.watermark, p.source, p.isScreen);
    GetWatched(st, p, m);
    if ok {
      EmitWatched(st.(pool := pool), p, m);
    }
  }

  lemma MediaWatched(st: State, p: Packet, m: Mid)
    requires Inv(st.pool)
    ensures Status(OnMedia(st, p), m) == WatchMedia(st, p, m, Status(st, m))
  {
    if !(p.isAudio && p.source in st.muted) {
      var (pool, hasSlot) := Acquire(st.pool, st.watermark, p);
      if p.source !in st.pool.slots {
        GetOrCreateKeeps(st.pool, st.watermark, p.source, p.isScreen);
        CreateWatched(st.pool, st.watermark, p.source, p.isScreen, st.written, m);
      }
      if hasSlot {
        ForwardWatched(st.(pool := pool), p, m);
      }
    }
  }

  lemma {:induction false} FreshWatched(st: State, packets: seq<Packet>, now: nat, m: Mid)
    requires Inv(st.pool)
    ensures Status(ForwardFresh(st, packets, now), m) == WatchFresh(st, packets, now, m, Status(st, m))
    decreases |packets|
  {
    if packets != [] {
      if Stale(packets[0], now) {
        FreshWatched(st, packets[1..], now, m);
      } else {
        ForwardKeeps(st, packets[0]);
        ForwardWatched(st, packets[0], m);
        FreshWatched(Forward(st, packets[0]), packets[1..], now, m);
      }
    }
  }

  lemma {:induction false} FlushWatched(st: State, order: seq<Pid>, now: nat, m: Mid)
    requires Inv(st.pool)
    ensures Status(Flush(st, order, now), m) == WatchFlush(st, order, now, m, Status(st, m))
    decreases |order|
  {
    if order != [] {
      FlushOneKeeps(st, order[0], now);
      if order[0] in st.pending {
        FreshWatched(st.(pending := st.pending - {order[0]}), st.pending[order[0]], now, m);
      }
      FlushWatched(FlushOne(st, order[0], now), order[1..], now, m);
    }
  }

  lemma PeerLeftWatched(st: State, pid: Pid, m: Mid)
    requires Inv(st.pool)
    ensures Status(OnPeerLeft(st, pid), m) == Status(st, m)
  {
    if pid in st.pool.slots {
      var n := NextExists(st.pool, st.watermark, m);
      PeerLeftNext(st.pool, st.watermark, pid, m, n);
      SameNext(st.pool.slots, st.watermark, st.pool.slots - {pid},
               SaveWatermarks(st.watermark, st.pool.slots[pid]), m, n, Count(st.written, m));
    }
  }

  /** After its screen stopped nobody holds the mid. */
  lemma StoppedNext(pool: Pool, w: map<Mid, nat>, pid: Pid, m: Mid, n: nat)
    requires Inv(pool) && ScreenOf(pool, pid) == Some(m)
    ensures NextIs(StopScreen(pool, pid).slots, w, m, n) <==> Seed(w, m) == n
  {
    var slots := StopScreen(pool, pid).slots;
    assert SlotOk(pool, pool.slots[pid]);
    StreamsDiffer(pool, pool.slots[pid]);
    assert Holds(pool.slots[pid], m);
    forall q | q in slots
      ensures !Holds(slots[q], m)
    {
      assert q != pid ==> !Holds(pool.slots[q], m);
    }
  }

  lemma StopWatched(st: State, pid: Pid, m: Mid)
    requires Inv(st.pool)
    ensures Status(Step(st, SourceScreenStopped(pid)), m) ==
            WatchStep(st, SourceScreenStopped(pid), m, Status(st, m))
  {
    if ScreenOf(st.pool, pid) == Some(m) {
      StoppedNext(st.pool, st.watermark, pid, m, Count(st.written, m));
    } else if pid in st.pool.slots {
      var n := NextExists(st.pool, st.watermark, m);
      assert CounterIs(st.pool.slots[pid], m, n);
      SameHolders(st.pool.slots, pid, st.pool.slots[pid].(screenMid := None), m);
      SameNext(st.pool.slots, st.watermark, StopScreen(st.pool, pid).slots, st.watermark, m, n, Count(st.written, m));
    }
  }

  lemma StepWatched(st: State, cmd: Cmd, m: Mid)
    requires Inv(st.pool)
    ensures Status(Step(st, cmd), m) == WatchStep(st, cmd, m, Status(st, m))
  {
    match cmd
    case Media(p) => MediaWatched(st, p, m);
    case Offer(mids, order, now) =>
      AnnounceAllKeeps(st.pool, mids, st.screenPending || st.screenActive);
      AnnounceAllSlots(st.pool, mids, st.screenPending || st.screenActive);
      FlushWatched(Renegotiate(st, mids), order, now, m);
    case MediaAdded(mids) => AnnounceAllSlots(st.pool, mids, false);
    case ScreenShareActive(_) =>
    case PeerMuteChanged(_, _) =>
    case PeerLeft(pid) => PeerLeftWatched(st, pid, m);
    case SourceScreenStopped(pid) => StopWatched(st, pid, m);
    case PeerCountChanged(_) =>
  }

  lemma {:induction false} RunWatched(mids: Mids, cmds: seq<Cmd>, m: Mid)
    requires DistinctMids(mids)
    ensures Status(Run(mids, cmds), m) == WatchRun(mids, cmds, m)
  {
    if cmds == [] {
      InitialInv(mids);
    } else {
      var n := |cmds| - 1;
      RunWatched(mids, cmds[..n], m);
      ReachableInv(mids, cmds[..n]);
      StepWatched(Run(mids, cmds[..n]), cmds[n], m);
    }
  }

  /** For every run and every mid: the k-th packet sent on the mid carries number k - 1,
      for all k, exactly if nothing is sent on it while it is off track. It gets off track
      when a screen stops on it whose watermark is not its next number or when a screen
      gains it whose counter is not; it gets back on track when one of these is right. */
  lemma InSequenceIff(mids: Mids, cmds: seq<Cmd>, m: Mid)
    requires DistinctMids(mids)
    ensures InSequence(Run(mids, cmds).written, m) <==> !WatchRun(mids, cmds, m).Spoiled?
  {
    RunWatched(mids, cmds, m);
  }
}
