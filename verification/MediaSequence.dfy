/** Sequence numbers of an outgoing mid continue across the sources that own it. */
module MediaSequence {
  import opened Common
  import opened MidPool
  import opened MediaState
  import opened MediaInvariant

  /** How many packets were written to a mid. */
  ghost function Count(written: seq<Write>, m: Mid): nat {
    if written == [] then 0
    else Count(written[..|written| - 1], m) + (if written[|written| - 1].mid == m then 1 else 0)
  }

  ghost predicate InSequenceAt(written: seq<Write>, m: Mid, i: nat) {
    i < |written| && (written[i].mid == m ==> written[i].seqNo == Count(written[..i], m))
  }

  /** The k-th packet written to the mid carries sequence number k - 1. */
  ghost predicate InSequence(written: seq<Write>, m: Mid) {
    forall i :: 0 <= i < |written| ==> InSequenceAt(written, m, i)
  }

  /** The counter of whatever stream of the slot uses the mid is n. */
  ghost predicate CounterIs(s: Slot, m: Mid, n: nat) {
    && (s.audioMid == m ==> s.audioSeq == n)
    && (s.videoMid == m ==> s.videoSeq == n)
    && (s.screenMid == Some(m) ==> s.screenSeq == n)
  }

  /** The next packet to a mid will carry the number of packets written so far: its
      owner's counter says so, or its watermark if it has no owner. */
  ghost predicate NextIs(slots: map<Pid, Slot>, w: map<Mid, nat>, m: Mid, n: nat) {
    && (forall p :: p in slots ==> CounterIs(slots[p], m, n))
    && (!InUse(slots, m) ==> Seed(w, m) == n)
  }

  ghost predicate Continuous(st: State, m: Mid) {
    InSequence(st.written, m) && NextIs(st.pool.slots, st.watermark, m, Count(st.written, m))
  }

  ghost predicate NotScreen(pool: Pool, m: Mid) {
    forall p :: p in pool.slots ==> pool.slots[p].screenMid != Some(m)
  }

  lemma CountAppend(written: seq<Write>, w: Write, m: Mid)
    ensures Count(written + [w], m) == Count(written, m) + (if w.mid == m then 1 else 0)
  {
    assert (written + [w])[..|written|] == written;
  }

  lemma InSequenceAppend(written: seq<Write>, w: Write, m: Mid)
    requires InSequence(written, m) && (w.mid == m ==> w.seqNo == Count(written, m))
    ensures InSequence(written + [w], m)
  {
    var written' := written + [w];
    forall i | 0 <= i < |written'|
      ensures InSequenceAt(written', m, i)
    {
      if i < |written| {
        assert InSequenceAt(written, m, i);
        assert written'[..i] == written[..i];
      } else {
        assert written'[..i] == written;
      }
    }
  }

  /** The call gives the source mid m for its screen. */
  predicate Gains(pool: Pool, source: Pid, isScreen: bool, m: Mid) {
    isScreen && source in pool.slots && pool.slots[source].screenMid.None? && FreeVideo(pool) == Some(m)
  }

  /** Acquiring mids keeps the next number, unless the mid becomes a screen mid. */
  lemma GetOrCreateContinues(pool: Pool, w: map<Mid, nat>, source: Pid, isScreen: bool, m: Mid, n: nat)
    requires Inv(pool) && NextIs(pool.slots, w, m, n) && !Gains(pool, source, isScreen, m)
    ensures NextIs(GetOrCreate(pool, w, source, isScreen).0.slots, w, m, n)
  {
    var pool' := GetOrCreate(pool, w, source, isScreen).0;
    if source in pool.slots {
      if pool' != pool {
        SameHolders(pool.slots, source, pool'.slots[source], m);
      }
    } else if FreeAudio(pool).Some? && FreeVideo(pool).Some? {
      FreeAudioUsable(pool);
      FreeVideoUsable(pool);
      NewOwner(pool.slots, w, source, pool'.slots[source], m, n);
    }
  }

  /** A new slot takes over the watermarks of mids nobody held. */
  lemma NewOwner(slots: map<Pid, Slot>, w: map<Mid, nat>, p: Pid, s: Slot, m: Mid, n: nat)
    requires NextIs(slots, w, m, n) && p !in slots && s.screenMid.None?
    requires !InUse(slots, s.audioMid) && s.audioSeq == Seed(w, s.audioMid)
    requires !InUse(slots, s.videoMid) && s.videoSeq == Seed(w, s.videoMid)
    ensures NextIs(slots[p := s], w, m, n)
  {
    if InUse(slots, m) {
      InUseStays(slots, p, s, m);
    } else if Holds(s, m) {
      assert Holds(slots[p := s][p], m);
    }
  }

  /** A free mid gained as a screen mid stays continuous exactly when the source's
      screen counter happens to equal the mid's next number. */
  lemma GainScreenContinuesIff(pool: Pool, w: map<Mid, nat>, source: Pid, m: Mid, n: nat)
    requires Inv(pool) && NextIs(pool.slots, w, m, n)
    requires Gains(pool, source, true, m)
    ensures NextIs(GetOrCreate(pool, w, source, true).0.slots, w, m, n) <==> pool.slots[source].screenSeq == n
  {
    FreeVideoUsable(pool);
    var slots' := GetOrCreate(pool, w, source, true).0.slots;
    assert Holds(slots'[source], m);
    assert !Holds(pool.slots[source], m);
    if pool.slots[source].screenSeq == n {
      forall q | q in slots'
        ensures CounterIs(slots'[q], m, n)
      {
        assert CounterIs(pool.slots[q], m, n);
      }
    }
  }

  lemma InUseStays(slots: map<Pid, Slot>, p: Pid, s: Slot, m: Mid)
    requires InUse(slots, m) && p !in slots
    ensures InUse(slots[p := s], m)
  {
    var q :| q in slots && Holds(slots[q], m);
    assert slots[p := s][q] == slots[q];
  }

  lemma SameHolders(slots: map<Pid, Slot>, p: Pid, s: Slot, m: Mid)
    requires p in slots && (Holds(s, m) <==> Holds(slots[p], m))
    ensures InUse(slots[p := s], m) <==> InUse(slots, m)
  {
    var slots' := slots[p := s];
    if InUse(slots, m) {
      var q :| q in slots && Holds(slots[q], m);
      assert q in slots' && Holds(slots'[q], m);
    }
    if InUse(slots', m) {
      var q :| q in slots' && Holds(slots'[q], m);
      assert q in slots && Holds(slots[q], m);
    }
  }

  /** What one write does to the counter of a mid, for a slot with distinct streams. */
  lemma EmitOne(slot: Slot, p: Packet, m: Mid, n: nat)
    requires CounterIs(slot, m, n)
    requires slot.audioMid != slot.videoMid
    requires slot.screenMid != Some(slot.audioMid) && slot.screenMid != Some(slot.videoMid)
    ensures var (slot', writes) := Emit(slot, p);
            && slot'.audioMid == slot.audioMid && slot'.videoMid == slot.videoMid && slot'.screenMid == slot.screenMid
            && (writes == [] ==> slot' == slot)
            && (writes != [] ==>
                  && |writes| == 1 && Holds(slot, writes[0].mid)
                  && (writes[0].mid == m ==> writes[0].seqNo == n)
                  && CounterIs(slot', m, if writes[0].mid == m then n + 1 else n))
  {
  }

  lemma WriteContinues(st: State, source: Pid, slot: Slot, w: Write, m: Mid)
    requires Separate(st.pool.slots) && Continuous(st, m) && source in st.pool.slots
    requires Holds(st.pool.slots[source], w.mid)
    requires var before := st.pool.slots[source];
             slot.audioMid == before.audioMid && slot.videoMid == before.videoMid && slot.screenMid == before.screenMid
    requires w.mid == m ==> w.seqNo == Count(st.written, m)
    requires CounterIs(slot, m, Count(st.written, m) + if w.mid == m then 1 else 0)
    ensures InSequence(st.written + [w], m)
    ensures NextIs(st.pool.slots[source := slot], st.watermark, m, Count(st.written + [w], m))
  {
    CountAppend(st.written, w, m);
    InSequenceAppend(st.written, w, m);
    AdvanceOwner(st.pool.slots, st.watermark, source, slot, w.mid, m, Count(st.written, m));
  }

  /** Writing one packet numbers it right and advances the owner's counter. */
  lemma EmitContinues(st: State, p: Packet, m: Mid)
    requires Inv(st.pool) && Continuous(st, m) && p.source in st.pool.slots
    ensures var (slot, writes) := Emit(st.pool.slots[p.source], p);
            && InSequence(st.written + writes, m)
            && NextIs(st.pool.slots[p.source := slot], st.watermark, m, Count(st.written + writes, m))
  {
    var before := st.pool.slots[p.source];
    var (slot, writes) := Emit(before, p);
    assert SlotOk(st.pool, before);
    StreamsDiffer(st.pool, before);
    EmitOne(before, p, m, Count(st.written, m));
    if writes == [] {
      assert st.pool.slots[p.source := slot] == st.pool.slots;
      assert st.written + writes == st.written;
    } else {
      WriteContinues(st, p.source, slot, writes[0], m);
      assert writes == [writes[0]];
    }
  }

  lemma StreamsDiffer(pool: Pool, s: Slot)
    requires Inv(pool) && SlotOk(pool, s)
    ensures s.audioMid != s.videoMid && s.screenMid != Some(s.audioMid) && s.screenMid != Some(s.videoMid)
  {
    if s.audioMid == s.videoMid || s.screenMid == Some(s.audioMid) {
      OneKind(pool.allMids, s.audioMid, Audio, Video);
    }
  }

  /** Only the owner of a mid has a counter for it. */
  lemma AdvanceOwner(slots: map<Pid, Slot>, w: map<Mid, nat>, p: Pid, s: Slot, to: Mid, m: Mid, n: nat)
    requires Separate(slots) && p in slots && Holds(slots[p], to) && NextIs(slots, w, m, n)
    requires s.audioMid == slots[p].audioMid && s.videoMid == slots[p].videoMid && s.screenMid == slots[p].screenMid
    requires CounterIs(s, m, if to == m then n + 1 else n)
    ensures NextIs(slots[p := s], w, m, if to == m then n + 1 else n)
  {
    var slots' := slots[p := s];
    SameHolders(slots, p, s, m);
    forall q | q in slots'
      ensures CounterIs(slots'[q], m, if to == m then n + 1 else n)
    {
      if q != p {
        assert CounterIs(slots[q], m, n);
        if to == m {
          assert Holds(slots[p], m);
          assert !Holds(slots[q], m);
        }
      }
    }
    if to == m {
      assert Holds(slots'[p], m);
    }
  }

  lemma EmitKeepsScreens(pool: Pool, p: Packet, m: Mid)
    requires p.source in pool.slots
    requires NotScreen(pool.(slots := pool.slots[p.source := Emit(pool.slots[p.source], p).0]), m)
    ensures NotScreen(pool, m)
  {
    var pool' := pool.(slots := pool.slots[p.source := Emit(pool.slots[p.source], p).0]);
    forall q | q in pool.slots
      ensures pool.slots[q].screenMid != Some(m)
    {
      assert q in pool'.slots && pool'.slots[q].screenMid == pool.slots[q].screenMid;
    }
  }

  /** Forwarding never takes a screen mid away. */
  lemma ForwardKeepsScreens(st: State, p: Packet, m: Mid)
    requires NotScreen(Forward(st, p).pool, m)
    ensures NotScreen(st.pool, m)
  {
    var (pool, ok) := GetOrCreate(st.pool, st.watermark, p.source, p.isScreen);
    if ok {
      EmitKeepsScreens(pool, p, m);
    }
    GetOrCreateKeepsScreens(st.pool, st.watermark, p.source, p.isScreen, m);
  }

  lemma GetOrCreateKeepsScreens(pool: Pool, w: map<Mid, nat>, source: Pid, isScreen: bool, m: Mid)
    requires NotScreen(GetOrCreate(pool, w, source, isScreen).0, m)
    ensures NotScreen(pool, m)
  {
    var pool' := GetOrCreate(pool, w, source, isScreen).0;
    forall q | q in pool.slots
      ensures pool.slots[q].screenMid != Some(m)
    {
      assert q in pool'.slots;
    }
  }

  lemma {:induction false} ForwardFreshKeepsScreens(st: State, packets: seq<Packet>, now: nat, m: Mid)
    requires NotScreen(ForwardFresh(st, packets, now).pool, m)
    ensures NotScreen(st.pool, m)
    decreases |packets|
  {
    if packets != [] {
      ForwardFreshKeepsScreens(if Stale(packets[0], now) then st else Forward(st, packets[0]), packets[1..], now, m);
      if !Stale(packets[0], now) {
        ForwardKeepsScreens(st, packets[0], m);
      }
    }
  }

  lemma {:induction false} FlushKeepsScreens(st: State, order: seq<Pid>, now: nat, m: Mid)
    requires NotScreen(Flush(st, order, now).pool, m)
    ensures NotScreen(st.pool, m)
    decreases |order|
  {
    if order != [] {
      FlushKeepsScreens(FlushOne(st, order[0], now), order[1..], now, m);
      if order[0] in st.pending {
        ForwardFreshKeepsScreens(st.(pending := st.pending - {order[0]}), st.pending[order[0]], now, m);
      }
    }
  }

  /** Numbering is broken for good: a packet was out of sequence, or the next packet of a
      screen that holds the mid will be. */
  ghost predicate Broken(st: State, m: Mid) {
    !InSequence(st.written, m) || exists q :: BadScreen(st.pool.slots, q, m, Count(st.written, m))
  }

  ghost predicate BadScreen(slots: map<Pid, Slot>, q: Pid, m: Mid, n: nat) {
    q in slots && slots[q].screenMid == Some(m) && slots[q].screenSeq != n
  }

  lemma BrokenIsNotContinuous(st: State, m: Mid)
    requires Broken(st, m)
    ensures !Continuous(st, m)
  {
    if InSequence(st.written, m) {
      var q :| BadScreen(st.pool.slots, q, m, Count(st.written, m));
      assert !CounterIs(st.pool.slots[q], m, Count(st.written, m));
    }
  }

  lemma OutOfSequenceStays(written: seq<Write>, more: seq<Write>, m: Mid)
    requires !InSequence(written, m)
    ensures !InSequence(written + more, m)
  {
    var i :| 0 <= i < |written| && !InSequenceAt(written, m, i);
    assert (written + more)[..i] == written[..i];
    assert !InSequenceAt(written + more, m, i);
  }

  /** Writing cannot repair it. */
  lemma EmitBroken(st: State, p: Packet, m: Mid)
    requires Inv(st.pool) && Broken(st, m) && p.source in st.pool.slots
    ensures var (slot, writes) := Emit(st.pool.slots[p.source], p);
            Broken(st.(pool := st.pool.(slots := st.pool.slots[p.source := slot]), written := st.written + writes), m)
  {
    var before := st.pool.slots[p.source];
    var (slot, writes) := Emit(before, p);
    if !InSequence(st.written, m) {
      OutOfSequenceStays(st.written, writes, m);
    } else {
      var q :| BadScreen(st.pool.slots, q, m, Count(st.written, m));
      EmitOtherBroken(st, p, m, q);
    }
  }

  lemma EmitOtherBroken(st: State, p: Packet, m: Mid, q: Pid)
    requires Inv(st.pool) && p.source in st.pool.slots && BadScreen(st.pool.slots, q, m, Count(st.written, m))
    ensures var (slot, writes) := Emit(st.pool.slots[p.source], p);
            Broken(st.(pool := st.pool.(slots := st.pool.slots[p.source := slot]), written := st.written + writes), m)
  {
    var before := st.pool.slots[p.source];
    var (slot, writes) := Emit(before, p);
    assert SlotOk(st.pool, before);
    StreamsDiffer(st.pool, before);
    assert Holds(st.pool.slots[q], m);
    if writes == [] {
      assert st.written + writes == st.written;
      assert BadScreen(st.pool.slots[p.source := slot], q, m, Count(st.written, m));
    } else if writes[0].mid == m {
      assert Holds(before, m);
      assert q == p.source && writes == [Write(m, before.screenSeq, p)];
      OutOfSequence(st.written, writes[0]);
    } else {
      assert writes == [writes[0]];
      CountAppend(st.written, writes[0], m);
      assert BadScreen(st.pool.slots[p.source := slot], q, m, Count(st.written, m));
    }
  }

  lemma ForwardBroken(st: State, p: Packet, m: Mid)
    requires Inv(st.pool) && Broken(st, m)
    ensures Broken(Forward(st, p), m)
  {
    var (pool, ok) := GetOrCreate(st.pool, st.watermark, p.source, p.isScreen);
    GetOrCreateKeeps(st.pool, st.watermark, p.source, p.isScreen);
    if InSequence(st.written, m) {
      var q :| BadScreen(st.pool.slots, q, m, Count(st.written, m));
      BadScreenStays(st.pool, st.watermark, p.source, p.isScreen, q, m, Count(st.written, m));
    }
    if ok {
      EmitBroken(st.(pool := pool), p, m);
    }
  }

  lemma BadScreenStays(pool: Pool, w: map<Mid, nat>, source: Pid, isScreen: bool, q: Pid, m: Mid, n: nat)
    requires BadScreen(pool.slots, q, m, n)
    ensures BadScreen(GetOrCreate(pool, w, source, isScreen).0.slots, q, m, n)
  {
  }

  /** A forwarded packet keeps the mid continuous only if the mid is not gained for a
      screen, or gained by a screen whose counter is the mid's next number. */
  ghost predicate ForwardOk(st: State, p: Packet, m: Mid) {
    Gains(st.pool, p.source, p.isScreen, m) ==> st.pool.slots[p.source].screenSeq == Count(st.written, m)
  }

  lemma ForwardContinuesIff(st: State, p: Packet, m: Mid)
    requires Inv(st.pool) && Continuous(st, m)
    ensures if ForwardOk(st, p, m) then Continuous(Forward(st, p), m) else Broken(Forward(st, p), m)
  {
    var n := Count(st.written, m);
    var (pool, ok) := GetOrCreate(st.pool, st.watermark, p.source, p.isScreen);
    GetOrCreateKeeps(st.pool, st.watermark, p.source, p.isScreen);
    if Gains(st.pool, p.source, p.isScreen, m) {
      GainScreenContinuesIff(st.pool, st.watermark, p.source, m, n);
      if !ForwardOk(st, p, m) {
        assert BadScreen(pool.slots, p.source, m, n);
        EmitBroken(st.(pool := pool), p, m);
      } else {
        EmitContinues(st.(pool := pool), p, m);
      }
    } else {
      GetOrCreateContinues(st.pool, st.watermark, p.source, p.isScreen, m, n);
      if ok {
        EmitContinues(st.(pool := pool), p, m);
      }
    }
  }

  ghost predicate FreshOk(st: State, packets: seq<Packet>, now: nat, m: Mid)
    decreases |packets|
  {
    packets == [] ||
    if Stale(packets[0], now) then FreshOk(st, packets[1..], now, m)
    else ForwardOk(st, packets[0], m) && FreshOk(Forward(st, packets[0]), packets[1..], now, m)
  }

  lemma {:induction false} FreshBroken(st: State, packets: seq<Packet>, now: nat, m: Mid)
    requires Inv(st.pool) && Broken(st, m)
    ensures Broken(ForwardFresh(st, packets, now), m)
    decreases |packets|
  {
    if packets != [] {
      if !Stale(packets[0], now) {
        ForwardKeeps(st, packets[0]);
        ForwardBroken(st, packets[0], m);
      }
      FreshBroken(if Stale(packets[0], now) then st else Forward(st, packets[0]), packets[1..], now, m);
    }
  }

  lemma {:induction false} FreshContinuesIff(st: State, packets: seq<Packet>, now: nat, m: Mid)
    requires Inv(st.pool) && Continuous(st, m)
    ensures var st' := ForwardFresh(st, packets, now);
            if FreshOk(st, packets, now, m) then Continuous(st', m) else Broken(st', m)
    decreases |packets|
  {
    if packets != [] {
      if Stale(packets[0], now) {
        FreshContinuesIff(st, packets[1..], now, m);
      } else {
        var st1 := Forward(st, packets[0]);
        ForwardKeeps(st, packets[0]);
        ForwardContinuesIff(st, packets[0], m);
        if ForwardOk(st, packets[0], m) {
          FreshContinuesIff(st1, packets[1..], now, m);
        } else {
          FreshBroken(st1, packets[1..], now, m);
        }
      }
    }
  }

  ghost predicate FlushOneOk(st: State, source: Pid, now: nat, m: Mid) {
    source in st.pending ==> FreshOk(st.(pending := st.pending - {source}), st.pending[source], now, m)
  }

  ghost predicate FlushOk(st: State, order: seq<Pid>, now: nat, m: Mid)
    decreases |order|
  {
    order == [] || (FlushOneOk(st, order[0], now, m) && FlushOk(FlushOne(st, order[0], now), order[1..], now, m))
  }

  lemma FlushOneContinuesIff(st: State, source: Pid, now: nat, m: Mid)
    requires Inv(st.pool) && Continuous(st, m)
    ensures var st' := FlushOne(st, source, now);
            if FlushOneOk(st, source, now, m) then Continuous(st', m) else Broken(st', m)
  {
    if source in st.pending {
      FreshContinuesIff(st.(pending := st.pending - {source}), st.pending[source], now, m);
    }
  }

  lemma {:induction false} FlushBroken(st: State, order: seq<Pid>, now: nat, m: Mid)
    requires Inv(st.pool) && Broken(st, m)
    ensures Broken(Flush(st, order, now), m)
    decreases |order|
  {
    if order != [] {
      FlushOneKeeps(st, order[0], now);
      if order[0] in st.pending {
        FreshBroken(st.(pending := st.pending - {order[0]}), st.pending[order[0]], now, m);
      }
      FlushBroken(FlushOne(st, order[0], now), order[1..], now, m);
    }
  }

  lemma {:induction false} FlushContinuesIff(st: State, order: seq<Pid>, now: nat, m: Mid)
    requires Inv(st.pool) && Continuous(st, m)
    ensures var st' := Flush(st, order, now);
            if FlushOk(st, order, now, m) then Continuous(st', m) else Broken(st', m)
    decreases |order|
  {
    if order != [] {
      var st1 := FlushOne(st, order[0], now);
      FlushOneKeeps(st, order[0], now);
      FlushOneContinuesIff(st, order[0], now, m);
      if FlushOneOk(st, order[0], now, m) {
        FlushContinuesIff(st1, order[1..], now, m);
      } else {
        FlushBroken(st1, order[1..], now, m);
      }
    }
  }

  ghost predicate MediaOk(st: State, p: Packet, m: Mid) {
    (p.isAudio && p.source in st.muted) ||
    (var (pool, hasSlot) := Acquire(st.pool, st.watermark, p); hasSlot ==> ForwardOk(st.(pool := pool), p, m))
  }

  lemma OnMediaContinuesIff(st: State, p: Packet, m: Mid)
    requires Inv(st.pool) && Continuous(st, m)
    ensures if MediaOk(st, p, m) then Continuous(OnMedia(st, p), m) else Broken(OnMedia(st, p), m)
  {
    if !(p.isAudio && p.source in st.muted) {
      var (pool, hasSlot) := Acquire(st.pool, st.watermark, p);
      if p.source !in st.pool.slots {
        GetOrCreateKeeps(st.pool, st.watermark, p.source, p.isScreen);
        GetOrCreateContinues(st.pool, st.watermark, p.source, p.isScreen, m, Count(st.written, m));
      }
      if hasSlot {
        ForwardContinuesIff(st.(pool := pool), p, m);
      }
    }
  }

  /** A departing source leaves each of its counters as the mid's watermark. */
  lemma PeerLeftNext(pool: Pool, w: map<Mid, nat>, pid: Pid, m: Mid, n: nat)
    requires Inv(pool) && NextIs(pool.slots, w, m, n) && pid in pool.slots
    ensures NextIs(pool.slots - {pid}, SaveWatermarks(w, pool.slots[pid]), m, n)
  {
    var slot, slots := pool.slots[pid], pool.slots - {pid};
    assert SlotOk(pool, slot);
    StreamsDiffer(pool, slot);
    if InUse(pool.slots, m) && !InUse(slots, m) {
      var q :| q in pool.slots && Holds(pool.slots[q], m);
      assert q != pid ==> q in slots;
      assert Holds(slot, m) && CounterIs(slot, m, n);
    }
    if !InUse(pool.slots, m) {
      assert !Holds(slot, m);
    }
  }

  lemma PeerLeftContinues(st: State, pid: Pid, m: Mid)
    requires Inv(st.pool) && Continuous(st, m)
    ensures Continuous(OnPeerLeft(st, pid), m)
  {
    if pid in st.pool.slots {
      PeerLeftNext(st.pool, st.watermark, pid, m, Count(st.written, m));
    }
  }

  /** Stopping a screen saves no watermark: its mid stays continuous exactly when
      the watermark already equals the screen's counter. */
  lemma StopScreenContinuesIff(st: State, pid: Pid, m: Mid)
    requires Inv(st.pool) && Continuous(st, m)
    requires pid in st.pool.slots && st.pool.slots[pid].screenMid == Some(m)
    ensures Continuous(Step(st, SourceScreenStopped(pid)), m) <==>
            Seed(st.watermark, m) == st.pool.slots[pid].screenSeq
  {
    var slots' := StopScreen(st.pool, pid).slots;
    assert SlotOk(st.pool, st.pool.slots[pid]);
    StreamsDiffer(st.pool, st.pool.slots[pid]);
    assert CounterIs(st.pool.slots[pid], m, Count(st.written, m));
    assert Holds(st.pool.slots[pid], m);
    forall q | q in slots'
      ensures !Holds(slots'[q], m)
    {
      assert q != pid ==> !Holds(st.pool.slots[q], m);
    }
    forall q | q in slots'
      ensures CounterIs(slots'[q], m, Count(st.written, m))
    {
      assert CounterIs(st.pool.slots[q], m, Count(st.written, m));
    }
  }

  ghost predicate StopOk(st: State, pid: Pid, m: Mid) {
    pid in st.pool.slots && st.pool.slots[pid].screenMid == Some(m) ==>
      Seed(st.watermark, m) == st.pool.slots[pid].screenSeq
  }

  lemma StopContinuesIff(st: State, pid: Pid, m: Mid)
    requires Inv(st.pool) && Continuous(st, m)
    ensures Continuous(Step(st, SourceScreenStopped(pid)), m) <==> StopOk(st, pid, m)
  {
    if pid in st.pool.slots {
      if st.pool.slots[pid].screenMid == Some(m) {
        StopScreenContinuesIff(st, pid, m);
      } else {
        assert CounterIs(st.pool.slots[pid], m, Count(st.written, m));
        SameHolders(st.pool.slots, pid, st.pool.slots[pid].(screenMid := None), m);
      }
    }
  }

  /** What a command must meet to keep the mid continuous: each screen that gains it has
      its next number, and a screen that gives it up has its watermark. */
  ghost predicate StepOk(st: State, cmd: Cmd, m: Mid) {
    match cmd
    case Media(p) => MediaOk(st, p, m)
    case Offer(mids, order, now) => FlushOk(Renegotiate(st, mids), order, now, m)
    case SourceScreenStopped(pid) => StopOk(st, pid, m)
    case _ => true
  }

  lemma StepContinuesIff(st: State, cmd: Cmd, m: Mid)
    requires Inv(st.pool) && Continuous(st, m)
    ensures Continuous(Step(st, cmd), m) <==> StepOk(st, cmd, m)
  {
    if Broken(Step(st, cmd), m) {
      BrokenIsNotContinuous(Step(st, cmd), m);
    }
    match cmd
    case Media(p) => OnMediaContinuesIff(st, p, m);
    case Offer(mids, order, now) =>
      AnnounceAllKeeps(st.pool, mids, st.screenPending || st.screenActive);
      AnnounceAllSlots(st.pool, mids, st.screenPending || st.screenActive);
      FlushContinuesIff(Renegotiate(st, mids), order, now, m);
    case MediaAdded(mids) => AnnounceAllSlots(st.pool, mids, false);
    case ScreenShareActive(_) =>
    case PeerMuteChanged(_, _) =>
    case PeerLeft(pid) => PeerLeftContinues(st, pid, m);
    case SourceScreenStopped(pid) => StopContinuesIff(st, pid, m);
    case PeerCountChanged(_) =>
  }

  /** All commands of a run meet their conditions. */
  ghost predicate RunOk(mids: Mids, cmds: seq<Cmd>, m: Mid) {
    cmds == [] ||
    (var n := |cmds| - 1; RunOk(mids, cmds[..n], m) && StepOk(Run(mids, cmds[..n]), cmds[n], m))
  }

  /** The mid is continuous before and after every command. */
  ghost predicate AlwaysContinuous(mids: Mids, cmds: seq<Cmd>, m: Mid) {
    Continuous(Run(mids, cmds), m) && (cmds != [] ==> AlwaysContinuous(mids, cmds[..|cmds| - 1], m))
  }

  /** For every run and every mid: numbering is continuous throughout exactly if every gain
      and every stop of a screen on the mid meets its condition. */
  lemma {:induction false} ContinuousIff(mids: Mids, cmds: seq<Cmd>, m: Mid)
    requires DistinctMids(mids)
    ensures AlwaysContinuous(mids, cmds, m) <==> RunOk(mids, cmds, m)
  {
    if cmds == [] {
      InitialInv(mids);
    } else {
      var n := |cmds| - 1;
      ContinuousIff(mids, cmds[..n], m);
      ReachableInv(mids, cmds[..n]);
      if RunOk(mids, cmds[..n], m) {
        StepContinuesIff(Run(mids, cmds[..n]), cmds[n], m);
      }
    }
  }

  ghost predicate NeverScreen(mids: Mids, cmds: seq<Cmd>, m: Mid) {
    forall k :: 0 <= k <= |cmds| ==> NotScreen(Run(mids, cmds[..k]).pool, m)
  }

  lemma {:induction false} FreshNeverGains(st: State, packets: seq<Packet>, now: nat, m: Mid)
    requires NotScreen(ForwardFresh(st, packets, now).pool, m)
    ensures FreshOk(st, packets, now, m)
    decreases |packets|
  {
    if packets != [] {
      var st' := if Stale(packets[0], now) then st else Forward(st, packets[0]);
      FreshNeverGains(st', packets[1..], now, m);
      ForwardFreshKeepsScreens(st', packets[1..], now, m);
      if !Stale(packets[0], now) {
        ForwardNeverGains(st, packets[0], m);
      }
    }
  }

  lemma ForwardNeverGains(st: State, p: Packet, m: Mid)
    requires NotScreen(Forward(st, p).pool, m)
    ensures ForwardOk(st, p, m)
  {
    var (pool, ok) := GetOrCreate(st.pool, st.watermark, p.source, p.isScreen);
    if ok {
      EmitKeepsScreens(pool, p, m);
    }
  }

  lemma {:induction false} FlushNeverGains(st: State, order: seq<Pid>, now: nat, m: Mid)
    requires NotScreen(Flush(st, order, now).pool, m)
    ensures FlushOk(st, order, now, m)
    decreases |order|
  {
    if order != [] {
      var st' := FlushOne(st, order[0], now);
      FlushNeverGains(st', order[1..], now, m);
      FlushKeepsScreens(st', order[1..], now, m);
      if order[0] in st.pending {
        FreshNeverGains(st.(pending := st.pending - {order[0]}), st.pending[order[0]], now, m);
      }
    }
  }

  lemma NeverScreenIsOk(st: State, cmd: Cmd, m: Mid)
    requires NotScreen(st.pool, m) && NotScreen(Step(st, cmd).pool, m)
    ensures StepOk(st, cmd, m)
  {
    match cmd
    case Media(p) =>
      var (pool, hasSlot) := Acquire(st.pool, st.watermark, p);
      if hasSlot && !(p.isAudio && p.source in st.muted) {
        ForwardNeverGains(st.(pool := pool), p, m);
      }
    case Offer(mids, order, now) => FlushNeverGains(Renegotiate(st, mids), order, now, m);
    case _ =>
  }

  /** For a mid never assigned as a screen mid in a run, the k-th packet written to
      it carries sequence number k - 1, whichever sources owned it in between. */
  lemma {:induction false} SequenceNumbersContinue(mids: Mids, cmds: seq<Cmd>, m: Mid)
    requires DistinctMids(mids) && NeverScreen(mids, cmds, m)
    ensures Continuous(Run(mids, cmds), m) && RunOk(mids, cmds, m)
  {
    if cmds == [] {
      InitialInv(mids);
    } else {
      var n := |cmds| - 1;
      assert forall k :: 0 <= k <= n ==> cmds[..n][..k] == cmds[..k];
      SequenceNumbersContinue(mids, cmds[..n], m);
      ReachableInv(mids, cmds[..n]);
      assert cmds[..n + 1] == cmds;
      NeverScreenIsOk(Run(mids, cmds[..n]), cmds[n], m);
      StepContinuesIff(Run(mids, cmds[..n]), cmds[n], m);
    }
  }

  /** Where the condition fails, numbers repeat: a screen over mid m stops after some
      packets, m then goes to the camera of a new source, which starts again at 0. */
  lemma StoppedScreenRepeats(st: State, pid: Pid, p: Packet, a: Mid, m: Mid)
    requires Continuous(st, m) && m !in st.watermark
    requires pid in st.pool.slots && st.pool.slots[pid].screenMid == Some(m) && st.pool.slots[pid].screenSeq > 0
    requires p.source !in st.pool.slots && !p.isAudio && !p.isScreen
    requires FreeAudio(StopScreen(st.pool, pid)) == Some(a) && FreeVideo(StopScreen(st.pool, pid)) == Some(m)
    ensures var st' := OnMedia(st.(pool := StopScreen(st.pool, pid)), p);
            st'.written == st.written + [Write(m, 0, p)] && !InSequence(st'.written, m)
  {
    assert CounterIs(st.pool.slots[pid], m, Count(st.written, m));
    OutOfSequence(st.written, Write(m, 0, p));
    StartCamera(st.(pool := StopScreen(st.pool, pid)), p, a, m);
  }

  lemma OutOfSequence(written: seq<Write>, w: Write)
    requires w.seqNo != Count(written, w.mid)
    ensures !InSequence(written + [w], w.mid)
  {
    assert (written + [w])[..|written|] == written;
    assert !InSequenceAt(written + [w], w.mid, |written|);
  }

  /** A camera packet of a new source that gets a video mid without a watermark. */
  lemma StartCamera(st: State, p: Packet, a: Mid, v: Mid)
    requires p.source !in st.pool.slots && v !in st.watermark && !p.isAudio && !p.isScreen
    requires FreeAudio(st.pool) == Some(a) && FreeVideo(st.pool) == Some(v)
    ensures OnMedia(st, p).written == st.written + [Write(v, 0, p)]
  {
  }
}
