/** Runs of the media task in which it does not do what it is meant to. */
module MediaWitnesses {
  import opened Common
  import opened MidPool
  import opened MediaState
  import opened MediaInvariant
  import opened MediaSequence
  import opened MediaRouting
  import opened Renegotiation

  lemma RunMore(mids: Mids, cmds: seq<Cmd>, cmd: Cmd)
    ensures Run(mids, cmds + [cmd]) == Step(Run(mids, cmds), cmd)
  {
    assert (cmds + [cmd])[..|cmds|] == cmds;
  }

  /** A pool in which the first two mids are the receiver's own. */
  function OwnPair(mids: Mids, slots: map<Pid, Slot>): Pool {
    Pool(mids, Some(0), Some(1), None, slots)
  }

  lemma InitialMore(mids: Mids, m: Mid, kind: Kind)
    ensures var pool := InitialPool(mids);
            InitialPool(mids + [(m, kind)]) ==
            pool.(allMids := pool.allMids + [(m, kind)],
                  ownAudio := if kind == Audio && pool.ownAudio.None? then Some(m) else pool.ownAudio,
                  ownVideo := if kind == Video && pool.ownVideo.None? then Some(m) else pool.ownVideo)
  {
    assert (mids + [(m, kind)])[..|mids|] == mids;
  }

  lemma {:induction false} OwnPairInitial(mids: Mids)
    requires |mids| >= 2 && mids[0] == (0, Audio) && mids[1] == (1, Video)
    ensures InitialPool(mids) == OwnPair(mids, map[])
  {
    var n := |mids| - 1;
    assert mids == mids[..n] + [(mids[n].0, mids[n].1)];
    InitialMore(mids[..n], mids[n].0, mids[n].1);
    if n > 1 {
      OwnPairInitial(mids[..n]);
    } else {
      assert mids[..1] == [] + [(0, Audio)];
      InitialMore([], 0, Audio);
    }
  }

  lemma UsedNone()
    ensures Used(map[]) == {}
  {
  }

  lemma UsedOne(p: Pid, s: Slot)
    ensures Used(map[p := s]) == SlotMids(s)
  {
    assert forall m :: InUse(map[p := s], m) <==> Holds(s, m) by {
      assert map[p := s][p] == s;
    }
  }

  predicate IsScreen(p: Packet) {
    p.isScreen && !p.isAudio
  }

  /** A new source starts with its screen: it takes a slot and then a screen mid. */
  lemma StartScreen(st: State, p: Packet, a: Mid, v: Mid, m: Mid)
    requires IsScreen(p) && p.source !in st.pool.slots && st.watermark == map[]
    requires FreeAudio(st.pool) == Some(a) && FreeVideo(st.pool) == Some(v)
    requires FreeVideo(WithSlot(st.pool, p.source, Slot(a, v, None, 0, 0, 0))) == Some(m)
    ensures OnMedia(st, p).pool == WithSlot(st.pool, p.source, Slot(a, v, Some(m), 0, 0, 1))
    ensures OnMedia(st, p).written == st.written + [Write(m, 0, p)]
    ensures OnMedia(st, p).watermark == map[]
  {
    NewSource(st.pool, p, a, v);
    DeliverWrites(st, p, WithSlot(st.pool, p.source, Slot(a, v, None, 0, 0, 0)));
    SecondPacket(st.(pool := WithSlot(st.pool, p.source, Slot(a, v, None, 0, 0, 0))), p, m);
    SlotTwice(st.pool, p.source, Slot(a, v, None, 0, 0, 0), Slot(a, v, Some(m), 0, 0, 1));
  }

  function WithSlot(pool: Pool, source: Pid, s: Slot): Pool {
    pool.(slots := pool.slots[source := s])
  }

  lemma SlotTwice(pool: Pool, source: Pid, s: Slot, s': Slot)
    ensures WithSlot(WithSlot(pool, source, s), source, s') == WithSlot(pool, source, s')
  {
    assert pool.slots[source := s'] == WithSlot(pool, source, s).slots[source := s'];
  }

  lemma NewSource(pool: Pool, p: Packet, a: Mid, v: Mid)
    requires p.source !in pool.slots && FreeAudio(pool) == Some(a) && FreeVideo(pool) == Some(v)
    ensures Acquire(pool, map[], p) == (WithSlot(pool, p.source, Slot(a, v, None, 0, 0, 0)), true)
  {
  }

  lemma DeliverWrites(st: State, p: Packet, pool: Pool)
    requires !p.isAudio && Acquire(st.pool, st.watermark, p) == (pool, true)
    ensures OnMedia(st, p).pool == Forward(st.(pool := pool), p).pool
    ensures OnMedia(st, p).written == Forward(st.(pool := pool), p).written
    ensures OnMedia(st, p).watermark == Forward(st.(pool := pool), p).watermark
  {
  }

  /** A screen packet of a source that has a slot but no screen mid. */
  lemma SecondPacket(st: State, p: Packet, m: Mid)
    requires IsScreen(p) && p.source in st.pool.slots
    requires st.pool.slots[p.source].screenMid.None? && FreeVideo(st.pool) == Some(m)
    ensures var s := st.pool.slots[p.source];
            var s' := s.(screenMid := Some(m), screenSeq := s.screenSeq + 1);
            Forward(st, p) == st.(pool := WithSlot(st.pool, p.source, s'),
                                  written := st.written + [Write(m, s.screenSeq, p)])
  {
    var s := st.pool.slots[p.source];
    SlotTwice(st.pool, p.source, s.(screenMid := Some(m)), s.(screenMid := Some(m), screenSeq := s.screenSeq + 1));
  }

  const SIX_MIDS: Mids := [(0, Audio), (1, Video), (2, Audio), (3, Video), (4, Video), (5, Audio)]

  function Screen(source: Pid): Packet {
    Packet(source, false, true, 0, 0)
  }

  function Camera(source: Pid): Packet {
    Packet(source, false, false, 0, 0)
  }

  lemma SixFreeAtFirst()
    ensures FreeAudio(OwnPair(SIX_MIDS, map[])) == Some(2) && FreeVideo(OwnPair(SIX_MIDS, map[])) == Some(3)
  {
    UsedNone();
    FirstFreeAt(SIX_MIDS, Audio, Used(map[]) + Opt(Some(0)), 2);
    FirstFreeAt(SIX_MIDS, Video, Used(map[]) + Opt(Some(1)) + Opt(None), 3);
  }

  /** The free mids while one source holds mids 2 and 3. */
  lemma SixFreeLater(s: Slot)
    requires s.audioMid == 2 && s.videoMid == 3 && s.screenMid.None?
    ensures FreeAudio(OwnPair(SIX_MIDS, map[1 := s])) == Some(5) && FreeVideo(OwnPair(SIX_MIDS, map[1 := s])) == Some(4)
  {
    UsedOne(1, s);
    var used := Used(map[1 := s]);
    assert used == {2, 3};
    FirstFreeAt(SIX_MIDS, Audio, used + Opt(Some(0)), 5);
    FirstFreeAt(SIX_MIDS, Video, used + Opt(Some(1)) + Opt(None), 4);
  }

  /** A screen over mid 4 is on. */
  lemma ScreenStarts()
    ensures var st := Run(SIX_MIDS, [Media(Screen(1))]);
            && st.pool == OwnPair(SIX_MIDS, map[1 := Slot(2, 3, Some(4), 0, 0, 1)])
            && st.written == [Write(4, 0, Screen(1))] && st.watermark == map[]
  {
    RunMore(SIX_MIDS, [], Media(Screen(1)));
    OwnPairInitial(SIX_MIDS);
    SixFreeAtFirst();
    SixFreeLater(Slot(2, 3, None, 0, 0, 0));
    OneSlot(Slot(2, 3, None, 0, 0, 0));
    OneSlot(Slot(2, 3, Some(4), 0, 0, 1));
    StartScreen(Initial(SIX_MIDS), Screen(1), 2, 3, 4);
  }

  lemma OneSlot(s: Slot)
    ensures WithSlot(OwnPair(SIX_MIDS, map[]), 1, s) == OwnPair(SIX_MIDS, map[1 := s])
  {
    var none: map<Pid, Slot> := map[];
    assert none[1 := s] == map[1 := s];
  }

  /** It stops. */
  lemma ScreenStops()
    ensures var st := Run(SIX_MIDS, [Media(Screen(1)), SourceScreenStopped(1)]);
            && st.pool == OwnPair(SIX_MIDS, map[1 := Slot(2, 3, None, 0, 0, 1)])
            && st.written == [Write(4, 0, Screen(1))] && st.watermark == map[]
  {
    ScreenStarts();
    RunMore(SIX_MIDS, [Media(Screen(1))], SourceScreenStopped(1));
    assert [Media(Screen(1))] + [SourceScreenStopped(1)] == [Media(Screen(1)), SourceScreenStopped(1)];
    StopAtSix(Run(SIX_MIDS, [Media(Screen(1))]));
  }

  lemma StopAtSix(st: State)
    requires st.pool == OwnPair(SIX_MIDS, map[1 := Slot(2, 3, Some(4), 0, 0, 1)])
    ensures Step(st, SourceScreenStopped(1)) == st.(pool := OwnPair(SIX_MIDS, map[1 := Slot(2, 3, None, 0, 0, 1)]))
  {
    var s := Slot(2, 3, None, 0, 0, 1);
    var slots: map<Pid, Slot> := map[1 := Slot(2, 3, Some(4), 0, 0, 1)];
    assert slots[1 := s] == map[1 := s];
  }

  /** A camera takes the mid over, and number 0 is sent on it a second time. */
  lemma NumberRepeats()
    ensures var st := Run(SIX_MIDS, [Media(Screen(1)), SourceScreenStopped(1), Media(Camera(2))]);
            && st.written == [Write(4, 0, Screen(1)), Write(4, 0, Camera(2))]
            && !InSequence(st.written, 4)
  {
    var before := [Media(Screen(1)), SourceScreenStopped(1)];
    ScreenStops();
    RunMore(SIX_MIDS, before, Media(Camera(2)));
    assert before + [Media(Camera(2))] == [Media(Screen(1)), SourceScreenStopped(1), Media(Camera(2))];
    SixFreeLater(Slot(2, 3, None, 0, 0, 1));
    StartCamera(Run(SIX_MIDS, before), Camera(2), 5, 4);
    SecondZero();
  }

  lemma SecondZero()
    ensures !InSequence([Write(4, 0, Screen(1)), Write(4, 0, Camera(2))], 4)
  {
    var first := [Write(4, 0, Screen(1))];
    assert first[..0] == [];
    OutOfSequence(first, Write(4, 0, Camera(2)));
    assert first + [Write(4, 0, Camera(2))] == [Write(4, 0, Screen(1)), Write(4, 0, Camera(2))];
  }

  /** The same source starts its screen again: its counter survived the stop, so the
      numbers go on, although the mid's watermark was wrong in between. */
  lemma RestartInSequence()
    ensures var cmds := [Media(Screen(1)), SourceScreenStopped(1), Media(Screen(1))];
            && Run(SIX_MIDS, cmds).written == [Write(4, 0, Screen(1)), Write(4, 1, Screen(1))]
            && InSequence(Run(SIX_MIDS, cmds).written, 4)
            && !Continuous(Run(SIX_MIDS, cmds[..2]), 4)
  {
    var before := [Media(Screen(1)), SourceScreenStopped(1)];
    var cmds := [Media(Screen(1)), SourceScreenStopped(1), Media(Screen(1))];
    ScreenStops();
    RunMore(SIX_MIDS, before, Media(Screen(1)));
    assert before + [Media(Screen(1))] == cmds && cmds[..2] == before;
    var st := Run(SIX_MIDS, before);
    SixFreeLater(Slot(2, 3, None, 0, 0, 1));
    DeliverWrites(st, Screen(1), st.pool);
    SecondPacket(st, Screen(1), 4);
    FirstTwo();
    OffAfterStop(st);
  }

  lemma OffAfterStop(st: State)
    requires st.pool.slots == map[1 := Slot(2, 3, None, 0, 0, 1)] && st.watermark == map[]
    requires st.written == [Write(4, 0, Screen(1))]
    ensures !Continuous(st, 4)
  {
    FirstTwo();
    UsedOne(1, Slot(2, 3, None, 0, 0, 1));
    assert 4 !in Used(st.pool.slots);
  }

  lemma FirstTwo()
    ensures Count([Write(4, 0, Screen(1))], 4) == 1
    ensures InSequence([Write(4, 0, Screen(1)), Write(4, 1, Screen(1))], 4)
  {
    var first := [Write(4, 0, Screen(1))];
    assert first[..0] == [] && [] + first == first;
    InSequenceAppend([], Write(4, 0, Screen(1)), 4);
    InSequenceAppend(first, Write(4, 1, Screen(1)), 4);
    assert first + [Write(4, 1, Screen(1))] == [Write(4, 0, Screen(1)), Write(4, 1, Screen(1))];
  }

  const TWO_MIDS: Mids := [(0, Audio), (1, Video)]
  const FIVE_MIDS: Mids := [(0, Audio), (1, Video), (2, Audio), (3, Video), (4, Video)]

  lemma NothingFree(mids: Mids, kind: Kind, excluded: set<Mid>)
    requires forall m :: (m, kind) in mids ==> m in excluded
    ensures Candidates(mids, kind, excluded) == []
  {
    var c := Candidates(mids, kind, excluded);
    assert forall i :: 0 <= i < |c| ==> c[i] in c;
  }

  /** With only its own mids the receiver has none to spare. */
  lemma TwoFree()
    ensures AudioFree(OwnPair(TWO_MIDS, map[])) == VideoFree(OwnPair(TWO_MIDS, map[])) == 0
    ensures FreeAudio(OwnPair(TWO_MIDS, map[])).None?
  {
    NothingFree(TWO_MIDS, Audio, Used(map[]) + Opt(Some(0)));
    NothingFree(TWO_MIDS, Video, Used(map[]) + Opt(Some(1)) + Opt(None));
  }

  lemma FiveFreeAtFirst()
    ensures FreeAudio(OwnPair(FIVE_MIDS, map[])) == Some(2) && FreeVideo(OwnPair(FIVE_MIDS, map[])) == Some(3)
  {
    UsedNone();
    FirstFreeAt(FIVE_MIDS, Audio, Used(map[]) + Opt(Some(0)), 2);
    FirstFreeAt(FIVE_MIDS, Video, Used(map[]) + Opt(Some(1)) + Opt(None), 3);
  }

  lemma FiveFreeLater(s: Slot)
    requires s.audioMid == 2 && s.videoMid == 3 && s.screenMid.None?
    ensures FreeVideo(OwnPair(FIVE_MIDS, map[7 := s])) == Some(4)
  {
    UsedOne(7, s);
    var used := Used(map[7 := s]);
    assert used == {2, 3};
    FirstFreeAt(FIVE_MIDS, Video, used + Opt(Some(1)) + Opt(None), 4);
  }

  /** Without free mids a packet is only buffered. */
  lemma OnlyBuffered(st: State)
    requires st.pool == OwnPair(TWO_MIDS, map[])
    ensures Step(st, Media(Screen(7))) == st.(pending := Buffer(st.pending, Screen(7)))
  {
    TwoFree();
  }

  lemma TwoBuffered()
    ensures Run(TWO_MIDS, [Media(Screen(7)), Media(Screen(7))]) ==
            Initial(TWO_MIDS).(pending := map[7 := [Screen(7), Screen(7)]])
  {
    var cmd := Media(Screen(7));
    OwnPairInitial(TWO_MIDS);
    RunMore(TWO_MIDS, [], cmd);
    RunMore(TWO_MIDS, [cmd], cmd);
    assert [cmd] + [cmd] == [cmd, cmd];
    OnlyBuffered(Initial(TWO_MIDS));
    OnlyBuffered(Initial(TWO_MIDS).(pending := Buffer(map[], Screen(7))));
    BufferTwice(Screen(7));
  }

  lemma BufferTwice(p: Packet)
    ensures Buffer(map[], p) == map[p.source := [p]]
    ensures Buffer(map[p.source := [p]], p) == map[p.source := [p, p]]
  {
    var none: map<Pid, seq<Packet>> := map[];
    var one: map<Pid, seq<Packet>> := map[p.source := [p]];
    assert none[p.source := [p]] == one && [] + [p] == [p];
    assert one[p.source := [p, p]] == map[p.source := [p, p]] && [p] + [p] == [p, p];
  }

  lemma AnnounceNew(pool: Pool, m: Mid, kind: Kind)
    requires !Listed(pool.allMids, m) && pool.ownAudio.Some? && pool.ownVideo.Some?
    ensures Announce(pool, m, kind, false) == pool.(allMids := pool.allMids + [(m, kind)])
  {
  }

  lemma AnnounceThree()
    ensures AnnounceAll(OwnPair(TWO_MIDS, map[]), [(2, Audio), (3, Video), (4, Video)], false) ==
            OwnPair(FIVE_MIDS, map[])
  {
    var offer: Mids := [(2, Audio), (3, Video), (4, Video)];
    assert offer[1..] == [(3, Video), (4, Video)] && offer[1..][1..] == [(4, Video)] && offer[1..][1..][1..] == [];
    AnnounceNew(OwnPair(TWO_MIDS, map[]), 2, Audio);
    AnnounceNew(OwnPair(TWO_MIDS + [(2, Audio)], map[]), 3, Video);
    AnnounceNew(OwnPair(TWO_MIDS + [(2, Audio)] + [(3, Video)], map[]), 4, Video);
    assert TWO_MIDS + [(2, Audio)] + [(3, Video)] + [(4, Video)] == FIVE_MIDS;
  }

  /** The first packet of a new source's screen only brings the slot. */
  lemma FirstPacket(st: State, p: Packet, a: Mid, v: Mid)
    requires IsScreen(p) && p.source !in st.pool.slots && st.watermark == map[]
    requires FreeAudio(st.pool) == Some(a) && FreeVideo(st.pool) == Some(v)
    ensures Forward(st, p) == st.(pool := WithSlot(st.pool, p.source, Slot(a, v, None, 0, 0, 0)))
  {
    var slot := Slot(a, v, None, 0, 0, 0);
    SlotTwice(st.pool, p.source, slot, slot);
    assert st.written + [] == st.written;
  }

  lemma FlushTwo(st: State, p: Packet)
    requires st.pending == map[p.source := [p, p]] && p.wallclock == 0
    ensures Flush(st, [p.source], 0) == Forward(Forward(st.(pending := map[]), p), p)
  {
    assert st.pending - {p.source} == map[];
    var order: seq<Pid> := [p.source];
    assert order[1..] == [];
    FreshTwo(st.(pending := map[]), p);
  }

  lemma FreshTwo(st: State, p: Packet)
    requires p.wallclock == 0
    ensures ForwardFresh(st, [p, p], 0) == Forward(Forward(st, p), p)
  {
    assert [p, p][1..] == [p] && [p][1..] == [];
    var st1 := Forward(st, p);
    assert ForwardFresh(st1, [p], 0) == ForwardFresh(Forward(st1, p), [], 0);
  }

  lemma FlushGainsScreen(st: State)
    requires st.pool == OwnPair(FIVE_MIDS, map[]) && st.watermark == map[]
    ensures var st' := Forward(Forward(st, Screen(7)), Screen(7));
            && st'.pool == OwnPair(FIVE_MIDS, map[7 := Slot(2, 3, Some(4), 0, 0, 1)])
            && st'.routed == st.routed && st'.written == st.written + [Write(4, 0, Screen(7))]
  {
    var s := Slot(2, 3, None, 0, 0, 0);
    FiveFreeAtFirst();
    FirstPacket(st, Screen(7), 2, 3);
    SlotOfSeven(s);
    ThenScreen(st.(pool := OwnPair(FIVE_MIDS, map[7 := s])));
  }

  lemma SlotOfSeven(s: Slot)
    ensures WithSlot(OwnPair(FIVE_MIDS, map[]), 7, s) == OwnPair(FIVE_MIDS, map[7 := s])
  {
    var none: map<Pid, Slot> := map[];
    assert none[7 := s] == map[7 := s];
  }

  lemma ThenScreen(st: State)
    requires st.pool == OwnPair(FIVE_MIDS, map[7 := Slot(2, 3, None, 0, 0, 0)])
    ensures Forward(st, Screen(7)) == st.(pool := OwnPair(FIVE_MIDS, map[7 := Slot(2, 3, Some(4), 0, 0, 1)]),
                                          written := st.written + [Write(4, 0, Screen(7))])
  {
    var s, s' := Slot(2, 3, None, 0, 0, 0), Slot(2, 3, Some(4), 0, 0, 1);
    FiveFreeLater(s);
    SecondPacket(st, Screen(7), 4);
    SlotOfSeven(s);
    SlotOfSeven(s');
    SlotTwice(OwnPair(FIVE_MIDS, map[]), 7, s, s');
  }

  /** Two screen packets wait for mids; the offer that brings them has the second one
      flushed onto mid 4, and the receiver is never told. */
  lemma ScreenUnannounced()
    ensures var offer := Offer([(2, Audio), (3, Video), (4, Video)], [7], 0);
            var st := Run(TWO_MIDS, [Media(Screen(7)), Media(Screen(7)), offer]);
            && ScreenOf(st.pool, 7) == Some(4) && st.written == [Write(4, 0, Screen(7))] && st.routed == []
            && !Informed(st.pool, st.routed)
  {
    var offer := Offer([(2, Audio), (3, Video), (4, Video)], [7], 0);
    var before := [Media(Screen(7)), Media(Screen(7))];
    TwoBuffered();
    OwnPairInitial(TWO_MIDS);
    RunMore(TWO_MIDS, before, offer);
    assert before + [offer] == [Media(Screen(7)), Media(Screen(7)), offer];
    OfferFlushes(Run(TWO_MIDS, before));
    assert !RoutedTo(Run(TWO_MIDS, before + [offer]).pool, [], 7);
  }

  lemma OfferFlushes(st: State)
    requires st.pool == OwnPair(TWO_MIDS, map[]) && st.watermark == map[] && !st.screenActive && !st.screenPending
    requires st.pending == map[7 := [Screen(7), Screen(7)]]
    ensures var st' := Step(st, Offer([(2, Audio), (3, Video), (4, Video)], [7], 0));
            && st'.pool == OwnPair(FIVE_MIDS, map[7 := Slot(2, 3, Some(4), 0, 0, 1)])
            && st'.routed == st.routed && st'.written == st.written + [Write(4, 0, Screen(7))]
  {
    var mids := [(2, Audio), (3, Video), (4, Video)];
    AnnounceThree();
    var st1 := Renegotiate(st, mids);
    FlushTwo(st1, Screen(7));
    FlushGainsScreen(st1.(pending := map[]));
  }

  lemma OfferOne(pool: Pool)
    requires pool == OwnPair(TWO_MIDS, map[])
    ensures Adds([(2, Audio), (3, Video)], Audio) == Adds([(2, Audio), (3, Video)], Video) == 1
    ensures DistinctMids(pool.allMids + [(2, Audio), (3, Video)])
  {
    var offer: Mids := [(2, Audio), (3, Video)];
    assert offer[1..] == [(3, Video)] && offer[1..][1..] == [];
  }

  lemma RequestsOne(pool: Pool)
    requires Inv(pool) && AudioFree(pool) == VideoFree(pool) == 0 && |Sources(pool.slots)| == 0
    ensures NeedsRenegotiation(pool.allMids, OwnCount(pool), pool.slots, 1) == Some(1)
    ensures Requests(pool, 1) == [1]
  {
    RequestCountsFree(pool, 1);
  }

  lemma OwnPairInv(mids: Mids)
    requires |mids| >= 2 && mids[0] == (0, Audio) && mids[1] == (1, Video) && DistinctMids(mids)
    ensures Inv(OwnPair(mids, map[])) && Sources(OwnPair(mids, map[]).slots) == {}
  {
    InitialInv(mids);
    OwnPairInitial(mids);
  }

  lemma TwoRequest()
    ensures Inv(OwnPair(TWO_MIDS, map[])) && Requests(OwnPair(TWO_MIDS, map[]), 1) == [1]
  {
    OwnPairInv(TWO_MIDS);
    TwoFree();
    RequestsOne(OwnPair(TWO_MIDS, map[]));
  }

  lemma StarvesOnOffer(pool: Pool, extra: Mids, p: Pid, w: map<Mid, nat>)
    requires Inv(pool) && AudioFree(pool) == VideoFree(pool) == 0 && pool.slots == map[]
    requires MissingVideo(pool, true) == 1
    requires Adds(extra, Audio) == Adds(extra, Video) == 1 && DistinctMids(pool.allMids + extra)
    ensures !Creates(AnnounceAll(pool, extra, true), w, [p])
  {
    assert Sources(pool.slots) == {};
    RequestsOne(pool);
    assert Newcomer(pool, [p], 0);
    RequestedOfferServesIff(pool, w, [p], 1, extra, true);
  }

  lemma RequestedOne()
    ensures Run(TWO_MIDS, [ScreenShareActive(true), PeerCountChanged(1)]) ==
            Initial(TWO_MIDS).(screenActive := true, screenPending := true, requested := [1])
  {
    var active, one := ScreenShareActive(true), PeerCountChanged(1);
    RunMore(TWO_MIDS, [], active);
    RunMore(TWO_MIDS, [active], one);
    assert [] + [active] == [active] && [active] + [one] == [active, one];
    OwnPairInitial(TWO_MIDS);
    CountsOne(Run(TWO_MIDS, [active]));
  }

  lemma CountsOne(st: State)
    requires st.pool == OwnPair(TWO_MIDS, map[])
    ensures Step(st, PeerCountChanged(1)) == st.(requested := st.requested + [1])
  {
    TwoRequest();
  }

  /** A receiver whose own screen waits for a mid asks for one pair on behalf of one peer.
      The offered video mid becomes its screen mid, and the peer still gets no slot. */
  lemma WaitingScreenStarves(p: Pid, w: map<Mid, nat>)
    ensures Run(TWO_MIDS, [ScreenShareActive(true), PeerCountChanged(1)]).requested == [1]
    ensures var offer := Offer([(2, Audio), (3, Video)], [], 0);
            !Creates(Run(TWO_MIDS, [ScreenShareActive(true), PeerCountChanged(1), offer]).pool, w, [p])
  {
    var offer := Offer([(2, Audio), (3, Video)], [], 0);
    var before := [ScreenShareActive(true), PeerCountChanged(1)];
    RequestedOne();
    RunMore(TWO_MIDS, before, offer);
    assert before + [offer] == [ScreenShareActive(true), PeerCountChanged(1), offer];
    OwnPairInitial(TWO_MIDS);
    TwoRequest();
    TwoFree();
    OfferOne(OwnPair(TWO_MIDS, map[]));
    StarvesOnOffer(OwnPair(TWO_MIDS, map[]), offer.mids, p, w);
  }
}
