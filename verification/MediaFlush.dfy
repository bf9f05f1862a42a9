/** What a renegotiation does with the packets that waited for it: which of them go out,
    in which order, and how many mids that takes. */
module MediaFlush {
  import opened Common
  import opened MidPool
  import opened MediaState
  import opened MediaInvariant
  import opened MediaForwarding
  import opened Renegotiation

  /** The packets that are at most one second old. */
  function Fresh(packets: seq<Packet>, now: nat): seq<Packet> {
    if packets == [] then []
    else (if now <= packets[0].wallclock + 1000 then [packets[0]] else []) + Fresh(packets[1..], now)
  }

  function ForwardAll(st: State, packets: seq<Packet>): State
    decreases |packets|
  {
    if packets == [] then st else ForwardAll(Forward(st, packets[0]), packets[1..])
  }

  /** Flushing a buffer forwards its fresh packets. */
  lemma {:induction false} FlushForwardsFresh(st: State, packets: seq<Packet>, now: nat)
    ensures ForwardFresh(st, packets, now) == ForwardAll(st, Fresh(packets, now))
    decreases |packets|
  {
    if packets != [] {
      var st' := if Stale(packets[0], now) then st else Forward(st, packets[0]);
      FlushForwardsFresh(st', packets[1..], now);
      if !Stale(packets[0], now) {
        assert Fresh(packets, now)[1..] == Fresh(packets[1..], now);
      } else {
        assert Fresh(packets, now) == Fresh(packets[1..], now);
      }
    }
  }

  ghost predicate AllFrom(packets: seq<Packet>, p: Pid) {
    forall i :: 0 <= i < |packets| ==> packets[i].source == p
  }

  lemma {:induction false} FreshFrom(packets: seq<Packet>, now: nat, p: Pid)
    requires AllFrom(packets, p)
    ensures AllFrom(Fresh(packets, now), p)
  {
    if packets != [] {
      FreshFrom(packets[1..], now, p);
    }
  }

  /** The packets written, in order. */
  function PacketsOf(written: seq<Write>): seq<Packet> {
    seq(|written|, i requires 0 <= i < |written| => written[i].packet)
  }

  lemma Regroup(a: seq<Packet>, b: seq<Packet>, c: seq<Packet>)
    ensures (a + b) + c == a + (b + c)
  {
  }

  /** No slot but that of p differs. */
  ghost predicate OthersSame(slots: map<Pid, Slot>, slots': map<Pid, Slot>, p: Pid) {
    forall q :: q != p ==> (q in slots' <==> q in slots) && (q in slots ==> slots'[q] == slots[q])
  }

  /** Numbering a packet changes no mid. */
  lemma EmitFree(pool: Pool, p: Packet)
    requires p.source in pool.slots
    ensures var pool' := pool.(slots := pool.slots[p.source := Emit(pool.slots[p.source], p).0]);
            AudioFree(pool') == AudioFree(pool) && VideoFree(pool') == VideoFree(pool)
  {
    var slots, slots' := pool.slots, pool.slots[p.source := Emit(pool.slots[p.source], p).0];
    forall m
      ensures InUse(slots', m) <==> InUse(slots, m)
    {
      if InUse(slots, m) {
        var q :| q in slots && Holds(slots[q], m);
        assert q in slots' && Holds(slots'[q], m);
      }
      if InUse(slots', m) {
        var q :| q in slots' && Holds(slots'[q], m);
        assert q in slots && Holds(slots[q], m);
      }
    }
    assert Used(slots') == Used(slots);
  }

  lemma UsedAfterGain(slots: map<Pid, Slot>, p: Pid, m: Mid)
    requires p in slots && slots[p].screenMid.None?
    ensures Used(slots[p := slots[p].(screenMid := Some(m))]) == Used(slots) + {m}
  {
    var slots' := slots[p := slots[p].(screenMid := Some(m))];
    forall k
      ensures InUse(slots', k) <==> InUse(slots, k) || k == m
    {
      if InUse(slots, k) {
        var q :| q in slots && Holds(slots[q], k);
        assert q in slots' && Holds(slots'[q], k);
      }
      if k == m {
        assert p in slots' && Holds(slots'[p], k);
      }
      if InUse(slots', k) {
        var q :| q in slots' && Holds(slots'[q], k);
        assert k == m || Holds(slots[q], k);
      }
    }
  }

  /** Gaining a screen mid takes one video mid. */
  lemma GainFree(pool: Pool, p: Pid)
    requires Inv(pool) && p in pool.slots && pool.slots[p].screenMid.None? && FreeVideo(pool).Some?
    ensures var pool' := pool.(slots := pool.slots[p := pool.slots[p].(screenMid := FreeVideo(pool))]);
            AudioFree(pool') == AudioFree(pool) && VideoFree(pool') == VideoFree(pool) - 1
  {
    var m := FreeVideo(pool).value;
    var pool' := pool.(slots := pool.slots[p := pool.slots[p].(screenMid := Some(m))]);
    UsedAfterGain(pool.slots, p, m);
    assert AudioTaken(pool') == AudioTaken(pool) + {m} && VideoTaken(pool') == VideoTaken(pool) + {m};
    ExcludeOne(pool.allMids, Audio, AudioTaken(pool), m);
    ExcludeOne(pool.allMids, Video, VideoTaken(pool), m);
    if (m, Audio) in pool.allMids {
      OneKind(pool.allMids, m, Audio, Video);
    }
  }

  /** The source's screen packets have somewhere to go. */
  predicate Shows(pool: Pool, p: Pid)
    requires p in pool.slots
  {
    pool.slots[p].screenMid.Some? || VideoFree(pool) > 0
  }

  /** The packet takes a screen mid for its source. */
  predicate Gains(pool: Pool, p: Packet)
    requires p.source in pool.slots
  {
    p.isScreen && pool.slots[p.source].screenMid.None? && VideoFree(pool) > 0
  }

  lemma ForwardOthers(st: State, p: Packet)
    ensures OthersSame(st.pool.slots, Forward(st, p).pool.slots, p.source)
    ensures Forward(st, p).pending == st.pending && st.written <= Forward(st, p).written
  {
    hide FreeAudio, FreeVideo, Emit;
  }

  /** The mids that forwarding a packet takes if its source has a slot. */
  lemma WithSlotTakes(st: State, p: Packet)
    requires Inv(st.pool) && p.source in st.pool.slots
    ensures var pool := Forward(st, p).pool;
            && p.source in pool.slots
            && AudioFree(pool) == AudioFree(st.pool)
            && VideoFree(pool) == VideoFree(st.pool) - (if Gains(st.pool, p) then 1 else 0)
            && (pool.slots[p.source].screenMid.Some? <==>
                  st.pool.slots[p.source].screenMid.Some? || Gains(st.pool, p))
  {
    hide Inv;
    if Gains(st.pool, p) {
      GainFree(st.pool, p.source);
    }
    EmitFree(GetOrCreate(st.pool, st.watermark, p.source, p.isScreen).0, p);
  }

  lemma ShowsStays(st: State, p: Packet)
    requires Inv(st.pool) && p.source in st.pool.slots
    ensures p.source in Forward(st, p).pool.slots && Shows(Forward(st, p).pool, p.source) == Shows(st.pool, p.source)
  {
    hide Forward, Inv;
    WithSlotTakes(st, p);
  }

  lemma WithSlotWrites(st: State, p: Packet)
    requires p.source in st.pool.slots
    ensures PacketsOf(Forward(st, p).written) ==
            PacketsOf(st.written) + if WantsScreen(p) && !Shows(st.pool, p.source) then [] else [p]
  {
    ForwardWritesIff(st, p);
  }

  /** If a pair of mids is free a source without a slot gets it. */
  lemma WithoutSlotTakes(st: State, p: Packet)
    requires Inv(st.pool) && p.source !in st.pool.slots && AudioFree(st.pool) > 0 && VideoFree(st.pool) > 0
    ensures var pool := Forward(st, p).pool;
            && p.source in pool.slots && pool.slots[p.source].screenMid.None?
            && AudioFree(pool) == AudioFree(st.pool) - 1 && VideoFree(pool) == VideoFree(st.pool) - 1
  {
    CreateIgnoresScreen(st.pool, st.watermark, p.source, p.isScreen);
    CreateTakesPair(st.pool, st.watermark, p.source);
    EmitFree(GetOrCreate(st.pool, st.watermark, p.source, p.isScreen).0, p);
  }

  /** But its first packet is lost if it is a screen packet. */
  lemma WithoutSlotWrites(st: State, p: Packet)
    requires p.source !in st.pool.slots && AudioFree(st.pool) > 0 && VideoFree(st.pool) > 0
    ensures PacketsOf(Forward(st, p).written) == PacketsOf(st.written) + if WantsScreen(p) then [] else [p]
  {
    assert FreeAudio(st.pool).Some? && FreeVideo(st.pool).Some?;
  }

  /** The packets that go out, given whether screens have somewhere to go. */
  function Visible(packets: seq<Packet>, shows: bool): seq<Packet> {
    if packets == [] then []
    else (if WantsScreen(packets[0]) && !shows then [] else [packets[0]]) + Visible(packets[1..], shows)
  }

  predicate AnyScreen(packets: seq<Packet>) {
    exists i :: 0 <= i < |packets| && packets[i].isScreen
  }

  lemma {:induction false} AllVisible(packets: seq<Packet>, shows: bool)
    requires AnyScreen(packets) ==> shows
    ensures Visible(packets, shows) == packets
  {
    if packets != [] {
      AnyScreenTail(packets);
      AllVisible(packets[1..], shows);
    }
  }

  lemma AnyScreenTail(packets: seq<Packet>)
    requires packets != []
    ensures AnyScreen(packets) <==> packets[0].isScreen || AnyScreen(packets[1..])
  {
    if AnyScreen(packets[1..]) {
      var i :| 0 <= i < |packets[1..]| && packets[1..][i].isScreen;
      assert packets[i + 1].isScreen;
    }
    if AnyScreen(packets) && !packets[0].isScreen {
      var i :| 0 <= i < |packets| && packets[i].isScreen;
      assert packets[1..][i - 1].isScreen;
    }
  }

  lemma {:induction false} ForwardAllOthers(st: State, packets: seq<Packet>, p: Pid)
    requires AllFrom(packets, p)
    ensures OthersSame(st.pool.slots, ForwardAll(st, packets).pool.slots, p)
    ensures ForwardAll(st, packets).pending == st.pending && st.written <= ForwardAll(st, packets).written
    decreases |packets|
  {
    if packets != [] {
      ForwardOthers(st, packets[0]);
      ForwardAllOthers(Forward(st, packets[0]), packets[1..], p);
    }
  }

  /** The mids that a list of packets of one source takes if it has a slot. */
  lemma {:induction false} AllWithSlotTake(st: State, packets: seq<Packet>, p: Pid)
    requires Inv(st.pool) && p in st.pool.slots && AllFrom(packets, p)
    ensures var pool := ForwardAll(st, packets).pool;
            && AudioFree(pool) == AudioFree(st.pool)
            && VideoFree(pool) == VideoFree(st.pool) -
               (if AnyScreen(packets) && st.pool.slots[p].screenMid.None? && VideoFree(st.pool) > 0 then 1 else 0)
    decreases |packets|
  {
    hide Forward, Inv;
    if packets != [] {
      ForwardKeeps(st, packets[0]);
      WithSlotTakes(st, packets[0]);
      AnyScreenTail(packets);
      AllWithSlotTake(Forward(st, packets[0]), packets[1..], p);
    }
  }

  /** Which of its packets go out. */
  lemma {:induction false} AllWithSlotWritten(st: State, packets: seq<Packet>, p: Pid)
    requires Inv(st.pool) && p in st.pool.slots && AllFrom(packets, p)
    ensures PacketsOf(ForwardAll(st, packets).written) ==
            PacketsOf(st.written) + Visible(packets, Shows(st.pool, p))
    decreases |packets|
  {
    hide Forward, Inv, PacketsOf, Shows;
    if packets != [] {
      ForwardKeeps(st, packets[0]);
      WithSlotTakes(st, packets[0]);
      WithSlotWrites(st, packets[0]);
      ShowsStays(st, packets[0]);
      AllWithSlotWritten(Forward(st, packets[0]), packets[1..], p);
      Regroup(PacketsOf(st.written), if WantsScreen(packets[0]) && !Shows(st.pool, p) then [] else [packets[0]],
              Visible(packets[1..], Shows(st.pool, p)));
    }
  }

  /** The packets of a source that are left once it has a slot: a screen packet that
      brings the slot is lost. */
  function Served(pool: Pool, p: Pid, packets: seq<Packet>): seq<Packet> {
    if p !in pool.slots && packets != [] && WantsScreen(packets[0]) then packets[1..] else packets
  }

  function NeedsAudio(pool: Pool, p: Pid, packets: seq<Packet>): nat {
    if p in pool.slots || packets == [] then 0 else 1
  }

  function NeedsVideo(pool: Pool, p: Pid, packets: seq<Packet>): nat {
    if packets == [] then 0
    else if p in pool.slots then if pool.slots[p].screenMid.None? && AnyScreen(packets) then 1 else 0
    else 1 + if AnyScreen(packets[1..]) then 1 else 0
  }

  /** The mids a source needs are free. */
  predicate Supplied(pool: Pool, p: Pid, packets: seq<Packet>) {
    NeedsAudio(pool, p, packets) <= AudioFree(pool) && NeedsVideo(pool, p, packets) <= VideoFree(pool)
  }

  /** Its packets then take exactly these mids. */
  lemma SuppliedTakes(st: State, packets: seq<Packet>, p: Pid)
    requires Inv(st.pool) && AllFrom(packets, p) && Supplied(st.pool, p, packets)
    ensures AudioFree(ForwardAll(st, packets).pool) == AudioFree(st.pool) - NeedsAudio(st.pool, p, packets)
    ensures VideoFree(ForwardAll(st, packets).pool) == VideoFree(st.pool) - NeedsVideo(st.pool, p, packets)
  {
    if p in st.pool.slots {
      AllWithSlotTake(st, packets, p);
    } else if packets != [] {
      ForwardKeeps(st, packets[0]);
      WithoutSlotTakes(st, packets[0]);
      AllWithSlotTake(Forward(st, packets[0]), packets[1..], p);
    }
  }

  /** And they go out in order, except a screen packet that brings the source its slot. */
  lemma SuppliedWritten(st: State, packets: seq<Packet>, p: Pid)
    requires Inv(st.pool) && AllFrom(packets, p) && Supplied(st.pool, p, packets)
    ensures PacketsOf(ForwardAll(st, packets).written) == PacketsOf(st.written) + Served(st.pool, p, packets)
  {
    hide Forward, Inv, PacketsOf, AudioFree, VideoFree;
    if p in st.pool.slots {
      AllWithSlotWritten(st, packets, p);
      AllVisible(packets, Shows(st.pool, p));
    } else if packets != [] {
      var st1 := Forward(st, packets[0]);
      ForwardKeeps(st, packets[0]);
      WithoutSlotTakes(st, packets[0]);
      WithoutSlotWrites(st, packets[0]);
      AllWithSlotWritten(st1, packets[1..], p);
      AllVisible(packets[1..], Shows(st1.pool, p));
      Regroup(PacketsOf(st.written), if WantsScreen(packets[0]) then [] else [packets[0]], packets[1..]);
      assert (if WantsScreen(packets[0]) then [] else [packets[0]]) + packets[1..] == Served(st.pool, p, packets);
    }
  }

  /** The fresh packets that wait for a source. */
  function Waiting(st: State, p: Pid, now: nat): seq<Packet> {
    if p in st.pending then Fresh(st.pending[p], now) else []
  }

  function AudioNeed(st: State, order: seq<Pid>, now: nat): nat {
    if order == [] then 0
    else NeedsAudio(st.pool, order[0], Waiting(st, order[0], now)) + AudioNeed(st, order[1..], now)
  }

  function VideoNeed(st: State, order: seq<Pid>, now: nat): nat {
    if order == [] then 0
    else NeedsVideo(st.pool, order[0], Waiting(st, order[0], now)) + VideoNeed(st, order[1..], now)
  }

  /** What a flush that finds enough mids sends, source by source. */
  function Flushed(st: State, order: seq<Pid>, now: nat): seq<Packet> {
    if order == [] then []
    else Served(st.pool, order[0], Waiting(st, order[0], now)) + Flushed(st, order[1..], now)
  }

  ghost predicate OwnBuffers(pending: map<Pid, seq<Packet>>) {
    forall p :: p in pending ==> AllFrom(pending[p], p)
  }

  /** Flushing one source is forwarding what waits for it. */
  lemma FlushOneForwards(st: State, p: Pid, now: nat)
    requires OwnBuffers(st.pending)
    ensures FlushOne(st, p, now) == ForwardAll(st.(pending := st.pending - {p}), Waiting(st, p, now))
    ensures AllFrom(Waiting(st, p, now), p)
  {
    if p in st.pending {
      FlushForwardsFresh(st.(pending := st.pending - {p}), st.pending[p], now);
      FreshFrom(st.pending[p], now, p);
    } else {
      assert st.pending - {p} == st.pending;
    }
  }

  lemma FlushOneOthers(st: State, p: Pid, now: nat)
    requires Inv(st.pool) && OwnBuffers(st.pending)
    ensures var st' := FlushOne(st, p, now);
            && Inv(st'.pool) && OwnBuffers(st'.pending) && st.written <= st'.written
            && OthersSame(st.pool.slots, st'.pool.slots, p) && st'.pending == st.pending - {p}
  {
    FlushOneKeeps(st, p, now);
    FlushOneForwards(st, p, now);
    ForwardAllOthers(st.(pending := st.pending - {p}), Waiting(st, p, now), p);
  }

  lemma FlushOneServes(st: State, p: Pid, now: nat)
    requires Inv(st.pool) && OwnBuffers(st.pending) && Supplied(st.pool, p, Waiting(st, p, now))
    ensures var st' := FlushOne(st, p, now);
            && AudioFree(st'.pool) == AudioFree(st.pool) - NeedsAudio(st.pool, p, Waiting(st, p, now))
            && VideoFree(st'.pool) == VideoFree(st.pool) - NeedsVideo(st.pool, p, Waiting(st, p, now))
            && PacketsOf(st'.written) == PacketsOf(st.written) + Served(st.pool, p, Waiting(st, p, now))
  {
    var st1 := st.(pending := st.pending - {p});
    FlushOneForwards(st, p, now);
    SuppliedTakes(st1, Waiting(st, p, now), p);
    SuppliedWritten(st1, Waiting(st, p, now), p);
  }

  /** What the other sources need and are sent does not depend on the one flushed first. */
  lemma {:induction false} NeedsStay(st: State, st': State, p: Pid, order: seq<Pid>, now: nat)
    requires p !in order && OthersSame(st.pool.slots, st'.pool.slots, p) && st'.pending == st.pending - {p}
    ensures AudioNeed(st', order, now) == AudioNeed(st, order, now)
    ensures VideoNeed(st', order, now) == VideoNeed(st, order, now)
    ensures Flushed(st', order, now) == Flushed(st, order, now)
  {
    if order != [] {
      NeedsStay(st, st', p, order[1..], now);
      assert Waiting(st', order[0], now) == Waiting(st, order[0], now);
    }
  }

  /** A flush that finds enough mids sends exactly the packets that are at most one second
      old, each once, source by source in the order they arrived, with one exception: a
      screen packet at the head of a source without a slot is lost. */
  lemma {:induction false} FlushServes(st: State, order: seq<Pid>, now: nat)
    requires Inv(st.pool) && OwnBuffers(st.pending) && Distinct(order)
    requires AudioNeed(st, order, now) <= AudioFree(st.pool) && VideoNeed(st, order, now) <= VideoFree(st.pool)
    ensures st.written <= Flush(st, order, now).written
    ensures PacketsOf(Flush(st, order, now).written) == PacketsOf(st.written) + Flushed(st, order, now)
    decreases |order|
  {
    hide FlushOne, Inv, PacketsOf, OthersSame, AudioFree, VideoFree;
    if order != [] {
      var st1 := FlushOne(st, order[0], now);
      FlushOneOthers(st, order[0], now);
      FlushOneServes(st, order[0], now);
      assert order[0] !in order[1..];
      NeedsStay(st, st1, order[0], order[1..], now);
      FlushServes(st1, order[1..], now);
      Regroup(PacketsOf(st.written), Served(st.pool, order[0], Waiting(st, order[0], now)), Flushed(st, order[1..], now));
    }
  }

  /** Without a free pair nothing of a source without a slot goes out. */
  lemma {:induction false} NoRoomNothing(st: State, packets: seq<Packet>, p: Pid)
    requires p !in st.pool.slots && (AudioFree(st.pool) == 0 || VideoFree(st.pool) == 0) && AllFrom(packets, p)
    ensures ForwardAll(st, packets) == st
    decreases |packets|
  {
    if packets != [] {
      assert Forward(st, packets[0]) == st;
      NoRoomNothing(st, packets[1..], p);
    }
  }

  /** What becomes of the packets of one source, whatever mids are free. */
  function Outcome(pool: Pool, p: Pid, packets: seq<Packet>): seq<Packet> {
    if packets == [] then []
    else if p in pool.slots then Visible(packets, Shows(pool, p))
    else if AudioFree(pool) == 0 || VideoFree(pool) == 0 then []
    else (if WantsScreen(packets[0]) then [] else [packets[0]]) + Visible(packets[1..], VideoFree(pool) > 1)
  }

  lemma ForwardAllOutcome(st: State, packets: seq<Packet>, p: Pid)
    requires Inv(st.pool) && AllFrom(packets, p)
    ensures PacketsOf(ForwardAll(st, packets).written) == PacketsOf(st.written) + Outcome(st.pool, p, packets)
  {
    hide Forward, Inv, PacketsOf, AudioFree, VideoFree;
    if packets == [] {
    } else if p in st.pool.slots {
      AllWithSlotWritten(st, packets, p);
    } else if AudioFree(st.pool) == 0 || VideoFree(st.pool) == 0 {
      NoRoomNothing(st, packets, p);
    } else {
      ForwardKeeps(st, packets[0]);
      WithoutSlotTakes(st, packets[0]);
      WithoutSlotWrites(st, packets[0]);
      AllWithSlotWritten(Forward(st, packets[0]), packets[1..], p);
      Regroup(PacketsOf(st.written), if WantsScreen(packets[0]) then [] else [packets[0]],
              Visible(packets[1..], VideoFree(st.pool) > 1));
    }
  }

  /** A flush of one source sends exactly this of its fresh packets, in order. */
  lemma FlushOneExactly(st: State, p: Pid, now: nat)
    requires Inv(st.pool) && OwnBuffers(st.pending)
    ensures PacketsOf(FlushOne(st, p, now).written) ==
            PacketsOf(st.written) + Outcome(st.pool, p, Waiting(st, p, now))
  {
    FlushOneForwards(st, p, now);
    ForwardAllOutcome(st.(pending := st.pending - {p}), Waiting(st, p, now), p);
  }

  predicate AnyWanted(packets: seq<Packet>) {
    exists i :: 0 <= i < |packets| && WantsScreen(packets[i])
  }

  lemma {:induction false} VisibleSize(packets: seq<Packet>, shows: bool)
    ensures |Visible(packets, shows)| <= |packets|
    ensures Visible(packets, shows) == packets <==> shows || !AnyWanted(packets)
    ensures |Visible(packets, shows)| == |packets| ==> Visible(packets, shows) == packets
  {
    if packets != [] {
      VisibleSize(packets[1..], shows);
      assert AnyWanted(packets) <==> WantsScreen(packets[0]) || AnyWanted(packets[1..]) by {
        if AnyWanted(packets[1..]) {
          var i :| 0 <= i < |packets[1..]| && WantsScreen(packets[1..][i]);
          assert WantsScreen(packets[i + 1]);
        }
        if AnyWanted(packets) && !WantsScreen(packets[0]) {
          var i :| 0 <= i < |packets| && WantsScreen(packets[i]);
          assert WantsScreen(packets[1..][i - 1]);
        }
      }
      assert packets == [packets[0]] + packets[1..];
    }
  }

  /** All of them go out exactly if the mids suffice and no screen packet comes first for
      a source that has no slot yet. */
  lemma AllGoOutIff(pool: Pool, p: Pid, packets: seq<Packet>)
    ensures Outcome(pool, p, packets) == packets <==>
            || packets == []
            || (if p in pool.slots then Shows(pool, p) || !AnyWanted(packets)
                else && AudioFree(pool) > 0 && VideoFree(pool) > 0 && !WantsScreen(packets[0])
                     && (VideoFree(pool) > 1 || !AnyWanted(packets[1..])))
  {
    if packets != [] {
      VisibleSize(packets, p in pool.slots && Shows(pool, p));
      VisibleSize(packets[1..], VideoFree(pool) > 1);
      assert packets == [packets[0]] + packets[1..];
      assert ([packets[0]] + Visible(packets[1..], VideoFree(pool) > 1))[1..] == Visible(packets[1..], VideoFree(pool) > 1);
    }
  }
}
