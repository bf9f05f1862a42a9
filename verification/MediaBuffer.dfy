/** Which packets wait for a renegotiation, and that no packet goes out more often than it
    came in: the buffers of the media task over whole runs. */
module MediaBuffer {
  import opened Common
  import opened MidPool
  import opened MediaState
  import opened MediaInvariant
  import opened MediaForwarding
  import opened MediaMuting
  import opened MediaFlush
  import opened Renegotiation

  /** A source that has no slot and finds no free pair of mids. */
  predicate NoRoom(pool: Pool, p: Pid) {
    p !in pool.slots && (AudioFree(pool) == 0 || VideoFree(pool) == 0)
  }

  /** The packets of a source held back since it last left or had its buffer flushed. */
  ghost function HeldBack(mids: Mids, cmds: seq<Cmd>, p: Pid): seq<Packet> {
    if cmds == [] then []
    else
      var n := |cmds| - 1;
      var before := HeldBack(mids, cmds[..n], p);
      match cmds[n]
      case Media(q) =>
        if q.source == p && !(q.isAudio && Muted(cmds[..n], p)) && NoRoom(Run(mids, cmds[..n]).pool, p)
        then before + [q] else before
      case Offer(_, order, _) => if p in order then [] else before
      case PeerLeft(q) => if q == p then [] else before
      case _ => before
  }

  function Buffered(pending: map<Pid, seq<Packet>>, p: Pid): seq<Packet> {
    if p in pending then pending[p] else []
  }

  /** The first 500 packets. */
  function Capped(packets: seq<Packet>): seq<Packet> {
    if |packets| <= 500 then packets else packets[..500]
  }

  lemma {:induction false} FreshKeepsPending(st: State, packets: seq<Packet>, now: nat)
    ensures ForwardFresh(st, packets, now).pending == st.pending
    decreases |packets|
  {
    if packets != [] {
      FreshKeepsPending(if Stale(packets[0], now) then st else Forward(st, packets[0]), packets[1..], now);
    }
  }

  lemma {:induction false} FlushEmpties(st: State, order: seq<Pid>, now: nat, p: Pid)
    ensures Buffered(Flush(st, order, now).pending, p) == if p in order then [] else Buffered(st.pending, p)
    decreases |order|
  {
    if order != [] {
      if order[0] in st.pending {
        FreshKeepsPending(st.(pending := st.pending - {order[0]}), st.pending[order[0]], now);
      }
      FlushEmpties(FlushOne(st, order[0], now), order[1..], now, p);
    }
  }

  lemma MediaBuffers(st: State, q: Packet, p: Pid)
    requires Inv(st.pool)
    ensures Buffered(OnMedia(st, q).pending, p) ==
            var before := Buffered(st.pending, p);
            if q.source == p && !(q.isAudio && p in st.muted) && NoRoom(st.pool, p) && |before| < 500
            then before + [q] else before
  {
    if !(q.isAudio && q.source in st.muted) {
      HeldBackIffNoPair(st, q);
    }
  }

  /** In every run the buffer of a source holds the first 500 packets held back since it
      last left or was flushed, in the order they came. */
  lemma {:induction false} BufferHolds(mids: Mids, cmds: seq<Cmd>, p: Pid)
    requires DistinctMids(mids)
    ensures Buffered(Run(mids, cmds).pending, p) == Capped(HeldBack(mids, cmds, p))
  {
    hide OnMedia, Inv, NoRoom;
    if cmds != [] {
      var n := |cmds| - 1;
      var st := Run(mids, cmds[..n]);
      BufferHolds(mids, cmds[..n], p);
      match cmds[n]
      case Media(q) =>
        ReachableInv(mids, cmds[..n]);
        MutedFollowsCommands(mids, cmds[..n], p);
        MediaBuffers(st, q, p);
      case Offer(offered, order, now) => FlushEmpties(Renegotiate(st, offered), order, now, p);
      case _ =>
    }
  }

  lemma {:induction false} HeldBackFrom(mids: Mids, cmds: seq<Cmd>, p: Pid)
    ensures AllFrom(HeldBack(mids, cmds, p), p)
  {
    if cmds != [] {
      HeldBackFrom(mids, cmds[..|cmds| - 1], p);
    }
  }

  lemma BuffersAreOwn(mids: Mids, cmds: seq<Cmd>)
    requires DistinctMids(mids)
    ensures OwnBuffers(Run(mids, cmds).pending)
  {
    forall p | p in Run(mids, cmds).pending
      ensures AllFrom(Run(mids, cmds).pending[p], p)
    {
      BufferHolds(mids, cmds, p);
      HeldBackFrom(mids, cmds, p);
    }
  }

  /** In every run an offer that brings enough mids sends the packets held back, as
      FlushServes says. */
  lemma OfferServesBuffers(mids: Mids, cmds: seq<Cmd>, offered: Mids, order: seq<Pid>, now: nat)
    requires DistinctMids(mids) && Distinct(order)
    requires var st := Renegotiate(Run(mids, cmds), offered);
             AudioNeed(st, order, now) <= AudioFree(st.pool) && VideoNeed(st, order, now) <= VideoFree(st.pool)
    ensures var st := Renegotiate(Run(mids, cmds), offered);
            PacketsOf(Step(Run(mids, cmds), Offer(offered, order, now)).written) ==
            PacketsOf(Run(mids, cmds).written) + Flushed(st, order, now)
    ensures forall p :: Waiting(Renegotiate(Run(mids, cmds), offered), p, now) ==
                        Fresh(Capped(HeldBack(mids, cmds, p)), now)
  {
    var before := Run(mids, cmds);
    ReachableInv(mids, cmds);
    AnnounceAllKeeps(before.pool, offered, before.screenPending || before.screenActive);
    BuffersAreOwn(mids, cmds);
    FlushServes(Renegotiate(before, offered), order, now);
    forall p
      ensures Waiting(Renegotiate(before, offered), p, now) == Fresh(Capped(HeldBack(mids, cmds, p)), now)
    {
      BufferHolds(mids, cmds, p);
    }
  }

  function Count(packets: seq<Packet>, p: Packet): nat {
    if packets == [] then 0 else (if packets[0] == p then 1 else 0) + Count(packets[1..], p)
  }

  lemma {:induction false} CountConcat(a: seq<Packet>, b: seq<Packet>, p: Packet)
    ensures Count(a + b, p) == Count(a, p) + Count(b, p)
  {
    if a == [] {
      assert a + b == b;
    } else {
      assert (a + b)[1..] == a[1..] + b;
      CountConcat(a[1..], b, p);
    }
  }

  /** How often a packet came in. */
  function Arrivals(cmds: seq<Cmd>, p: Packet): nat {
    if cmds == [] then 0
    else Arrivals(cmds[..|cmds| - 1], p) + if cmds[|cmds| - 1] == Media(p) then 1 else 0
  }

  lemma {:induction false} FreshCount(packets: seq<Packet>, now: nat, p: Packet)
    ensures Count(Fresh(packets, now), p) <= Count(packets, p)
  {
    if packets != [] {
      FreshCount(packets[1..], now, p);
      CountConcat(if now <= packets[0].wallclock + 1000 then [packets[0]] else [], Fresh(packets[1..], now), p);
      assert packets == [packets[0]] + packets[1..];
    }
  }

  lemma {:induction false} VisibleCount(packets: seq<Packet>, shows: bool, p: Packet)
    ensures Count(Visible(packets, shows), p) <= Count(packets, p)
  {
    if packets != [] {
      VisibleCount(packets[1..], shows, p);
      CountConcat(if WantsScreen(packets[0]) && !shows then [] else [packets[0]], Visible(packets[1..], shows), p);
    }
  }

  lemma OutcomeCount(pool: Pool, source: Pid, packets: seq<Packet>, p: Packet)
    ensures Count(Outcome(pool, source, packets), p) <= Count(packets, p)
  {
    if packets != [] {
      VisibleCount(packets, source in pool.slots && Shows(pool, source), p);
      VisibleCount(packets[1..], VideoFree(pool) > 1, p);
      CountConcat(if WantsScreen(packets[0]) then [] else [packets[0]], Visible(packets[1..], VideoFree(pool) > 1), p);
    }
  }

  /** Packets written so far and waiting in the buffer of their source. */
  function Accounted(st: State, p: Packet): nat {
    Count(PacketsOf(st.written), p) + Count(Buffered(st.pending, p.source), p)
  }

  lemma {:induction false} NotFrom(packets: seq<Packet>, p: Packet)
    requires forall i :: 0 <= i < |packets| ==> packets[i].source != p.source
    ensures Count(packets, p) == 0
  {
    if packets != [] {
      NotFrom(packets[1..], p);
    }
  }

  lemma FlushOneAccounted(st: State, source: Pid, now: nat, p: Packet)
    requires Inv(st.pool) && OwnBuffers(st.pending)
    ensures Accounted(FlushOne(st, source, now), p) <= Accounted(st, p)
  {
    var waiting := Waiting(st, source, now);
    FlushOneExactly(st, source, now);
    FlushOneOthers(st, source, now);
    CountConcat(PacketsOf(st.written), Outcome(st.pool, source, waiting), p);
    OutcomeCount(st.pool, source, waiting, p);
    if source in st.pending {
      FreshCount(st.pending[source], now, p);
      if source != p.source {
        NotFrom(st.pending[source], p);
      }
    }
  }

  lemma {:induction false} FlushAccounted(st: State, order: seq<Pid>, now: nat, p: Packet)
    requires Inv(st.pool) && OwnBuffers(st.pending)
    ensures Accounted(Flush(st, order, now), p) <= Accounted(st, p)
    decreases |order|
  {
    if order != [] {
      FlushOneAccounted(st, order[0], now, p);
      FlushOneOthers(st, order[0], now);
      FlushAccounted(FlushOne(st, order[0], now), order[1..], now, p);
    }
  }

  /** A live packet is written once or not at all. */
  lemma MediaWrites(st: State, q: Packet) returns (added: seq<Packet>)
    requires Inv(st.pool)
    ensures PacketsOf(OnMedia(st, q).written) == PacketsOf(st.written) + added
    ensures added == if !(q.isAudio && q.source in st.muted) && Suffices(st.pool, q) then [q] else []
  {
    if !(q.isAudio && q.source in st.muted) {
      WrittenIffSuffices(st, q);
      added := if Suffices(st.pool, q) then [q] else [];
    } else {
      added := [];
    }
  }

  /** What is written at once finds room, so it is not buffered as well. */
  lemma WrittenOrBuffered(pool: Pool, q: Packet)
    requires Suffices(pool, q)
    ensures !NoRoom(pool, q.source)
  {
  }

  lemma MediaAccounted(st: State, q: Packet, p: Packet)
    requires Inv(st.pool)
    ensures Accounted(OnMedia(st, q), p) <= Accounted(st, p) + if q == p then 1 else 0
  {
    hide OnMedia, Inv, Suffices, NoRoom, PacketsOf, Buffered;
    var added := MediaWrites(st, q);
    MediaBuffers(st, q, p.source);
    CountConcat(PacketsOf(st.written), added, p);
    CountConcat(Buffered(st.pending, p.source), [q], p);
    if Suffices(st.pool, q) {
      WrittenOrBuffered(st.pool, q);
    }
    CountOne(q, p);
  }

  lemma CountOne(q: Packet, p: Packet)
    ensures Count([q], p) == (if q == p then 1 else 0) && Count([], p) == 0
  {
  }

  lemma SameAccounted(st: State, st': State, p: Packet)
    requires st'.written == st.written && st'.pending == st.pending
    ensures Accounted(st', p) == Accounted(st, p)
  {
  }

  lemma NothingAccounted(mids: Mids, p: Packet)
    ensures Accounted(Initial(mids), p) == 0
  {
  }

  lemma LeftAccounted(st: State, q: Pid, p: Packet)
    ensures Accounted(OnPeerLeft(st, q), p) <= Accounted(st, p)
  {
  }

  /** Over every run no packet goes out more often than it came in, those still waiting
      included. */
  lemma {:induction false} NeverMoreThanReceived(mids: Mids, cmds: seq<Cmd>, p: Packet)
    requires DistinctMids(mids)
    ensures Accounted(Run(mids, cmds), p) <= Arrivals(cmds, p)
  {
    hide OnMedia, Flush, Inv, Accounted;
    if cmds == [] {
      NothingAccounted(mids, p);
    } else {
      var n := |cmds| - 1;
      var st := Run(mids, cmds[..n]);
      NeverMoreThanReceived(mids, cmds[..n], p);
      ReachableInv(mids, cmds[..n]);
      match cmds[n]
      case Media(q) => MediaAccounted(st, q, p);
      case Offer(offered, order, now) =>
        BuffersAreOwn(mids, cmds[..n]);
        AnnounceAllKeeps(st.pool, offered, st.screenPending || st.screenActive);
        SameAccounted(st, Renegotiate(st, offered), p);
        FlushAccounted(Renegotiate(st, offered), order, now, p);
      case PeerLeft(q) => LeftAccounted(st, q, p);
      case _ => SameAccounted(st, Step(st, cmds[n]), p);
    }
  }

  lemma RunExtend(mids: Mids, cmds: seq<Cmd>, cmd: Cmd)
    ensures Run(mids, cmds + [cmd]) == Step(Run(mids, cmds), cmd)
  {
    assert (cmds + [cmd])[..|cmds|] == cmds;
  }

  /** After a source left, nothing of it goes out until a packet of it comes in again. */
  lemma {:induction false} SilentAfterLeaving(mids: Mids, cmds: seq<Cmd>, more: seq<Cmd>, p: Packet)
    requires DistinctMids(mids)
    requires forall i :: 0 <= i < |more| ==> !(more[i].Media? && more[i].packet.source == p.source)
    ensures var left := cmds + [PeerLeft(p.source)];
            && Buffered(Run(mids, left + more).pending, p.source) == []
            && Count(PacketsOf(Run(mids, left + more).written), p) == Count(PacketsOf(Run(mids, cmds).written), p)
    decreases |more|
  {
    var left := cmds + [PeerLeft(p.source)];
    if more == [] {
      assert left + more == left;
      RunExtend(mids, cmds, PeerLeft(p.source));
    } else {
      hide Step, PacketsOf, Buffered;
      var n := |more| - 1;
      SilentAfterLeaving(mids, cmds, more[..n], p);
      assert left + more == left + more[..n] + [more[n]];
      RunExtend(mids, left + more[..n], more[n]);
      StaysSilent(mids, left + more[..n], more[n], p);
    }
  }

  lemma StaysSilent(mids: Mids, cmds: seq<Cmd>, cmd: Cmd, p: Packet)
    requires DistinctMids(mids) && Buffered(Run(mids, cmds).pending, p.source) == []
    requires !(cmd.Media? && cmd.packet.source == p.source)
    ensures var st := Run(mids, cmds);
            && Buffered(Step(st, cmd).pending, p.source) == []
            && Count(PacketsOf(Step(st, cmd).written), p) == Count(PacketsOf(st.written), p)
  {
    var st := Run(mids, cmds);
    ReachableInv(mids, cmds);
    match cmd
    case Media(q) => MediaSilent(st, q, p);
    case Offer(offered, order, now) =>
      BuffersAreOwn(mids, cmds);
      AnnounceAllKeeps(st.pool, offered, st.screenPending || st.screenActive);
      FlushEmpties(Renegotiate(st, offered), order, now, p.source);
      FlushAccounted(Renegotiate(st, offered), order, now, p);
      FlushOnlyAdds(Renegotiate(st, offered), order, now, p);
    case _ =>
  }

  lemma MediaSilent(st: State, q: Packet, p: Packet)
    requires Inv(st.pool) && q.source != p.source
    ensures Buffered(OnMedia(st, q).pending, p.source) == Buffered(st.pending, p.source)
    ensures Count(PacketsOf(OnMedia(st, q).written), p) == Count(PacketsOf(st.written), p)
  {
    hide OnMedia, Inv, Suffices, NoRoom, PacketsOf, Buffered;
    var added := MediaWrites(st, q);
    MediaBuffers(st, q, p.source);
    CountConcat(PacketsOf(st.written), added, p);
    CountOne(q, p);
  }

  lemma {:induction false} FlushOnlyAdds(st: State, order: seq<Pid>, now: nat, p: Packet)
    requires Inv(st.pool) && OwnBuffers(st.pending)
    ensures Count(PacketsOf(Flush(st, order, now).written), p) >= Count(PacketsOf(st.written), p)
    decreases |order|
  {
    if order != [] {
      FlushOneExactly(st, order[0], now);
      FlushOneOthers(st, order[0], now);
      CountConcat(PacketsOf(st.written), Outcome(st.pool, order[0], Waiting(st, order[0], now)), p);
      FlushOnlyAdds(FlushOne(st, order[0], now), order[1..], now, p);
    }
  }
}
