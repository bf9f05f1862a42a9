/** Streams never mix: what is written on a mid comes from the one source that holds it,
    and a source's streams keep their mids for as long as it stays. */
module MediaStreams {
  import opened Common
  import opened MidPool
  import opened MediaState
  import opened MediaInvariant
  import opened MediaNotices

  /** The mid a slot provides for a packet's stream. */
  function MidFor(s: Slot, p: Packet): Option<Mid> {
    if p.isAudio then Some(s.audioMid) else if p.isScreen then s.screenMid else Some(s.videoMid)
  }

  /** The write went to the mid its source holds for that stream. */
  predicate InPlace(pool: Pool, w: Write) {
    w.packet.source in pool.slots && MidFor(pool.slots[w.packet.source], w.packet) == Some(w.mid)
  }

  /** What was written between two states, all in place in the second. */
  ghost predicate AddsInPlace(a: State, b: State) {
    && a.written <= b.written
    && forall i :: |a.written| <= i < |b.written| ==> InPlace(b.pool, b.written[i])
  }

  lemma KeptInPlace(a: Pool, b: Pool, w: Write)
    requires InPlace(a, w) && Keeps(a, b, w.packet.source)
    ensures InPlace(b, w)
  {
  }

  lemma InPlaceThrough(a: State, b: State, c: State)
    requires AddsInPlace(a, b) && AddsInPlace(b, c) && forall p :: Keeps(b.pool, c.pool, p)
    ensures AddsInPlace(a, c)
  {
    forall i | |a.written| <= i < |c.written|
      ensures InPlace(c.pool, c.written[i])
    {
      if i < |b.written| {
        assert InPlace(b.pool, b.written[i]) && c.written[i] == b.written[i];
        KeptInPlace(b.pool, c.pool, c.written[i]);
      }
    }
  }

  lemma ForwardInPlace(st: State, p: Packet)
    ensures AddsInPlace(st, Forward(st, p))
  {
  }

  lemma MediaInPlace(st: State, p: Packet)
    ensures AddsInPlace(st, OnMedia(st, p))
  {
    hide Forward, Acquire;
    ForwardInPlace(st.(pool := Acquire(st.pool, st.watermark, p).0), p);
  }

  lemma {:induction false} FreshInPlace(st: State, packets: seq<Packet>, now: nat)
    ensures AddsInPlace(st, ForwardFresh(st, packets, now))
    decreases |packets|
  {
    hide Forward, InPlace, Keeps;
    if packets != [] {
      var st1 := if Stale(packets[0], now) then st else Forward(st, packets[0]);
      ForwardInPlace(st, packets[0]);
      FreshInPlace(st1, packets[1..], now);
      forall p
        ensures Keeps(st1.pool, ForwardFresh(st, packets, now).pool, p)
      {
        FreshKeepsMids(st1, packets[1..], now, p);
      }
      InPlaceThrough(st, st1, ForwardFresh(st, packets, now));
    }
  }

  lemma {:induction false} FlushInPlace(st: State, order: seq<Pid>, now: nat)
    ensures AddsInPlace(st, Flush(st, order, now))
    decreases |order|
  {
    hide ForwardFresh, InPlace, Keeps;
    if order != [] {
      var st1 := FlushOne(st, order[0], now);
      if order[0] in st.pending {
        FreshInPlace(st.(pending := st.pending - {order[0]}), st.pending[order[0]], now);
      }
      FlushInPlace(st1, order[1..], now);
      forall p
        ensures Keeps(st1.pool, Flush(st, order, now).pool, p)
      {
        FlushKeepsMids(st1, order[1..], now, p);
      }
      InPlaceThrough(st, st1, Flush(st, order, now));
    }
  }

  /** Every command, flushes included, writes packets to their own mids only. */
  lemma StepInPlace(st: State, cmd: Cmd)
    ensures AddsInPlace(st, Step(st, cmd))
  {
    hide OnMedia, Flush, InPlace;
    match cmd
    case Media(p) => MediaInPlace(st, p);
    case Offer(offered, order, now) => FlushInPlace(Renegotiate(st, offered), order, now);
    case _ =>
  }

  /** The two packets belong to one stream: a source's audio, camera or screen. */
  predicate SameStream(p: Packet, q: Packet) {
    p.source == q.source && p.isAudio == q.isAudio && (p.isAudio || p.isScreen == q.isScreen)
  }

  lemma MidsApart(pool: Pool, s: Slot, p: Packet, q: Packet)
    requires Inv(pool) && SlotOk(pool, s)
    requires MidFor(s, p).Some? && MidFor(s, p) == MidFor(s, q) && p.source == q.source
    ensures SameStream(p, q)
  {
    if p.isAudio != q.isAudio {
      OneKind(pool.allMids, MidFor(s, p).value, Audio, Video);
    }
  }

  lemma OneStreamPerMid(pool: Pool, v: Write, w: Write)
    requires Inv(pool) && InPlace(pool, v) && InPlace(pool, w)
    ensures v.mid == w.mid <==> SameStream(v.packet, w.packet)
  {
    var p, q := v.packet, w.packet;
    assert Holds(pool.slots[p.source], v.mid) && Holds(pool.slots[q.source], w.mid);
    if v.mid == w.mid {
      MidsApart(pool, pool.slots[p.source], p, q);
    }
  }

  /** No command of the list makes a source leave or stop its screen. */
  predicate AllStay(more: seq<Cmd>) {
    forall i :: 0 <= i < |more| ==> !more[i].PeerLeft? && !more[i].SourceScreenStopped?
  }

  lemma {:induction false} RunInPlace(mids: Mids, cmds: seq<Cmd>, more: seq<Cmd>)
    requires AllStay(more)
    ensures AddsInPlace(Run(mids, cmds), Run(mids, cmds + more))
    decreases |more|
  {
    hide Step, InPlace, Keeps;
    if more == [] {
      assert cmds + more == cmds;
    } else {
      var n := |more| - 1;
      RunInPlace(mids, cmds, more[..n]);
      assert (cmds + more)[..|cmds| + n] == cmds + more[..n];
      var st := Run(mids, cmds + more[..n]);
      StepInPlace(st, more[n]);
      forall p
        ensures Keeps(st.pool, Step(st, more[n]).pool, p)
      {
        StepKeepsMids(st, more[n], p);
      }
      InPlaceThrough(Run(mids, cmds), st, Step(st, more[n]));
    }
  }

  /** In every run, between departures and screen stops, two packets go to the same mid
      exactly if they belong to the same stream: nothing is written on another source's
      mid, and no stream is spread over two. */
  lemma StreamsNeverMix(mids: Mids, cmds: seq<Cmd>, more: seq<Cmd>, i: nat, j: nat)
    requires DistinctMids(mids) && AllStay(more)
    requires |Run(mids, cmds).written| <= i < |Run(mids, cmds + more).written|
    requires |Run(mids, cmds).written| <= j < |Run(mids, cmds + more).written|
    ensures var w := Run(mids, cmds + more).written;
            w[i].mid == w[j].mid <==> SameStream(w[i].packet, w[j].packet)
  {
    hide Inv, InPlace;
    var st := Run(mids, cmds + more);
    RunInPlace(mids, cmds, more);
    ReachableInv(mids, cmds + more);
    OneStreamPerMid(st.pool, st.written[i], st.written[j]);
  }
}
