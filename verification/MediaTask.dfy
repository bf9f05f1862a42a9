/** The media task of one receiver: the variables its command loop updates in place,
    each handler proved against the state machine of MediaState. */
module MediaTask {
  import opened Common
  import opened MidPool
  import opened MediaState

  /** The mids of an answer that are not listed yet, each once. */
  function Unlisted(all: Mids, mids: Mids): Mids
    decreases |mids|
  {
    if mids == [] then []
    else if Listed(all, mids[0].0) then Unlisted(all, mids[1..])
    else [mids[0]] + Unlisted(all + [mids[0]], mids[1..])
  }

  function AssignAll(pool: Pool, mids: Mids, wantScreen: bool): Pool
    decreases |mids|
  {
    if mids == [] then pool
    else AssignAll(Assign(pool, mids[0].0, mids[0].1, wantScreen), mids[1..], wantScreen)
  }

  /** Listing all new mids first and assigning own mids afterwards comes to the same. */
  lemma {:induction false} ListThenAssign(pool: Pool, mids: Mids, wantScreen: bool)
    ensures var added := Unlisted(pool.allMids, mids);
            AnnounceAll(pool, mids, wantScreen) == AssignAll(pool.(allMids := pool.allMids + added), added, wantScreen)
    decreases |mids|
  {
    if mids == [] {
      assert pool.allMids + [] == pool.allMids;
    } else if Listed(pool.allMids, mids[0].0) {
      ListThenAssign(pool, mids[1..], wantScreen);
    } else {
      ListThenAssign(Announce(pool, mids[0].0, mids[0].1, wantScreen), mids[1..], wantScreen);
      var rest := Unlisted(pool.allMids + [mids[0]], mids[1..]);
      assert pool.allMids + [mids[0]] + rest == pool.allMids + ([mids[0]] + rest);
      assert ([mids[0]] + rest)[1..] == rest;
    }
  }

  class MediaTask {
    var allMids: Mids
    var ownAudio: Option<Mid>
    var ownVideo: Option<Mid>
    var ownScreen: Option<Mid>
    var slots: map<Pid, Slot>
    var screenActive: bool
    var screenPending: bool
    var watermark: map<Mid, nat>
    var pending: map<Pid, seq<Packet>>
    var muted: set<Pid>
    var written: seq<Write>
    var routed: seq<Route>
    var requested: seq<u32>

    ghost function PoolView(): Pool
      reads this
    {
      Pool(allMids, ownAudio, ownVideo, ownScreen, slots)
    }

    ghost function View(): State
      reads this
    {
      State(PoolView(), screenActive, screenPending, watermark, pending, muted, written, routed, requested)
    }

    constructor (mids: Mids)
      ensures View() == Initial(mids)
    {
      allMids, ownAudio, ownVideo, ownScreen, slots := [], None, None, None, map[];
      screenActive, screenPending, watermark, pending, muted := false, false, map[], map[], {};
      written, routed, requested := [], [], [];
      new;
      for i := 0 to |mids|
        invariant View() == Initial(mids[..i])
      {
        assert mids[..i + 1][..i] == mids[..i];
        var (m, kind) := mids[i];
        allMids := allMids + [(m, kind)];
        if kind == Audio && ownAudio.None? {
          ownAudio := Some(m);
        } else if kind == Video && ownVideo.None? {
          ownVideo := Some(m);
        }
      }
      assert mids[..|mids|] == mids;
    }

    /** get_or_create_slot */
    method GetOrCreateSlot(source: Pid, isScreen: bool) returns (ok: bool)
      modifies this`slots
      ensures (PoolView(), ok) == GetOrCreate(old(PoolView()), watermark, source, isScreen)
    {
      var used := Used(slots);
      if source in slots {
        if isScreen && slots[source].screenMid.None? {
          var freeScreen := FindFree(allMids, Video, used + Opt(ownVideo) + Opt(ownScreen));
          if freeScreen.Some? {
            slots := slots[source := slots[source].(screenMid := freeScreen)];
          }
        }
        return true;
      }
      var freeAudio := FindFree(allMids, Audio, used + Opt(ownAudio));
      var freeVideo := FindFree(allMids, Video, used + Opt(ownVideo) + Opt(ownScreen));
      if freeAudio.None? || freeVideo.None? {
        return false;
      }
      var a, v := freeAudio.value, freeVideo.value;
      slots := slots[source := Slot(a, v, None, Seed(watermark, a), Seed(watermark, v), 0)];
      return true;
    }

    /** write_forwarded_rtp */
    method WriteForwardedRtp(p: Packet)
      modifies this`slots, this`written
      ensures View() == Forward(old(View()), p)
    {
      var ok := GetOrCreateSlot(p.source, p.isScreen);
      if !ok {
        return;
      }
      Send(p);
    }

    /** Numbers one packet on its source's stream. */
    method Send(p: Packet)
      requires p.source in slots
      modifies this`slots, this`written
      ensures var (slot, writes) := Emit(old(slots[p.source]), p);
              slots == old(slots)[p.source := slot] && written == old(written) + writes
    {
      var slot := slots[p.source];
      if p.isAudio {
        written := written + [Write(slot.audioMid, slot.audioSeq, p)];
        slots := slots[p.source := slot.(audioSeq := slot.audioSeq + 1)];
      } else if p.isScreen {
        if slot.screenMid.None? {
          assert written + [] == written && slots[p.source := slot] == slots;
          return;
        }
        written := written + [Write(slot.screenMid.value, slot.screenSeq, p)];
        slots := slots[p.source := slot.(screenSeq := slot.screenSeq + 1)];
      } else {
        written := written + [Write(slot.videoMid, slot.videoSeq, p)];
        slots := slots[p.source := slot.(videoSeq := slot.videoSeq + 1)];
      }
    }

    method Media(p: Packet)
      modifies this`slots, this`written, this`pending, this`routed
      ensures View() == OnMedia(old(View()), p)
    {
      if p.isAudio && p.source in muted {
        return;
      }
      var hadScreen := p.source in slots && slots[p.source].screenMid.Some?;
      var hasSlot := AcquireSlot(p);
      if !hasSlot {
        BufferMedia(p);
        return;
      }
      DeliverMedia(p, hadScreen);
    }

    method DeliverMedia(p: Packet, hadScreen: bool)
      modifies this`slots, this`written, this`routed
      ensures View() == Deliver(old(View()), p, hadScreen)
    {
      WriteForwardedRtp(p);
      NotifyScreen(p.source, hadScreen);
    }

    method AcquireSlot(p: Packet) returns (hasSlot: bool)
      modifies this`slots
      ensures (PoolView(), hasSlot) == Acquire(old(PoolView()), watermark, p)
    {
      hasSlot := true;
      if p.source !in slots {
        hasSlot := GetOrCreateSlot(p.source, p.isScreen);
      }
    }

    /** Keeps a packet of a source that has no slot yet. */
    method BufferMedia(p: Packet)
      modifies this`pending
      ensures pending == Buffer(old(pending), p)
    {
      var buf := if p.source in pending then pending[p.source] else [];
      pending := pending[p.source := if |buf| < MEDIA_BUFFER_CAP then buf + [p] else buf];
    }

    /** Sends ScreenShareRouted for a source that gained a screen mid. */
    method NotifyScreen(source: Pid, hadScreen: bool)
      modifies this`routed
      ensures routed == old(routed) + Announcement(hadScreen, PoolView(), source)
    {
      if !hadScreen && source in slots && slots[source].screenMid.Some? {
        routed := routed + [Route(source, slots[source].screenMid.value)];
      }
    }

    /** handle_renegotiation: lists the new mids of an answer. */
    method MergeMids(mids: Mids) returns (added: Mids)
      modifies this`allMids
      ensures added == Unlisted(old(allMids), mids) && allMids == old(allMids) + added
    {
      added := [];
      for i := 0 to |mids|
        invariant allMids == old(allMids) + added
        invariant added + Unlisted(allMids, mids[i..]) == Unlisted(old(allMids), mids)
      {
        if !Listed(allMids, mids[i].0) {
          allMids := allMids + [mids[i]];
          added := added + [mids[i]];
        }
      }
    }

    /** Gives the receiver the own mids it lacks. */
    method TakeOwnMids(added: Mids)
      modifies this`ownAudio, this`ownVideo, this`ownScreen, this`screenPending
      ensures PoolView() == AssignAll(old(PoolView()), added, old(screenPending) || screenActive)
      ensures screenPending == (old(screenPending) && (old(ownScreen).Some? || ownScreen.None?))
    {
      ghost var want := screenPending || screenActive;
      for i := 0 to |added|
        invariant AssignAll(PoolView(), added[i..], want) == AssignAll(old(PoolView()), added, want)
        invariant screenPending == (old(screenPending) && (old(ownScreen).Some? || ownScreen.None?))
        invariant old(ownScreen).Some? ==> ownScreen == old(ownScreen)
      {
        var (m, kind) := added[i];
        if kind == Audio && ownAudio.None? {
          ownAudio := Some(m);
        } else if kind == Video && ownVideo.None? {
          ownVideo := Some(m);
        } else if kind == Video && (screenPending || screenActive) && ownScreen.None? {
          ownScreen := Some(m);
          screenPending := false;
        }
      }
    }

    /** Sends what was buffered for a source, without the stale packets. */
    method FlushSource(packets: seq<Packet>, now: nat)
      modifies this`slots, this`written
      ensures View() == ForwardFresh(old(View()), packets, now)
    {
      for i := 0 to |packets|
        invariant ForwardFresh(View(), packets[i..], now) == ForwardFresh(old(View()), packets, now)
      {
        if !Stale(packets[i], now) {
          WriteForwardedRtp(packets[i]);
        }
      }
    }

    method FlushAll(order: seq<Pid>, now: nat)
      modifies this`slots, this`written, this`pending
      ensures View() == Flush(old(View()), order, now)
    {
      for i := 0 to |order|
        invariant Flush(View(), order[i..], now) == Flush(old(View()), order, now)
      {
        var source := order[i];
        if source in pending {
          var buffered := pending[source];
          pending := pending - {source};
          FlushSource(buffered, now);
        }
      }
    }

    method RenegotiationOffer(mids: Mids, order: seq<Pid>, now: nat)
      modifies this
      ensures View() == Step(old(View()), Offer(mids, order, now))
    {
      ListThenAssign(PoolView(), mids, screenPending || screenActive);
      var added := MergeMids(mids);
      TakeOwnMids(added);
      assert View() == Renegotiate(old(View()), mids);
      FlushAll(order, now);
    }

    /** Media lines reported after the handshake. */
    method NewMedia(mids: Mids)
      modifies this`allMids, this`ownAudio, this`ownVideo
      ensures View() == Step(old(View()), MediaAdded(mids))
    {
      for i := 0 to |mids|
        invariant AnnounceAll(PoolView(), mids[i..], false) == AnnounceAll(old(PoolView()), mids, false)
      {
        var (m, kind) := mids[i];
        if !Listed(allMids, m) {
          allMids := allMids + [(m, kind)];
          if kind == Audio && ownAudio.None? {
            ownAudio := Some(m);
          } else if kind == Video && ownVideo.None? {
            ownVideo := Some(m);
          }
        }
      }
    }

    method SetScreenShareActive(active: bool)
      modifies this`screenActive, this`screenPending, this`ownScreen
      ensures View() == Step(old(View()), ScreenShareActive(active))
    {
      screenActive := active;
      if active {
        if ownScreen.None? {
          screenPending := true;
        }
      } else {
        ownScreen, screenPending := None, false;
      }
    }

    method RemovePeer(pid: Pid)
      modifies this`slots, this`watermark, this`pending, this`muted
      ensures View() == Step(old(View()), PeerLeft(pid))
    {
      if pid in slots {
        var slot := slots[pid];
        slots := slots - {pid};
        watermark := watermark[slot.audioMid := slot.audioSeq];
        watermark := watermark[slot.videoMid := slot.videoSeq];
        if slot.screenMid.Some? {
          watermark := watermark[slot.screenMid.value := slot.screenSeq];
        }
      }
      pending := pending - {pid};
      muted := muted - {pid};
    }

    method StopSourceScreen(pid: Pid)
      modifies this`slots
      ensures View() == Step(old(View()), SourceScreenStopped(pid))
    {
      if pid in slots {
        if slots[pid].screenMid.Some? {
          slots := slots[pid := slots[pid].(screenMid := None)];
        } else {
          assert slots[pid := slots[pid]] == slots;
        }
      }
    }

    method SetPeerCount(count: nat)
      modifies this`requested
      ensures View() == Step(old(View()), PeerCountChanged(count))
    {
      var deficit := NeedsRenegotiation(allMids, 2 + (if ownScreen.Some? then 1 else 0), slots, count);
      if deficit.Some? {
        requested := requested + [deficit.value];
      } else {
        assert requested + [] == requested;
      }
    }

    method SetPeerMuted(pid: Pid, isMuted: bool)
      modifies this`muted
      ensures View() == Step(old(View()), PeerMuteChanged(pid, isMuted))
    {
      muted := if isMuted then muted + {pid} else muted - {pid};
    }

    /** One command of the loop. */
    method Handle(cmd: Cmd)
      modifies this
      ensures View() == Step(old(View()), cmd)
    {
      match cmd
      case Media(p) => Media(p);
      case Offer(mids, order, now) => RenegotiationOffer(mids, order, now);
      case MediaAdded(mids) => NewMedia(mids);
      case ScreenShareActive(active) => SetScreenShareActive(active);
      case PeerMuteChanged(pid, isMuted) => SetPeerMuted(pid, isMuted);
      case PeerLeft(pid) => RemovePeer(pid);
      case SourceScreenStopped(pid) => StopSourceScreen(pid);
      case PeerCountChanged(count) => SetPeerCount(count);
    }
  }
}
