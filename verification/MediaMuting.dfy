/** Which sources are muted follows from the commands, and what muting does to packets. */
module MediaMuting {
  import opened Common
  import opened MidPool
  import opened MediaState
  import opened MediaInvariant
  import opened MediaForwarding
  import opened Renegotiation

  /** The command ends a source's muting. */
  predicate Unmutes(cmd: Cmd, p: Pid) {
    cmd == PeerMuteChanged(p, false) || cmd == PeerLeft(p)
  }

  /** Command i muted the source, and no later one ended that. */
  ghost predicate MutedSince(cmds: seq<Cmd>, p: Pid, i: int) {
    && 0 <= i < |cmds| && cmds[i] == PeerMuteChanged(p, true)
    && forall j :: i < j < |cmds| ==> !Unmutes(cmds[j], p)
  }

  ghost predicate Muted(cmds: seq<Cmd>, p: Pid) {
    exists i :: MutedSince(cmds, p, i)
  }

  /** What the last command changes. */
  lemma MutedLast(cmds: seq<Cmd>, p: Pid)
    requires cmds != []
    ensures var n := |cmds| - 1;
            Muted(cmds, p) <==> cmds[n] == PeerMuteChanged(p, true) || (Muted(cmds[..n], p) && !Unmutes(cmds[n], p))
  {
    var n := |cmds| - 1;
    if cmds[n] == PeerMuteChanged(p, true) {
      assert MutedSince(cmds, p, n);
    } else if Muted(cmds[..n], p) && !Unmutes(cmds[n], p) {
      var i :| MutedSince(cmds[..n], p, i);
      assert MutedSince(cmds, p, i);
    } else if Muted(cmds, p) {
      var i :| MutedSince(cmds, p, i);
      assert MutedSince(cmds[..n], p, i);
    }
  }

  lemma {:induction false} FreshKeepsMuted(st: State, packets: seq<Packet>, now: nat)
    ensures ForwardFresh(st, packets, now).muted == st.muted
    decreases |packets|
  {
    if packets != [] {
      FreshKeepsMuted(if Stale(packets[0], now) then st else Forward(st, packets[0]), packets[1..], now);
    }
  }

  lemma {:induction false} FlushKeepsMuted(st: State, order: seq<Pid>, now: nat)
    ensures Flush(st, order, now).muted == st.muted
    decreases |order|
  {
    if order != [] {
      if order[0] in st.pending {
        FreshKeepsMuted(st.(pending := st.pending - {order[0]}), st.pending[order[0]], now);
      }
      FlushKeepsMuted(FlushOne(st, order[0], now), order[1..], now);
    }
  }

  /** In every run the muted sources are those the commands say. */
  lemma {:induction false} MutedFollowsCommands(mids: Mids, cmds: seq<Cmd>, p: Pid)
    ensures p in Run(mids, cmds).muted <==> Muted(cmds, p)
  {
    if cmds != [] {
      var n := |cmds| - 1;
      MutedFollowsCommands(mids, cmds[..n], p);
      MutedLast(cmds, p);
      var st := Run(mids, cmds[..n]);
      match cmds[n]
      case Offer(offered, order, now) => FlushKeepsMuted(Renegotiate(st, offered), order, now);
      case _ =>
    }
  }

  /** In every run an audio packet of a muted source changes nothing at all. Any other
      packet is written at once exactly if the mids suffice, and kept back exactly if its
      source has no slot and no pair of mids is free. */
  lemma PacketFate(mids: Mids, cmds: seq<Cmd>, p: Packet)
    requires DistinctMids(mids)
    ensures var st := Run(mids, cmds);
            var st' := Step(st, Media(p));
            if p.isAudio && Muted(cmds, p.source) then st' == st
            else
              && AddsWrite(st.written, st'.written, p, Suffices(st.pool, p))
              && st'.pending == if p.source in st.pool.slots || (AudioFree(st.pool) > 0 && VideoFree(st.pool) > 0)
                                then st.pending else Buffer(st.pending, p)
  {
    var st := Run(mids, cmds);
    ReachableInv(mids, cmds);
    MutedFollowsCommands(mids, cmds, p.source);
    if !(p.isAudio && Muted(cmds, p.source)) {
      WrittenIffSuffices(st, p);
      HeldBackIffNoPair(st, p);
    }
  }
}
