/** The listed mids and the receiver's own ones follow from what was announced and from
    the screen-share commands. */
module MediaOwn {
  import opened Common
  import opened MidPool
  import opened MediaState
  import opened MediaInvariant
  import opened Renegotiation

  /** Everything announced so far: the initial mids, then those of offers and additions. */
  function Announced(mids: Mids, cmds: seq<Cmd>): Mids {
    if cmds == [] then mids
    else
      var n := |cmds| - 1;
      Announced(mids, cmds[..n]) + match cmds[n]
                                   case Offer(offered, _, _) => offered
                                   case MediaAdded(added) => added
                                   case _ => []
  }

  /** Announcement i is the first of its mid. */
  predicate Fresh(ms: Mids, i: nat) {
    i < |ms| && forall j :: 0 <= j < i ==> ms[j].0 != ms[i].0
  }

  /** The first announcement of each mid, in order. */
  function Firsts(ms: Mids): (r: Mids)
    ensures forall a :: a in r <==> exists i :: 0 <= i < |ms| && ms[i] == a && Fresh(ms, i)
  {
    if ms == [] then []
    else
      var n := |ms| - 1;
      assert forall i :: 0 <= i < n ==> Fresh(ms, i) == Fresh(ms[..n], i);
      Firsts(ms[..n]) + if Fresh(ms, n) then [ms[n]] else []
  }

  lemma FirstsExtend(ms: Mids, m: Mid, kind: Kind)
    ensures Firsts(ms + [(m, kind)]) == if Listed(ms, m) then Firsts(ms) else Firsts(ms) + [(m, kind)]
  {
    var ms' := ms + [(m, kind)];
    assert ms'[..|ms|] == ms;
    assert Fresh(ms', |ms|) <==> !Listed(ms, m);
    assert Firsts(ms) + [] == Firsts(ms);
  }

  lemma {:induction false} ListedFirst(ms: Mids, m: Mid)
    ensures Listed(Firsts(ms), m) <==> Listed(ms, m)
  {
    if ms != [] {
      var n := |ms| - 1;
      ListedFirst(ms[..n], m);
      assert ms == ms[..n] + [ms[n]];
      FirstsExtend(ms[..n], ms[n].0, ms[n].1);
      ListedExtend(ms[..n], ms[n], m);
      ListedExtend(Firsts(ms[..n]), ms[n], m);
    }
  }

  lemma ListedExtend(ms: Mids, a: (Mid, Kind), m: Mid)
    ensures Listed(ms + [a], m) <==> Listed(ms, m) || a.0 == m
  {
    var ms' := ms + [a];
    assert ms'[|ms|] == a;
    if Listed(ms, m) {
      var i :| 0 <= i < |ms| && ms[i].0 == m;
      assert ms'[i].0 == m;
    }
  }

  lemma {:induction false} FirstsOfDistinct(ms: Mids)
    requires DistinctMids(ms)
    ensures Firsts(ms) == ms
  {
    if ms != [] {
      var n := |ms| - 1;
      assert ms == ms[..n] + [ms[n]];
      DistinctExtend(ms[..n], ms[n].0, ms[n].1);
      FirstsExtend(ms[..n], ms[n].0, ms[n].1);
      FirstsOfDistinct(ms[..n]);
    }
  }

  /** The pool lists the first announcement of each mid, and its first audio and first
      video mid are the receiver's own. */
  ghost predicate Follows(pool: Pool, ms: Mids) {
    && pool.allMids == Firsts(ms)
    && pool.ownAudio == FirstFree(pool.allMids, Audio, {})
    && pool.ownVideo == FirstFree(pool.allMids, Video, {})
  }

  lemma FirstFreeExtend(mids: Mids, a: (Mid, Kind), kind: Kind)
    ensures FirstFree(mids + [a], kind, {}) ==
            if FirstFree(mids, kind, {}).Some? || a.1 != kind then FirstFree(mids, kind, {}) else Some(a.0)
  {
    CandidatesConcat(mids, [a], kind, {});
  }

  lemma AnnounceFollows(pool: Pool, ms: Mids, m: Mid, kind: Kind, wantScreen: bool)
    requires Follows(pool, ms)
    ensures Follows(Announce(pool, m, kind, wantScreen), ms + [(m, kind)])
  {
    FirstsExtend(ms, m, kind);
    ListedFirst(ms, m);
    FirstFreeExtend(pool.allMids, (m, kind), Audio);
    FirstFreeExtend(pool.allMids, (m, kind), Video);
  }

  lemma {:induction false} AnnounceAllFollows(pool: Pool, ms: Mids, mids: Mids, wantScreen: bool)
    requires Follows(pool, ms)
    ensures Follows(AnnounceAll(pool, mids, wantScreen), ms + mids)
    decreases |mids|
  {
    if mids == [] {
      assert ms + mids == ms;
    } else {
      AnnounceFollows(pool, ms, mids[0].0, mids[0].1, wantScreen);
      assert ms + mids == ms + [mids[0]] + mids[1..];
      AnnounceAllFollows(Announce(pool, mids[0].0, mids[0].1, wantScreen), ms + [mids[0]], mids[1..], wantScreen);
    }
  }

  lemma {:induction false} InitialFollows(mids: Mids)
    requires DistinctMids(mids)
    ensures Follows(InitialPool(mids), mids) && InitialPool(mids).allMids == mids
  {
    FirstsOfDistinct(mids);
    if mids != [] {
      var n := |mids| - 1;
      assert mids == mids[..n] + [mids[n]];
      DistinctExtend(mids[..n], mids[n].0, mids[n].1);
      InitialFollows(mids[..n]);
      FirstFreeExtend(mids[..n], mids[n], Audio);
      FirstFreeExtend(mids[..n], mids[n], Video);
    }
  }

  /** Everything but slots and numbers. */
  predicate SamePool(a: State, b: State) {
    && b.pool.(slots := a.pool.slots) == a.pool
    && a.screenActive == b.screenActive && a.screenPending == b.screenPending
  }

  lemma CreateKeepsPool(pool: Pool, w: map<Mid, nat>, source: Pid, isScreen: bool)
    ensures GetOrCreate(pool, w, source, isScreen).0.(slots := pool.slots) == pool
  {
  }

  lemma ForwardKeepsPool(st: State, p: Packet)
    ensures SamePool(st, Forward(st, p))
  {
    hide GetOrCreate;
    CreateKeepsPool(st.pool, st.watermark, p.source, p.isScreen);
  }

  lemma {:induction false} FreshKeepsPool(st: State, packets: seq<Packet>, now: nat)
    ensures SamePool(st, ForwardFresh(st, packets, now))
    decreases |packets|
  {
    hide Forward;
    if packets != [] {
      ForwardKeepsPool(st, packets[0]);
      FreshKeepsPool(if Stale(packets[0], now) then st else Forward(st, packets[0]), packets[1..], now);
    }
  }

  lemma {:induction false} FlushKeepsPool(st: State, order: seq<Pid>, now: nat)
    ensures SamePool(st, Flush(st, order, now))
    decreases |order|
  {
    if order != [] {
      if order[0] in st.pending {
        FreshKeepsPool(st.(pending := st.pending - {order[0]}), st.pending[order[0]], now);
      }
      FlushKeepsPool(FlushOne(st, order[0], now), order[1..], now);
    }
  }

  lemma MediaKeepsPool(st: State, p: Packet)
    ensures SamePool(st, OnMedia(st, p))
  {
    hide Forward, GetOrCreate;
    CreateKeepsPool(st.pool, st.watermark, p.source, p.isScreen);
    ForwardKeepsPool(st.(pool := Acquire(st.pool, st.watermark, p).0), p);
  }

  /** Only offers, additions and screen-share commands change the pool beyond its slots. */
  lemma StepKeepsPool(st: State, cmd: Cmd)
    requires !cmd.Offer? && !cmd.MediaAdded? && !cmd.ScreenShareActive?
    ensures SamePool(st, Step(st, cmd))
  {
    hide OnMedia;
    if cmd.Media? {
      MediaKeepsPool(st, cmd.packet);
    }
  }

  lemma SamePoolFollows(a: State, b: State, ms: Mids)
    requires Follows(a.pool, ms) && SamePool(a, b)
    ensures Follows(b.pool, ms)
  {
  }

  lemma OfferFollows(st: State, ms: Mids, offered: Mids, order: seq<Pid>, now: nat)
    requires Follows(st.pool, ms)
    ensures Follows(Step(st, Offer(offered, order, now)).pool, ms + offered)
  {
    hide Follows;
    AnnounceAllFollows(st.pool, ms, offered, st.screenPending || st.screenActive);
    FlushKeepsPool(Renegotiate(st, offered), order, now);
    SamePoolFollows(Renegotiate(st, offered), Step(st, Offer(offered, order, now)), ms + offered);
  }

  /** In every run the pool lists each mid as it was first announced, in that order. The
      first audio mid and the first video mid are the receiver's own ones ever after. */
  lemma {:induction false} OwnAreFirst(mids: Mids, cmds: seq<Cmd>)
    requires DistinctMids(mids)
    ensures Follows(Run(mids, cmds).pool, Announced(mids, cmds))
  {
    hide OnMedia, OnPeerLeft, StopScreen;
    if cmds == [] {
      InitialFollows(mids);
    } else {
      var n := |cmds| - 1;
      var st, ms := Run(mids, cmds[..n]), Announced(mids, cmds[..n]);
      OwnAreFirst(mids, cmds[..n]);
      assert ms + [] == ms;
      match cmds[n]
      case Offer(offered, order, now) => OfferFollows(st, ms, offered, order, now);
      case MediaAdded(added) => AnnounceAllFollows(st.pool, ms, added, false);
      case ScreenShareActive(_) =>
      case _ => StepKeepsPool(st, cmds[n]);
    }
  }

  /** The last screen-share command turned sharing on. */
  predicate Sharing(cmds: seq<Cmd>) {
    cmds != [] &&
    var n := |cmds| - 1;
    if cmds[n].ScreenShareActive? then cmds[n].active else Sharing(cmds[..n])
  }

  lemma {:induction false} AnnounceAllScreens(pool: Pool, mids: Mids, wantScreen: bool)
    ensures !wantScreen || pool.ownScreen.Some? ==> AnnounceAll(pool, mids, wantScreen).ownScreen == pool.ownScreen
    decreases |mids|
  {
    if mids != [] {
      AnnounceAllScreens(Announce(pool, mids[0].0, mids[0].1, wantScreen), mids[1..], wantScreen);
    }
  }

  /** In every run the receiver shares as its last command says. It has an own screen mid
      only while it shares, and waits for one exactly while it shares without. */
  lemma {:induction false} ShareFollowsCommands(mids: Mids, cmds: seq<Cmd>)
    ensures var st := Run(mids, cmds);
            && st.screenActive == Sharing(cmds)
            && (st.pool.ownScreen.Some? ==> Sharing(cmds))
            && (st.screenPending <==> Sharing(cmds) && st.pool.ownScreen.None?)
  {
    hide OnMedia, OnPeerLeft, StopScreen;
    if cmds == [] {
      NoOwnScreen(mids);
    } else {
      var n := |cmds| - 1;
      var st := Run(mids, cmds[..n]);
      ShareFollowsCommands(mids, cmds[..n]);
      match cmds[n]
      case Offer(offered, order, now) =>
        AnnounceAllScreens(st.pool, offered, st.screenPending || st.screenActive);
        FlushKeepsPool(Renegotiate(st, offered), order, now);
      case MediaAdded(added) => AnnounceAllScreens(st.pool, added, false);
      case ScreenShareActive(_) =>
      case _ => StepKeepsPool(st, cmds[n]);
    }
  }

  lemma {:induction false} NoOwnScreen(mids: Mids)
    ensures InitialPool(mids).ownScreen.None?
  {
    if mids != [] {
      NoOwnScreen(mids[..|mids| - 1]);
    }
  }

  lemma {:induction false} ScreenTaken(pool: Pool, extra: Mids)
    requires Inv(pool) && DistinctMids(pool.allMids + extra) && pool.ownScreen.None?
    ensures AnnounceAll(pool, extra, true).ownScreen.Some? <==>
            Adds(extra, Video) > if pool.ownVideo.None? then 1 else 0
    decreases |extra|
  {
    if extra != [] {
      FirstIsNew(pool.allMids, extra);
      var pool' := Announce(pool, extra[0].0, extra[0].1, true);
      AnnounceKeeps(pool, extra[0].0, extra[0].1, true);
      if pool'.ownScreen.None? {
        ScreenTaken(pool', extra[1..]);
      } else {
        AnnounceAllScreens(pool', extra[1..], true);
      }
    }
  }

  /** A waiting screen share gets its mid from an offer exactly if the offer brings a video
      mid besides the one the camera may still lack. */
  lemma OfferGivesScreenIff(mids: Mids, cmds: seq<Cmd>, offered: Mids, order: seq<Pid>, now: nat)
    requires DistinctMids(mids) && Sharing(cmds) && Run(mids, cmds).pool.ownScreen.None?
    requires DistinctMids(Run(mids, cmds).pool.allMids + offered)
    ensures var st := Run(mids, cmds);
            Step(st, Offer(offered, order, now)).pool.ownScreen.Some? <==>
            Adds(offered, Video) > if st.pool.ownVideo.None? then 1 else 0
  {
    var st := Run(mids, cmds);
    ReachableInv(mids, cmds);
    ShareFollowsCommands(mids, cmds);
    ScreenTaken(st.pool, offered);
    FlushKeepsPool(Renegotiate(st, offered), order, now);
  }
}
