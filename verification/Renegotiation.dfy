/** The renegotiation request asks for exactly the mids the allocator lacks. */
module Renegotiation {
  import opened Common
  import opened MidPool
  import opened MediaState
  import opened MediaInvariant

  /** First-fit slot creation for one source after another; whether all succeed. */
  predicate Creates(pool: Pool, w: map<Mid, nat>, sources: seq<Pid>)
    decreases |sources|
  {
    sources == [] ||
    (var (pool', ok) := GetOrCreate(pool, w, sources[0], false);
     ok && Creates(pool', w, sources[1..]))
  }

  ghost predicate Newcomer(pool: Pool, sources: seq<Pid>, i: nat) {
    i < |sources| && sources[i] !in pool.slots && sources[i] !in sources[..i]
  }

  /** Distinct sources that have no slot. */
  ghost predicate Newcomers(pool: Pool, sources: seq<Pid>) {
    forall i :: 0 <= i < |sources| ==> Newcomer(pool, sources, i)
  }

  function AudioTaken(pool: Pool): set<Mid> {
    Used(pool.slots) + Opt(pool.ownAudio)
  }

  function VideoTaken(pool: Pool): set<Mid> {
    Used(pool.slots) + Opt(pool.ownVideo) + Opt(pool.ownScreen)
  }

  function AudioFree(pool: Pool): nat {
    |Candidates(pool.allMids, Audio, AudioTaken(pool))|
  }

  function VideoFree(pool: Pool): nat {
    |Candidates(pool.allMids, Video, VideoTaken(pool))|
  }

  lemma UsedAfter(slots: map<Pid, Slot>, p: Pid, s: Slot)
    requires p !in slots && s.screenMid.None?
    ensures Used(slots[p := s]) == Used(slots) + {s.audioMid} + {s.videoMid}
  {
    var slots' := slots[p := s];
    forall m
      ensures InUse(slots', m) <==> InUse(slots, m) || Holds(s, m)
    {
      if InUse(slots, m) {
        var q :| q in slots && Holds(slots[q], m);
        assert q in slots' && Holds(slots'[q], m);
      }
      if Holds(s, m) {
        assert p in slots' && Holds(slots'[p], m);
      }
    }
  }

  /** Taking an audio and a video mid leaves one less of each kind. */
  lemma TakePair(mids: Mids, kind: Kind, taken: set<Mid>, m: Mid, other: Mid)
    requires DistinctMids(mids) && m in Candidates(mids, kind, taken)
    requires forall k :: (other, k) in mids ==> k != kind
    ensures |Candidates(mids, kind, taken + {m} + {other})| == |Candidates(mids, kind, taken)| - 1
  {
    ExcludeOne(mids, kind, taken, m);
    ExcludeOne(mids, kind, taken + {m}, other);
  }

  /** One creation succeeds exactly when a mid of each kind is free, and uses one of each. */
  lemma CreateTakesPair(pool: Pool, w: map<Mid, nat>, source: Pid)
    requires Inv(pool) && source !in pool.slots
    ensures var (pool', ok) := GetOrCreate(pool, w, source, false);
            && Inv(pool')
            && (ok <==> AudioFree(pool) > 0 && VideoFree(pool) > 0)
            && (ok ==> AudioFree(pool') == AudioFree(pool) - 1 && VideoFree(pool') == VideoFree(pool) - 1)
            && (forall q :: q in pool'.slots ==> q in pool.slots || q == source)
  {
    var (pool', ok) := GetOrCreate(pool, w, source, false);
    GetOrCreateKeeps(pool, w, source, false);
    if ok {
      var s := pool'.slots[source];
      KindsApart(pool.allMids, s.audioMid, s.videoMid);
      NewSlotAudioFree(pool, source, s);
      NewSlotVideoFree(pool, source, s);
    }
  }

  lemma NewSlotAudioFree(pool: Pool, source: Pid, s: Slot)
    requires DistinctMids(pool.allMids) && source !in pool.slots && s.screenMid.None?
    requires s.audioMid in Candidates(pool.allMids, Audio, AudioTaken(pool))
    requires forall k :: (s.videoMid, k) in pool.allMids ==> k != Audio
    ensures AudioFree(pool.(slots := pool.slots[source := s])) == AudioFree(pool) - 1
  {
    UsedAfter(pool.slots, source, s);
    assert AudioTaken(pool.(slots := pool.slots[source := s])) == AudioTaken(pool) + {s.audioMid} + {s.videoMid};
    TakePair(pool.allMids, Audio, AudioTaken(pool), s.audioMid, s.videoMid);
  }

  lemma NewSlotVideoFree(pool: Pool, source: Pid, s: Slot)
    requires DistinctMids(pool.allMids) && source !in pool.slots && s.screenMid.None?
    requires s.videoMid in Candidates(pool.allMids, Video, VideoTaken(pool))
    requires forall k :: (s.audioMid, k) in pool.allMids ==> k != Video
    ensures VideoFree(pool.(slots := pool.slots[source := s])) == VideoFree(pool) - 1
  {
    UsedAfter(pool.slots, source, s);
    assert VideoTaken(pool.(slots := pool.slots[source := s])) == VideoTaken(pool) + {s.videoMid} + {s.audioMid};
    TakePair(pool.allMids, Video, VideoTaken(pool), s.videoMid, s.audioMid);
  }

  lemma KindsApart(mids: Mids, a: Mid, v: Mid)
    requires DistinctMids(mids) && (a, Audio) in mids && (v, Video) in mids
    ensures forall k :: (v, k) in mids ==> k != Audio
    ensures forall k :: (a, k) in mids ==> k != Video
  {
    if (v, Audio) in mids {
      OneKind(mids, v, Audio, Video);
    }
    if (a, Video) in mids {
      OneKind(mids, a, Audio, Video);
    }
  }

  lemma NewcomersTail(pool: Pool, pool': Pool, sources: seq<Pid>)
    requires sources != [] && Newcomers(pool, sources)
    requires forall q :: q in pool'.slots ==> q in pool.slots || q == sources[0]
    ensures Newcomers(pool', sources[1..])
  {
    forall i | 0 <= i < |sources[1..]|
      ensures Newcomer(pool', sources[1..], i)
    {
      assert Newcomer(pool, sources, i + 1);
      assert sources[..i + 1] == [sources[0]] + sources[1..][..i];
    }
  }

  /** All of them get a slot exactly when there are enough mids of each kind. */
  lemma {:induction false} CreatesIffEnough(pool: Pool, w: map<Mid, nat>, sources: seq<Pid>)
    requires Inv(pool) && Newcomers(pool, sources)
    ensures Creates(pool, w, sources) <==> |sources| <= AudioFree(pool) && |sources| <= VideoFree(pool)
    decreases |sources|
  {
    if sources != [] {
      assert Newcomer(pool, sources, 0);
      CreateTakesPair(pool, w, sources[0]);
      var (pool', ok) := GetOrCreate(pool, w, sources[0], false);
      if ok {
        NewcomersTail(pool, pool', sources);
        CreatesIffEnough(pool', w, sources[1..]);
      }
    }
  }

  lemma NoCandidates(mids: Mids, kind: Kind, taken: set<Mid>)
    requires NoneOf(mids, kind)
    ensures Candidates(mids, kind, taken) == []
  {
  }

  lemma OwnNotUsed(pool: Pool, m: Mid)
    requires Inv(pool) && IsOwn(pool, m)
    ensures m !in Used(pool.slots)
  {
  }

  lemma AudioFreeCounts(pool: Pool)
    requires Inv(pool)
    ensures AudioFree(pool) == Minus(|Candidates(pool.allMids, Audio, Used(pool.slots))|, 1)
  {
    var used := Used(pool.slots);
    if pool.ownAudio.Some? {
      OwnNotUsed(pool, pool.ownAudio.value);
      ExcludeOne(pool.allMids, Audio, used, pool.ownAudio.value);
    } else {
      NoCandidates(pool.allMids, Audio, used);
      assert used + {} == used;
    }
  }

  lemma VideoFreeCounts(pool: Pool)
    requires Inv(pool)
    ensures VideoFree(pool) ==
            Minus(|Candidates(pool.allMids, Video, Used(pool.slots))|, if pool.ownScreen.Some? then 2 else 1)
  {
    var used := Used(pool.slots);
    if pool.ownVideo.Some? {
      OwnNotUsed(pool, pool.ownVideo.value);
      ExcludeOne(pool.allMids, Video, used, pool.ownVideo.value);
      if pool.ownScreen.Some? {
        OwnNotUsed(pool, pool.ownScreen.value);
        ExcludeOne(pool.allMids, Video, used + {pool.ownVideo.value}, pool.ownScreen.value);
      } else {
        assert VideoTaken(pool) == used + {pool.ownVideo.value};
      }
    } else {
      NoCandidates(pool.allMids, Video, used);
      NoCandidates(pool.allMids, Video, VideoTaken(pool));
    }
  }

  /** The request counts free mids as the allocator sees them. */
  lemma RequestCountsFree(pool: Pool, remotePeers: nat)
    requires Inv(pool)
    ensures NeedsRenegotiation(pool.allMids, OwnCount(pool), pool.slots, remotePeers) ==
            Missing(Minus(remotePeers, |Sources(pool.slots)|), AudioFree(pool), VideoFree(pool))
  {
    AudioFreeCounts(pool);
    VideoFreeCounts(pool);
  }

  lemma MissingValue(without: nat, freeAudio: nat, freeVideo: nat)
    requires Missing(without, freeAudio, freeVideo).Some?
    ensures var short := Minus(without, if freeAudio < freeVideo then freeAudio else freeVideo);
            var d := Missing(without, freeAudio, freeVideo).value;
            d <= short && short > 0 && (d == short <==> short < 0x1_0000_0000)
  {
  }

  /** How many mids of a kind a list adds. */
  function Adds(mids: Mids, kind: Kind): nat {
    |Candidates(mids, kind, {})|
  }

  /** Own mids still missing, which newly announced mids fill first. */
  function MissingAudio(pool: Pool): nat {
    if pool.ownAudio.None? then 1 else 0
  }

  function MissingVideo(pool: Pool, wantScreen: bool): nat {
    (if pool.ownVideo.None? then 1 else 0) + (if wantScreen && pool.ownScreen.None? then 1 else 0)
  }

  lemma AddMid(mids: Mids, added: Kind, m: Mid, kind: Kind, taken: set<Mid>)
    requires DistinctMids(mids) && !Listed(mids, m) && m !in taken
    ensures |Candidates(mids + [(m, added)], kind, taken)| ==
            |Candidates(mids, kind, taken)| + if added == kind then 1 else 0
    ensures |Candidates(mids + [(m, kind)], kind, taken + {m})| == |Candidates(mids, kind, taken)|
  {
    CandidatesConcat(mids, [(m, added)], kind, taken);
    assert [(m, added)][1..] == [];
    CandidatesConcat(mids, [(m, kind)], kind, taken);
    assert [(m, kind)][1..] == [];
    DistinctExtend(mids, m, kind);
    ExcludeOne(mids + [(m, kind)], kind, taken, m);
  }

  lemma TakenListed(pool: Pool, m: Mid)
    requires Inv(pool) && !Listed(pool.allMids, m)
    ensures m !in AudioTaken(pool) && m !in VideoTaken(pool)
  {
    if InUse(pool.slots, m) {
      var p :| p in pool.slots && Holds(pool.slots[p], m);
      assert SlotOk(pool, pool.slots[p]);
    }
  }

  lemma AnnounceAudioFree(pool: Pool, m: Mid, kind: Kind, wantScreen: bool)
    requires Inv(pool) && !Listed(pool.allMids, m)
    ensures var pool' := Announce(pool, m, kind, wantScreen);
            && MissingAudio(pool') == Minus(MissingAudio(pool), if kind == Audio then 1 else 0)
            && AudioFree(pool') == AudioFree(pool) + if kind == Audio && pool.ownAudio.Some? then 1 else 0
  {
    TakenListed(pool, m);
    AddMid(pool.allMids, kind, m, Audio, AudioTaken(pool));
    var pool' := Announce(pool, m, kind, wantScreen);
    if kind == Audio && pool.ownAudio.None? {
      assert AudioTaken(pool') == AudioTaken(pool) + {m};
    } else {
      assert AudioTaken(pool') == AudioTaken(pool);
    }
  }

  lemma AnnounceVideoFree(pool: Pool, m: Mid, kind: Kind, wantScreen: bool)
    requires Inv(pool) && !Listed(pool.allMids, m)
    ensures var pool' := Announce(pool, m, kind, wantScreen);
            && MissingVideo(pool', wantScreen) ==
               Minus(MissingVideo(pool, wantScreen), if kind == Video then 1 else 0)
            && VideoFree(pool') ==
               VideoFree(pool) + if kind == Video && MissingVideo(pool, wantScreen) == 0 then 1 else 0
  {
    TakenListed(pool, m);
    AddMid(pool.allMids, kind, m, Video, VideoTaken(pool));
    var pool' := Announce(pool, m, kind, wantScreen);
    if kind == Video && MissingVideo(pool, wantScreen) > 0 {
      assert VideoTaken(pool') == VideoTaken(pool) + {m};
    } else {
      assert VideoTaken(pool') == VideoTaken(pool);
    }
  }

  /** An offer first fills the missing own mids; the rest is free for sources. */
  lemma {:induction false} OfferSupplies(pool: Pool, extra: Mids, wantScreen: bool)
    requires Inv(pool) && DistinctMids(pool.allMids + extra)
    ensures var pool' := AnnounceAll(pool, extra, wantScreen);
            && AudioFree(pool') == AudioFree(pool) + Minus(Adds(extra, Audio), MissingAudio(pool))
            && VideoFree(pool') == VideoFree(pool) + Minus(Adds(extra, Video), MissingVideo(pool, wantScreen))
    decreases |extra|
  {
    if extra != [] {
      var (m, kind) := extra[0];
      var pool1 := Announce(pool, m, kind, wantScreen);
      FirstIsNew(pool.allMids, extra);
      AnnounceKeeps(pool, m, kind, wantScreen);
      AnnounceAudioFree(pool, m, kind, wantScreen);
      AnnounceVideoFree(pool, m, kind, wantScreen);
      OfferSupplies(pool1, extra[1..], wantScreen);
    }
  }

  lemma FirstIsNew(mids: Mids, extra: Mids)
    requires extra != [] && DistinctMids(mids + extra)
    ensures !Listed(mids, extra[0].0) && DistinctMids(mids + [extra[0]] + extra[1..])
  {
    assert mids + [extra[0]] + extra[1..] == mids + extra;
    forall i | 0 <= i < |mids|
      ensures mids[i].0 != extra[0].0
    {
      assert Differ(mids + extra, i, |mids|);
    }
  }

  /** None means every source still without a slot gets one from the present mids. */
  lemma NoneIsExact(pool: Pool, w: map<Mid, nat>, sources: seq<Pid>, remotePeers: nat)
    requires Inv(pool) && Newcomers(pool, sources) && |sources| == Minus(remotePeers, |Sources(pool.slots)|)
    ensures NeedsRenegotiation(pool.allMids, OwnCount(pool), pool.slots, remotePeers).None? <==>
            Creates(pool, w, sources)
  {
    RequestCountsFree(pool, remotePeers);
    CreatesIffEnough(pool, w, sources);
  }

  /** How many mids of a kind an offer must bring so that n sources are served. */
  function NeededOf(n: nat, free: nat, missing: nat): nat {
    if n <= free then 0 else n - free + missing
  }

  /** The least number of audio and video pairs that serves n new sources. */
  function PairsNeeded(pool: Pool, n: nat, wantScreen: bool): nat {
    var audio := NeededOf(n, AudioFree(pool), MissingAudio(pool));
    var video := NeededOf(n, VideoFree(pool), MissingVideo(pool, wantScreen));
    if audio < video then video else audio
  }

  /** An offer of k new pairs serves all sources still without a slot exactly when k is
      at least the number needed. */
  lemma PairsNeededIsLeast(pool: Pool, w: map<Mid, nat>, sources: seq<Pid>, extra: Mids, wantScreen: bool, k: nat)
    requires Inv(pool) && Newcomers(pool, sources)
    requires DistinctMids(pool.allMids + extra) && Adds(extra, Audio) == Adds(extra, Video) == k
    ensures Creates(AnnounceAll(pool, extra, wantScreen), w, sources) <==> k >= PairsNeeded(pool, |sources|, wantScreen)
  {
    OfferServes(pool, w, sources, extra, wantScreen);
  }

  /** Whether the requested number is enough: no own audio mid is missing, and the own
      video mids still to be filled do not eat into what the sources need. */
  predicate RequestSuffices(pool: Pool, wantScreen: bool) {
    && MissingAudio(pool) == 0
    && (MissingVideo(pool, wantScreen) == 0 || VideoFree(pool) >= AudioFree(pool) + MissingVideo(pool, wantScreen))
  }

  /** The shortfall before it is cut to 32 bits. */
  function Shortfall(pool: Pool, n: nat): nat {
    Minus(n, if AudioFree(pool) < VideoFree(pool) then AudioFree(pool) else VideoFree(pool))
  }

  lemma MissingMeansNone(pool: Pool)
    requires Inv(pool)
    ensures MissingAudio(pool) > 0 ==> AudioFree(pool) == 0
    ensures pool.ownVideo.None? ==> VideoFree(pool) == 0
  {
    if pool.ownAudio.None? {
      NoCandidates(pool.allMids, Audio, AudioTaken(pool));
    }
    if pool.ownVideo.None? {
      NoCandidates(pool.allMids, Video, VideoTaken(pool));
    }
  }

  lemma ShortfallAgainstNeeded(pool: Pool, n: nat, wantScreen: bool)
    requires Inv(pool) && Shortfall(pool, n) > 0
    ensures Shortfall(pool, n) <= PairsNeeded(pool, n, wantScreen)
    ensures Shortfall(pool, n) == PairsNeeded(pool, n, wantScreen) <==> RequestSuffices(pool, wantScreen)
  {
    MissingMeansNone(pool);
  }

  lemma RequestIsShortfall(pool: Pool, remotePeers: nat)
    requires Inv(pool)
    requires NeedsRenegotiation(pool.allMids, OwnCount(pool), pool.slots, remotePeers).Some?
    ensures var d := NeedsRenegotiation(pool.allMids, OwnCount(pool), pool.slots, remotePeers).value;
            var short := Shortfall(pool, Minus(remotePeers, |Sources(pool.slots)|));
            d <= short && short > 0 && (d == short <==> short < 0x1_0000_0000)
  {
    RequestCountsFree(pool, remotePeers);
    MissingValue(Minus(remotePeers, |Sources(pool.slots)|), AudioFree(pool), VideoFree(pool));
  }

  /** The deficit d is never too high. It is exactly the number of pairs needed if and only
      if it suffices, and the shortfall fits 32 bits: then k offered pairs serve all
      sources still without a slot exactly when k >= d. */
  lemma DeficitIsExact(pool: Pool, remotePeers: nat, wantScreen: bool)
    requires Inv(pool)
    requires NeedsRenegotiation(pool.allMids, OwnCount(pool), pool.slots, remotePeers).Some?
    ensures var d := NeedsRenegotiation(pool.allMids, OwnCount(pool), pool.slots, remotePeers).value;
            var n := Minus(remotePeers, |Sources(pool.slots)|);
            && d <= PairsNeeded(pool, n, wantScreen)
            && (d == PairsNeeded(pool, n, wantScreen) <==>
                  RequestSuffices(pool, wantScreen) && Shortfall(pool, n) < 0x1_0000_0000)
  {
    RequestIsShortfall(pool, remotePeers);
    ShortfallAgainstNeeded(pool, Minus(remotePeers, |Sources(pool.slots)|), wantScreen);
  }

  /** An offer of exactly the requested pairs serves all of them under the same condition
      and no other. */
  lemma RequestedOfferServesIff(pool: Pool, w: map<Mid, nat>, sources: seq<Pid>, remotePeers: nat, extra: Mids,
                                wantScreen: bool)
    requires Inv(pool) && Newcomers(pool, sources) && |sources| == Minus(remotePeers, |Sources(pool.slots)|)
    requires NeedsRenegotiation(pool.allMids, OwnCount(pool), pool.slots, remotePeers).Some?
    requires DistinctMids(pool.allMids + extra) && Adds(extra, Audio) == Adds(extra, Video) ==
             NeedsRenegotiation(pool.allMids, OwnCount(pool), pool.slots, remotePeers).value
    ensures Creates(AnnounceAll(pool, extra, wantScreen), w, sources) <==>
            RequestSuffices(pool, wantScreen) && Shortfall(pool, |sources|) < 0x1_0000_0000
  {
    DeficitIsExact(pool, remotePeers, wantScreen);
    PairsNeededIsLeast(pool, w, sources, extra, wantScreen, Adds(extra, Audio));
  }

  /** What any offer achieves, missing own mids included: each missing own mid costs the
      sources one of the offered mids. */
  lemma OfferServes(pool: Pool, w: map<Mid, nat>, sources: seq<Pid>, extra: Mids, wantScreen: bool)
    requires Inv(pool) && Newcomers(pool, sources) && DistinctMids(pool.allMids + extra)
    ensures Creates(AnnounceAll(pool, extra, wantScreen), w, sources) <==>
            && |sources| <= AudioFree(pool) + Minus(Adds(extra, Audio), MissingAudio(pool))
            && |sources| <= VideoFree(pool) + Minus(Adds(extra, Video), MissingVideo(pool, wantScreen))
  {
    var pool' := AnnounceAll(pool, extra, wantScreen);
    AnnounceAllKeeps(pool, extra, wantScreen);
    AnnounceAllSlots(pool, extra, wantScreen);
    assert forall i :: Newcomer(pool, sources, i) ==> Newcomer(pool', sources, i);
    CreatesIffEnough(pool', w, sources);
    OfferSupplies(pool, extra, wantScreen);
  }
}
