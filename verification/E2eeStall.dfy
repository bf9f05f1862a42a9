/** What a gap of more than MAX_SKIP frames does: the replay window moves with the counter
    before the chain refuses it. */
module E2eeStall {
  import opened Common
  import opened KdfChain
  import opened ReplayWindow
  import opened FrameFormat
  import opened E2eeSession
  import opened E2eeSender
  import opened E2eeReceiver

  /** The chain can reach the counter: it has the key cached, or at most MAX_SKIP steps ahead. */
  predicate InReach(c: Chain, ctr: nat) {
    ctr in c.skipped || c.nextCtr <= ctr <= c.nextCtr + MAX_SKIP
  }

  ghost predicate IsFresh(w: Option<Window>, accepted: set<nat>, ctr: nat) {
    w.None? || Fresh(accepted, w.value.highest, ctr)
  }

  /** Whatever the state of chain and window, an unaltered frame is enqueued exactly when
      it is fresh and in reach. */
  lemma EnqueuedIff(s: Suite, c: Chain, w: Option<Window>, accepted: set<nat>, ctr: nat)
    requires Represents(w, accepted) && c.caughtUp
    ensures Arrive(s, c, w, ctr).2 <==> IsFresh(w, accepted, ctr) && InReach(c, ctr)
  {
    CheckRefines(w, accepted, ctr);
  }

  /** The header alone moves chain and window, whatever the payload: an altered frame moves
      them like the original, and the fallback after it touches nothing. */
  lemma HeaderMovesState(s: Suite, id: string, keys: map<int, Key>, sent: seq<SentFrame>, e: Session, at: nat,
                         data: seq<byte>)
    requires Salted(s) && LowBytesDiffer(keys) && EntriesOk(s, keys, e.entries) && SaltsOk(e.entries)
    requires at < |e.entries| && Parse(data).Some? && NotForged(s, id, keys, sent, Parse(data).value)
    requires Parse(data).value.Kid() == e.entries[at].keyId % 0x100
    ensures var p := Parse(data).value;
            var (c, w, _) := Arrive(s, e.entries[at], WindowOf(e, p.Kid()), p.Ctr());
            var e' := Decrypt(s, id, e, data).0;
            && e'.entries == e.entries[at := c] && WindowOf(e', p.Kid()) == w
            && forall k :: k != p.Kid() ==> WindowOf(e', k) == WindowOf(e, k)
  {
    var p := Parse(data).value;
    FoundAt(keys, s, e.entries, at);
    AttemptMovesState(s, id, e, at, p);
    if TryMatching(s, id, e, at, p).1.FallThrough? {
      var entries := TryMatching(s, id, e, at, p).0.entries;
      AttemptKeepsEntries(s, id, keys, e, at, p);
      forall j | 0 <= j < |entries| && j != at
        ensures entries[j].keyId % 0x100 != p.Kid()
      {
        assert entries[j] in entries && entries[at] in entries;
      }
      FallbackNeverOpens(s, id, keys, sent, entries, Some(at), p, |entries|);
    }
  }

  lemma AttemptMovesState(s: Suite, id: string, e: Session, at: nat, p: Parsed)
    requires |p.header| == HEADER && SaltsOk(e.entries) && at < |e.entries|
    ensures var (c, w, _) := Arrive(s, e.entries[at], WindowOf(e, p.Kid()), p.Ctr());
            var e' := TryMatching(s, id, e, at, p).0;
            && e'.entries == e.entries[at := c] && WindowOf(e', p.Kid()) == w
            && forall k :: k != p.Kid() ==> WindowOf(e', k) == WindowOf(e, k)
  {
    assert e.entries[at := e.entries[at]] == e.entries;
  }

  lemma AttemptKeepsEntries(s: Suite, id: string, keys: map<int, Key>, e: Session, at: nat, p: Parsed)
    requires |p.header| == HEADER && SaltsOk(e.entries) && EntriesOk(s, keys, e.entries) && at < |e.entries|
    ensures var entries := TryMatching(s, id, e, at, p).0.entries;
            EntriesOk(s, keys, entries) && at < |entries| && entries[at].keyId == e.entries[at].keyId
  {
    var c := e.entries[at];
    assert c in e.entries;
    DecryptionGenuine(s, Root(s, keys, c.keyId), c, p.Ctr());
    SameSalt(s, c, p.Ctr());
    EntryUpdate(s, keys, e.entries, at, DecryptionStep(s, c, p.Ctr()).0);
  }

  /** After a counter h beyond the reach of a chain that was in step with its window,
      exactly the late frames between window and reach are still enqueued; no frame ahead
      of h is. */
  lemma AfterLeap(s: Suite, c: Chain, w: Option<Window>, accepted: set<nat>, first: nat, h: nat, ctr: nat)
    requires InStep(c, w, accepted, first) && h > c.nextCtr + MAX_SKIP
    ensures var (c', w', ok) := Arrive(s, c, w, h);
            && !ok && c' == c && w'.Some? && w'.value.highest == h
            && (Arrive(s, c', w', ctr).2 <==> h - WINDOW < ctr <= c.nextCtr + MAX_SKIP)
  {
    CheckRefines(w, accepted, h);
    EnqueuedIff(s, c, w, accepted, h);
    EnqueuedIff(s, c, Arrive(s, c, w, h).1, accepted + {h}, ctr);
  }

  /** The window is so far ahead that nothing in the chain's reach is fresh. */
  ghost predicate Stalled(c: Chain, w: Option<Window>) {
    && c.caughtUp && (forall k :: k in c.skipped ==> k < c.nextCtr)
    && w.Some? && w.value.highest >= c.nextCtr + MAX_SKIP + WINDOW
  }

  /** Some frame can still be enqueued after the leap exactly if it did not stall. */
  lemma LeapRecoverableIff(s: Suite, c: Chain, w: Option<Window>, accepted: set<nat>, first: nat, h: nat)
    requires InStep(c, w, accepted, first) && h > c.nextCtr + MAX_SKIP
    ensures var (c', w', _) := Arrive(s, c, w, h);
            && (Stalled(c', w') <==> h >= c.nextCtr + MAX_SKIP + WINDOW)
            && (Stalled(c', w') <==> forall ctr :: !Arrive(s, c', w', ctr).2)
  {
    AfterLeap(s, c, w, accepted, first, h, c.nextCtr + MAX_SKIP);
    var (c', w', _) := Arrive(s, c, w, h);
    if Stalled(c', w') {
      forall ctr
        ensures !Arrive(s, c', w', ctr).2
      {
        StaysStalled(s, c', w', ctr);
      }
    }
  }

  lemma StaysStalled(s: Suite, c: Chain, w: Option<Window>, ctr: nat)
    requires Stalled(c, w)
    ensures var (c', w', ok) := Arrive(s, c, w, ctr); !ok && c' == c && Stalled(c', w')
  {
  }

  /** Frames delivered one after the other: the session and what was enqueued. */
  ghost function DecryptAll(s: Suite, id: string, e: Session, fs: seq<SentFrame>): (r: (Session, seq<seq<byte>>))
    requires SaltsOk(e.entries)
    ensures SaltsOk(r.0.entries)
  {
    if fs == [] then (e, [])
    else
      var (e1, outs) := DecryptAll(s, id, e, fs[..|fs| - 1]);
      var (e2, out) := Decrypt(s, id, e1, fs[|fs| - 1].wire);
      (e2, if out.Some? then outs + [out.value] else outs)
  }

  /** A stalled key stays silent: no sequence of its frames, in whatever order, has any of
      them enqueued or moves the chain. */
  lemma {:induction false} StalledForever(s: Suite, id: string, keys: map<int, Key>, e: Session, at: nat,
                                          fs: seq<SentFrame>)
    requires Salted(s) && Correct(s) && LowBytesDiffer(keys)
    requires EntriesOk(s, keys, e.entries) && SaltsOk(e.entries) && at < |e.entries|
    requires Stalled(e.entries[at], WindowOf(e, e.entries[at].keyId % 0x100))
    requires forall f :: f in fs ==> WellSealed(s, id, keys, f) && f.ctr < COUNTERS && f.keyId == e.entries[at].keyId
    ensures var (e', outs) := DecryptAll(s, id, e, fs);
            && outs == [] && e'.entries == e.entries
            && Stalled(e'.entries[at], WindowOf(e', e.entries[at].keyId % 0x100))
  {
    if fs != [] {
      var n := |fs| - 1;
      StalledForever(s, id, keys, e, at, fs[..n]);
      var e1 := DecryptAll(s, id, e, fs[..n]).0;
      var c := e.entries[at];
      assert fs[n] in fs;
      UnalteredDelivery(s, id, keys, e1, fs[n], at);
      StaysStalled(s, c, WindowOf(e1, c.keyId % 0x100), fs[n].ctr);
      assert e.entries[at := c] == e.entries;
    }
  }

  /** Installing the key again restarts the chain and keeps the window: then a frame is
      enqueued exactly if it is fresh and within the catch-up limit. Removing the keys
      forgets the window too, which leaves the limit alone. */
  lemma ReinstallRecoversIff(s: Suite, rawKey: Key, keyId: int, w: Option<Window>, accepted: set<nat>, ctr: nat)
    requires Represents(w, accepted)
    ensures Arrive(s, InitChain(s, rawKey, keyId), w, ctr).2 <==>
            IsFresh(w, accepted, ctr) && 1 <= ctr <= MAX_INITIAL_SKIP + 1
  {
    CheckRefines(w, accepted, ctr);
  }
}
