/** Every run of the sending side: header counters stay in lockstep with the
    chain, so the k-th frame under a key id is sealed with its k-th message key. */
module E2eeSender {
  import opened Common
  import opened KdfChain
  import opened FrameFormat
  import opened E2eeSession

  datatype Event = Install(keyId: int, rawKey: Key) | Purge(keep: int) | Send(frame: Frame)

  datatype SentFrame = SentFrame(keyId: int, ctr: nat, frame: Frame, wire: seq<byte>)

  ghost predicate Salted(s: Suite) {
    forall rawKey, keyId :: |s.baseSalt(rawKey, keyId)| == 12
  }

  /** One event: the new state and the frame it put on the wire, if any. */
  ghost function Step(s: Suite, id: string, e: Session, event: Event): (r: (Session, seq<SentFrame>))
    requires Salted(s) && SaltsOk(e.entries)
    ensures SaltsOk(r.0.entries)
  {
    match event
    case Install(keyId, rawKey) => (SetKey(s, e, rawKey, keyId), [])
    case Purge(keep) => (PurgeOldKeys(e, keep), [])
    case Send(f) =>
      var (e', out) := Encrypt(s, id, e, f);
      if out.Wire? then
        var keyId := e.entries[|e.entries| - 1].keyId;
        (e', [SentFrame(keyId, NextCounter(e, keyId), f, out.data)])
      else (e', [])
  }

  /** The state and everything sent after a run from an empty worker. */
  ghost function Run(s: Suite, id: string, events: seq<Event>): (r: (Session, seq<SentFrame>))
    requires Salted(s)
    ensures SaltsOk(r.0.entries)
  {
    if events == [] then (EMPTY_SESSION, [])
    else
      var n := |events| - 1;
      var (e, sent) := Run(s, id, events[..n]);
      var (e', more) := Step(s, id, e, events[n]);
      (e', sent + more)
  }

  /** Each install brings the table's key and precedes every frame counted for it. */
  ghost predicate Admissible(s: Suite, id: string, keys: map<int, Key>, events: seq<Event>)
    requires Salted(s)
  {
    forall i :: 0 <= i < |events| && events[i].Install? ==>
      && events[i].keyId in keys && keys[events[i].keyId] == events[i].rawKey
      && events[i].keyId !in Run(s, id, events[..i]).0.counters
  }

  ghost function Root(s: Suite, keys: map<int, Key>, keyId: int): Key
    requires keyId in keys
  {
    s.rootKey(keys[keyId], keyId)
  }

  ghost predicate OneEntryPerKey(entries: seq<Chain>) {
    forall i, j :: 0 <= i < j < |entries| ==> entries[i].keyId != entries[j].keyId
  }

  /** The entry holds the table's key for its id. */
  ghost predicate Installed(s: Suite, keys: map<int, Key>, c: Chain) {
    && c.keyId in keys
    && c.salt == s.baseSalt(keys[c.keyId], c.keyId)
    && Genuine(s, Root(s, keys, c.keyId), c)
  }

  /** The next header counter of every entry is its chain position. */
  ghost predicate Lockstep(e: Session) {
    forall c :: c in e.entries ==> NextCounter(e, c.keyId) == c.nextCtr
  }

  /** A logged frame is sealed with the message key its counter names. */
  ghost predicate WellSealed(s: Suite, id: string, keys: map<int, Key>, f: SentFrame)
    requires Salted(s)
  {
    && f.keyId in keys && f.ctr >= 1 && ClearBytes(f.frame) <= |f.frame.data|
    && f.wire == SealFrame(s, id, MessageKeyAt(s, Root(s, keys, f.keyId), f.ctr),
                           s.baseSalt(keys[f.keyId], f.keyId), f.keyId, f.ctr, f.frame)
  }

  /** How many logged frames were sent under a key id. */
  ghost function SentUnder(sent: seq<SentFrame>, keyId: int): nat {
    if sent == [] then 0
    else SentUnder(sent[..|sent| - 1], keyId) + (if sent[|sent| - 1].keyId == keyId then 1 else 0)
  }

  /** Frame i of the log is the k-th of its key id and carries counter k. */
  ghost predicate NumberedAt(sent: seq<SentFrame>, i: nat) {
    i < |sent| && sent[i].ctr == SentUnder(sent[..i], sent[i].keyId) + 1
  }

  ghost predicate Numbered(sent: seq<SentFrame>) {
    forall i :: 0 <= i < |sent| ==> NumberedAt(sent, i)
  }

  ghost predicate Sending(s: Suite, id: string, keys: map<int, Key>, e: Session, sent: seq<SentFrame>)
    requires Salted(s)
  {
    && OneEntryPerKey(e.entries)
    && (forall c :: c in e.entries ==> Installed(s, keys, c))
    && Lockstep(e)
    && (forall k :: k in e.counters ==> e.counters[k] >= 1)
    && (forall k: int :: NextCounter(e, k) == SentUnder(sent, k) + 1)
    && (forall i :: 0 <= i < |sent| ==> WellSealed(s, id, keys, sent[i]))
    && Numbered(sent)
  }

  lemma {:induction false} FiltersKeepDistinct(entries: seq<Chain>, keyId: int)
    requires OneEntryPerKey(entries)
    ensures OneEntryPerKey(WithoutKey(entries, keyId)) && OneEntryPerKey(FromKey(entries, keyId))
  {
    if entries != [] {
      FiltersKeepDistinct(entries[1..], keyId);
      forall c | c in entries[1..]
        ensures c.keyId != entries[0].keyId
      {
        var j :| 0 <= j < |entries[1..]| && entries[1..][j] == c;
        assert entries[j + 1] == c;
      }
      DistinctPrepend(entries[0], WithoutKey(entries[1..], keyId));
      DistinctPrepend(entries[0], FromKey(entries[1..], keyId));
      assert [] + WithoutKey(entries[1..], keyId) == WithoutKey(entries[1..], keyId);
      assert [] + FromKey(entries[1..], keyId) == FromKey(entries[1..], keyId);
    }
  }

  lemma DistinctPrepend(c: Chain, rest: seq<Chain>)
    requires OneEntryPerKey(rest) && forall d :: d in rest ==> d.keyId != c.keyId
    ensures OneEntryPerKey([c] + rest)
  {
  }

  lemma DistinctAppend(rest: seq<Chain>, c: Chain)
    requires OneEntryPerKey(rest) && forall d :: d in rest ==> d.keyId != c.keyId
    ensures OneEntryPerKey(rest + [c])
  {
  }

  /** Installing a key keeps lockstep exactly when no frame was counted for its id:
      setKey restarts the chain and leaves the frame counter alone. */
  lemma SetKeyKeepsLockstepIff(s: Suite, e: Session, rawKey: Key, keyId: int)
    requires Lockstep(e) && forall k :: k in e.counters ==> e.counters[k] >= 1
    ensures Lockstep(SetKey(s, e, rawKey, keyId)) <==> keyId !in e.counters
  {
    var e' := SetKey(s, e, rawKey, keyId);
    var added := InitChain(s, rawKey, keyId);
    assert e'.entries[|e'.entries| - 1] == added;
    assert added in e'.entries;
  }

  lemma InstallKeepsSending(s: Suite, id: string, keys: map<int, Key>, e: Session, sent: seq<SentFrame>, keyId: int)
    requires Salted(s) && Sending(s, id, keys, e, sent)
    requires keyId in keys && keyId !in e.counters
    ensures Sending(s, id, keys, SetKey(s, e, keys[keyId], keyId), sent)
  {
    SetKeyKeepsLockstepIff(s, e, keys[keyId], keyId);
    FiltersKeepDistinct(e.entries, keyId);
    DistinctAppend(WithoutKey(e.entries, keyId), InitChain(s, keys[keyId], keyId));
    var e' := SetKey(s, e, keys[keyId], keyId);
    forall k: int
      ensures NextCounter(e', k) == SentUnder(sent, k) + 1
    {
      assert NextCounter(e', k) == NextCounter(e, k);
    }
  }

  lemma PurgeKeepsSending(s: Suite, id: string, keys: map<int, Key>, e: Session, sent: seq<SentFrame>, keep: int)
    requires Salted(s) && Sending(s, id, keys, e, sent)
    ensures Sending(s, id, keys, PurgeOldKeys(e, keep), sent)
  {
    FiltersKeepDistinct(e.entries, keep);
    var e' := PurgeOldKeys(e, keep);
    forall c | c in e'.entries
      ensures NextCounter(e', c.keyId) == c.nextCtr
    {
      assert NextCounter(e', c.keyId) == NextCounter(e, c.keyId);
    }
    forall k: int
      ensures NextCounter(e', k) == SentUnder(sent, k) + 1
    {
      assert NextCounter(e', k) == NextCounter(e, k);
    }
  }

  lemma EncryptStepInstalled(s: Suite, keys: map<int, Key>, c: Chain)
    requires Installed(s, keys, c)
    ensures Installed(s, keys, EncryptionStep(s, c).0)
    ensures EncryptionStep(s, c).1 == MessageKeyAt(s, Root(s, keys, c.keyId), c.nextCtr)
  {
  }

  lemma SentUnderAppend(sent: seq<SentFrame>, frame: SentFrame, keyId: int)
    ensures SentUnder(sent + [frame], keyId) == SentUnder(sent, keyId) + (if frame.keyId == keyId then 1 else 0)
  {
    assert (sent + [frame])[..|sent|] == sent;
  }

  lemma NumberedGrows(sent: seq<SentFrame>, frame: SentFrame)
    requires Numbered(sent) && frame.ctr == SentUnder(sent, frame.keyId) + 1
    ensures Numbered(sent + [frame])
  {
    var sent' := sent + [frame];
    forall i | 0 <= i < |sent'|
      ensures NumberedAt(sent', i)
    {
      if i < |sent| {
        assert NumberedAt(sent, i);
        assert sent'[..i] == sent[..i];
      } else {
        assert sent'[..i] == sent;
      }
    }
  }

  lemma LogGrows(e: Session, sent: seq<SentFrame>, frame: SentFrame, e': Session)
    requires Numbered(sent) && forall k: int :: NextCounter(e, k) == SentUnder(sent, k) + 1
    requires frame.ctr == NextCounter(e, frame.keyId) && e'.counters == e.counters[frame.keyId := frame.ctr]
    ensures Numbered(sent + [frame])
    ensures forall k: int :: NextCounter(e', k) == SentUnder(sent + [frame], k) + 1
  {
    NumberedGrows(sent, frame);
    forall k: int
      ensures NextCounter(e', k) == SentUnder(sent + [frame], k) + 1
    {
      SentUnderAppend(sent, frame, k);
      assert NextCounter(e, k) == SentUnder(sent, k) + 1;
    }
  }

  /** What a send that reaches the wire does. */
  lemma SendStep(s: Suite, id: string, keys: map<int, Key>, e: Session, f: Frame)
    requires Salted(s) && SaltsOk(e.entries) && Lockstep(e)
    requires e.entries != [] && ClearBytes(f) <= |f.data|
    requires Installed(s, keys, e.entries[|e.entries| - 1])
    ensures var n := |e.entries| - 1;
            var c := e.entries[n];
            var (e', more) := Step(s, id, e, Send(f));
            && |more| == 1 && WellSealed(s, id, keys, more[0])
            && more[0].keyId == c.keyId && more[0].ctr == NextCounter(e, c.keyId)
            && e' == Session(e.entries[n := EncryptionStep(s, c).0], e.counters[c.keyId := more[0].ctr], e.windows)
  {
    var c := e.entries[|e.entries| - 1];
    assert c in e.entries;
    EncryptStepInstalled(s, keys, c);
  }

  lemma EntriesAfterSend(s: Suite, keys: map<int, Key>, e: Session, e': Session)
    requires OneEntryPerKey(e.entries) && e.entries != [] && Lockstep(e)
    requires forall c :: c in e.entries ==> Installed(s, keys, c)
    requires var n := |e.entries| - 1;
             var c := e.entries[n];
             && e'.entries == e.entries[n := EncryptionStep(s, c).0]
             && e'.counters == e.counters[c.keyId := NextCounter(e, c.keyId)]
    ensures OneEntryPerKey(e'.entries) && Lockstep(e')
    ensures forall c :: c in e'.entries ==> Installed(s, keys, c)
  {
    var n := |e.entries| - 1;
    assert e.entries[n] in e.entries;
    EncryptStepInstalled(s, keys, e.entries[n]);
    forall d | d in e'.entries
      ensures Installed(s, keys, d) && NextCounter(e', d.keyId) == d.nextCtr
    {
      var j :| 0 <= j < |e'.entries| && e'.entries[j] == d;
      if j < n {
        assert d == e.entries[j] && d in e.entries;
        assert NextCounter(e', d.keyId) == NextCounter(e, d.keyId);
      }
    }
  }

  lemma SendKeepsSending(s: Suite, id: string, keys: map<int, Key>, e: Session, sent: seq<SentFrame>,
                         e': Session, frame: SentFrame)
    requires Salted(s) && Sending(s, id, keys, e, sent) && e.entries != []
    requires var n := |e.entries| - 1;
             var c := e.entries[n];
             && WellSealed(s, id, keys, frame) && frame.keyId == c.keyId && frame.ctr == NextCounter(e, c.keyId)
             && e' == Session(e.entries[n := EncryptionStep(s, c).0], e.counters[c.keyId := frame.ctr], e.windows)
    ensures Sending(s, id, keys, e', sent + [frame])
  {
    EntriesAfterSend(s, keys, e, e');
    LogGrows(e, sent, frame, e');
  }

  lemma StepKeepsSending(s: Suite, id: string, keys: map<int, Key>, e: Session, sent: seq<SentFrame>, event: Event)
    requires Salted(s) && SaltsOk(e.entries) && Sending(s, id, keys, e, sent)
    requires event.Install? ==> event.keyId in keys && keys[event.keyId] == event.rawKey && event.keyId !in e.counters
    ensures var (e', more) := Step(s, id, e, event); |more| <= 1 && Sending(s, id, keys, e', sent + more)
  {
    var (e', more) := Step(s, id, e, event);
    assert sent + [] == sent;
    match event
    case Install(keyId, _) => InstallKeepsSending(s, id, keys, e, sent, keyId);
    case Purge(keep) => PurgeKeepsSending(s, id, keys, e, sent, keep);
    case Send(f) =>
      if e.entries != [] && ClearBytes(f) <= |f.data| {
        assert e.entries[|e.entries| - 1] in e.entries;
        SendStep(s, id, keys, e, f);
        SendKeepsSending(s, id, keys, e, sent, e', more[0]);
        assert more == [more[0]];
      }
  }

  lemma AdmissiblePrefix(s: Suite, id: string, keys: map<int, Key>, events: seq<Event>, n: nat)
    requires Salted(s) && Admissible(s, id, keys, events) && n <= |events|
    ensures Admissible(s, id, keys, events[..n])
  {
    forall i | 0 <= i < n
      ensures events[..n][..i] == events[..i]
    {
    }
  }

  /** Lockstep over every admissible run: the k-th frame sent under a key id
      carries counter k and is sealed with that key id's k-th message key. */
  lemma {:induction false} LockstepAlways(s: Suite, id: string, keys: map<int, Key>, events: seq<Event>)
    requires Salted(s) && Admissible(s, id, keys, events)
    ensures var (e, sent) := Run(s, id, events); Sending(s, id, keys, e, sent) && |sent| <= |events|
  {
    if events != [] {
      var n := |events| - 1;
      AdmissiblePrefix(s, id, keys, events, n);
      LockstepAlways(s, id, keys, events[..n]);
      var (e, sent) := Run(s, id, events[..n]);
      StepKeepsSending(s, id, keys, e, sent, events[n]);
    }
  }

  lemma {:induction false} SentUnderGrows(sent: seq<SentFrame>, i: nat, j: nat, keyId: int)
    requires i <= j <= |sent|
    ensures SentUnder(sent[..i], keyId) <= SentUnder(sent[..j], keyId)
    ensures SentUnder(sent[..j], keyId) <= j
    decreases j
  {
    if j > 0 {
      assert sent[..j][..j - 1] == sent[..j - 1];
      SentUnderGrows(sent, if i < j then i else j - 1, j - 1, keyId);
    }
  }

  lemma CountersIncrease(sent: seq<SentFrame>, i: nat, j: nat)
    requires Numbered(sent) && i < j < |sent| && sent[i].keyId == sent[j].keyId
    ensures sent[i].ctr < sent[j].ctr <= j + 1
  {
    assert NumberedAt(sent, i) && NumberedAt(sent, j);
    assert sent[..i + 1][..i] == sent[..i];
    SentUnderGrows(sent, i + 1, j, sent[i].keyId);
  }

  /** No two frames of one key id share a nonce, as long as a run has fewer than
      2^32 events. */
  lemma NoncesNeverRepeat(s: Suite, id: string, keys: map<int, Key>, events: seq<Event>, i: nat, j: nat, salt: seq<byte>)
    requires Salted(s) && Admissible(s, id, keys, events) && |events| < COUNTERS && |salt| == 12
    requires var sent := Run(s, id, events).1; i < j < |sent| && sent[i].keyId == sent[j].keyId
    ensures var sent := Run(s, id, events).1;
            ComputeNonce(salt, sent[i].ctr) != ComputeNonce(salt, sent[j].ctr)
  {
    LockstepAlways(s, id, keys, events);
    var sent := Run(s, id, events).1;
    CountersIncrease(sent, i, j);
    if ComputeNonce(salt, sent[i].ctr) == ComputeNonce(salt, sent[j].ctr) {
      NonceInjective(salt, sent[i].ctr, sent[j].ctr);
    }
  }
}
