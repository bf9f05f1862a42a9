/** Every run of the receiving side against an arbitrary network: frames may be
    lost, reordered, duplicated or altered. */
module E2eeReceiver {
  import opened Common
  import opened KdfChain
  import opened ReplayWindow
  import opened FrameFormat
  import opened E2eeSession
  import opened E2eeSender

  datatype Arrival = Learn(keyId: int) | Forget(keep: int) | Deliver(data: seq<byte>)

  /** A frame enqueued, and the position of the arrival that led to it. */
  datatype Output = Output(at: nat, data: seq<byte>)

  /** The state and the frames enqueued after a run from an empty worker. Keys are
      learned from the sender's table, in any order and any number of times. */
  ghost function Receive(s: Suite, id: string, keys: map<int, Key>, arrivals: seq<Arrival>)
    : (r: (Session, seq<Output>))
    requires Salted(s)
    ensures SaltsOk(r.0.entries)
  {
    if arrivals == [] then (EMPTY_SESSION, [])
    else
      var n := |arrivals| - 1;
      var (e, outs) := Receive(s, id, keys, arrivals[..n]);
      var (e', out) := ReceiveOne(s, id, keys, e, arrivals[n]);
      (e', if out.Some? then outs + [Output(n, out.value)] else outs)
  }

  ghost function ReceiveOne(s: Suite, id: string, keys: map<int, Key>, e: Session, a: Arrival)
    : (r: (Session, Option<seq<byte>>))
    requires Salted(s) && SaltsOk(e.entries)
    ensures SaltsOk(r.0.entries)
  {
    match a
    case Learn(keyId) => (if keyId in keys then SetKey(s, e, keys[keyId], keyId) else e, None)
    case Forget(keep) => (PurgeOldKeys(e, keep), None)
    case Deliver(data) => Decrypt(s, id, e, data)
  }

  ghost predicate LowBytesDiffer(keys: map<int, Key>) {
    forall a, b :: a in keys && b in keys && a % 0x100 == b % 0x100 ==> a == b
  }

  ghost function AadOf(s: Suite, id: string, f: SentFrame): seq<byte>
    requires ClearBytes(f.frame) <= |f.frame.data|
  {
    BuildAad(s, id, f.frame.data[..ClearBytes(f.frame)], Header(f.keyId, f.ctr))
  }

  /** Frame i of the log was sealed for this key id and counter, with this
      authenticated data and payload. */
  ghost predicate SealedAs(s: Suite, id: string, sent: seq<SentFrame>, i: nat, keyId: int, ctr: nat, aad: seq<byte>,
                           plain: seq<byte>)
  {
    && i < |sent| && sent[i].keyId == keyId && sent[i].ctr == ctr
    && ClearBytes(sent[i].frame) <= |sent[i].frame.data|
    && aad == AadOf(s, id, sent[i])
    && plain == sent[i].frame.data[ClearBytes(sent[i].frame)..]
  }

  /** Decrypting a frame with the message key and nonce of its counter under a key id. */
  ghost function OpenUnder(s: Suite, id: string, keys: map<int, Key>, keyId: int, p: Parsed): Option<seq<byte>>
    requires Salted(s) && |p.header| == HEADER && keyId in keys && p.Ctr() >= 1
  {
    s.open(MessageKeyAt(s, Root(s, keys, keyId), p.Ctr()),
           ComputeNonce(s.baseSalt(keys[keyId], keyId), p.Ctr()),
           BuildAad(s, id, p.codec, p.header), p.ciphertext)
  }

  /** If the frame decrypts under a key id, the sender sealed exactly that for that key
      id and counter. */
  ghost predicate OpensAsSealed(s: Suite, id: string, keys: map<int, Key>, sent: seq<SentFrame>, p: Parsed, keyId: int)
    requires Salted(s) && |p.header| == HEADER && keyId in keys && p.Ctr() >= 1
  {
    var plain := OpenUnder(s, id, keys, keyId, p);
    plain.Some? ==>
      exists i: nat :: SealedAs(s, id, sent, i, keyId, p.Ctr(), BuildAad(s, id, p.codec, p.header), plain.value)
  }

  /** The frame is no forgery under any key id of the table. */
  ghost predicate NotForged(s: Suite, id: string, keys: map<int, Key>, sent: seq<SentFrame>, p: Parsed)
    requires Salted(s) && |p.header| == HEADER
  {
    forall keyId :: keyId in keys && p.Ctr() >= 1 ==> OpensAsSealed(s, id, keys, sent, p, keyId)
  }

  ghost predicate Unforged(s: Suite, id: string, keys: map<int, Key>, sent: seq<SentFrame>, a: Arrival)
    requires Salted(s)
  {
    a.Deliver? && Parse(a.data).Some? ==> NotForged(s, id, keys, sent, Parse(a.data).value)
  }

  /** Integrity of AES-GCM on what the network delivers, altered frames included. */
  ghost predicate AllUnforged(s: Suite, id: string, keys: map<int, Key>, sent: seq<SentFrame>, arrivals: seq<Arrival>)
    requires Salted(s)
  {
    forall k :: 0 <= k < |arrivals| ==> Unforged(s, id, keys, sent, arrivals[k])
  }

  /** Frame i arrives as it was sent, while entry `at` holds its key. */
  ghost predicate KnownFrame(s: Suite, id: string, keys: map<int, Key>, sent: seq<SentFrame>, e: Session, a: Arrival,
                             i: nat, at: nat)
    requires Salted(s)
  {
    && a.Deliver? && i < |sent| && a.data == sent[i].wire
    && WellSealed(s, id, keys, sent[i]) && sent[i].ctr < COUNTERS
    && at < |e.entries| && e.entries[at].keyId == sent[i].keyId
  }

  ghost predicate Known(s: Suite, id: string, keys: map<int, Key>, sent: seq<SentFrame>, e: Session, a: Arrival)
    requires Salted(s)
  {
    exists i: nat, at: nat :: KnownFrame(s, id, keys, sent, e, a, i, at)
  }

  /** An arrival is harmless if it is no forgery, or if it is a sent frame whose key is
      installed; the latter needs nothing but correct decryption. */
  ghost predicate Harmless(s: Suite, id: string, keys: map<int, Key>, sent: seq<SentFrame>, e: Session, a: Arrival)
    requires Salted(s)
  {
    Unforged(s, id, keys, sent, a) || (Correct(s) && Known(s, id, keys, sent, e, a))
  }

  ghost predicate AllHarmless(s: Suite, id: string, keys: map<int, Key>, sent: seq<SentFrame>, arrivals: seq<Arrival>)
    requires Salted(s)
  {
    forall k :: 0 <= k < |arrivals| ==>
      Harmless(s, id, keys, sent, Receive(s, id, keys, arrivals[..k]).0, arrivals[k])
  }

  ghost predicate EntriesOk(s: Suite, keys: map<int, Key>, entries: seq<Chain>) {
    && OneEntryPerKey(entries)
    && (forall c :: c in entries ==> Installed(s, keys, c))
  }

  ghost function WindowAt(windows: map<int, Window>, kid: int): Option<Window> {
    if kid in windows then Some(windows[kid]) else None
  }

  ghost function Acc(acc: map<int, set<nat>>, kid: int): set<nat> {
    if kid in acc then acc[kid] else {}
  }

  /** acc gives, for each key id byte, the counters its window accepted. */
  ghost predicate WindowsOk(windows: map<int, Window>, acc: map<int, set<nat>>) {
    forall kid: int :: Represents(WindowAt(windows, kid), Acc(acc, kid))
  }

  ghost predicate Grown(acc: map<int, set<nat>>, acc': map<int, set<nat>>) {
    forall kid: int :: Acc(acc, kid) <= Acc(acc', kid)
  }

  /** The arrival's header names the frame. */
  ghost predicate Names(a: Arrival, f: SentFrame) {
    && a.Deliver? && Parse(a.data).Some?
    && Parse(a.data).value.Kid() == f.keyId % 0x100 && Parse(a.data).value.Ctr() == f.ctr
  }

  ghost predicate SameHeader(a: Arrival, b: Arrival) {
    && a.Deliver? && b.Deliver? && Parse(a.data).Some? && Parse(b.data).Some?
    && Parse(a.data).value.Kid() == Parse(b.data).value.Kid()
    && Parse(a.data).value.Ctr() == Parse(b.data).value.Ctr()
  }

  /** Output j is the original of frame ids[j], which the arrival that led to it names. */
  ghost predicate IsOriginal(sent: seq<SentFrame>, arrivals: seq<Arrival>, outs: seq<Output>, ids: seq<nat>, j: nat) {
    && j < |outs| && j < |ids| && outs[j].at < |arrivals| && ids[j] < |sent|
    && Names(arrivals[outs[j].at], sent[ids[j]]) && outs[j].data == sent[ids[j]].frame.data
  }

  /** Outputs j and k come from different arrivals, in order, that name different frames. */
  ghost predicate Apart(arrivals: seq<Arrival>, outs: seq<Output>, ids: seq<nat>, j: nat, k: nat) {
    && j < |outs| && k < |outs| && j < |ids| && k < |ids| && outs[j].at < outs[k].at < |arrivals|
    && !SameHeader(arrivals[outs[j].at], arrivals[outs[k].at]) && ids[j] != ids[k]
  }

  /** What is enqueued are originals of the frames that the deliveries name, none twice. */
  ghost predicate Matches(sent: seq<SentFrame>, arrivals: seq<Arrival>, outs: seq<Output>, ids: seq<nat>) {
    && |ids| == |outs|
    && (forall j :: 0 <= j < |outs| ==> IsOriginal(sent, arrivals, outs, ids, j))
    && (forall j, k :: 0 <= j < k < |outs| ==> Apart(arrivals, outs, ids, j, k))
  }

  /** The counter in the header of an arrival is among the accepted ones. */
  ghost predicate Accounted(a: Arrival, acc: map<int, set<nat>>) {
    a.Deliver? && Parse(a.data).Some? && Parse(a.data).value.Ctr() in Acc(acc, Parse(a.data).value.Kid())
  }

  ghost predicate OutputAccounted(arrivals: seq<Arrival>, outs: seq<Output>, j: nat, acc: map<int, set<nat>>) {
    j < |outs| && outs[j].at < |arrivals| && Accounted(arrivals[outs[j].at], acc)
  }

  /** Every frame enqueued was recorded by its window. */
  ghost predicate AllAccounted(arrivals: seq<Arrival>, outs: seq<Output>, acc: map<int, set<nat>>) {
    forall j :: 0 <= j < |outs| ==> OutputAccounted(arrivals, outs, j, acc)
  }

  lemma RecordedRefines(windows: map<int, Window>, acc: map<int, set<nat>>, kid: int, ctr: nat)
    requires WindowsOk(windows, acc)
    ensures var (ws, ok) := Recorded(windows, kid, ctr);
            && (!ok ==> ws == windows)
            && (ok ==> ctr !in Acc(acc, kid) && WindowsOk(ws, acc[kid := Acc(acc, kid) + {ctr}]))
  {
    var w := WindowAt(windows, kid);
    assert Represents(w, Acc(acc, kid));
    CheckRefines(w, Acc(acc, kid), ctr);
    var (ws, ok) := Recorded(windows, kid, ctr);
    var acc' := acc[kid := Acc(acc, kid) + {ctr}];
    if ok {
      forall k: int
        ensures Represents(WindowAt(ws, k), Acc(acc', k))
      {
        assert Represents(WindowAt(windows, k), Acc(acc, k));
      }
    }
  }

  lemma EntryUpdate(s: Suite, keys: map<int, Key>, entries: seq<Chain>, i: nat, c: Chain)
    requires EntriesOk(s, keys, entries) && i < |entries|
    requires Installed(s, keys, c) && c.keyId == entries[i].keyId
    ensures EntriesOk(s, keys, entries[i := c])
  {
  }

  /** A message key of an installed chain opens only the frame its header names. */
  lemma OpenIsGenuine(s: Suite, id: string, keys: map<int, Key>, sent: seq<SentFrame>, c: Chain, p: Parsed, key: Key)
    returns (i: nat)
    requires Salted(s) && |p.header| == HEADER && p.Ctr() >= 1 && NotForged(s, id, keys, sent, p)
    requires c.keyId in keys && c.salt == s.baseSalt(keys[c.keyId], c.keyId)
    requires key == MessageKeyAt(s, Root(s, keys, c.keyId), p.Ctr())
    requires s.open(key, ComputeNonce(c.salt, p.Ctr()), BuildAad(s, id, p.codec, p.header), p.ciphertext).Some?
    ensures i < |sent| && sent[i].keyId == c.keyId && sent[i].ctr == p.Ctr()
    ensures sent[i].frame.data == p.codec +
              s.open(key, ComputeNonce(c.salt, p.Ctr()), BuildAad(s, id, p.codec, p.header), p.ciphertext).value
    ensures p.Kid() == c.keyId % 0x100
  {
    var aad := BuildAad(s, id, p.codec, p.header);
    assert OpensAsSealed(s, id, keys, sent, p, c.keyId);
    var plain := OpenUnder(s, id, keys, c.keyId, p).value;
    i :| SealedAs(s, id, sent, i, c.keyId, p.Ctr(), aad, plain);
    var f := sent[i].frame;
    AadInjective(s, id, p.codec, p.header, f.data[..ClearBytes(f)], Header(c.keyId, p.Ctr()));
    HeaderParts(c.keyId, p.Ctr(), p);
    assert f.data == f.data[..ClearBytes(f)] + f.data[ClearBytes(f)..];
  }

  /** The fallback never opens a frame: the key id byte is authenticated, so only
      the entry it names could open it. */
  lemma {:induction false} FallbackNeverOpens(s: Suite, id: string, keys: map<int, Key>, sent: seq<SentFrame>,
                                             entries: seq<Chain>, tried: Option<nat>, p: Parsed, n: nat)
    requires Salted(s) && EntriesOk(s, keys, entries) && SaltsOk(entries)
    requires |p.header| == HEADER && NotForged(s, id, keys, sent, p) && n <= |entries|
    requires forall i :: 0 <= i < |entries| && Some(i) != tried ==> entries[i].keyId % 0x100 != p.Kid()
    ensures Fallback(s, entries, tried, p.Ctr(), BuildAad(s, id, p.codec, p.header), p.ciphertext, n).None?
  {
    if n > 0 {
      FallbackNeverOpens(s, id, keys, sent, entries, tried, p, n - 1);
      var c := entries[n - 1];
      assert c in entries;
      var aad := BuildAad(s, id, p.codec, p.header);
      if Some(n - 1) != tried && TrySkipped(s, c, p.Ctr(), aad, p.ciphertext).Some? {
        var _ := OpenIsGenuine(s, id, keys, sent, c, p, c.skipped[p.Ctr()]);
      }
    }
  }

  /** One delivery, whatever its bytes: it enqueues nothing, or the original of the
      frame its header names, whose counter was not accepted before. */
  lemma DeliverOne(s: Suite, id: string, keys: map<int, Key>, sent: seq<SentFrame>, e: Session,
                   acc: map<int, set<nat>>, p: Parsed)
    returns (acc': map<int, set<nat>>, i: nat)
    requires Salted(s) && LowBytesDiffer(keys)
    requires EntriesOk(s, keys, e.entries) && SaltsOk(e.entries) && WindowsOk(e.windows, acc)
    requires |p.header| == HEADER && NotForged(s, id, keys, sent, p)
    ensures var (e', out) := DecryptParsed(s, id, e, p);
            && EntriesOk(s, keys, e'.entries) && WindowsOk(e'.windows, acc') && Grown(acc, acc')
            && (out.Some? ==>
                  && i < |sent| && out.value == sent[i].frame.data
                  && sent[i].keyId % 0x100 == p.Kid() && sent[i].ctr == p.Ctr()
                  && p.Ctr() !in Acc(acc, p.Kid()) && p.Ctr() in Acc(acc', p.Kid()))
  {
    acc', i := acc, 0;
    var found := FindEntry(e.entries, p.Kid());
    if found.None? {
      FallbackNeverOpens(s, id, keys, sent, e.entries, None, p, |e.entries|);
      return;
    }
    RecordedRefines(e.windows, acc, p.Kid(), p.Ctr());
    if !Recorded(e.windows, p.Kid(), p.Ctr()).1 {
      return;
    }
    acc' := acc[p.Kid() := Acc(acc, p.Kid()) + {p.Ctr()}];
    var at := found.value;
    var c := e.entries[at];
    assert c in e.entries;
    var (c', key) := DecryptionStep(s, c, p.Ctr());
    DecryptionGenuine(s, Root(s, keys, c.keyId), c, p.Ctr());
    SameSalt(s, c, p.Ctr());
    EntryUpdate(s, keys, e.entries, at, c');
    if key.None? {
      return;
    }
    if s.open(key.value, ComputeNonce(c.salt, p.Ctr()), BuildAad(s, id, p.codec, p.header), p.ciphertext).Some? {
      i := OpenIsGenuine(s, id, keys, sent, c, p, key.value);
    } else {
      var entries := e.entries[at := c'];
      forall j | 0 <= j < |entries| && j != at
        ensures entries[j].keyId % 0x100 != p.Kid()
      {
        assert entries[j] in entries && entries[at] in entries;
      }
      FallbackNeverOpens(s, id, keys, sent, entries, Some(at), p, |entries|);
    }
  }

  /** A sent frame whose key is installed does the same, with correct decryption alone. */
  lemma DeliverKnown(s: Suite, id: string, keys: map<int, Key>, sent: seq<SentFrame>, e: Session,
                     acc: map<int, set<nat>>, a: Arrival, i: nat, at: nat)
    returns (acc': map<int, set<nat>>)
    requires Salted(s) && Correct(s) && LowBytesDiffer(keys)
    requires EntriesOk(s, keys, e.entries) && SaltsOk(e.entries) && WindowsOk(e.windows, acc)
    requires KnownFrame(s, id, keys, sent, e, a, i, at)
    ensures var (e', out) := Decrypt(s, id, e, a.data);
            && EntriesOk(s, keys, e'.entries) && WindowsOk(e'.windows, acc') && Grown(acc, acc')
            && Names(a, sent[i])
            && (out.Some? ==> out.value == sent[i].frame.data
                              && !Accounted(a, acc) && Accounted(a, acc'))
  {
    var f, c := sent[i], e.entries[at];
    var kid := f.keyId % 0x100;
    assert c in e.entries;
    var _ := WireParses(s, id, keys, f);
    UnalteredDelivery(s, id, keys, e, f, at);
    assert Represents(WindowAt(e.windows, kid), Acc(acc, kid));
    CheckRefines(WindowAt(e.windows, kid), Acc(acc, kid), f.ctr);
    DecryptionGenuine(s, Root(s, keys, c.keyId), c, f.ctr);
    SameSalt(s, c, f.ctr);
    var c' := Arrive(s, c, WindowOf(e, kid), f.ctr).0;
    EntryUpdate(s, keys, e.entries, at, c');
    acc' := if Check(WindowAt(e.windows, kid), f.ctr).1 then acc[kid := Acc(acc, kid) + {f.ctr}] else acc;
    var e' := Decrypt(s, id, e, a.data).0;
    forall k: int
      ensures Represents(WindowAt(e'.windows, k), Acc(acc', k))
    {
      assert Represents(WindowAt(e.windows, k), Acc(acc, k));
      assert WindowOf(e', k) == WindowAt(e'.windows, k);
    }
  }

  /** One event of the receiver's run. */
  lemma ReceiveStep(s: Suite, id: string, keys: map<int, Key>, sent: seq<SentFrame>, e: Session, a: Arrival,
                    acc: map<int, set<nat>>)
    returns (acc': map<int, set<nat>>, i: nat)
    requires Salted(s) && LowBytesDiffer(keys) && Harmless(s, id, keys, sent, e, a)
    requires EntriesOk(s, keys, e.entries) && SaltsOk(e.entries) && WindowsOk(e.windows, acc)
    ensures var (e', out) := ReceiveOne(s, id, keys, e, a);
            && EntriesOk(s, keys, e'.entries) && WindowsOk(e'.windows, acc') && Grown(acc, acc')
            && (out.Some? ==>
                  && i < |sent| && Names(a, sent[i]) && out.value == sent[i].frame.data
                  && !Accounted(a, acc) && Accounted(a, acc'))
  {
    acc', i := acc, 0;
    match a
    case Learn(keyId) =>
      if keyId in keys {
        FiltersKeepDistinct(e.entries, keyId);
        DistinctAppend(WithoutKey(e.entries, keyId), InitChain(s, keys[keyId], keyId));
      }
    case Forget(keep) => FiltersKeepDistinct(e.entries, keep);
    case Deliver(data) =>
      if !Unforged(s, id, keys, sent, a) {
        var at: nat;
        i, at :| KnownFrame(s, id, keys, sent, e, a, i, at);
        acc' := DeliverKnown(s, id, keys, sent, e, acc, a, i, at);
      } else if e.entries != [] && Parse(data).Some? {
        acc', i := DeliverOne(s, id, keys, sent, e, acc, Parse(data).value);
      }
  }

  /** The correspondence is about positions, so it outlives further arrivals. */
  lemma MatchesSkip(sent: seq<SentFrame>, arrivals: seq<Arrival>, a: Arrival, outs: seq<Output>, ids: seq<nat>,
                    acc: map<int, set<nat>>, acc': map<int, set<nat>>)
    requires Matches(sent, arrivals, outs, ids) && AllAccounted(arrivals, outs, acc) && Grown(acc, acc')
    ensures Matches(sent, arrivals + [a], outs, ids) && AllAccounted(arrivals + [a], outs, acc')
  {
    forall j | 0 <= j < |outs|
      ensures IsOriginal(sent, arrivals + [a], outs, ids, j) && OutputAccounted(arrivals + [a], outs, j, acc')
    {
      assert IsOriginal(sent, arrivals, outs, ids, j) && OutputAccounted(arrivals, outs, j, acc);
    }
    forall j, k | 0 <= j < k < |outs|
      ensures Apart(arrivals + [a], outs, ids, j, k)
    {
      assert Apart(arrivals, outs, ids, j, k);
    }
  }

  /** A new output belongs to the newest arrival, whose header no earlier output had. */
  lemma MatchesMore(sent: seq<SentFrame>, arrivals: seq<Arrival>, a: Arrival, outs: seq<Output>, ids: seq<nat>,
                    acc: map<int, set<nat>>, acc': map<int, set<nat>>, i: nat)
    requires Matches(sent, arrivals, outs, ids) && AllAccounted(arrivals, outs, acc) && Grown(acc, acc')
    requires i < |sent| && Names(a, sent[i]) && !Accounted(a, acc) && Accounted(a, acc')
    ensures var outs' := outs + [Output(|arrivals|, sent[i].frame.data)];
            && Matches(sent, arrivals + [a], outs', ids + [i])
            && AllAccounted(arrivals + [a], outs', acc')
  {
    var n, outs', ids' := |arrivals|, outs + [Output(|arrivals|, sent[i].frame.data)], ids + [i];
    var arrivals' := arrivals + [a];
    forall j | 0 <= j < |outs'|
      ensures IsOriginal(sent, arrivals', outs', ids', j) && OutputAccounted(arrivals', outs', j, acc')
    {
      if j < |outs| {
        assert IsOriginal(sent, arrivals, outs, ids, j) && OutputAccounted(arrivals, outs, j, acc);
      }
    }
    forall j, k | 0 <= j < k < |outs'|
      ensures Apart(arrivals', outs', ids', j, k)
    {
      if k < |outs| {
        assert Apart(arrivals, outs, ids, j, k);
      } else {
        assert IsOriginal(sent, arrivals, outs, ids, j) && OutputAccounted(arrivals, outs, j, acc);
        assert !SameHeader(arrivals[outs[j].at], a);
      }
    }
  }

  /** What a receiving run keeps, with the accepted counters as witness. */
  ghost predicate Corresponds(s: Suite, keys: map<int, Key>, sent: seq<SentFrame>, arrivals: seq<Arrival>,
                              e: Session, outs: seq<Output>, ids: seq<nat>, acc: map<int, set<nat>>)
  {
    && EntriesOk(s, keys, e.entries) && WindowsOk(e.windows, acc)
    && Matches(sent, arrivals, outs, ids) && AllAccounted(arrivals, outs, acc)
  }

  lemma CorrespondsMore(s: Suite, id: string, keys: map<int, Key>, sent: seq<SentFrame>, arrivals: seq<Arrival>,
                        e: Session, outs: seq<Output>, ids: seq<nat>, acc: map<int, set<nat>>, a: Arrival)
    returns (ids': seq<nat>, acc': map<int, set<nat>>)
    requires Salted(s) && LowBytesDiffer(keys) && SaltsOk(e.entries) && Harmless(s, id, keys, sent, e, a)
    requires Corresponds(s, keys, sent, arrivals, e, outs, ids, acc)
    ensures var (e', out) := ReceiveOne(s, id, keys, e, a);
            var outs' := if out.Some? then outs + [Output(|arrivals|, out.value)] else outs;
            Corresponds(s, keys, sent, arrivals + [a], e', outs', ids', acc')
  {
    var i: nat;
    acc', i := ReceiveStep(s, id, keys, sent, e, a, acc);
    if ReceiveOne(s, id, keys, e, a).1.Some? {
      ids' := ids + [i];
      MatchesMore(sent, arrivals, a, outs, ids, acc, acc', i);
    } else {
      ids' := ids;
      MatchesSkip(sent, arrivals, a, outs, ids, acc, acc');
    }
  }

  lemma ReceiveMore(s: Suite, id: string, keys: map<int, Key>, arrivals: seq<Arrival>, a: Arrival)
    requires Salted(s)
    ensures var (e, outs) := Receive(s, id, keys, arrivals);
            var (e', out) := ReceiveOne(s, id, keys, e, a);
            Receive(s, id, keys, arrivals + [a]) ==
            (e', if out.Some? then outs + [Output(|arrivals|, out.value)] else outs)
  {
    assert (arrivals + [a])[..|arrivals|] == arrivals;
  }

  lemma {:induction false} RunCorresponds(s: Suite, id: string, keys: map<int, Key>, sent: seq<SentFrame>,
                                          arrivals: seq<Arrival>)
    returns (ids: seq<nat>, acc: map<int, set<nat>>)
    requires Salted(s) && LowBytesDiffer(keys) && AllHarmless(s, id, keys, sent, arrivals)
    ensures var (e, outs) := Receive(s, id, keys, arrivals);
            Corresponds(s, keys, sent, arrivals, e, outs, ids, acc)
  {
    if arrivals == [] {
      ids, acc := [], map[];
    } else {
      var n := |arrivals| - 1;
      HarmlessPrefix(s, id, keys, sent, arrivals);
      ids, acc := RunCorresponds(s, id, keys, sent, arrivals[..n]);
      var (e, outs) := Receive(s, id, keys, arrivals[..n]);
      ids, acc := CorrespondsMore(s, id, keys, sent, arrivals[..n], e, outs, ids, acc, arrivals[n]);
      ReceiveMore(s, id, keys, arrivals[..n], arrivals[n]);
      assert arrivals == arrivals[..n] + [arrivals[n]];
    }
  }

  lemma HarmlessPrefix(s: Suite, id: string, keys: map<int, Key>, sent: seq<SentFrame>, arrivals: seq<Arrival>)
    requires Salted(s) && arrivals != [] && AllHarmless(s, id, keys, sent, arrivals)
    ensures AllHarmless(s, id, keys, sent, arrivals[..|arrivals| - 1])
  {
    var before := arrivals[..|arrivals| - 1];
    forall k | 0 <= k < |before|
      ensures Harmless(s, id, keys, sent, Receive(s, id, keys, before[..k]).0, before[k])
    {
      assert before[..k] == arrivals[..k];
    }
  }

  /** Authentic delivery: whatever the network does, each frame enqueued is, byte for
      byte, the sent frame that the delivery which led to it names, and no two
      deliveries that lead to an output name the same frame. */
  lemma AuthenticDelivery(s: Suite, id: string, keys: map<int, Key>, sent: seq<SentFrame>, arrivals: seq<Arrival>)
    returns (ids: seq<nat>)
    requires Salted(s) && LowBytesDiffer(keys) && AllUnforged(s, id, keys, sent, arrivals)
    ensures Matches(sent, arrivals, Receive(s, id, keys, arrivals).1, ids)
  {
    var acc;
    ids, acc := RunCorresponds(s, id, keys, sent, arrivals);
  }

  // ---- Complete delivery inside the window ----

  /** AES-GCM decrypts what it encrypted, and appends a 16-byte tag. */
  ghost predicate Correct(s: Suite) {
    forall key, nonce, aad, plain ::
      && s.open(key, nonce, aad, s.seal(key, nonce, aad, plain)) == Some(plain)
      && |s.seal(key, nonce, aad, plain)| == |plain| + GCM_TAG
  }

  /** What an unaltered frame with this counter does to its chain and window. */
  ghost function Arrive(s: Suite, c: Chain, w: Option<Window>, ctr: nat): (Chain, Option<Window>, bool) {
    var (w', ok) := Check(w, ctr);
    if !ok then (c, w, false)
    else
      var (c', key) := DecryptionStep(s, c, ctr);
      (c', w', key.Some?)
  }

  ghost function WindowOf(e: Session, kid: int): Option<Window> {
    WindowAt(e.windows, kid)
  }

  /** Delivering an unaltered frame of an installed key touches only that key's
      chain and window, and enqueues the original exactly when they let it through. */
  lemma UnalteredDelivery(s: Suite, id: string, keys: map<int, Key>, e: Session, f: SentFrame, at: nat)
    requires Salted(s) && Correct(s) && LowBytesDiffer(keys)
    requires EntriesOk(s, keys, e.entries) && SaltsOk(e.entries)
    requires at < |e.entries| && e.entries[at].keyId == f.keyId
    requires WellSealed(s, id, keys, f) && f.ctr < COUNTERS
    ensures var kid := f.keyId % 0x100;
            var (c, w, ok) := Arrive(s, e.entries[at], WindowOf(e, kid), f.ctr);
            var (e', out) := Decrypt(s, id, e, f.wire);
            && e'.entries == e.entries[at := c] && WindowOf(e', kid) == w
            && (forall k :: k != kid ==> WindowOf(e', k) == WindowOf(e, k))
            && out == if ok then Some(f.frame.data) else None
  {
    var c := e.entries[at];
    assert c in e.entries;
    var p := WireParses(s, id, keys, f);
    FoundAt(keys, s, e.entries, at);
    MatchingUnaltered(s, id, keys, e, f, at, p);
  }

  lemma MatchingUnaltered(s: Suite, id: string, keys: map<int, Key>, e: Session, f: SentFrame, at: nat, p: Parsed)
    requires SaltsOk(e.entries) && at < |e.entries| && f.keyId in keys && f.ctr >= 1
    requires Installed(s, keys, e.entries[at]) && e.entries[at].keyId == f.keyId
    requires |p.header| == HEADER && p.Kid() == f.keyId % 0x100 && p.Ctr() == f.ctr
    requires |s.baseSalt(keys[f.keyId], f.keyId)| == 12
    requires var key := MessageKeyAt(s, Root(s, keys, f.keyId), f.ctr);
             var nonce := ComputeNonce(s.baseSalt(keys[f.keyId], f.keyId), f.ctr);
             var plain := s.open(key, nonce, BuildAad(s, id, p.codec, p.header), p.ciphertext);
             plain.Some? && p.codec + plain.value == f.frame.data
    ensures var kid := f.keyId % 0x100;
            var (c, w, ok) := Arrive(s, e.entries[at], WindowOf(e, kid), f.ctr);
            var (e', attempt) := TryMatching(s, id, e, at, p);
            && e'.entries == e.entries[at := c] && WindowOf(e', kid) == w
            && (forall k :: k != kid ==> WindowOf(e', k) == WindowOf(e, k))
            && attempt == if ok then Enqueue(f.frame.data) else Drop
  {
    var c := e.entries[at];
    DecryptionGenuine(s, Root(s, keys, f.keyId), c, f.ctr);
    SameSalt(s, c, f.ctr);
    assert e.entries[at := c] == e.entries;
  }

  /** The receiver parses an unaltered frame into the parts that were sealed. */
  lemma WireParses(s: Suite, id: string, keys: map<int, Key>, f: SentFrame) returns (p: Parsed)
    requires Salted(s) && Correct(s) && WellSealed(s, id, keys, f) && f.ctr < COUNTERS
    ensures Parse(f.wire) == Some(p) && |p.header| == HEADER
    ensures p.Kid() == f.keyId % 0x100 && p.Ctr() == f.ctr
    ensures p.codec == f.frame.data[..ClearBytes(f.frame)] && p.header == Header(f.keyId, f.ctr)
    ensures var key := MessageKeyAt(s, Root(s, keys, f.keyId), f.ctr);
            var nonce := ComputeNonce(s.baseSalt(keys[f.keyId], f.keyId), f.ctr);
            var plain := s.open(key, nonce, BuildAad(s, id, p.codec, p.header), p.ciphertext);
            plain.Some? && p.codec + plain.value == f.frame.data
  {
    var codec := f.frame.data[..ClearBytes(f.frame)];
    var payload := f.frame.data[ClearBytes(f.frame)..];
    var key := MessageKeyAt(s, Root(s, keys, f.keyId), f.ctr);
    var nonce := ComputeNonce(s.baseSalt(keys[f.keyId], f.keyId), f.ctr);
    var header := Header(f.keyId, f.ctr);
    p := Parsed(codec, header, s.seal(key, nonce, BuildAad(s, id, codec, header), payload));
    ParseAssemble(p);
    HeaderParts(f.keyId, f.ctr, p);
    assert f.frame.data == codec + payload;
  }

  lemma FoundAt(keys: map<int, Key>, s: Suite, entries: seq<Chain>, at: nat)
    requires LowBytesDiffer(keys) && EntriesOk(s, keys, entries) && at < |entries|
    ensures FindEntry(entries, entries[at].keyId % 0x100) == Some(at)
  {
    var found := FindEntry(entries, entries[at].keyId % 0x100);
    assert found.Some?;
    assert entries[found.value] in entries && entries[at] in entries;
  }

  /** Chain and window agree: the counters whose keys were handed out are those the
      window accepted, and the chain stands just past the highest. */
  ghost predicate InStep(c: Chain, w: Option<Window>, accepted: set<nat>, first: nat) {
    && c.caughtUp && w.Some? && c.nextCtr == w.value.highest + 1 && first in accepted
    && Represents(w, accepted) && Tracks(c, accepted, first)
    && (forall k :: k in c.skipped ==> 1 <= k < c.nextCtr)
  }

  /** From the first decrypted counter on, a frame is enqueued exactly when it is
      fresh and skips at most MAX_SKIP counters after the highest; otherwise chain
      and window stay in step unless it skips more. */
  lemma ArriveExactly(s: Suite, root: Key, c: Chain, w: Option<Window>, accepted: set<nat>, first: nat, ctr: nat)
    requires InStep(c, w, accepted, first) && Genuine(s, root, c) && ctr >= first
    ensures var near := ctr <= w.value.highest + MAX_SKIP + 1;
            var (c', w', ok) := Arrive(s, c, w, ctr);
            && (ok <==> Fresh(accepted, w.value.highest, ctr) && near)
            && (near ==> Genuine(s, root, c')
                         && InStep(c', w', if ok then accepted + {ctr} else accepted, first))
  {
    CheckRefines(w, accepted, ctr);
    DecryptionGenuine(s, root, c, ctr);
    DecryptionTracks(s, c, accepted, first, ctr);
    var (c', w', ok) := Arrive(s, c, w, ctr);
    if Check(w, ctr).1 && ctr < c.nextCtr {
      assert ctr in c.skipped;
    }
  }

  /** Unaltered frames of one freshly learned key arriving in order of delivery. */
  ghost function ArriveAll(s: Suite, c: Chain, ctrs: seq<nat>): (r: (Chain, Option<Window>, seq<bool>))
    ensures |r.2| == |ctrs|
  {
    if ctrs == [] then (c, None, [])
    else
      var n := |ctrs| - 1;
      var (before, w, oks) := ArriveAll(s, c, ctrs[..n]);
      var (after, w', ok) := Arrive(s, before, w, ctrs[n]);
      (after, w', oks + [ok])
  }

  /** Both ends together: after any admissible sending run and any receiving run
      against an arbitrary network, what was enqueued are the originals of the frames
      the deliveries name, none twice; and delivering next any sent frame unaltered,
      under an installed key, enqueues its original exactly when chain and window let
      it through. */
  lemma EndToEnd(s: Suite, id: string, keys: map<int, Key>, events: seq<Event>, arrivals: seq<Arrival>)
    returns (ids: seq<nat>)
    requires Salted(s) && Correct(s) && LowBytesDiffer(keys)
    requires Admissible(s, id, keys, events) && |events| < COUNTERS
    requires AllHarmless(s, id, keys, Run(s, id, events).1, arrivals)
    ensures var sent := Run(s, id, events).1;
            var (e, outs) := Receive(s, id, keys, arrivals);
            && Matches(sent, arrivals, outs, ids)
            && forall i, at :: 0 <= i < |sent| && 0 <= at < |e.entries| && e.entries[at].keyId == sent[i].keyId ==>
                 Decrypt(s, id, e, sent[i].wire).1 ==
                 (if Arrive(s, e.entries[at], WindowOf(e, sent[i].keyId % 0x100), sent[i].ctr).2
                  then Some(sent[i].frame.data) else None)
  {
    var sent := Run(s, id, events).1;
    var e := Receive(s, id, keys, arrivals).0;
    LockstepAlways(s, id, keys, events);
    var acc;
    ids, acc := RunCorresponds(s, id, keys, sent, arrivals);
    forall i, at | 0 <= i < |sent| && 0 <= at < |e.entries| && e.entries[at].keyId == sent[i].keyId
      ensures Decrypt(s, id, e, sent[i].wire).1 ==
              (if Arrive(s, e.entries[at], WindowOf(e, sent[i].keyId % 0x100), sent[i].ctr).2
               then Some(sent[i].frame.data) else None)
    {
      CounterFits(sent, i);
      UnalteredDelivery(s, id, keys, e, sent[i], at);
    }
  }

  lemma CounterFits(sent: seq<SentFrame>, i: nat)
    requires Numbered(sent) && i < |sent|
    ensures sent[i].ctr <= |sent|
  {
    assert NumberedAt(sent, i);
    SentUnderGrows(sent, i, i, sent[i].keyId);
  }
}
