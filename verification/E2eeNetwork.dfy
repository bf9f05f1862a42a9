/** Networks that lose, reorder and repeat frames but do not alter them: there the
    absence of forgeries need not be assumed. */
module E2eeNetwork {
  import opened Common
  import opened KdfChain
  import opened FrameFormat
  import opened E2eeSession
  import opened E2eeSender
  import opened E2eeReceiver

  /** The message key of another key id does not decrypt the frame. */
  ghost predicate OtherKeyFails(s: Suite, id: string, keys: map<int, Key>, f: SentFrame, keyId: int)
    requires Salted(s)
  {
    keyId in keys && keyId != f.keyId && Parse(f.wire).Some? && Parse(f.wire).value.Ctr() >= 1 ==>
      OpenUnder(s, id, keys, keyId, Parse(f.wire).value).None?
  }

  /** No sent frame decrypts under another key id of the table. */
  ghost predicate NoCrossOpening(s: Suite, id: string, keys: map<int, Key>, sent: seq<SentFrame>)
    requires Salted(s)
  {
    forall i, keyId :: 0 <= i < |sent| ==> OtherKeyFails(s, id, keys, sent[i], keyId)
  }

  ghost predicate CarriesFrame(sent: seq<SentFrame>, a: Arrival, i: nat) {
    a.Deliver? && i < |sent| && a.data == sent[i].wire
  }

  /** Every delivery is some sent frame; any may be missing, out of order or repeated. */
  ghost predicate Unaltered(sent: seq<SentFrame>, arrivals: seq<Arrival>) {
    forall k :: 0 <= k < |arrivals| && arrivals[k].Deliver? ==> exists i: nat :: CarriesFrame(sent, arrivals[k], i)
  }

  ghost predicate HasKey(e: Session, keyId: int) {
    exists at: nat :: at < |e.entries| && e.entries[at].keyId == keyId
  }

  /** Frames are delivered only while their keys are installed. */
  ghost predicate KeysInstalled(s: Suite, id: string, keys: map<int, Key>, sent: seq<SentFrame>, arrivals: seq<Arrival>)
    requires Salted(s)
  {
    forall k, i: nat :: 0 <= k < |arrivals| && CarriesFrame(sent, arrivals[k], i) ==>
      HasKey(Receive(s, id, keys, arrivals[..k]).0, sent[i].keyId)
  }

  /** Each output comes from a delivery of the very frame it is the original of. */
  ghost predicate FromOwnFrame(sent: seq<SentFrame>, arrivals: seq<Arrival>, outs: seq<Output>, ids: seq<nat>) {
    |ids| == |outs| &&
    forall j :: 0 <= j < |outs| ==> outs[j].at < |arrivals| && CarriesFrame(sent, arrivals[outs[j].at], ids[j])
  }

  /** A sent frame that arrives as it was sent is no forgery. */
  lemma SentIsUnforged(s: Suite, id: string, keys: map<int, Key>, sent: seq<SentFrame>, i: nat)
    requires Salted(s) && Correct(s) && NoCrossOpening(s, id, keys, sent)
    requires i < |sent| && WellSealed(s, id, keys, sent[i]) && sent[i].ctr < COUNTERS
    ensures Unforged(s, id, keys, sent, Deliver(sent[i].wire))
  {
    var f := sent[i];
    var p := WireParses(s, id, keys, f);
    var clear := ClearBytes(f.frame);
    forall keyId | keyId in keys
      ensures OpensAsSealed(s, id, keys, sent, p, keyId)
    {
      assert OtherKeyFails(s, id, keys, f, keyId);
      if keyId == f.keyId {
        var plain := OpenUnder(s, id, keys, keyId, p).value;
        assert (p.codec + plain)[clear..] == plain;
        assert SealedAs(s, id, sent, i, keyId, p.Ctr(), BuildAad(s, id, p.codec, p.header), plain);
      }
    }
  }

  /** Frames of a run are told apart by what their headers carry. */
  lemma HeaderNamesOneFrame(keys: map<int, Key>, sent: seq<SentFrame>, i: nat, j: nat)
    requires LowBytesDiffer(keys) && Numbered(sent) && i < |sent| && j < |sent|
    requires sent[i].keyId in keys && sent[j].keyId in keys
    requires sent[i].keyId % 0x100 == sent[j].keyId % 0x100 && sent[i].ctr == sent[j].ctr
    ensures i == j
  {
    if i < j {
      CountersIncrease(sent, i, j);
    } else if j < i {
      CountersIncrease(sent, j, i);
    }
  }

  lemma NamedIsCarried(s: Suite, id: string, keys: map<int, Key>, sent: seq<SentFrame>, a: Arrival, i: nat)
    requires Salted(s) && Correct(s) && LowBytesDiffer(keys) && Numbered(sent) && |sent| < COUNTERS
    requires forall k :: 0 <= k < |sent| ==> WellSealed(s, id, keys, sent[k])
    requires i < |sent| && Names(a, sent[i]) && exists k: nat :: CarriesFrame(sent, a, k)
    ensures CarriesFrame(sent, a, i)
  {
    var k: nat :| CarriesFrame(sent, a, k);
    CounterFits(sent, k);
    var _ := WireParses(s, id, keys, sent[k]);
    HeaderNamesOneFrame(keys, sent, i, k);
  }

  lemma OutputsFromOwnFrames(s: Suite, id: string, keys: map<int, Key>, sent: seq<SentFrame>, arrivals: seq<Arrival>,
                             outs: seq<Output>, ids: seq<nat>)
    requires Salted(s) && Correct(s) && LowBytesDiffer(keys) && Numbered(sent) && |sent| < COUNTERS
    requires forall k :: 0 <= k < |sent| ==> WellSealed(s, id, keys, sent[k])
    requires Unaltered(sent, arrivals) && Matches(sent, arrivals, outs, ids)
    ensures FromOwnFrame(sent, arrivals, outs, ids)
  {
    forall j | 0 <= j < |outs|
      ensures outs[j].at < |arrivals| && CarriesFrame(sent, arrivals[outs[j].at], ids[j])
    {
      assert IsOriginal(sent, arrivals, outs, ids, j);
      NamedIsCarried(s, id, keys, sent, arrivals[outs[j].at], ids[j]);
    }
  }

  /** For every sending run and every schedule of loss, reordering and duplication, what
      is enqueued are the originals of delivered frames, none twice. */
  lemma LossyNetworkDelivers(s: Suite, id: string, keys: map<int, Key>, events: seq<Event>, arrivals: seq<Arrival>)
    returns (ids: seq<nat>)
    requires Salted(s) && Correct(s) && LowBytesDiffer(keys)
    requires Admissible(s, id, keys, events) && |events| < COUNTERS
    requires NoCrossOpening(s, id, keys, Run(s, id, events).1)
    requires Unaltered(Run(s, id, events).1, arrivals)
    ensures var sent, outs := Run(s, id, events).1, Receive(s, id, keys, arrivals).1;
            Matches(sent, arrivals, outs, ids) && FromOwnFrame(sent, arrivals, outs, ids)
  {
    var sent := Run(s, id, events).1;
    LockstepAlways(s, id, keys, events);
    forall k | 0 <= k < |arrivals|
      ensures Unforged(s, id, keys, sent, arrivals[k])
    {
      if arrivals[k].Deliver? {
        var i: nat :| CarriesFrame(sent, arrivals[k], i);
        CounterFits(sent, i);
        SentIsUnforged(s, id, keys, sent, i);
      }
    }
    ids := AuthenticDelivery(s, id, keys, sent, arrivals);
    OutputsFromOwnFrames(s, id, keys, sent, arrivals, Receive(s, id, keys, arrivals).1, ids);
  }

  /** The same from correct decryption alone, when keys are installed before their frames
      arrive: the matching entry always decrypts, so no other key is ever tried. */
  lemma InstalledKeysDeliver(s: Suite, id: string, keys: map<int, Key>, events: seq<Event>, arrivals: seq<Arrival>)
    returns (ids: seq<nat>)
    requires Salted(s) && Correct(s) && LowBytesDiffer(keys)
    requires Admissible(s, id, keys, events) && |events| < COUNTERS
    requires Unaltered(Run(s, id, events).1, arrivals)
    requires KeysInstalled(s, id, keys, Run(s, id, events).1, arrivals)
    ensures var sent, outs := Run(s, id, events).1, Receive(s, id, keys, arrivals).1;
            Matches(sent, arrivals, outs, ids) && FromOwnFrame(sent, arrivals, outs, ids)
  {
    var sent := Run(s, id, events).1;
    LockstepAlways(s, id, keys, events);
    forall k | 0 <= k < |arrivals|
      ensures Harmless(s, id, keys, sent, Receive(s, id, keys, arrivals[..k]).0, arrivals[k])
    {
      if arrivals[k].Deliver? {
        var e := Receive(s, id, keys, arrivals[..k]).0;
        var i: nat :| CarriesFrame(sent, arrivals[k], i);
        CounterFits(sent, i);
        var at: nat :| at < |e.entries| && e.entries[at].keyId == sent[i].keyId;
        assert KnownFrame(s, id, keys, sent, e, arrivals[k], i, at);
      }
    }
    var acc;
    ids, acc := RunCorresponds(s, id, keys, sent, arrivals);
    OutputsFromOwnFrames(s, id, keys, sent, arrivals, Receive(s, id, keys, arrivals).1, ids);
  }

  // ---- The assumptions are consistent with a 16-byte tag ----

  function Zeros(n: nat): (r: seq<byte>)
    ensures |r| == n
  {
    if n == 0 then [] else [0] + Zeros(n - 1)
  }

  /** A tag that shows the first byte of the key. */
  function Tag(key: Key): (r: seq<byte>)
    ensures |r| == GCM_TAG
  {
    [if key == [] then 0 else key[0]] + Zeros(GCM_TAG - 1)
  }

  /** Sealing appends the tag; opening checks and strips it. Chains keep their first byte,
      which is the low byte of the key id. */
  function Toy(): Suite {
    Suite(
      (rawKey: Key, keyId: int) => [keyId % 0x100],
      (rawKey: Key, keyId: int) => Zeros(12),
      (ck: Key) => ck,
      (ck: Key) => ck + [0],
      (text: string) => [],
      (key, nonce, aad, plain) => plain + Tag(key),
      (key, nonce, aad, ciphertext) =>
        var n := |ciphertext| - GCM_TAG;
        if n >= 0 && ciphertext[n..] == Tag(key) then Some(ciphertext[..n]) else None)
  }

  lemma ToyIsCorrect()
    ensures Salted(Toy()) && Correct(Toy())
  {
    var s := Toy();
    forall key, nonce, aad, plain
      ensures s.open(key, nonce, aad, s.seal(key, nonce, aad, plain)) == Some(plain)
      ensures |s.seal(key, nonce, aad, plain)| == |plain| + GCM_TAG
    {
      assert (plain + Tag(key))[|plain|..] == Tag(key) && (plain + Tag(key))[..|plain|] == plain;
    }
  }

  lemma {:induction false} ToyChainStarts(root: Key, n: nat)
    requires root != []
    ensures ChainAt(Toy(), root, n) != [] && ChainAt(Toy(), root, n)[0] == root[0]
  {
    if n > 0 {
      ToyChainStarts(root, n - 1);
    }
  }

  lemma ToyKeyStarts(keys: map<int, Key>, keyId: int, ctr: nat)
    requires keyId in keys && ctr >= 1
    ensures Tag(MessageKeyAt(Toy(), Root(Toy(), keys, keyId), ctr))[0] == keyId % 0x100
  {
    ToyChainStarts([keyId % 0x100], ctr - 1);
  }

  lemma ToyOtherKeyFails(id: string, keys: map<int, Key>, f: SentFrame, keyId: int)
    requires LowBytesDiffer(keys) && Salted(Toy()) && Correct(Toy())
    requires WellSealed(Toy(), id, keys, f) && f.ctr < COUNTERS
    ensures OtherKeyFails(Toy(), id, keys, f, keyId)
  {
    var s := Toy();
    var p := WireParses(s, id, keys, f);
    if keyId in keys && OpenUnder(s, id, keys, keyId, p).Some? {
      ToyKeyStarts(keys, keyId, f.ctr);
      ToyKeyStarts(keys, f.keyId, f.ctr);
      assert OpenUnder(s, id, keys, f.keyId, p).Some?;
    }
  }

  /** The assumptions about the primitives can be met together, by a cipher that expands
      by 16 bytes, for every key table and every sending run. */
  lemma AssumptionsConsistent(id: string, keys: map<int, Key>, events: seq<Event>)
    requires LowBytesDiffer(keys) && |events| < COUNTERS
    requires Salted(Toy()) ==> Admissible(Toy(), id, keys, events)
    ensures Salted(Toy()) && Correct(Toy())
    ensures NoCrossOpening(Toy(), id, keys, Run(Toy(), id, events).1)
  {
    ToyIsCorrect();
    LockstepAlways(Toy(), id, keys, events);
    var sent := Run(Toy(), id, events).1;
    forall i, keyId | 0 <= i < |sent|
      ensures OtherKeyFails(Toy(), id, keys, sent[i], keyId)
    {
      CounterFits(sent, i);
      ToyOtherKeyFails(id, keys, sent[i], keyId);
    }
  }
}
