/** The worker's tables for one participant, updated in place by frame handlers
    and key messages. Each method is the part that runs under the participant's
    chain lock, and is proved against the session functions. */
module E2eeWorker {
  import opened Common
  import opened Bits
  import opened KdfChain
  import opened ReplayWindow
  import opened FrameFormat
  import opened E2eeSession

  ghost function States(es: seq<ChainEntry>): (r: seq<Chain>)
    reads set e | e in es
    ensures |r| == |es| && forall i :: 0 <= i < |es| ==> r[i] == es[i].State()
  {
    seq(|es|, i requires 0 <= i < |es| reads set e | e in es => es[i].State())
  }

  function Others(es: seq<ChainEntry>, keyId: int): (r: seq<ChainEntry>)
    ensures forall e :: e in r ==> e in es
  {
    if es == [] then []
    else (if es[0].keyId != keyId then [es[0]] else []) + Others(es[1..], keyId)
  }

  function Kept(es: seq<ChainEntry>, keep: int): (r: seq<ChainEntry>)
    ensures forall e :: e in r ==> e in es
  {
    if es == [] then []
    else (if es[0].keyId >= keep then [es[0]] else []) + Kept(es[1..], keep)
  }

  lemma {:induction false} OthersStates(es: seq<ChainEntry>, keyId: int)
    ensures States(Others(es, keyId)) == WithoutKey(States(es), keyId)
  {
    if es != [] {
      OthersStates(es[1..], keyId);
      assert States(es)[1..] == States(es[1..]);
      StatesConcat(if es[0].keyId != keyId then [es[0]] else [], Others(es[1..], keyId));
    }
  }

  lemma {:induction false} KeptStates(es: seq<ChainEntry>, keep: int)
    ensures States(Kept(es, keep)) == FromKey(States(es), keep)
  {
    if es != [] {
      KeptStates(es[1..], keep);
      assert States(es)[1..] == States(es[1..]);
      StatesConcat(if es[0].keyId >= keep then [es[0]] else [], Kept(es[1..], keep));
    }
  }

  lemma {:induction false} FiltersDistinct(es: seq<ChainEntry>, keyId: int)
    requires Distinct(es)
    ensures Distinct(Others(es, keyId)) && Distinct(Kept(es, keyId))
  {
    if es != [] {
      FiltersDistinct(es[1..], keyId);
      assert es[0] !in es[1..];
    }
  }

  lemma StatesConcat(a: seq<ChainEntry>, b: seq<ChainEntry>)
    ensures States(a + b) == States(a) + States(b)
  {
  }

  class Participant {
    const suite: Suite
    const id: string
    var entries: seq<ChainEntry>
    var counters: map<int, nat>
    var windows: map<int, Window>

    ghost function View(): Session
      reads this, set e | e in entries
    {
      Session(States(entries), counters, windows)
    }

    ghost predicate Valid()
      reads this
    {
      Distinct(entries) && forall e :: e in entries ==> |e.salt| == 12
    }

    constructor (suite: Suite, id: string)
      ensures Valid() && this.suite == suite && this.id == id
      ensures View() == EMPTY_SESSION
    {
      this.suite := suite;
      this.id := id;
      this.entries := [];
      this.counters := map[];
      this.windows := map[];
    }

    method SetKey(rawKey: Key, keyId: int)
      requires Valid() && |suite.baseSalt(rawKey, keyId)| == 12
      modifies this`entries
      ensures Valid()
      ensures View() == E2eeSession.SetKey(suite, old(View()), rawKey, keyId)
    {
      var entry := new ChainEntry(suite, rawKey, keyId);
      OthersStates(entries, keyId);
      FiltersDistinct(entries, keyId);
      StatesConcat(Others(entries, keyId), [entry]);
      assert States([entry]) == [entry.State()];
      entries := Others(entries, keyId) + [entry];
    }

    method RemoveKeys()
      modifies this
      ensures Valid() && View() == EMPTY_SESSION
    {
      entries := [];
      counters := map[];
      windows := map[];
    }

    method PurgeOldKeys(keep: int)
      requires Valid()
      modifies this`entries
      ensures Valid()
      ensures View() == E2eeSession.PurgeOldKeys(old(View()), keep)
    {
      KeptStates(entries, keep);
      FiltersDistinct(entries, keep);
      entries := Kept(entries, keep);
    }

    method CheckReplay(kid: int, ctr: nat) returns (ok: bool)
      modifies this`windows
      ensures (windows, ok) == Recorded(old(windows), kid, ctr)
    {
      if kid !in windows {
        windows := windows[kid := Window(ctr, 1)];
        return true;
      }
      var win := windows[kid];
      if ctr > win.highest {
        var shift := ctr - win.highest;
        var bitmap := 1;
        if shift < WINDOW {
          bitmap := Or(Shl(win.bitmap, shift), 1);
        }
        windows := windows[kid := Window(ctr, bitmap)];
        return true;
      }
      var diff := win.highest - ctr;
      if diff >= WINDOW {
        return false;
      }
      var bit := Shl(1, diff);
      if And(win.bitmap, bit) != 0 {
        return false;
      }
      windows := windows[kid := win.(bitmap := Or(win.bitmap, bit))];
      return true;
    }

    method EncryptFrame(f: Frame) returns (out: Encrypted)
      requires Valid()
      modifies this`counters, entries
      ensures Valid() && entries == old(entries)
      ensures SaltsOk(old(View()).entries)
      ensures (View(), out) == Encrypt(suite, id, old(View()), f)
    {
      if |entries| == 0 {
        return NotReady;
      }
      var entry := entries[|entries| - 1];
      if ClearBytes(f) > |f.data| {
        return Threw;
      }
      ghost var before := View();
      var ctr := (if entry.keyId in counters then counters[entry.keyId] else 0) + 1;
      counters := counters[entry.keyId := ctr];
      assert ctr == NextCounter(before, entry.keyId);
      var key := entry.GetEncryptionKey(suite);
      StateUpdated(entries, before.entries, |entries| - 1);
      var wire := Seal(key, entry.salt, entry.keyId, ctr, f);
      out := Wire(wire);
    }

    method Seal(key: Key, salt: seq<byte>, keyId: int, ctr: nat, f: Frame) returns (wire: seq<byte>)
      requires |salt| == 12 && ClearBytes(f) <= |f.data|
      ensures wire == SealFrame(suite, id, key, salt, keyId, ctr, f)
    {
      var clear := ClearBytes(f);
      var codec, payload := f.data[..clear], f.data[clear..];
      var nonce := ComputeNonce(salt, ctr);
      var header := Header(keyId, ctr);
      var ciphertext := suite.seal(key, nonce, BuildAad(suite, id, codec, header), payload);
      wire := codec + header + ciphertext + [clear % 0x80];
    }

    /** The index of the first entry whose key id has the low byte kid. */
    method Find(kid: int) returns (r: Option<nat>)
      ensures r == FindEntry(States(entries), kid)
    {
      for i := 0 to |entries|
        invariant FindEntry(States(entries), kid) == FindFrom(States(entries), kid, i)
      {
        if entries[i].keyId % 0x100 == kid {
          return Some(i);
        }
      }
      return None;
    }

    /** Searches the other entries, last first, for a skipped key that opens p. */
    method SearchSkipped(tried: Option<nat>, p: Parsed) returns (r: Option<(nat, seq<byte>)>)
      requires Valid() && |p.header| == HEADER
      ensures SaltsOk(States(entries))
      ensures r == Fallback(suite, States(entries), tried, p.Ctr(), BuildAad(suite, id, p.codec, p.header),
                            p.ciphertext, |entries|)
    {
      var aad := BuildAad(suite, id, p.codec, p.header);
      ghost var es := States(entries);
      ghost var result := Fallback(suite, es, tried, p.Ctr(), aad, p.ciphertext, |es|);
      var i := |entries|;
      while i > 0
        invariant 0 <= i <= |entries|
        invariant Fallback(suite, es, tried, p.Ctr(), aad, p.ciphertext, i) == result
      {
        i := i - 1;
        if Some(i) != tried {
          var plain := TryCached(entries[i], p.Ctr(), aad, p.ciphertext);
          if plain.Some? {
            return Some((i, plain.value));
          }
        }
      }
      return None;
    }

    /** Decryption with the key an entry has cached for the counter, if it has one. */
    method TryCached(entry: ChainEntry, ctr: nat, aad: seq<byte>, ciphertext: seq<byte>) returns (r: Option<seq<byte>>)
      requires |entry.salt| == 12
      ensures r == TrySkipped(suite, entry.State(), ctr, aad, ciphertext)
    {
      if ctr < entry.nextCtr && ctr in entry.skipped {
        return suite.open(entry.skipped[ctr], ComputeNonce(entry.salt, ctr), aad, ciphertext);
      }
      return None;
    }

    method TryOthers(tried: Option<nat>, p: Parsed) returns (out: Option<seq<byte>>)
      requires Valid() && |p.header| == HEADER
      modifies this`windows, entries
      ensures Valid() && SaltsOk(old(View()).entries)
      ensures (View(), out) == FallbackStep(suite, id, old(View()), tried, p)
    {
      ghost var before := States(entries);
      var hit := SearchSkipped(tried, p);
      if hit.None? {
        return None;
      }
      var entry := entries[hit.value.0];
      entry.skipped := entry.skipped - {p.Ctr()};
      var _ := CheckReplay(entry.keyId % 0x100, p.Ctr());
      StateUpdated(entries, before, hit.value.0);
      out := Some(p.codec + hit.value.1);
    }

    /** Replay check, key derivation and decryption with entry i. */
    method TryMatch(i: nat, p: Parsed) returns (r: Attempt)
      requires Valid() && |p.header| == HEADER && i < |entries|
      modifies this`windows, entries
      ensures Valid() && entries == old(entries) && SaltsOk(old(View()).entries)
      ensures (View(), r) == TryMatching(suite, id, old(View()), i, p)
    {
      ghost var before := States(entries);
      var ok := CheckReplay(p.Kid(), p.Ctr());
      if !ok {
        return Drop;
      }
      var entry := entries[i];
      var key := entry.GetDecryptionKey(suite, p.Ctr());
      StateUpdated(entries, before, i);
      if key.None? {
        return Drop;
      }
      var plain := suite.open(key.value, ComputeNonce(entry.salt, p.Ctr()),
                              BuildAad(suite, id, p.codec, p.header), p.ciphertext);
      r := if plain.Some? then Enqueue(p.codec + plain.value) else FallThrough;
    }

    method DecryptFrame(data: seq<byte>) returns (out: Option<seq<byte>>)
      requires Valid()
      modifies this`windows, entries
      ensures Valid() && SaltsOk(old(View()).entries)
      ensures (View(), out) == Decrypt(suite, id, old(View()), data)
    {
      var parsed := Parse(data);
      if |entries| == 0 || parsed.None? {
        return None;
      }
      var p := parsed.value;
      var found := Find(p.Kid());
      if found.Some? {
        var r := TryMatch(found.value, p);
        if r.Enqueue? {
          return Some(r.data);
        }
        if r.Drop? {
          return None;
        }
      }
      out := TryOthers(found, p);
    }
  }

  /** Only entry i changed. */
  lemma StateUpdated(es: seq<ChainEntry>, before: seq<Chain>, i: nat)
    requires |before| == |es| && i < |es|
    requires forall j :: 0 <= j < |es| && j != i ==> es[j].State() == before[j]
    ensures States(es) == before[i := es[i].State()]
  {
  }
}
