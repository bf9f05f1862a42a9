/** The worker's state for one participant, and what each handler does to it. */
module E2eeSession {
  import opened Common
  import opened KdfChain
  import opened ReplayWindow
  import opened FrameFormat

  datatype Session = Session(entries: seq<Chain>, counters: map<int, nat>, windows: map<int, Window>)

  ghost predicate SaltsOk(entries: seq<Chain>) {
    forall c :: c in entries ==> |c.salt| == 12
  }

  const EMPTY_SESSION := Session([], map[], map[])

  /** What one encrypt call did: no key installed, an exception because the clear
      header is longer than the frame, or a frame on the wire. */
  datatype Encrypted = NotReady | Threw | Wire(data: seq<byte>)

  function WithoutKey(entries: seq<Chain>, keyId: int): (r: seq<Chain>)
    ensures forall c :: c in r <==> c in entries && c.keyId != keyId
  {
    if entries == [] then []
    else (if entries[0].keyId != keyId then [entries[0]] else []) + WithoutKey(entries[1..], keyId)
  }

  function FromKey(entries: seq<Chain>, keep: int): (r: seq<Chain>)
    ensures forall c :: c in r <==> c in entries && c.keyId >= keep
  {
    if entries == [] then []
    else (if entries[0].keyId >= keep then [entries[0]] else []) + FromKey(entries[1..], keep)
  }

  /** setKey: replaces the chain of the same key id; counters and windows stay. */
  function SetKey(s: Suite, e: Session, rawKey: Key, keyId: int): Session {
    e.(entries := WithoutKey(e.entries, keyId) + [InitChain(s, rawKey, keyId)])
  }

  function PurgeOldKeys(e: Session, keep: int): Session {
    e.(entries := FromKey(e.entries, keep))
  }

  function NextCounter(e: Session, keyId: int): nat {
    (if keyId in e.counters then e.counters[keyId] else 0) + 1
  }

  /** The bytes of frame f sealed under a message key. */
  function SealFrame(s: Suite, id: string, key: Key, salt: seq<byte>, keyId: int, ctr: nat, f: Frame): seq<byte>
    requires |salt| == 12 && ClearBytes(f) <= |f.data|
  {
    var codec := f.data[..ClearBytes(f)];
    var header := Header(keyId, ctr);
    Assemble(Parsed(codec, header,
      s.seal(key, ComputeNonce(salt, ctr), BuildAad(s, id, codec, header), f.data[ClearBytes(f)..])))
  }

  /** encryptFrame */
  function Encrypt(s: Suite, id: string, e: Session, f: Frame): (Session, Encrypted)
    requires SaltsOk(e.entries)
  {
    if e.entries == [] then (e, NotReady)
    else if ClearBytes(f) > |f.data| then (e, Threw)
    else
      var n := |e.entries| - 1;
      var c := e.entries[n];
      var ctr := NextCounter(e, c.keyId);
      var (c', key) := EncryptionStep(s, c);
      (e.(entries := e.entries[n := c'], counters := e.counters[c.keyId := ctr]),
       Wire(SealFrame(s, id, key, c.salt, c.keyId, ctr, f)))
  }

  /** The first entry whose key id has the given low byte. */
  function FindEntry(entries: seq<Chain>, kid: int): (r: Option<nat>)
    ensures r.Some? ==> r.value < |entries| && entries[r.value].keyId % 0x100 == kid
    ensures r.None? ==> forall i :: 0 <= i < |entries| ==> entries[i].keyId % 0x100 != kid
    ensures r.Some? ==> forall i :: 0 <= i < r.value ==> entries[i].keyId % 0x100 != kid
  {
    FindFrom(entries, kid, 0)
  }

  function FindFrom(entries: seq<Chain>, kid: int, i: nat): (r: Option<nat>)
    requires i <= |entries|
    ensures r.Some? ==> i <= r.value < |entries| && entries[r.value].keyId % 0x100 == kid
    ensures r.None? ==> forall j :: i <= j < |entries| ==> entries[j].keyId % 0x100 != kid
    ensures r.Some? ==> forall j :: i <= j < r.value ==> entries[j].keyId % 0x100 != kid
    decreases |entries| - i
  {
    if i == |entries| then None
    else if entries[i].keyId % 0x100 == kid then Some(i)
    else FindFrom(entries, kid, i + 1)
  }

  /** A skipped key of entry i opens the ciphertext. */
  function TrySkipped(s: Suite, c: Chain, ctr: nat, aad: seq<byte>, ciphertext: seq<byte>): Option<seq<byte>>
    requires |c.salt| == 12
  {
    if ctr < c.nextCtr && ctr in c.skipped
    then s.open(c.skipped[ctr], ComputeNonce(c.salt, ctr), aad, ciphertext)
    else None
  }

  /** The fallback loop: entries below n, last first, except the one already tried. */
  function Fallback(s: Suite, entries: seq<Chain>, tried: Option<nat>, ctr: nat, aad: seq<byte>,
                    ciphertext: seq<byte>, n: nat): (r: Option<(nat, seq<byte>)>)
    requires n <= |entries|
    requires SaltsOk(entries)
    ensures r.Some? ==> && r.value.0 < n && Some(r.value.0) != tried
                        && TrySkipped(s, entries[r.value.0], ctr, aad, ciphertext) == Some(r.value.1)
  {
    if n == 0 then None
    else if Some(n - 1) == tried then Fallback(s, entries, tried, ctr, aad, ciphertext, n - 1)
    else
      match TrySkipped(s, entries[n - 1], ctr, aad, ciphertext)
      case Some(p) => Some((n - 1, p))
      case None => Fallback(s, entries, tried, ctr, aad, ciphertext, n - 1)
  }

  function FallbackStep(s: Suite, id: string, e: Session, tried: Option<nat>, p: Parsed)
    : (r: (Session, Option<seq<byte>>))
    requires |p.header| == HEADER && SaltsOk(e.entries)
    ensures SaltsOk(r.0.entries)
  {
    match Fallback(s, e.entries, tried, p.Ctr(), BuildAad(s, id, p.codec, p.header), p.ciphertext, |e.entries|)
    case None => (e, None)
    case Some((i, plain)) =>
      var c := e.entries[i];
      (e.(entries := e.entries[i := c.(skipped := c.skipped - {p.Ctr()})],
          windows := Recorded(e.windows, c.keyId % 0x100, p.Ctr()).0),
       Some(p.codec + plain))
  }

  /** Entry i is the latest, other than the one tried, whose cached key opens the
      ciphertext. */
  ghost predicate OpensLast(s: Suite, entries: seq<Chain>, tried: Option<nat>, ctr: nat, aad: seq<byte>,
                            ciphertext: seq<byte>, i: nat)
    requires SaltsOk(entries)
  {
    && i < |entries| && Some(i) != tried
    && TrySkipped(s, entries[i], ctr, aad, ciphertext).Some?
    && forall j :: i < j < |entries| && Some(j) != tried ==> TrySkipped(s, entries[j], ctr, aad, ciphertext).None?
  }

  /** Nothing above the entry found opens, and nothing at all if none is found. */
  lemma {:induction false} FallbackLatest(s: Suite, entries: seq<Chain>, tried: Option<nat>, ctr: nat, aad: seq<byte>,
                                          ciphertext: seq<byte>, n: nat, j: nat)
    requires j < n <= |entries| && SaltsOk(entries) && Some(j) != tried
    requires TrySkipped(s, entries[j], ctr, aad, ciphertext).Some?
    ensures var r := Fallback(s, entries, tried, ctr, aad, ciphertext, n); r.Some? && j <= r.value.0
  {
    hide TrySkipped;
    if j < n - 1 {
      FallbackLatest(s, entries, tried, ctr, aad, ciphertext, n - 1, j);
    }
  }

  lemma FallbackFinds(s: Suite, entries: seq<Chain>, tried: Option<nat>, ctr: nat, aad: seq<byte>,
                      ciphertext: seq<byte>, i: nat)
    requires SaltsOk(entries) && OpensLast(s, entries, tried, ctr, aad, ciphertext, i)
    ensures Fallback(s, entries, tried, ctr, aad, ciphertext, |entries|)
         == Some((i, TrySkipped(s, entries[i], ctr, aad, ciphertext).value))
  {
    hide TrySkipped;
    FallbackLatest(s, entries, tried, ctr, aad, ciphertext, |entries|, i);
  }

  /** The fallback takes the latest entry other than the one tried whose cached key opens
      the frame, spends that key, and records the counter for that entry's key id. */
  lemma FallbackOpens(s: Suite, id: string, e: Session, tried: Option<nat>, p: Parsed, i: nat)
    requires |p.header| == HEADER && SaltsOk(e.entries)
    requires OpensLast(s, e.entries, tried, p.Ctr(), BuildAad(s, id, p.codec, p.header), p.ciphertext, i)
    ensures var aad := BuildAad(s, id, p.codec, p.header);
            var c := e.entries[i];
            var (e', out) := FallbackStep(s, id, e, tried, p);
            && out == Some(p.codec + TrySkipped(s, c, p.Ctr(), aad, p.ciphertext).value)
            && e' == Session(e.entries[i := c.(skipped := c.skipped - {p.Ctr()})], e.counters,
                             Recorded(e.windows, c.keyId % 0x100, p.Ctr()).0)
  {
    FallbackFinds(s, e.entries, tried, p.Ctr(), BuildAad(s, id, p.codec, p.header), p.ciphertext, i);
  }

  /** With no such entry the frame is dropped and nothing changes. */
  lemma FallbackDrops(s: Suite, id: string, e: Session, tried: Option<nat>, p: Parsed)
    requires |p.header| == HEADER && SaltsOk(e.entries)
    ensures FallbackStep(s, id, e, tried, p) == (e, None) <==>
            forall i: nat :: !OpensLast(s, e.entries, tried, p.Ctr(), BuildAad(s, id, p.codec, p.header), p.ciphertext, i)
  {
    hide TrySkipped;
    var aad := BuildAad(s, id, p.codec, p.header);
    var r := Fallback(s, e.entries, tried, p.Ctr(), aad, p.ciphertext, |e.entries|);
    if r.Some? {
      forall j | r.value.0 < j < |e.entries| && Some(j) != tried
        ensures TrySkipped(s, e.entries[j], p.Ctr(), aad, p.ciphertext).None?
      {
        if TrySkipped(s, e.entries[j], p.Ctr(), aad, p.ciphertext).Some? {
          FallbackLatest(s, e.entries, tried, p.Ctr(), aad, p.ciphertext, |e.entries|, j);
        }
      }
      assert OpensLast(s, e.entries, tried, p.Ctr(), aad, p.ciphertext, r.value.0);
    } else {
      forall i: nat
        ensures !OpensLast(s, e.entries, tried, p.Ctr(), aad, p.ciphertext, i)
      {
        if OpensLast(s, e.entries, tried, p.Ctr(), aad, p.ciphertext, i) {
          FallbackLatest(s, e.entries, tried, p.Ctr(), aad, p.ciphertext, |e.entries|, i);
        }
      }
    }
  }

  /** What trying the entry named by the key id byte led to. */
  datatype Attempt = Enqueue(data: seq<byte>) | Drop | FallThrough

  /** The replay check, key derivation and decryption with entry i. */
  ghost function TryMatching(s: Suite, id: string, e: Session, i: nat, p: Parsed): (r: (Session, Attempt))
    requires |p.header| == HEADER && SaltsOk(e.entries) && i < |e.entries|
    ensures SaltsOk(r.0.entries)
  {
    var (windows, ok) := Recorded(e.windows, p.Kid(), p.Ctr());
    if !ok then (e, Drop)
    else
      var (c, key) := DecryptionStep(s, e.entries[i], p.Ctr());
      SameSalt(s, e.entries[i], p.Ctr());
      var e' := e.(entries := e.entries[i := c], windows := windows);
      if key.None? then (e', Drop)
      else
        match s.open(key.value, ComputeNonce(c.salt, p.Ctr()), BuildAad(s, id, p.codec, p.header), p.ciphertext)
        case Some(plain) => (e', Enqueue(p.codec + plain))
        case None => (e', FallThrough)
  }

  /** The lock-held body of decryptFrame on a frame that parses. */
  ghost function DecryptParsed(s: Suite, id: string, e: Session, p: Parsed): (r: (Session, Option<seq<byte>>))
    requires |p.header| == HEADER && SaltsOk(e.entries)
    ensures SaltsOk(r.0.entries)
  {
    match FindEntry(e.entries, p.Kid())
    case None => FallbackStep(s, id, e, None, p)
    case Some(i) =>
      var (e', attempt) := TryMatching(s, id, e, i, p);
      match attempt
      case Enqueue(data) => (e', Some(data))
      case Drop => (e', None)
      case FallThrough => FallbackStep(s, id, e', Some(i), p)
  }

  lemma SameSalt(s: Suite, c: Chain, ctr: nat)
    ensures DecryptionStep(s, c, ctr).0.salt == c.salt
    ensures DecryptionStep(s, c, ctr).0.keyId == c.keyId
  {
  }

  /** decryptFrame: the new state and the frame enqueued, if any. */
  ghost function Decrypt(s: Suite, id: string, e: Session, data: seq<byte>): (r: (Session, Option<seq<byte>>))
    requires SaltsOk(e.entries)
    ensures SaltsOk(r.0.entries)
  {
    if e.entries == [] then (e, None)
    else
      match Parse(data)
      case None => (e, None)
      case Some(p) => DecryptParsed(s, id, e, p)
  }
}
