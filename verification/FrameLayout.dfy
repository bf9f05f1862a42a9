/** What an encrypted frame looks like on the wire, byte by byte: the clear part, the key
    id and counter, the nonce and the authenticated data, and which received frames parse. */
module FrameLayout {
  import opened Common
  import opened Bits
  import opened KdfChain
  import opened FrameFormat
  import opened E2eeSession
  import opened E2eeSender

  lemma HoldsOne(b: seq<byte>, i: nat, x: u32, y: u32)
    requires Holds32(b, i, x) && Holds32(b, i, y)
    ensures x == y
  {
  }

  lemma WordAt(b: seq<byte>, i: nat)
    requires i + 4 <= |b|
    ensures Holds32(b, i, Get32(b[i..i + 4]))
  {
    PutGet32(b[i..i + 4]);
    PutHolds32(b, i, Get32(b[i..i + 4]));
  }

  /** The nonce is the salt with the counter's low 32 bits mixed into its last word, each
      digit of the counter into the digit of the same weight. */
  lemma NonceMixes(salt: seq<byte>, ctr: nat, x: u32, w: u32, i: nat)
    requires |salt| == 12 && Holds32(salt, 8, x) && Holds32(ComputeNonce(salt, ctr), 8, w) && i < 32
    ensures ComputeNonce(salt, ctr)[..8] == salt[..8]
    ensures Bit(w, i) == (Bit(x, i) != Bit(ctr, i))
  {
    var nonce := ComputeNonce(salt, ctr);
    WordAt(salt, 8);
    assert salt[8..12] == salt[8..];
    HoldsOne(salt, 8, x, Get32(salt[8..]));
    assert nonce[8..12] == Put32(Mix(x, ctr));
    PutHolds32(nonce, 8, Mix(x, ctr));
    HoldsOne(nonce, 8, w, Mix(x, ctr));
    BitOfXor(x, ctr % COUNTERS, i);
    BitBelow(ctr % COUNTERS, ctr / COUNTERS, 32, i);
    ShlTimes(ctr / COUNTERS, 32);
    WordWidth();
  }

  predicate Vp9(f: Frame) {
    f.payloadType.Some? && 100 <= f.payloadType.value < 110
  }

  /** What stays readable for the decoders: nothing of audio; the frame tag of VP8, and the
      start code and dimensions too of its key frames, whose first bit is clear; one byte of
      VP9, or three if the low profile bit is set and no existing frame is shown. */
  lemma ClearPart(f: Frame)
    ensures ClearBytes(f) in {0, 1, 3, 10}
    ensures ClearBytes(f) == 0 <==> f.isAudio || |f.data| == 0 || (!Vp9(f) && |f.data| < 3)
    ensures ClearBytes(f) == 10 <==> !f.isAudio && !Vp9(f) && |f.data| >= 3 && !Bit(f.data[0], 0)
    ensures ClearBytes(f) == 1 <==> !f.isAudio && Vp9(f) && f.data != [] && (Bit(f.data[0], 1) ==> Bit(f.data[0], 3))
  {
    if f.data != [] {
      assert Bit(f.data[0], 1) == (f.data[0] / 2 % 2 == 1);
      Bit3(f.data[0]);
    }
  }

  lemma Bit3(n: nat)
    ensures Bit(n, 3) == (n / 8 % 2 == 1)
  {
    assert Bit(n, 3) == Bit(n / 2, 2) == Bit(n / 2 / 2, 1) == Bit(n / 2 / 2 / 2, 0);
  }

  /** The wire holds frame f of the given key id and counter: its first n bytes in the clear,
      the low byte of the key id, the counter's low 32 bits in network order, the ciphertext,
      and n. */
  ghost predicate LaidOut(wire: seq<byte>, f: Frame, keyId: int, ctr: nat, ciphertext: seq<byte>) {
    var n := ClearBytes(f);
    && n <= |f.data|
    && |wire| == n + 5 + |ciphertext| + 1
    && wire[..n] == f.data[..n]
    && wire[n] == keyId % 0x100
    && Holds32(wire, n + 1, ctr % COUNTERS)
    && wire[n + 5..|wire| - 1] == ciphertext
    && wire[|wire| - 1] == n
  }

  lemma AssembledParts(p: Parsed)
    requires |p.codec| < 0x80 && |p.header| == HEADER
    ensures var n, wire := |p.codec|, Assemble(p);
            && |wire| == n + 5 + |p.ciphertext| + 1
            && wire[..n] == p.codec && wire[n..n + 5] == p.header && wire[..n + 5] == p.codec + p.header
            && wire[n + 5..|wire| - 1] == p.ciphertext && wire[|wire| - 1] == n
  {
  }

  lemma HeaderOnWire(wire: seq<byte>, n: nat, keyId: int, ctr: nat)
    requires n + 5 <= |wire| && wire[n..n + 5] == Header(keyId, ctr)
    ensures wire[n] == keyId % 0x100 && Holds32(wire, n + 1, ctr % COUNTERS)
  {
    var header := wire[n..n + 5];
    assert wire[n] == header[0];
    assert wire[n + 1..n + 5] == header[1..] == Put32(ctr % COUNTERS);
    PutHolds32(wire, n + 1, ctr % COUNTERS);
  }

  lemma SealLaidOut(s: Suite, id: string, key: Key, salt: seq<byte>, keyId: int, ctr: nat, f: Frame)
    requires |salt| == 12 && ClearBytes(f) <= |f.data|
    ensures var n := ClearBytes(f);
            var wire := SealFrame(s, id, key, salt, keyId, ctr, f);
            && |wire| >= n + 6
            && LaidOut(wire, f, keyId, ctr,
                 s.seal(key, ComputeNonce(salt, ctr), s.utf8(id) + wire[..n + 5], f.data[n..]))
  {
    hide Assemble, Header, ComputeNonce, Holds32, ClearBytes;
    var n := ClearBytes(f);
    var codec, header := f.data[..n], Header(keyId, ctr);
    var aad := BuildAad(s, id, codec, header);
    var ciphertext := s.seal(key, ComputeNonce(salt, ctr), aad, f.data[n..]);
    AssembledParts(Parsed(codec, header, ciphertext));
    var wire := SealFrame(s, id, key, salt, keyId, ctr, f);
    assert aad == s.utf8(id) + (codec + header);
    HeaderOnWire(wire, n, keyId, ctr);
  }

  /** Every frame of every admissible run is laid out so. The ciphertext is made with the
      key of its counter, and authenticates the sender's id and what precedes it on the wire. */
  lemma SentLayout(s: Suite, id: string, keys: map<int, Key>, events: seq<Event>, k: nat)
    requires Salted(s) && Admissible(s, id, keys, events) && k < |Run(s, id, events).1|
    ensures var sf := Run(s, id, events).1[k];
            var n := ClearBytes(sf.frame);
            && sf.keyId in keys && sf.ctr >= 1 && n <= |sf.frame.data| && |sf.wire| >= n + 6
            && LaidOut(sf.wire, sf.frame, sf.keyId, sf.ctr,
                 s.seal(MessageKeyAt(s, Root(s, keys, sf.keyId), sf.ctr),
                        ComputeNonce(s.baseSalt(keys[sf.keyId], sf.keyId), sf.ctr),
                        s.utf8(id) + sf.wire[..n + 5], sf.frame.data[n..]))
  {
    LockstepAlways(s, id, keys, events);
    var sf := Run(s, id, events).1[k];
    SealLaidOut(s, id, MessageKeyAt(s, Root(s, keys, sf.keyId), sf.ctr),
                s.baseSalt(keys[sf.keyId], sf.keyId), sf.keyId, sf.ctr, sf.frame);
  }

  /** The authenticated data tells senders apart as far as their ids' bytes do not run into
      the codec header: two frames share it exactly if id and codec header read the same
      when joined and the headers are equal. */
  lemma AadSharedIff(s: Suite, id1: string, c1: seq<byte>, h1: seq<byte>, id2: string, c2: seq<byte>, h2: seq<byte>)
    requires |h1| == |h2|
    ensures BuildAad(s, id1, c1, h1) == BuildAad(s, id2, c2, h2) <==>
            s.utf8(id1) + c1 == s.utf8(id2) + c2 && h1 == h2
  {
    var a1, a2 := BuildAad(s, id1, c1, h1), BuildAad(s, id2, c2, h2);
    assert a1[..|a1| - |h1|] == s.utf8(id1) + c1 && a1[|a1| - |h1|..] == h1;
    assert a2[..|a2| - |h2|] == s.utf8(id2) + c2 && a2[|a2| - |h2|..] == h2;
  }

  /** For sender ids of which neither's bytes begin the other's, such as distinct ids of one
      length, the data determines the sender and both headers. */
  lemma AadNamesSender(s: Suite, id1: string, c1: seq<byte>, h1: seq<byte>, id2: string, c2: seq<byte>, h2: seq<byte>)
    requires |h1| == |h2| && BuildAad(s, id1, c1, h1) == BuildAad(s, id2, c2, h2)
    ensures s.utf8(id1) <= s.utf8(id2) || s.utf8(id2) <= s.utf8(id1)
    ensures |s.utf8(id1)| == |s.utf8(id2)| ==> s.utf8(id1) == s.utf8(id2) && c1 == c2 && h1 == h2
  {
    var u1, u2 := s.utf8(id1), s.utf8(id2);
    AadSharedIff(s, id1, c1, h1, id2, c2, h2);
    var j := u1 + c1;
    assert j[..|u1|] == u1 && j[..|u2|] == u2;
    assert j[|u1|..] == c1 && j[|u2|..] == c2;
    if |u1| <= |u2| {
      assert u2[..|u1|] == u1;
    } else {
      assert u1[..|u2|] == u2;
    }
  }

  /** Which received frames parse: 22 bytes and the clear length of the trailer's low seven
      bits, header and trailer within the frame. The parts join back to the frame, except
      that the trailer's top bit is not looked at. */
  lemma ParsedIff(data: seq<byte>)
    ensures Parse(data).Some? <==> |data| >= 22 && data[|data| - 1] as int % 128 + 6 <= |data|
    ensures Parse(data).Some? ==>
              var last := data[|data| - 1];
              && Assemble(Parse(data).value) == data[|data| - 1 := last % 128]
              && (Assemble(Parse(data).value) == data <==> !Bit(last, 7))
  {
    if Parse(data).Some? {
      var n := |data| - 1;
      var p := Parse(data).value;
      var clear := data[n] as int % 128;
      TopBit(data[n]);
      assert p.codec + p.header + p.ciphertext == data[..n];
      assert data[n := clear] == data[..n] + [clear];
      assert data == data[..n] + [data[n]];
    }
  }

  lemma TopBit(b: byte)
    ensures Bit(b, 7) <==> b >= 128
  {
    assert Bit(b, 7) == Bit(b / 2, 6) == Bit(b / 4, 5) == Bit(b / 8, 4) == Bit(b / 16, 3);
    Bit3(b / 16);
  }
}
