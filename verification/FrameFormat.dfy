/** The layout of an encrypted frame: codec header in the clear, key id byte and
    counter, ciphertext, and a trailer holding the length of the clear part. */
module FrameFormat {
  import opened Common
  import opened Bits
  import opened KdfChain

  const GCM_TAG: nat := 16
  const HEADER: nat := 5
  const TRAILER: nat := 1
  const COUNTERS: nat := 0x1_0000_0000

  datatype Frame = Frame(data: seq<byte>, payloadType: Option<int>, isAudio: bool)

  function Vp8ClearBytes(data: seq<byte>): nat {
    if |data| < 3 then 0 else if data[0] % 2 == 0 then 10 else 3
  }

  function Vp9ClearBytes(data: seq<byte>): nat {
    if |data| < 1 then 0
    else if data[0] / 2 % 2 == 0 then 1
    else if data[0] / 8 % 2 == 1 then 1 else 3
  }

  /** How many leading bytes stay in the clear; it can exceed the frame. */
  function ClearBytes(f: Frame): (n: nat)
    ensures n <= 10
  {
    if f.isAudio then 0
    else
      var pt := if f.payloadType.Some? then f.payloadType.value else 0;
      if 100 <= pt < 110 then Vp9ClearBytes(f.data) else Vp8ClearBytes(f.data)
  }

  /** The clear header is longer than the frame exactly for VP8 key frames of three to nine
      bytes and for VP9 frames of one or two bytes that announce a longer header. */
  lemma ClearHeaderOverruns(f: Frame)
    ensures ClearBytes(f) > |f.data| <==>
            && !f.isAudio
            && (if f.payloadType.Some? && 100 <= f.payloadType.value < 110
                then 1 <= |f.data| <= 2 && f.data[0] / 2 % 2 == 1 && f.data[0] / 8 % 2 == 0
                else 3 <= |f.data| <= 9 && f.data[0] % 2 == 0)
  {
  }

  /** A word of the salt with the low 32 bits of the counter mixed in. */
  function Mix(word: u32, ctr: nat): u32 {
    WordWidth();
    XorBound(word, ctr % COUNTERS, 32);
    Xor(word, ctr % COUNTERS)
  }

  lemma WordWidth()
    ensures Shl(1, 32) == COUNTERS
  {
    assert Shl(1, 8) == 0x100;
    assert Shl(1, 16) == 0x1_0000;
    assert Shl(1, 24) == 0x100_0000;
  }

  function ComputeNonce(salt: seq<byte>, ctr: nat): (nonce: seq<byte>)
    requires |salt| == 12
    ensures |nonce| == 12
  {
    salt[..8] + Put32(Mix(Get32(salt[8..]), ctr))
  }

  /** Counters that fit 32 bits never share a nonce under one salt. */
  lemma NonceInjective(salt: seq<byte>, a: nat, b: nat)
    requires |salt| == 12 && a < COUNTERS && b < COUNTERS
    requires ComputeNonce(salt, a) == ComputeNonce(salt, b)
    ensures a == b
  {
    var low := Get32(salt[8..]);
    assert ComputeNonce(salt, a)[8..] == Put32(Mix(low, a));
    assert ComputeNonce(salt, b)[8..] == Put32(Mix(low, b));
    PutInjective32(Mix(low, a), Mix(low, b));
    XorInjective(low, a, b);
  }

  function Header(keyId: int, ctr: nat): (h: seq<byte>)
    ensures |h| == HEADER
  {
    [keyId % 0x100] + Put32(ctr % COUNTERS)
  }

  function BuildAad(s: Suite, senderId: string, codec: seq<byte>, header: seq<byte>): seq<byte> {
    s.utf8(senderId) + codec + header
  }

  /** For one sender, the authenticated data determines both headers. */
  lemma AadInjective(s: Suite, senderId: string, c1: seq<byte>, h1: seq<byte>, c2: seq<byte>, h2: seq<byte>)
    requires |h1| == |h2|
    requires BuildAad(s, senderId, c1, h1) == BuildAad(s, senderId, c2, h2)
    ensures c1 == c2 && h1 == h2
  {
    var u := s.utf8(senderId);
    var a1, a2 := u + c1 + h1, u + c2 + h2;
    assert |a1| == |a2|;
    assert a1[|u|..|u| + |c1|] == c1 && a2[|u|..|u| + |c2|] == c2;
    assert a1[|u| + |c1|..] == h1 && a2[|u| + |c2|..] == h2;
  }

  datatype Parsed = Parsed(codec: seq<byte>, header: seq<byte>, ciphertext: seq<byte>) {
    function Kid(): int
      requires |header| == HEADER
    {
      header[0] as int
    }

    function Ctr(): nat
      requires |header| == HEADER
    {
      Get32(header[1..])
    }
  }

  lemma HeaderParts(keyId: int, ctr: nat, p: Parsed)
    requires p.header == Header(keyId, ctr)
    ensures p.Kid() == keyId % 0x100 && p.Ctr() == ctr % COUNTERS
  {
    assert p.header[1..] == Put32(ctr % COUNTERS);
    GetPut32(ctr % COUNTERS);
  }

  function Assemble(p: Parsed): seq<byte>
    requires |p.codec| < 0x80
  {
    p.codec + p.header + p.ciphertext + [|p.codec|]
  }

  /** Splits a received frame; frames that are too short are dropped. */
  function Parse(data: seq<byte>): (r: Option<Parsed>)
    ensures r.Some? ==> |r.value.header| == HEADER && |r.value.codec| < 0x80
  {
    if |data| < TRAILER + HEADER + GCM_TAG then None
    else
      var clear := (data[|data| - 1] % 0x80) as int;
      if clear + HEADER + TRAILER > |data| then None
      else Some(Parsed(data[..clear], data[clear..clear + HEADER], data[clear + HEADER..|data| - TRAILER]))
  }

  /** Parsing undoes assembly for every ciphertext that carries a tag. */
  lemma ParseAssemble(p: Parsed)
    requires |p.codec| < 0x80 && |p.header| == HEADER && |p.ciphertext| >= GCM_TAG
    ensures Parse(Assemble(p)) == Some(p)
  {
    var data := Assemble(p);
    var n := |p.codec|;
    assert data[..n] == p.codec;
    assert data[n..n + HEADER] == p.header;
    assert data[n + HEADER..|data| - TRAILER] == p.ciphertext;
  }
}
