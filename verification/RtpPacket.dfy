/** The RTP wire format (section 5.1 of RFC 3550) as this library reads and writes it. */
module RtpPacket {
  import opened Common

  const RTP_VERSION: byte := 2
  const RTP_HEADER_SIZE: nat := 12
  const PT_AUDIO: byte := 111
  const PT_VIDEO: byte := 96

  datatype Packet = Packet(version: byte, padding: bool, extension: bool, cc: byte, marker: bool,
                           payloadType: byte, seqNo: u16, timestamp: u32, ssrc: u32,
                           csrc: seq<u32>, payload: seq<byte>)

  datatype DecodeError = TooShort | UnsupportedVersion(version: byte) | TooShortForCsrc

  function NewAudio(payload: seq<byte>, timestamp: u32, ssrc: u32, seqNo: u16): (p: Packet)
    ensures WellFormed(p)
  {
    Packet(RTP_VERSION, false, false, 0, false, PT_AUDIO, seqNo, timestamp, ssrc, [], payload)
  }

  function NewVideo(payload: seq<byte>, timestamp: u32, ssrc: u32, seqNo: u16, marker: bool): (p: Packet)
    ensures WellFormed(p)
  {
    Packet(RTP_VERSION, false, false, 0, marker, PT_VIDEO, seqNo, timestamp, ssrc, [], payload)
  }

  /** What the wire format can represent. */
  predicate WellFormed(p: Packet) {
    p.version == RTP_VERSION && p.payloadType < 0x80 && p.cc as int == |p.csrc| && p.cc < 0x10
  }

  function Flag(b: bool, weight: nat): nat {
    if b then weight else 0
  }

  /** The two bytes of packed fields; the bits of the parts do not overlap. */
  function Flags(p: Packet): (r: seq<byte>)
    ensures |r| == 2
  {
    [(p.version % 4) * 0x40 + Flag(p.padding, 0x20) + Flag(p.extension, 0x10) + p.cc % 0x10,
     Flag(p.marker, 0x80) + p.payloadType % 0x80]
  }

  function Fixed(p: Packet): (r: seq<byte>)
    ensures |r| == RTP_HEADER_SIZE
  {
    Flags(p) + Put16(p.seqNo) + Put32(p.timestamp) + Put32(p.ssrc)
  }

  function PutWords(words: seq<u32>): (r: seq<byte>)
    ensures |r| == 4 * |words|
  {
    if words == [] then [] else PutWords(words[..|words| - 1]) + Put32(words[|words| - 1])
  }

  function GetWords(b: seq<byte>, n: nat): (r: seq<u32>)
    requires |b| == 4 * n
    ensures |r| == n
  {
    if n == 0 then [] else GetWords(b[..4 * (n - 1)], n - 1) + [Get32(b[4 * (n - 1)..])]
  }

  function Encode(p: Packet): seq<byte> {
    Fixed(p) + PutWords(p.csrc) + p.payload
  }

  /** The packet laid out in a buffer of sufficient length. */
  function Fields(b: seq<byte>): Packet
    requires |b| >= RTP_HEADER_SIZE && |b| >= RTP_HEADER_SIZE + 4 * (b[0] % 0x10)
  {
    var end := RTP_HEADER_SIZE + 4 * (b[0] % 0x10);
    Packet(b[0] / 0x40, b[0] / 0x20 % 2 != 0, b[0] / 0x10 % 2 != 0, b[0] % 0x10, b[1] / 0x80 != 0, b[1] % 0x80,
           Get16(b[2..4]), Get32(b[4..8]), Get32(b[8..12]), GetWords(b[12..end], b[0] % 0x10), b[end..])
  }

  function Decode(b: seq<byte>): Result<Packet, DecodeError> {
    if |b| < RTP_HEADER_SIZE then Err(TooShort)
    else if b[0] / 0x40 != RTP_VERSION then Err(UnsupportedVersion(b[0] / 0x40))
    else if |b| < RTP_HEADER_SIZE + 4 * (b[0] % 0x10) then Err(TooShortForCsrc)
    else Ok(Fields(b))
  }

  method ToBytes(p: Packet) returns (b: seq<byte>)
    ensures b == Encode(p)
  {
    b := Flags(p);
    b := b + Put16(p.seqNo);
    b := b + Put32(p.timestamp);
    b := b + Put32(p.ssrc);
    for i := 0 to |p.csrc|
      invariant b == Fixed(p) + PutWords(p.csrc[..i])
    {
      assert p.csrc[..i + 1][..i] == p.csrc[..i];
      b := b + Put32(p.csrc[i]);
    }
    assert p.csrc[..|p.csrc|] == p.csrc;
    b := b + p.payload;
  }

  method FromBytes(b: seq<byte>) returns (r: Result<Packet, DecodeError>)
    ensures r == Decode(b)
  {
    if |b| < RTP_HEADER_SIZE {
      return Err(TooShort);
    }
    var version := b[0] / 0x40;
    if version != RTP_VERSION {
      return Err(UnsupportedVersion(version));
    }
    var cc := b[0] % 0x10;
    var end := RTP_HEADER_SIZE + cc * 4;
    if |b| < end {
      return Err(TooShortForCsrc);
    }
    var csrc: seq<u32> := [];
    for i := 0 to cc
      invariant csrc == GetWords(b[12..12 + 4 * i], i)
    {
      var offset := RTP_HEADER_SIZE + i * 4;
      assert b[12..12 + 4 * (i + 1)][..4 * i] == b[12..12 + 4 * i];
      assert b[12..12 + 4 * (i + 1)][4 * i..] == b[offset..offset + 4];
      csrc := csrc + [Get32(b[offset..offset + 4])];
    }
    return Ok(Packet(version, b[0] / 0x20 % 2 != 0, b[0] / 0x10 % 2 != 0, cc, b[1] / 0x80 != 0, b[1] % 0x80,
                     Get16(b[2..4]), Get32(b[4..8]), Get32(b[8..12]), csrc, b[end..]));
  }

  lemma {:induction false} GetPutWords(words: seq<u32>)
    ensures GetWords(PutWords(words), |words|) == words
  {
    if words != [] {
      var n := |words| - 1;
      var b := PutWords(words);
      assert b[..4 * n] == PutWords(words[..n]);
      assert b[4 * n..] == Put32(words[n]);
      GetPutWords(words[..n]);
      GetPut32(words[n]);
    }
  }

  lemma {:induction false} PutGetWords(b: seq<byte>, n: nat)
    requires |b| == 4 * n
    ensures PutWords(GetWords(b, n)) == b
  {
    if n > 0 {
      PutGetWords(b[..4 * (n - 1)], n - 1);
      PutGet32(b[4 * (n - 1)..]);
      assert b == b[..4 * (n - 1)] + b[4 * (n - 1)..];
    }
  }

  lemma FlagsFields(p: Packet)
    requires WellFormed(p)
    ensures var f := Flags(p);
            && f[0] / 0x40 == p.version && f[0] % 0x10 == p.cc
            && (f[0] / 0x20 % 2 != 0 <==> p.padding) && (f[0] / 0x10 % 2 != 0 <==> p.extension)
            && (f[1] / 0x80 != 0 <==> p.marker) && f[1] % 0x80 == p.payloadType
  {
  }

  lemma DecodeEncode(p: Packet)
    requires WellFormed(p)
    ensures Decode(Encode(p)) == Ok(p)
  {
    var b := Encode(p);
    FlagsFields(p);
    var end := RTP_HEADER_SIZE + 4 * |p.csrc|;
    assert b[0] == Flags(p)[0] && b[1] == Flags(p)[1];
    assert b[2..4] == Put16(p.seqNo);
    assert b[4..8] == Put32(p.timestamp);
    assert b[8..12] == Put32(p.ssrc);
    assert b[12..end] == PutWords(p.csrc);
    assert b[end..] == p.payload;
    GetPut16(p.seqNo);
    GetPut32(p.timestamp);
    GetPut32(p.ssrc);
    GetPutWords(p.csrc);
  }

  /** Every accepted buffer is the encoding of a well-formed packet: the one decoded. */
  lemma EncodeDecode(b: seq<byte>)
    requires Decode(b).Ok?
    ensures WellFormed(Decode(b).value) && Encode(Decode(b).value) == b
  {
    var p := Decode(b).value;
    var end := RTP_HEADER_SIZE + 4 * |p.csrc|;
    FieldsFlags(b);
    PutGet16(b[2..4]);
    PutGet32(b[4..8]);
    PutGet32(b[8..12]);
    PutGetWords(b[12..end], |p.csrc|);
    assert b == b[..2] + b[2..4] + b[4..8] + b[8..12] + b[12..end] + b[end..];
  }

  lemma FieldsFlags(b: seq<byte>)
    requires Decode(b).Ok?
    ensures Flags(Decode(b).value) == b[..2]
  {
  }

  /** Exactly the well-formed packets survive the wire. */
  lemma RoundTripIff(p: Packet)
    ensures Decode(Encode(p)) == Ok(p) <==> WellFormed(p)
  {
    if WellFormed(p) {
      DecodeEncode(p);
    } else if Decode(Encode(p)).Ok? {
      EncodeDecode(Encode(p));
    }
  }

  lemma {:induction false} WordsLayout(words: seq<u32>, i: nat)
    requires i < |words|
    ensures PutWords(words)[4 * i..4 * i + 4] == Put32(words[i])
  {
    var n := |words| - 1;
    if i < n {
      WordsLayout(words[..n], i);
      assert PutWords(words)[4 * i..4 * i + 4] == PutWords(words[..n])[4 * i..4 * i + 4];
    } else {
      assert PutWords(words)[4 * n..4 * n + 4] == Put32(words[n]);
    }
  }

  lemma CsrcLayout(p: Packet, i: nat)
    requires WellFormed(p) && i < |p.csrc|
    ensures Holds32(Encode(p), 12 + 4 * i, p.csrc[i])
  {
    var b := Encode(p);
    WordsLayout(p.csrc, i);
    assert b[12 + 4 * i..12 + 4 * i + 4] == PutWords(p.csrc)[4 * i..4 * i + 4];
    PutHolds32(b, 12 + 4 * i, p.csrc[i]);
  }

  lemma FlagsLayout(p: Packet)
    requires WellFormed(p)
    ensures var f := Flags(p);
            && f[0] as int == 2 * 64 + (if p.padding then 32 else 0) + (if p.extension then 16 else 0) + |p.csrc|
            && f[1] as int == (if p.marker then 128 else 0) + p.payloadType as int
  {
  }

  lemma WordFields(p: Packet)
    ensures var b := Encode(p); Holds16(b, 2, p.seqNo) && Holds32(b, 4, p.timestamp) && Holds32(b, 8, p.ssrc)
  {
    var b := Encode(p);
    assert b[2..4] == Put16(p.seqNo);
    assert b[4..8] == Put32(p.timestamp);
    assert b[8..12] == Put32(p.ssrc);
    PutHolds16(b, 2, p.seqNo);
    PutHolds32(b, 4, p.timestamp);
    PutHolds32(b, 8, p.ssrc);
  }

  /** The header of section 5.1 of RFC 3550, byte by byte: version, padding, extension and
      CSRC count; marker and payload type; sequence number, timestamp and SSRC in network
      order; the CSRC list; and the payload as the rest. */
  lemma WireLayout(p: Packet, i: nat)
    requires WellFormed(p)
    ensures var b := Encode(p);
            && |b| == 12 + 4 * |p.csrc| + |p.payload|
            && b[0] as int == 2 * 64 + (if p.padding then 32 else 0) + (if p.extension then 16 else 0) + |p.csrc|
            && b[1] as int == (if p.marker then 128 else 0) + p.payloadType as int
            && Holds16(b, 2, p.seqNo) && Holds32(b, 4, p.timestamp) && Holds32(b, 8, p.ssrc)
            && (i < |p.csrc| ==> Holds32(b, 12 + 4 * i, p.csrc[i]))
            && b[12 + 4 * |p.csrc|..] == p.payload
  {
    hide Holds16;
    hide Holds32;
    FlagsLayout(p);
    WordFields(p);
    if i < |p.csrc| {
      CsrcLayout(p, i);
    }
    assert Encode(p)[..2] == Flags(p);
  }

  /** Why a buffer is refused: too short for a header, not version 2, or too short for the
      CSRC list its first byte announces, in this order. */
  lemma RefusedIff(b: seq<byte>)
    ensures Decode(b) == Err(TooShort) <==> |b| < 12
    ensures forall v: byte :: Decode(b) == Err(UnsupportedVersion(v)) <==> |b| >= 12 && v != 2 && v == b[0] / 64
    ensures Decode(b) == Err(TooShortForCsrc) <==> |b| >= 12 && 128 <= b[0] < 192 && |b| < 12 + 4 * (b[0] as int % 16)
  {
  }
}
