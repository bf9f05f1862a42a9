/** The RTCP packets of this library: reports (RFC 3550), generic NACK and picture
    loss indication (sections 6.2.1 and 6.3.1 of RFC 4585). */
module Rtcp {
  import opened Common
  import opened Bits

  const RTCP_SR: byte := 200
  const RTCP_RR: byte := 201
  const RTCP_RTPFB: byte := 205
  const RTCP_PSFB: byte := 206
  const NACK_FMT: byte := 1
  const PLI_FMT: byte := 1

  datatype Packet =
    | SenderReport(ssrc: u32)
    | ReceiverReport(ssrc: u32)
    | Nack(ssrc: u32, lost: seq<u16>)
    | Pli(ssrc: u32)

  datatype DecodeError = TooShort | UnsupportedVersion | Truncated | NackTooShort | PliTooShort | UnsupportedType

  /** Decoding can also fail without an error value, on a slice whose end precedes its start. */
  datatype Outcome = Decoded(packet: Packet) | Failed(error: DecodeError) | Panicked

  function PutEntries(lost: seq<u16>): (r: seq<byte>)
    ensures |r| == 4 * |lost|
  {
    if lost == [] then []
    else PutEntries(lost[..|lost| - 1]) + (Put16(lost[|lost| - 1]) + Put16(0))
  }

  function NackHead(length: u16, ssrc: u32): (r: seq<byte>)
    ensures |r| == 12
  {
    [0x81, RTCP_RTPFB] + Put16(length) + Put32(0) + Put32(ssrc)
  }

  /** Each lost number is an entry of its own. The length field is cut to 16 bits. */
  function Encode(p: Packet): seq<byte> {
    match p
    case SenderReport(ssrc) => [0x80, RTCP_SR] + Put16(1) + Put32(ssrc)
    case ReceiverReport(ssrc) => [0x80, RTCP_RR] + Put16(1) + Put32(ssrc)
    case Nack(ssrc, lost) =>
      NackHead(Wrap16(2 + |lost|), ssrc) + PutEntries(lost)
    case Pli(ssrc) => [0x81, RTCP_PSFB] + Put16(2) + Put32(0) + Put32(ssrc)
  }

  /** The numbers named by the first n bits of a bitmask that follows pid. */
  function Following(pid: u16, blp: u16, n: nat): seq<u16> {
    if n == 0 then []
    else Following(pid, blp, n - 1) + if Bit(blp, n - 1) then [Wrap16(pid + n)] else []
  }

  function Entry(b: seq<byte>): seq<u16>
    requires |b| == 4
  {
    [Get16(b[..2])] + Following(Get16(b[..2]), Get16(b[2..]), 16)
  }

  /** The numbers named by a list of n entries. */
  function Lost(b: seq<byte>, n: nat): seq<u16>
    requires |b| == 4 * n
  {
    if n == 0 then [] else Lost(b[..4 * (n - 1)], n - 1) + Entry(b[4 * (n - 1)..])
  }

  function DeclaredWords(b: seq<byte>): nat
    requires |b| >= 4
  {
    Get16(b[2..4]) + 1
  }

  function Decode(b: seq<byte>): Outcome {
    if |b| < 8 then Failed(TooShort)
    else if b[0] / 0x40 != 2 then Failed(UnsupportedVersion)
    else if |b| < 4 * DeclaredWords(b) then Failed(Truncated)
    else if b[1] == RTCP_SR then Decoded(SenderReport(Get32(b[4..8])))
    else if b[1] == RTCP_RR then Decoded(ReceiverReport(Get32(b[4..8])))
    else if b[1] == RTCP_RTPFB && b[0] % 0x20 == NACK_FMT then
      if |b| < 12 then Failed(NackTooShort)
      else if DeclaredWords(b) < 3 then Panicked
      else Decoded(Nack(Get32(b[8..12]), Lost(b[12..4 * DeclaredWords(b)], DeclaredWords(b) - 3)))
    else if b[1] == RTCP_PSFB && b[0] % 0x20 == PLI_FMT then
      if |b| < 12 then Failed(PliTooShort) else Decoded(Pli(Get32(b[8..12])))
    else Failed(UnsupportedType)
  }

  method ToBytes(p: Packet) returns (b: seq<byte>)
    ensures b == Encode(p)
  {
    match p
    case SenderReport(ssrc) =>
      b := [0x80, RTCP_SR] + Put16(1) + Put32(ssrc);
    case ReceiverReport(ssrc) =>
      b := [0x80, RTCP_RR] + Put16(1) + Put32(ssrc);
    case Nack(ssrc, lost) =>
      var length := Wrap16(2 + |lost|);
      b := [0x81, RTCP_RTPFB] + Put16(length) + Put32(0) + Put32(ssrc);
      for i := 0 to |lost|
        invariant b == NackHead(length, ssrc) + PutEntries(lost[..i])
      {
        assert lost[..i + 1][..i] == lost[..i];
        b := b + Put16(lost[i]);
        b := b + Put16(0);
      }
      assert lost[..|lost|] == lost;
    case Pli(ssrc) =>
      b := [0x81, RTCP_PSFB] + Put16(2) + Put32(0) + Put32(ssrc);
  }

  /** The loop over the bits of an entry's mask. */
  method ReadMask(pid: u16, blp: u16) returns (lost: seq<u16>)
    ensures lost == Following(pid, blp, 16)
  {
    lost := [];
    for bit := 0 to 16
      invariant lost == Following(pid, blp, bit)
    {
      if Bit(blp, bit) {
        lost := lost + [Wrap16(pid as int + bit + 1)];
      }
    }
  }

  /** The loop over the entries of a NACK. */
  method ReadEntries(fci: seq<byte>, ghost n: nat) returns (lost: seq<u16>)
    requires |fci| == 4 * n
    ensures lost == Lost(fci, n)
  {
    lost := [];
    var i := 0;
    ghost var k := 0;
    while i + 3 < |fci| + 1 && i + 1 < |fci|
      invariant i == 4 * k && k <= n
      invariant lost == Lost(fci[..i], k)
      decreases |fci| - i
    {
      var pid, blp := Get16(fci[i..i + 2]), Get16(fci[i + 2..i + 4]);
      assert fci[..i + 4][..i] == fci[..i];
      assert fci[..i + 4][i..][..2] == fci[i..i + 2];
      assert fci[..i + 4][i..][2..] == fci[i + 2..i + 4];
      var following := ReadMask(pid, blp);
      lost := lost + ([pid] + following);
      i := i + 4;
      k := k + 1;
    }
    assert fci[..|fci|] == fci;
  }

  method FromBytes(b: seq<byte>) returns (r: Outcome)
    ensures r == Decode(b)
  {
    if |b| < 8 {
      return Failed(TooShort);
    }
    if b[0] / 0x40 != 2 {
      return Failed(UnsupportedVersion);
    }
    var fmt, pt := b[0] % 0x20, b[1];
    var words := DeclaredWords(b);
    if |b| < 4 * words {
      return Failed(Truncated);
    }
    if pt == RTCP_SR {
      return Decoded(SenderReport(Get32(b[4..8])));
    }
    if pt == RTCP_RR {
      return Decoded(ReceiverReport(Get32(b[4..8])));
    }
    if pt == RTCP_RTPFB && fmt == NACK_FMT {
      if |b| < 12 {
        return Failed(NackTooShort);
      }
      if words < 3 {
        return Panicked;
      }
      var lost := ReadEntries(b[12..4 * words], words - 3);
      return Decoded(Nack(Get32(b[8..12]), lost));
    }
    if pt == RTCP_PSFB && fmt == PLI_FMT {
      if |b| < 12 {
        return Failed(PliTooShort);
      }
      return Decoded(Pli(Get32(b[8..12])));
    }
    return Failed(UnsupportedType);
  }

  lemma {:induction false} NothingFollows(pid: u16, n: nat)
    ensures Following(pid, 0, n) == []
  {
    if n > 0 {
      BitOfZero(n - 1);
      NothingFollows(pid, n - 1);
    }
  }

  lemma {:induction false} LostOfEntries(lost: seq<u16>)
    ensures Lost(PutEntries(lost), |lost|) == lost
  {
    hide Entry;
    if lost != [] {
      var n := |lost| - 1;
      var b := PutEntries(lost);
      assert b[..4 * n] == PutEntries(lost[..n]);
      LostOfEntries(lost[..n]);
      assert b[4 * n..] == Put16(lost[n]) + Put16(0);
      EntryOfOne(lost[n]);
    }
  }

  lemma EntryOfOne(x: u16)
    ensures Entry(Put16(x) + Put16(0)) == [x]
  {
    var e := Put16(x) + Put16(0);
    assert e[..2] == Put16(x) && e[2..] == Put16(0);
    GetPut16(x);
    GetPut16(0);
    NothingFollows(x, 16);
  }

  /** Which lists of lost numbers fit the 16-bit length field. */
  predicate Fits(p: Packet) {
    p.Nack? ==> |p.lost| <= 65533
  }

  lemma HeadFields(length: u16, ssrc: u32, rest: seq<byte>)
    ensures var b := NackHead(length, ssrc) + rest;
            b[0] == 0x81 && b[1] == RTCP_RTPFB && DeclaredWords(b) == length + 1 && Get32(b[8..12]) == ssrc
  {
    var b := NackHead(length, ssrc) + rest;
    assert b[2..4] == Put16(length);
    assert b[8..12] == Put32(ssrc);
    GetPut16(length);
    GetPut32(ssrc);
  }

  /** What decoding makes of a NACK header, whatever follows it. */
  lemma DecodeNack(length: u16, ssrc: u32, rest: seq<byte>)
    requires length >= 2 && |rest| >= 4 * (length - 2)
    ensures Decode(NackHead(length, ssrc) + rest) == Decoded(Nack(ssrc, Lost(rest[..4 * (length - 2)], length - 2)))
  {
    HeadFields(length, ssrc, rest);
    assert (NackHead(length, ssrc) + rest)[12..4 * (length + 1)] == rest[..4 * (length - 2)];
  }

  lemma LostOfPrefix(lost: seq<u16>, n: nat)
    requires n <= |lost|
    ensures Lost(PutEntries(lost)[..4 * n], n) == lost[..n]
  {
    EntriesPrefix(lost, n);
    LostOfEntries(lost[..n]);
  }

  lemma DecodeEntries(length: u16, ssrc: u32, lost: seq<u16>)
    requires 2 <= length && length - 2 <= |lost|
    ensures Decode(NackHead(length, ssrc) + PutEntries(lost)) == Decoded(Nack(ssrc, lost[..length - 2]))
  {
    hide Decode, Lost, PutEntries, NackHead;
    DecodeNack(length, ssrc, PutEntries(lost));
    LostOfPrefix(lost, length - 2);
  }

  lemma DecodeShort(length: u16, ssrc: u32, rest: seq<byte>)
    requires length < 2
    ensures Decode(NackHead(length, ssrc) + rest) == Panicked
  {
    HeadFields(length, ssrc, rest);
  }

  /** What becomes of any NACK: as much of its list as the cut length field declares. */
  lemma NackDecoded(ssrc: u32, lost: seq<u16>)
    ensures var length := Wrap16(2 + |lost|);
            Decode(Encode(Nack(ssrc, lost))) ==
            if length < 2 then Panicked else Decoded(Nack(ssrc, lost[..length - 2]))
  {
    var length := Wrap16(2 + |lost|);
    if length < 2 {
      DecodeShort(length, ssrc, PutEntries(lost));
    } else {
      DecodeEntries(length, ssrc, lost);
    }
  }

  lemma {:induction false} EntriesPrefix(lost: seq<u16>, n: nat)
    requires n <= |lost|
    ensures PutEntries(lost)[..4 * n] == PutEntries(lost[..n])
  {
    if n == |lost| {
      assert lost[..n] == lost;
    } else {
      EntriesPrefix(lost[..|lost| - 1], n);
      assert lost[..|lost| - 1][..n] == lost[..n];
    }
  }

  lemma ReportRoundTrip(p: Packet)
    requires p.SenderReport? || p.ReceiverReport?
    ensures Decode(Encode(p)) == Decoded(p)
  {
    var b := Encode(p);
    assert b[2..4] == Put16(1);
    assert b[4..8] == Put32(p.ssrc);
    GetPut16(1);
    GetPut32(p.ssrc);
  }

  lemma PliRoundTrip(p: Packet)
    requires p.Pli?
    ensures Decode(Encode(p)) == Decoded(p)
  {
    var b := Encode(p);
    assert b[2..4] == Put16(2);
    assert b[8..12] == Put32(p.ssrc);
    GetPut16(2);
    GetPut32(p.ssrc);
  }

  /** Exactly the packets whose length fits come back from the wire. */
  lemma RoundTripIff(p: Packet)
    ensures Decode(Encode(p)) == Decoded(p) <==> Fits(p)
  {
    match p
    case SenderReport(_) => ReportRoundTrip(p);
    case ReceiverReport(_) => ReportRoundTrip(p);
    case Pli(_) => PliRoundTrip(p);
    case Nack(ssrc, lost) =>
      NackDecoded(ssrc, lost);
      assert |lost| <= 65533 ==> lost[..|lost|] == lost;
  }

  /** Decoding aborts exactly on a NACK of at least 12 bytes whose length field is 0 or 1. */
  lemma PanicsIff(b: seq<byte>)
    ensures Decode(b).Panicked? <==>
            |b| >= 12 && b[0] / 0x40 == 2 && b[0] % 0x20 == 1 && b[1] == 205 && b[2] == 0 && b[3] <= 1
  {
    if |b| >= 4 {
      assert DeclaredWords(b) == (b[2] as int) * 0x100 + b[3] as int + 1;
    }
  }

  /** Entry j of a NACK reports x: its PID, or PID + k + 1 for a set bit k of its mask. */
  ghost predicate Reports(pid: u16, blp: u16, x: u16) {
    x == pid || exists k :: 0 <= k < 16 && Names(pid, blp, k, x)
  }

  ghost predicate Names(pid: u16, blp: u16, k: nat, x: u16) {
    Bit(blp, k) && x == Wrap16(pid + k + 1)
  }

  ghost predicate EntryReports(b: seq<byte>, j: nat, x: u16)
    requires 4 * j + 4 <= |b|
  {
    Reports(Get16(b[4 * j..4 * j + 2]), Get16(b[4 * j + 2..4 * j + 4]), x)
  }

  lemma {:induction false} FollowingNames(pid: u16, blp: u16, n: nat, x: u16)
    ensures x in Following(pid, blp, n) <==> exists k :: 0 <= k < n && Names(pid, blp, k, x)
  {
    if n > 0 {
      FollowingNames(pid, blp, n - 1, x);
      if Bit(blp, n - 1) && x == Wrap16(pid + n) {
        assert Names(pid, blp, n - 1, x);
      }
    }
  }

  /** A number is decoded as lost exactly when some entry reports it. */
  lemma {:induction false} LostIffReported(b: seq<byte>, n: nat, x: u16)
    requires |b| == 4 * n
    ensures x in Lost(b, n) <==> exists j :: 0 <= j < n && EntryReports(b, j, x)
  {
    if n > 0 {
      var m := n - 1;
      var front := b[..4 * m];
      LostIffReported(front, m, x);
      forall j | 0 <= j < m
        ensures EntryReports(front, j, x) <==> EntryReports(b, j, x)
      {
        assert front[4 * j..4 * j + 2] == b[4 * j..4 * j + 2];
        assert front[4 * j + 2..4 * j + 4] == b[4 * j + 2..4 * j + 4];
      }
      assert b[4 * m..][..2] == b[4 * m..4 * m + 2];
      assert b[4 * m..][2..] == b[4 * m + 2..4 * m + 4];
      FollowingNames(Get16(b[4 * m..][..2]), Get16(b[4 * m..][2..]), 16, x);
      assert x in Entry(b[4 * m..]) <==> EntryReports(b, m, x);
    }
  }

  /** What a decoded NACK says, in terms of the bytes on the wire. */
  lemma NackMeaning(b: seq<byte>, x: u16)
    requires Decode(b).Decoded? && Decode(b).packet.Nack?
    ensures x in Decode(b).packet.lost <==>
            exists j :: 0 <= j < DeclaredWords(b) - 3 && EntryReports(b[12..4 * DeclaredWords(b)], j, x)
  {
    LostIffReported(b[12..4 * DeclaredWords(b)], DeclaredWords(b) - 3, x);
  }

  lemma {:induction false} EntryLayout(lost: seq<u16>, i: nat)
    requires i < |lost|
    ensures PutEntries(lost)[4 * i..4 * i + 4] == Put16(lost[i]) + Put16(0)
  {
    var n := |lost| - 1;
    if i < n {
      EntryLayout(lost[..n], i);
      assert PutEntries(lost)[4 * i..4 * i + 4] == PutEntries(lost[..n])[4 * i..4 * i + 4];
    } else {
      assert PutEntries(lost)[4 * n..4 * n + 4] == Put16(lost[n]) + Put16(0);
    }
  }

  /** First byte and packet type: no count in reports, format 1 in feedback. */
  function FirstByte(p: Packet): int {
    if p.SenderReport? || p.ReceiverReport? then 128 else 129
  }

  function TypeByte(p: Packet): int {
    match p
    case SenderReport(_) => 200
    case ReceiverReport(_) => 201
    case Nack(_, _) => 205
    case Pli(_) => 206
  }

  /** Whole words, of which the length field counts all but one, modulo 2^16. */
  lemma LengthField(p: Packet)
    ensures var b := Encode(p);
            |b| % 4 == 0 && |b| >= 8 && Holds16(b, 2, Wrap16(|b| / 4 - 1))
  {
    var b := Encode(p);
    match p
    case Nack(ssrc, lost) =>
      assert |b| / 4 - 1 == 2 + |lost|;
      PutHolds16(b, 2, Wrap16(2 + |lost|));
    case Pli(_) => PutHolds16(b, 2, 2);
    case _ => PutHolds16(b, 2, 1);
  }

  /** The layout of sections 6.4.1 and 6.4.2 of RFC 3550 and 6.1 of RFC 4585: first byte,
      type, length in words minus one, and the SSRC, which in feedback follows a sender
      SSRC of zero; then, for a NACK, one entry with an empty mask per lost number. */
  lemma WireLayout(p: Packet, i: nat)
    ensures var b := Encode(p);
            && |b| % 4 == 0 && |b| == (if p.Nack? then 12 + 4 * |p.lost| else if p.Pli? then 12 else 8)
            && b[0] as int == FirstByte(p) && b[1] as int == TypeByte(p) && Holds16(b, 2, Wrap16(|b| / 4 - 1))
            && (if p.Nack? || p.Pli? then Holds32(b, 4, 0) && Holds32(b, 8, p.ssrc) else Holds32(b, 4, p.ssrc))
            && (p.Nack? && i < |p.lost| ==> Holds16(b, 12 + 4 * i, p.lost[i]) && Holds16(b, 14 + 4 * i, 0))
  {
    var b := Encode(p);
    LengthField(p);
    if p.Nack? || p.Pli? {
      PutHolds32(b, 4, 0);
      PutHolds32(b, 8, p.ssrc);
    } else {
      PutHolds32(b, 4, p.ssrc);
    }
    if p.Nack? && i < |p.lost| {
      EntryLayout(p.lost, i);
      var e := b[12 + 4 * i..16 + 4 * i];
      assert e == PutEntries(p.lost)[4 * i..4 * i + 4];
      assert b[12 + 4 * i..14 + 4 * i] == e[..2] && b[14 + 4 * i..16 + 4 * i] == e[2..];
      PutHolds16(b, 12 + 4 * i, p.lost[i]);
      PutHolds16(b, 14 + 4 * i, 0);
    }
  }

  /** Which buffers decode to what besides NACKs, in terms of their bytes: at least eight,
      version 2, and as long as their length field says; a PLI needs twelve. */
  lemma DecodedIff(b: seq<byte>)
    ensures var complete := |b| >= 8 && 128 <= b[0] < 192 &&
                            |b| >= 4 * (b[2] as int * 0x100 + b[3] as int + 1);
            && (Decode(b).Decoded? && Decode(b).packet.SenderReport? <==> complete && b[1] == 200)
            && (Decode(b).Decoded? && Decode(b).packet.ReceiverReport? <==> complete && b[1] == 201)
            && (Decode(b).Decoded? && Decode(b).packet.Pli? <==>
                  complete && b[1] == 206 && b[0] % 32 == 1 && |b| >= 12)
            && (Decode(b).Decoded? && Decode(b).packet.Nack? <==>
                  complete && b[1] == 205 && b[0] % 32 == 1 && |b| >= 12 && b[2] as int * 0x100 + b[3] as int >= 2)
  {
    if |b| >= 8 {
      assert DeclaredWords(b) == b[2] as int * 0x100 + b[3] as int + 1;
    }
  }
}
