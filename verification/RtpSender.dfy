/** The RTP sender: consecutive sequence numbers and fragmentation of video frames. */
module RtpSender {
  import opened Common
  import opened RtpPacket

  const MAX_PAYLOAD_SIZE: nat := 1200

  /** The sender's fields and the packets its channel accepted. */
  datatype Sender = Sender(ssrc: u32, seqNo: u16, bytesSent: nat, packetsSent: nat, channel: seq<seq<byte>>)

  /** How many packets the receiving end takes before it is dropped, if it ever is. */
  type Lifetime = Option<nat>

  datatype Call = Audio(payload: seq<byte>, timestamp: u32) | Video(data: seq<byte>, timestamp: u32)

  predicate Open(s: Sender, life: Lifetime) {
    life.None? || |s.channel| < life.value
  }

  /** The fragments of a frame. */
  function Chunks(data: seq<byte>): seq<seq<byte>> {
    if data == [] then []
    else if |data| <= MAX_PAYLOAD_SIZE then [data]
    else [data[..MAX_PAYLOAD_SIZE]] + Chunks(data[MAX_PAYLOAD_SIZE..])
  }

  function Flatten(chunks: seq<seq<byte>>): seq<byte> {
    if chunks == [] then [] else chunks[0] + Flatten(chunks[1..])
  }

  /** send_packet: the statistics count a packet even when the channel is closed. */
  function Transmit(s: Sender, life: Lifetime, p: Packet): (Sender, bool) {
    var b := Encode(p);
    var s' := s.(bytesSent := s.bytesSent + |b|, packetsSent := s.packetsSent + 1);
    if Open(s, life) then (s'.(channel := s.channel + [b]), true) else (s', false)
  }

  function TakeNumber(s: Sender): Sender {
    s.(seqNo := Wrap16(s.seqNo + 1))
  }

  function SendAudio(s: Sender, life: Lifetime, payload: seq<byte>, timestamp: u32): (Sender, bool) {
    Transmit(TakeNumber(s), life, NewAudio(payload, timestamp, s.ssrc, s.seqNo))
  }

  function SendChunk(s: Sender, life: Lifetime, chunk: seq<byte>, timestamp: u32, last: bool): (Sender, bool) {
    Transmit(TakeNumber(s), life, NewVideo(chunk, timestamp, s.ssrc, s.seqNo, last))
  }

  /** Sends fragments until one fails; the marker is on the last. */
  function SendChunks(s: Sender, life: Lifetime, chunks: seq<seq<byte>>, timestamp: u32): (Sender, bool)
    decreases |chunks|
  {
    if chunks == [] then (s, true)
    else
      var (s', ok) := SendChunk(s, life, chunks[0], timestamp, |chunks| == 1);
      if ok then SendChunks(s', life, chunks[1..], timestamp) else (s', false)
  }

  function Send(s: Sender, life: Lifetime, call: Call): (Sender, bool) {
    match call
    case Audio(payload, timestamp) => SendAudio(s, life, payload, timestamp)
    case Video(data, timestamp) => SendChunks(s, life, Chunks(data), timestamp)
  }

  function Run(ssrc: u32, life: Lifetime, calls: seq<Call>): Sender {
    if calls == [] then Sender(ssrc, 0, 0, 0, [])
    else Send(Run(ssrc, life, calls[..|calls| - 1]), life, calls[|calls| - 1]).0
  }

  class RtpSender {
    const ssrc: u32
    const life: Lifetime
    var seqNo: u16
    var bytesSent: nat
    var packetsSent: nat
    var channel: seq<seq<byte>>

    ghost function View(): Sender
      reads this
    {
      Sender(ssrc, seqNo, bytesSent, packetsSent, channel)
    }

    constructor (ssrc: u32, life: Lifetime)
      ensures this.ssrc == ssrc && this.life == life && View() == Run(ssrc, life, [])
    {
      this.ssrc, this.life := ssrc, life;
      seqNo, bytesSent, packetsSent, channel := 0, 0, 0, [];
    }

    method NextSeq() returns (s: u16)
      modifies this`seqNo
      ensures s == old(seqNo) && View() == TakeNumber(old(View()))
    {
      s := seqNo;
      seqNo := Wrap16(seqNo + 1);
    }

    method SendPacket(p: Packet) returns (ok: bool)
      modifies this`bytesSent, this`packetsSent, this`channel
      ensures (View(), ok) == Transmit(old(View()), life, p)
    {
      var b := ToBytes(p);
      bytesSent := bytesSent + |b|;
      packetsSent := packetsSent + 1;
      ok := life.None? || |channel| < life.value;
      if ok {
        channel := channel + [b];
      }
    }

    method SendAudioFrame(payload: seq<byte>, timestamp: u32) returns (ok: bool)
      modifies this
      ensures (View(), ok) == Send(old(View()), life, Audio(payload, timestamp))
    {
      var seqNo := NextSeq();
      ok := SendPacket(NewAudio(payload, timestamp, ssrc, seqNo));
    }

    method SendVideoFrame(data: seq<byte>, timestamp: u32) returns (ok: bool)
      modifies this
      ensures (View(), ok) == Send(old(View()), life, Video(data, timestamp))
    {
      var chunks := Chunks(data);
      for i := 0 to |chunks|
        invariant SendChunks(View(), life, chunks[i..], timestamp) == SendChunks(old(View()), life, chunks, timestamp)
      {
        var seqNo := NextSeq();
        var marker := i == |chunks| - 1;
        ok := SendPacket(NewVideo(chunks[i], timestamp, ssrc, seqNo, marker));
        if !ok {
          return;
        }
      }
      ok := true;
    }
  }

  /** A frame splits into non-empty fragments of at most the maximal size, all but the
      last of them full, that join back to it. */
  lemma {:induction false} ChunksJoin(data: seq<byte>)
    ensures var chunks := Chunks(data);
            && Flatten(chunks) == data
            && (chunks == [] <==> data == [])
            && (forall i :: 0 <= i < |chunks| ==> 0 < |chunks[i]| <= MAX_PAYLOAD_SIZE)
            && (forall i :: 0 <= i < |chunks| - 1 ==> |chunks[i]| == MAX_PAYLOAD_SIZE)
  {
    if data != [] {
      if |data| <= MAX_PAYLOAD_SIZE {
        assert [data][1..] == [];
        assert Flatten([]) == [] && data + [] == data;
      } else {
        var head, rest := data[..MAX_PAYLOAD_SIZE], data[MAX_PAYLOAD_SIZE..];
        ChunksJoin(rest);
        assert ([head] + Chunks(rest))[1..] == Chunks(rest);
        assert data == head + rest;
      }
    }
  }

  /** Packet i on the wire carries the low 16 bits of i. */
  ghost predicate NumberedAt(channel: seq<seq<byte>>, i: nat) {
    i < |channel| && Decode(channel[i]).Ok? && Decode(channel[i]).value.seqNo == Wrap16(i)
  }

  ghost predicate Numbered(channel: seq<seq<byte>>) {
    forall i :: 0 <= i < |channel| ==> NumberedAt(channel, i)
  }

  /** The bytes of all packets, headers included. */
  function Bytes(channel: seq<seq<byte>>): nat {
    if channel == [] then 0 else Bytes(channel[..|channel| - 1]) + |channel[|channel| - 1]|
  }

  lemma BytesAppend(channel: seq<seq<byte>>, b: seq<byte>)
    ensures Bytes(channel + [b]) == Bytes(channel) + |b|
  {
    assert (channel + [b])[..|channel|] == channel;
  }

  /** Numbers and statistics count all attempts; only a closed channel misses some. */
  ghost predicate InStep(s: Sender, life: Lifetime) {
    && s.seqNo == Wrap16(s.packetsSent)
    && |s.channel| <= s.packetsSent
    && (Open(s, life) ==> |s.channel| == s.packetsSent && s.bytesSent == Bytes(s.channel))
  }

  lemma WrapNext(n: nat)
    ensures Wrap16(Wrap16(n) + 1) == Wrap16(n + 1)
  {
  }

  /** One packet with the next number, whatever else it holds. */
  lemma TransmitNext(s: Sender, life: Lifetime, p: Packet)
    requires InStep(s, life) && Numbered(s.channel) && WellFormed(p) && p.seqNo == s.seqNo
    ensures var s' := Transmit(TakeNumber(s), life, p).0; InStep(s', life) && Numbered(s'.channel)
  {
    WrapNext(s.packetsSent);
    if Open(s, life) {
      AcceptNext(s.channel, p);
    }
  }

  lemma AcceptNext(channel: seq<seq<byte>>, p: Packet)
    requires Numbered(channel) && WellFormed(p) && p.seqNo == Wrap16(|channel|)
    ensures Numbered(channel + [Encode(p)]) && Bytes(channel + [Encode(p)]) == Bytes(channel) + |Encode(p)|
  {
    DecodeEncode(p);
    NumberedAppend(channel, p);
    BytesAppend(channel, Encode(p));
  }

  lemma NumberedAppend(channel: seq<seq<byte>>, p: Packet)
    requires Numbered(channel) && Decode(Encode(p)) == Ok(p) && p.seqNo == Wrap16(|channel|)
    ensures Numbered(channel + [Encode(p)])
  {
    forall i | 0 <= i < |channel + [Encode(p)]|
      ensures NumberedAt(channel + [Encode(p)], i)
    {
      assert i < |channel| ==> NumberedAt(channel, i);
    }
  }

  lemma {:induction false} ChunksNumbered(s: Sender, life: Lifetime, chunks: seq<seq<byte>>, timestamp: u32)
    requires InStep(s, life) && Numbered(s.channel)
    ensures var s' := SendChunks(s, life, chunks, timestamp).0; InStep(s', life) && Numbered(s'.channel)
    decreases |chunks|
  {
    if chunks != [] {
      TransmitNext(s, life, NewVideo(chunks[0], timestamp, s.ssrc, s.seqNo, |chunks| == 1));
      ChunksNumbered(SendChunk(s, life, chunks[0], timestamp, |chunks| == 1).0, life, chunks[1..], timestamp);
    }
  }

  /** Over every sequence of calls, the i-th packet sent carries i mod 65536, also when
      the channel closes under way. */
  lemma {:induction false} SentInOrder(ssrc: u32, life: Lifetime, calls: seq<Call>)
    ensures InStep(Run(ssrc, life, calls), life) && Numbered(Run(ssrc, life, calls).channel)
  {
    if calls != [] {
      var n := |calls| - 1;
      var s := Run(ssrc, life, calls[..n]);
      SentInOrder(ssrc, life, calls[..n]);
      match calls[n]
      case Audio(payload, timestamp) => TransmitNext(s, life, NewAudio(payload, timestamp, s.ssrc, s.seqNo));
      case Video(data, timestamp) => ChunksNumbered(s, life, Chunks(data), timestamp);
    }
  }

  /** The payloads of a list of encoded packets, joined. */
  function Payloads(channel: seq<seq<byte>>): seq<byte> {
    if channel == [] then []
    else (if Decode(channel[0]).Ok? then Decode(channel[0]).value.payload else []) + Payloads(channel[1..])
  }

  ghost predicate FragmentAt(channel: seq<seq<byte>>, i: nat, timestamp: u32, ssrc: u32) {
    && i < |channel| && Decode(channel[i]).Ok?
    && (var p := Decode(channel[i]).value;
        && p.payloadType == PT_VIDEO && p.timestamp == timestamp && p.ssrc == ssrc
        && 0 < |p.payload| <= MAX_PAYLOAD_SIZE
        && (p.marker <==> i == |channel| - 1))
  }

  /** The packets added by sending fragments over an open channel. */
  lemma {:induction false} FragmentsSent(s: Sender, chunks: seq<seq<byte>>, timestamp: u32)
    returns (added: seq<seq<byte>>)
    requires forall i :: 0 <= i < |chunks| ==> 0 < |chunks[i]| <= MAX_PAYLOAD_SIZE
    ensures var (s', ok) := SendChunks(s, None, chunks, timestamp); ok && s'.channel == s.channel + added
    ensures |added| == |chunks| && Payloads(added) == Flatten(chunks)
    ensures forall i :: 0 <= i < |added| ==> FragmentAt(added, i, timestamp, s.ssrc)
    decreases |chunks|
  {
    if chunks == [] {
      added := [];
    } else {
      var p := NewVideo(chunks[0], timestamp, s.ssrc, s.seqNo, |chunks| == 1);
      DecodeEncode(p);
      var rest := FragmentsSent(SendChunk(s, None, chunks[0], timestamp, |chunks| == 1).0, chunks[1..], timestamp);
      added := [Encode(p)] + rest;
      assert added[1..] == rest;
      assert s.channel + [Encode(p)] + rest == s.channel + added;
      forall i | 0 <= i < |added|
        ensures FragmentAt(added, i, timestamp, s.ssrc)
      {
        assert i > 0 ==> FragmentAt(rest, i - 1, timestamp, s.ssrc);
      }
    }
  }

  /** A frame sent over an open channel arrives as fragments that reassemble to it, with
      the marker on the last one only. */
  lemma VideoReassembles(s: Sender, data: seq<byte>, timestamp: u32) returns (added: seq<seq<byte>>)
    ensures var (s', ok) := Send(s, None, Video(data, timestamp)); ok && s'.channel == s.channel + added
    ensures Payloads(added) == data
    ensures forall i :: 0 <= i < |added| ==> FragmentAt(added, i, timestamp, s.ssrc)
  {
    ChunksJoin(data);
    added := FragmentsSent(s, Chunks(data), timestamp);
  }

  /** An audio call on an open channel adds one packet, which decodes to its payload and
      timestamp under the sender's source and next number, without a marker. */
  lemma AudioArrives(s: Sender, payload: seq<byte>, timestamp: u32) returns (b: seq<byte>)
    ensures var (s', ok) := Send(s, None, Audio(payload, timestamp)); ok && s'.channel == s.channel + [b]
    ensures Decode(b) == Ok(Packet(2, false, false, 0, false, 111, s.seqNo, timestamp, s.ssrc, [], payload))
  {
    b := Encode(NewAudio(payload, timestamp, s.ssrc, s.seqNo));
    DecodeEncode(NewAudio(payload, timestamp, s.ssrc, s.seqNo));
  }

  /** How many bytes of payload a call puts into its first packet, if it makes one. */
  function FirstPayload(call: Call): Option<nat> {
    match call
    case Audio(payload, _) => Some(|payload|)
    case Video(data, _) => if data == [] then None else Some(if |data| < MAX_PAYLOAD_SIZE then |data| else MAX_PAYLOAD_SIZE)
  }

  /** On a closed channel a call fails with its first packet, which still takes a number
      and counts in the statistics; a call without packets succeeds. */
  lemma ClosedCountsOne(s: Sender, life: Lifetime, call: Call)
    requires !Open(s, life)
    ensures Send(s, life, call) ==
            match FirstPayload(call)
            case None => (s, true)
            case Some(n) =>
              (s.(seqNo := Wrap16(s.seqNo + 1), packetsSent := s.packetsSent + 1,
                  bytesSent := s.bytesSent + RTP_HEADER_SIZE + n), false)
  {
    match call
    case Audio(payload, timestamp) =>
    case Video(data, timestamp) =>
      if data != [] {
        assert |Chunks(data)[0]| == FirstPayload(call).value;
      }
  }
}
