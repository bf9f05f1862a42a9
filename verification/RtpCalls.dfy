/** The packets that a list of calls to the sender stands for, and that exactly these are
    what it sends. */
module RtpCalls {
  import opened Common
  import opened RtpPacket
  import opened RtpSender

  /** A packet of this sender: version 2, no padding, extension or contributing sources. */
  function MediaPacket(ssrc: u32, number: nat, kind: byte, marker: bool, timestamp: u32, payload: seq<byte>): Packet {
    Packet(2, false, false, 0, marker, kind, Wrap16(number), timestamp, ssrc, [], payload)
  }

  function FragmentCount(data: seq<byte>): nat {
    (|data| + 1199) / 1200
  }

  /** The i-th run of 1200 bytes. */
  function Fragment(data: seq<byte>, i: nat): seq<byte>
    requires i < FragmentCount(data)
  {
    data[1200 * i..if 1200 * (i + 1) < |data| then 1200 * (i + 1) else |data|]
  }

  /** The packets a call stands for, numbered from the given one: an audio payload is one
      packet, a video frame as many as it has fragments, the last of them marked. */
  function CallPackets(ssrc: u32, number: nat, call: Call): seq<Packet> {
    match call
    case Audio(payload, timestamp) => [MediaPacket(ssrc, number, 111, false, timestamp, payload)]
    case Video(data, timestamp) =>
      var n := FragmentCount(data);
      seq(n, i requires 0 <= i < n => MediaPacket(ssrc, number + i, 96, i == n - 1, timestamp, Fragment(data, i)))
  }

  function Media(ssrc: u32, calls: seq<Call>): seq<Packet> {
    if calls == [] then []
    else
      var before := Media(ssrc, calls[..|calls| - 1]);
      before + CallPackets(ssrc, |before|, calls[|calls| - 1])
  }

  /** How many of n packets the channel takes. */
  function Taken(life: Lifetime, n: nat): (k: nat)
    ensures k <= n
  {
    if life.Some? && life.value < n then life.value else n
  }

  function Encoded(packets: seq<Packet>): seq<seq<byte>> {
    seq(|packets|, i requires 0 <= i < |packets| => Encode(packets[i]))
  }

  /** The channel holds the given packets as far as it took them; as long as it is open
      the next number is theirs. */
  ghost predicate Carries(s: Sender, ssrc: u32, life: Lifetime, packets: seq<Packet>) {
    && s.ssrc == ssrc && s.channel == Encoded(packets)[..Taken(life, |packets|)]
    && (Open(s, life) ==> s.seqNo == Wrap16(|packets|))
  }

  lemma TransmitCarries(s: Sender, ssrc: u32, life: Lifetime, packets: seq<Packet>, p: Packet)
    requires Carries(s, ssrc, life, packets) && (Open(s, life) ==> p.seqNo == Wrap16(|packets|))
    ensures var (s', ok) := Transmit(TakeNumber(s), life, p);
            Carries(s', ssrc, life, packets + [p]) && (ok <==> Open(s, life))
  {
    assert Encoded(packets + [p]) == Encoded(packets) + [Encode(p)];
    if Open(s, life) {
      WrapNext(|packets|);
      assert Encoded(packets)[..|packets|] == Encoded(packets);
      assert (Encoded(packets) + [Encode(p)])[..|packets| + 1] == Encoded(packets) + [Encode(p)];
    }
  }

  /** A closed channel takes no more, whatever else is to be sent. */
  lemma ClosedCarries(s: Sender, s': Sender, ssrc: u32, life: Lifetime, packets: seq<Packet>, more: seq<Packet>)
    requires Carries(s, ssrc, life, packets) && !Open(s, life) && s'.ssrc == ssrc && s'.channel == s.channel
    ensures Carries(s', ssrc, life, packets + more)
  {
    assert Encoded(packets + more) == Encoded(packets) + Encoded(more);
  }

  function Fragments(ssrc: u32, number: nat, chunks: seq<seq<byte>>, timestamp: u32): seq<Packet> {
    seq(|chunks|, i requires 0 <= i < |chunks| =>
      MediaPacket(ssrc, number + i, 96, i == |chunks| - 1, timestamp, chunks[i]))
  }

  lemma FragmentsSplit(ssrc: u32, number: nat, chunks: seq<seq<byte>>, timestamp: u32)
    requires chunks != []
    ensures Fragments(ssrc, number, chunks, timestamp) ==
            [MediaPacket(ssrc, number, 96, |chunks| == 1, timestamp, chunks[0])] +
            Fragments(ssrc, number + 1, chunks[1..], timestamp)
  {
  }

  lemma {:induction false} ChunksCarried(s: Sender, ssrc: u32, life: Lifetime, packets: seq<Packet>,
                                         chunks: seq<seq<byte>>, timestamp: u32)
    requires Carries(s, ssrc, life, packets)
    ensures Carries(SendChunks(s, life, chunks, timestamp).0, ssrc, life,
                    packets + Fragments(ssrc, |packets|, chunks, timestamp))
    decreases |chunks|
  {
    if chunks == [] {
      assert packets + Fragments(ssrc, |packets|, chunks, timestamp) == packets;
    } else if Open(s, life) {
      var p := MediaPacket(ssrc, |packets|, 96, |chunks| == 1, timestamp, chunks[0]);
      TransmitCarries(s, ssrc, life, packets, p);
      FragmentsSplit(ssrc, |packets|, chunks, timestamp);
      var rest := Fragments(ssrc, |packets| + 1, chunks[1..], timestamp);
      assert packets + ([p] + rest) == packets + [p] + rest;
      ChunksCarried(SendChunk(s, life, chunks[0], timestamp, |chunks| == 1).0, ssrc, life, packets + [p], chunks[1..],
                    timestamp);
    } else {
      ClosedCarries(s, SendChunks(s, life, chunks, timestamp).0, ssrc, life, packets,
                    Fragments(ssrc, |packets|, chunks, timestamp));
    }
  }

  lemma FragmentOfRest(data: seq<byte>, i: nat)
    requires |data| > 1200 && i < FragmentCount(data[1200..])
    ensures FragmentCount(data) == FragmentCount(data[1200..]) + 1
    ensures Fragment(data, i + 1) == Fragment(data[1200..], i)
  {
    var rest := data[1200..];
    var end := if 1200 * (i + 1) < |rest| then 1200 * (i + 1) else |rest|;
    assert rest[1200 * i..end] == data[1200 * (i + 1)..1200 + end];
  }

  lemma OneFragment(data: seq<byte>)
    requires 0 < |data| <= 1200
    ensures FragmentCount(data) == 1 && Fragment(data, 0) == data
  {
  }

  /** The fragments of a frame are its runs of 1200 bytes. */
  lemma {:induction false} ChunksAreRuns(data: seq<byte>, i: nat)
    ensures |Chunks(data)| == FragmentCount(data)
    ensures i < |Chunks(data)| ==> Chunks(data)[i] == Fragment(data, i)
  {
    if data == [] {
    } else if |data| <= MAX_PAYLOAD_SIZE {
      OneFragment(data);
    } else {
      var rest := data[1200..];
      ChunksAreRuns(rest, if i > 0 then i - 1 else 0);
      FragmentOfRest(data, 0);
      if 0 < i < |Chunks(data)| {
        FragmentOfRest(data, i - 1);
      }
    }
  }

  lemma SendCarries(s: Sender, ssrc: u32, life: Lifetime, packets: seq<Packet>, call: Call)
    requires Carries(s, ssrc, life, packets)
    ensures Carries(Send(s, life, call).0, ssrc, life, packets + CallPackets(ssrc, |packets|, call))
  {
    match call
    case Audio(payload, timestamp) =>
      if Open(s, life) {
        TransmitCarries(s, ssrc, life, packets, MediaPacket(ssrc, |packets|, 111, false, timestamp, payload));
      } else {
        ClosedCarries(s, Send(s, life, call).0, ssrc, life, packets, CallPackets(ssrc, |packets|, call));
      }
    case Video(data, timestamp) =>
      ChunksCarried(s, ssrc, life, packets, Chunks(data), timestamp);
      forall i | 0 <= i < |Chunks(data)|
        ensures |Chunks(data)| == FragmentCount(data) && Chunks(data)[i] == Fragment(data, i)
      {
        ChunksAreRuns(data, i);
      }
      ChunksAreRuns(data, 0);
      assert Fragments(ssrc, |packets|, Chunks(data), timestamp) == CallPackets(ssrc, |packets|, call);
  }

  /** Over every sequence of calls the channel carries exactly the packets the calls stand
      for, in call order, as many as it takes before it closes. */
  lemma {:induction false} ChannelCarriesCalls(ssrc: u32, life: Lifetime, calls: seq<Call>)
    ensures Carries(Run(ssrc, life, calls), ssrc, life, Media(ssrc, calls))
  {
    if calls != [] {
      var n := |calls| - 1;
      ChannelCarriesCalls(ssrc, life, calls[..n]);
      SendCarries(Run(ssrc, life, calls[..n]), ssrc, life, Media(ssrc, calls[..n]), calls[n]);
    }
  }
}
