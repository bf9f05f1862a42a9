/** From the sender's calls to what is read and published at the other end. */
module RtpDelivery {
  import opened Common
  import opened RtpPacket
  import opened OrderedMap
  import opened JitterBuffer
  import opened JitterTrace
  import opened RtpPath
  import opened RtpCalls
  import opened InboundPipeline
  import RtpSender

  /** What is sent at an index is the calls' packet there. */
  lemma ChannelPacket(ssrc: u32, life: RtpSender.Lifetime, calls: seq<RtpSender.Call>, i: nat)
    ensures var channel := RtpSender.Run(ssrc, life, calls).channel;
            var packets := Media(ssrc, calls);
            && |channel| == Taken(life, |packets|)
            && (i < |channel| ==> Decode(channel[i]) == Ok(packets[i]))
  {
    ChannelCarriesCalls(ssrc, life, calls);
    var packets := Media(ssrc, calls);
    if i < |RtpSender.Run(ssrc, life, calls).channel| {
      MediaWellFormed(ssrc, calls, i);
      DecodeEncode(packets[i]);
    }
  }

  lemma {:induction false} MediaWellFormed(ssrc: u32, calls: seq<RtpSender.Call>, i: nat)
    requires i < |Media(ssrc, calls)|
    ensures WellFormed(Media(ssrc, calls)[i])
  {
    if calls != [] {
      var n := |calls| - 1;
      var before := Media(ssrc, calls[..n]);
      if i < |before| {
        MediaWellFormed(ssrc, calls[..n], i);
      } else {
        assert Media(ssrc, calls)[i] == CallPackets(ssrc, |before|, calls[n])[i - |before|];
      }
    }
  }

  /** Each packet read is the one of the list at its index, and indices only increase. */
  ghost predicate ReadsFrom(log: seq<Fate>, packets: seq<Packet>) {
    && (forall f :: f in log && f.Emitted? ==> f.index < |packets| && f.packet == packets[f.index])
    && (forall i, j :: 0 <= i < j < |log| ==> log[i].index < log[j].index)
  }

  lemma LogIncreases(t: Trace, i: nat, j: nat)
    requires Consistent(t) && i < j < |t.log|
    ensures t.log[i].index < t.log[j].index
  {
    var first := t.j.nextEmit.value - |t.log|;
    assert FateAt(t.log, first, i) && FateAt(t.log, first, j);
  }

  /** Whatever the network does within reach, what is read is what the calls stand for. */
  lemma ReadsTheCalls(ssrc: u32, life: RtpSender.Lifetime, calls: seq<RtpSender.Call>,
                      capacity: nat, events: seq<Event>)
    requires Admissible(RtpSender.Run(ssrc, life, calls).channel, events)
    ensures var channel := RtpSender.Run(ssrc, life, calls).channel;
            RtpSender.Numbered(channel) && ReadsFrom(Receive(channel, capacity, events).log, Media(ssrc, calls))
  {
    ReadsWhatWasSent(ssrc, life, calls, capacity, events);
    var channel := RtpSender.Run(ssrc, life, calls).channel;
    var t := Receive(channel, capacity, events);
    forall f | f in t.log && f.Emitted?
      ensures f.index < |Media(ssrc, calls)| && f.packet == Media(ssrc, calls)[f.index]
    {
      assert Sent(channel, f.index, f.packet);
      ChannelPacket(ssrc, life, calls, f.index);
    }
    forall i, j | 0 <= i < j < |t.log|
      ensures t.log[i].index < t.log[j].index
    {
      LogIncreases(t, i, j);
    }
  }

  /** If everything sent arrives and fits, and reading starts afterwards, reading yields
      the packets of all calls in call order, as far as the channel took them. */
  lemma ReadsAllCalls(ssrc: u32, life: RtpSender.Lifetime, calls: seq<RtpSender.Call>,
                      capacity: nat, events: seq<Event>)
    requires var channel := RtpSender.Run(ssrc, life, calls).channel;
             && Admissible(channel, events) && NoReads(events) && |channel| <= capacity
             && forall i :: 0 <= i < |channel| ==> Arrives(events, i)
    ensures var channel := RtpSender.Run(ssrc, life, calls).channel;
            && RtpSender.Numbered(channel)
            && PollAll(Receive(channel, capacity, events).j) == Media(ssrc, calls)[..Taken(life, |Media(ssrc, calls)|)]
  {
    EverythingArrives(ssrc, life, calls, capacity, events);
    var channel := RtpSender.Run(ssrc, life, calls).channel;
    var read := PollAll(Receive(channel, capacity, events).j);
    ChannelPacket(ssrc, life, calls, 0);
    forall i | 0 <= i < |channel|
      ensures read[i] == Media(ssrc, calls)[i]
    {
      assert Sent(channel, i, read[i]);
      ChannelPacket(ssrc, life, calls, i);
    }
  }

  /** The payloads of the audio calls, in call order. */
  function AudioPayloads(calls: seq<RtpSender.Call>): seq<seq<byte>> {
    if calls == [] then []
    else
      AudioPayloads(calls[..|calls| - 1]) +
      match calls[|calls| - 1]
      case Audio(payload, _) => [payload]
      case Video(_, _) => []
  }

  /** The decodings of a list of payloads up to the first that the decoder refuses. */
  function DecodeAll<F, E>(payloads: seq<seq<byte>>, decode: seq<byte> -> Result<F, E>): (seq<F>, Option<E>) {
    if payloads == [] then ([], None)
    else
      match decode(payloads[0])
      case Err(e) => ([], Some(e))
      case Ok(frame) =>
        var (frames, e) := DecodeAll(payloads[1..], decode);
        ([frame] + frames, e)
  }

  /** The payloads of the audio packets of a list. */
  function AudioOf(packets: seq<Packet>): seq<seq<byte>> {
    if packets == [] then []
    else (if packets[0].payloadType == 111 then [packets[0].payload] else []) + AudioOf(packets[1..])
  }

  lemma {:induction false} DecodingsOfAudio<F, E>(packets: seq<Packet>, decode: seq<byte> -> Result<F, E>)
    ensures Decodings(packets, decode) == DecodeAll(AudioOf(packets), decode)
  {
    if packets != [] {
      DecodingsOfAudio(packets[1..], decode);
      if packets[0].payloadType == 111 {
        assert AudioOf(packets)[1..] == AudioOf(packets[1..]);
      } else {
        assert AudioOf(packets) == AudioOf(packets[1..]);
      }
    }
  }

  lemma {:induction false} AudioOfConcat(a: seq<Packet>, b: seq<Packet>)
    ensures AudioOf(a + b) == AudioOf(a) + AudioOf(b)
  {
    if a == [] {
      assert a + b == b;
    } else {
      assert (a + b)[1..] == a[1..] + b;
      AudioOfConcat(a[1..], b);
    }
  }

  lemma {:induction false} NoAudioIn(packets: seq<Packet>)
    requires forall i :: 0 <= i < |packets| ==> packets[i].payloadType != 111
    ensures AudioOf(packets) == []
  {
    if packets != [] {
      NoAudioIn(packets[1..]);
    }
  }

  lemma AudioOfCall(ssrc: u32, number: nat, call: RtpSender.Call)
    ensures AudioOf(CallPackets(ssrc, number, call)) ==
            match call
            case Audio(payload, _) => [payload]
            case Video(_, _) => []
  {
    if call.Video? {
      NoAudioIn(CallPackets(ssrc, number, call));
    } else {
      assert CallPackets(ssrc, number, call)[1..] == [];
    }
  }

  lemma {:induction false} AudioOfMedia(ssrc: u32, calls: seq<RtpSender.Call>)
    ensures AudioOf(Media(ssrc, calls)) == AudioPayloads(calls)
  {
    if calls != [] {
      var n := |calls| - 1;
      AudioOfMedia(ssrc, calls[..n]);
      var before := Media(ssrc, calls[..n]);
      AudioOfConcat(before, CallPackets(ssrc, |before|, calls[n]));
      AudioOfCall(ssrc, |before|, calls[n]);
    }
  }

  lemma WireIsMedia(ssrc: u32, calls: seq<RtpSender.Call>)
    ensures var channel := RtpSender.Run(ssrc, None, calls).channel;
            RtpSender.Numbered(channel) && Wire(channel) == Media(ssrc, calls)
  {
    var channel := RtpSender.Run(ssrc, None, calls).channel;
    RtpSender.SentInOrder(ssrc, None, calls);
    ChannelPacket(ssrc, None, calls, 0);
    forall i | 0 <= i < |channel|
      ensures Wire(channel)[i] == Media(ssrc, calls)[i]
    {
      assert RtpSender.NumberedAt(channel, i);
      ChannelPacket(ssrc, None, calls, i);
    }
  }

  /** Then the pipeline publishes the decodings of the audio calls' payloads in call order,
      up to the first that the decoder refuses, whatever video was sent in between. */
  lemma PublishesTheCalls<F, E>(ssrc: u32, calls: seq<RtpSender.Call>, capacity: nat, events: seq<Event>,
                                decode: seq<byte> -> Result<F, E>)
    requires var channel := RtpSender.Run(ssrc, None, calls).channel;
             && Admissible(channel, events) && NoReads(events) && |channel| <= capacity
             && forall i :: 0 <= i < |channel| ==> Arrives(events, i)
    ensures var channel := RtpSender.Run(ssrc, None, calls).channel;
            && RtpSender.Numbered(channel)
            && var (j, frames, error) := Drained(Receive(channel, capacity, events).j, decode, []);
               (frames, error) == DecodeAll(AudioPayloads(calls), decode) && (error.None? ==> j.buffer == [])
  {
    var channel := RtpSender.Run(ssrc, None, calls).channel;
    WireIsMedia(ssrc, calls);
    PublishesInOrder(channel, capacity, events, decode);
    DecodingsOfAudio(Media(ssrc, calls), decode);
    AudioOfMedia(ssrc, calls);
  }
}
