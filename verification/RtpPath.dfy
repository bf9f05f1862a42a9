/** From the sender's calls over a network that loses, repeats and reorders packets to
    the packets the receiver reads. */
module RtpPath {
  import opened Common
  import opened OrderedMap
  import opened RtpPacket
  import opened JitterBuffer
  import opened JitterTrace
  import RtpSender
  import opened InboundPipeline

  /** The packet with the given index arrives, or the receiver reads. */
  datatype Event = Arrive(index: nat) | Read

  /** The highest index that arrived, or -1. */
  function Highest(events: seq<Event>): int {
    if events == [] then -1
    else
      var e := events[|events| - 1];
      var h := Highest(events[..|events| - 1]);
      if e.Arrive? && e.index > h then e.index else h
  }

  ghost predicate Admissible(channel: seq<seq<byte>>, events: seq<Event>) {
    events == [] ||
    (var n := |events| - 1;
     && Admissible(channel, events[..n])
     && (events[n].Arrive? ==>
           events[n].index < |channel| && InReach(Highest(events[..n]), events[n].index)))
  }

  /** What the wire carries at an index. */
  function PacketAt(channel: seq<seq<byte>>, i: nat): Packet
    requires RtpSender.NumberedAt(channel, i)
  {
    Decode(channel[i]).value
  }

  /** The receiver decodes what arrives and pushes it. */
  function Operation(channel: seq<seq<byte>>, e: Event): Op
    requires RtpSender.Numbered(channel) && (e.Arrive? ==> e.index < |channel|)
  {
    match e
    case Arrive(i) =>
      assert RtpSender.NumberedAt(channel, i);
      Push(Decode(channel[i]).value)
    case Read => Poll
  }

  function Receive(channel: seq<seq<byte>>, capacity: nat, events: seq<Event>): Trace
    requires RtpSender.Numbered(channel) && Admissible(channel, events)
  {
    if events == [] then Trace(New(capacity), [], [], 0, 0, 0)
    else Step(Receive(channel, capacity, events[..|events| - 1]), Operation(channel, events[|events| - 1]))
  }

  ghost predicate Sent(channel: seq<seq<byte>>, i: nat, p: Packet) {
    RtpSender.NumberedAt(channel, i) && p == Decode(channel[i]).value
  }

  ghost predicate AllSent(channel: seq<seq<byte>>, es: Entries<Packet>) {
    forall e :: e in es ==> Sent(channel, e.0, e.1)
  }

  ghost predicate LogSent(channel: seq<seq<byte>>, log: seq<Fate>) {
    forall f :: f in log && f.Emitted? ==> Sent(channel, f.index, f.packet)
  }

  lemma ArriveSent(channel: seq<seq<byte>>, t: Trace, highest: int, i: nat)
    requires RtpSender.NumberedAt(channel, i) && Sound(t.j)
    requires AllSent(channel, t.j.buffer) && Tracks(t.j.unwrapper, highest) && InReach(highest, i)
    ensures var j' := Step(t, Push(Decode(channel[i]).value)).j;
            AllSent(channel, j'.buffer) && Tracks(j'.unwrapper, if i > highest then i else highest)
  {
    UnwrapTracks(t.j.unwrapper, highest, i);
    PushedSent(channel, t.j, i, Decode(channel[i]).value);
  }

  lemma PushedSent(channel: seq<seq<byte>>, j: Jitter, i: nat, p: Packet)
    requires Sound(j) && AllSent(channel, j.buffer)
    requires Sent(channel, i, p) && Unwrap(j.unwrapper, p.seqNo).1 == i
    ensures AllSent(channel, Pushed(j, p).buffer)
  {
    InsertMeaning(j.buffer, i, p);
    NewestSound(Insert(j.buffer, i, p), j.capacity);
  }

  lemma ReadSent(channel: seq<seq<byte>>, t: Trace)
    requires Sound(t.j) && AllSent(channel, t.j.buffer) && LogSent(channel, t.log)
    ensures var t' := Step(t, Poll); AllSent(channel, t'.j.buffer) && LogSent(channel, t'.log)
    ensures Step(t, Poll).j.unwrapper == t.j.unwrapper
  {
    if t.j.buffer != [] {
      PollTakesEarliest(t.j);
      assert t.j.buffer[0] in t.j.buffer;
      assert forall e :: e in t.j.buffer[1..] ==> e in t.j.buffer;
    }
  }

  /** What every event keeps. */
  ghost predicate Faithful(channel: seq<seq<byte>>, t: Trace, highest: int) {
    && Consistent(t) && Tracks(t.j.unwrapper, highest)
    && AllSent(channel, t.j.buffer) && LogSent(channel, t.log)
  }

  lemma ArriveKeeps(channel: seq<seq<byte>>, t: Trace, highest: int, i: nat)
    requires Faithful(channel, t, highest) && RtpSender.NumberedAt(channel, i) && InReach(highest, i)
    ensures var t' := Step(t, Push(Decode(channel[i]).value));
            Faithful(channel, t', if i > highest then i else highest) && t'.j.capacity == t.j.capacity
  {
    ArriveSent(channel, t, highest, i);
    PushConsistent(t, Decode(channel[i]).value);
  }

  lemma ReadKeeps(channel: seq<seq<byte>>, t: Trace, highest: int)
    requires Faithful(channel, t, highest)
    ensures Faithful(channel, Step(t, Poll), highest) && Step(t, Poll).j.capacity == t.j.capacity
  {
    ReadSent(channel, t);
    PollConsistent(t);
  }

  lemma {:induction false} ReceiveInvariant(channel: seq<seq<byte>>, capacity: nat, events: seq<Event>)
    requires RtpSender.Numbered(channel) && Admissible(channel, events)
    ensures Faithful(channel, Receive(channel, capacity, events), Highest(events))
    ensures Receive(channel, capacity, events).j.capacity == capacity
  {
    if events != [] {
      var n := |events| - 1;
      var t := Receive(channel, capacity, events[..n]);
      ReceiveInvariant(channel, capacity, events[..n]);
      match events[n]
      case Arrive(i) =>
        assert RtpSender.NumberedAt(channel, i);
        ArriveKeeps(channel, t, Highest(events[..n]), i);
      case Read => ReadKeeps(channel, t, Highest(events[..n]));
    }
  }

  /** Whatever the network does within reach, the receiver reads packets as they were
      sent, in send order and each at most once: the log covers consecutive indices, and
      what it emits at an index is what the sender sent there. */
  lemma ReadsWhatWasSent(ssrc: u32, life: RtpSender.Lifetime, calls: seq<RtpSender.Call>,
                         capacity: nat, events: seq<Event>)
    requires Admissible(RtpSender.Run(ssrc, life, calls).channel, events)
    ensures var channel := RtpSender.Run(ssrc, life, calls).channel;
            && RtpSender.Numbered(channel)
            && Consistent(Receive(channel, capacity, events))
            && LogSent(channel, Receive(channel, capacity, events).log)
  {
    RtpSender.SentInOrder(ssrc, life, calls);
    ReceiveInvariant(RtpSender.Run(ssrc, life, calls).channel, capacity, events);
  }

  ghost predicate Arrives(events: seq<Event>, i: nat) {
    Arrive(i) in events
  }

  ghost predicate NoReads(events: seq<Event>) {
    forall i :: 0 <= i < |events| ==> events[i].Arrive?
  }

  lemma {:induction false} BufferFits(es: Entries<Packet>, n: nat)
    requires Ordered(es) && forall e :: e in es ==> e.0 < n
    ensures |es| <= n
  {
    if es != [] {
      KeyAtLeast(es, |es| - 1);
      assert es[|es| - 1] in es;
    }
  }

  /** While nothing is read and everything sent fits, the buffer holds what arrived. */
  lemma {:induction false} BufferHoldsArrivals(channel: seq<seq<byte>>, capacity: nat, events: seq<Event>)
    requires RtpSender.Numbered(channel) && Admissible(channel, events) && NoReads(events) && |channel| <= capacity
    ensures var t := Receive(channel, capacity, events);
            && t.j.nextEmit.None? && t.evicted == 0
            && forall i :: Has(t.j.buffer, i) <==> Arrives(events, i)
  {
    if events != [] {
      var n := |events| - 1;
      var t := Receive(channel, capacity, events[..n]);
      BufferHoldsArrivals(channel, capacity, events[..n]);
      ReceiveInvariant(channel, capacity, events[..n]);
      var i := events[n].index;
      assert RtpSender.NumberedAt(channel, i);
      UnwrapTracks(t.j.unwrapper, Highest(events[..n]), i);
      InsertFits(channel, t.j.buffer, i, Decode(channel[i]).value);
      PushInserts(t, i, Decode(channel[i]).value);
      ArrivesLast(events);
    }
  }

  lemma ArrivesLast(events: seq<Event>)
    requires events != [] && events[|events| - 1].Arrive?
    ensures var n := |events| - 1;
            forall i :: Arrives(events, i) <==> i == events[n].index || Arrives(events[..n], i)
  {
    assert events == events[..|events| - 1] + [events[|events| - 1]];
  }

  /** A push before the first read that fits only inserts. */
  lemma PushInserts(t: Trace, i: nat, p: Packet)
    requires Ordered(t.j.buffer) && t.j.nextEmit.None? && Unwrap(t.j.unwrapper, p.seqNo).1 == i
    requires |Insert(t.j.buffer, i, p)| <= t.j.capacity
    ensures var t' := Step(t, Push(p));
            && t'.j.nextEmit.None? && t'.evicted == t.evicted
            && forall k :: Has(t'.j.buffer, k) <==> k == i || Has(t.j.buffer, k)
  {
    InsertHas(t.j.buffer, i, p);
  }

  lemma InsertFits(channel: seq<seq<byte>>, es: Entries<Packet>, i: nat, p: Packet)
    requires Ordered(es) && AllSent(channel, es) && i < |channel|
    ensures |Insert(es, i, p)| <= |channel|
  {
    InsertMeaning(es, i, p);
    BufferFits(Insert(es, i, p), |channel|);
  }

  lemma InsertHas(es: Entries<Packet>, i: nat, p: Packet)
    requires Ordered(es)
    ensures forall k :: Has(Insert(es, i, p), k) <==> k == i || Has(es, k)
  {
    InsertMeaning(es, i, p);
    var es' := Insert(es, i, p);
    forall k
      ensures Has(es', k) <==> k == i || Has(es, k)
    {
      if Has(es', k) && k != i {
        var m :| 0 <= m < |es'| && es'[m].0 == k;
        assert es'[m] in es';
        assert es'[m] in es;
      }
      if k != i && Has(es, k) {
        var m :| 0 <= m < |es| && es[m].0 == k;
        assert es[m] in es;
        assert es[m] in es';
      }
      if k == i {
        assert (i, p) in es';
      }
    }
  }

  /** If everything sent arrives and fits the buffer, and reading starts afterwards,
      reading until the buffer is empty yields all sent packets in send order. */
  lemma EverythingArrives(ssrc: u32, life: RtpSender.Lifetime, calls: seq<RtpSender.Call>,
                          capacity: nat, events: seq<Event>)
    requires var channel := RtpSender.Run(ssrc, life, calls).channel;
             && Admissible(channel, events) && NoReads(events) && |channel| <= capacity
             && forall i :: 0 <= i < |channel| ==> Arrives(events, i)
    ensures var channel := RtpSender.Run(ssrc, life, calls).channel;
            && RtpSender.Numbered(channel)
            && var read := PollAll(Receive(channel, capacity, events).j);
               |read| == |channel| && forall i :: 0 <= i < |channel| ==> Sent(channel, i, read[i])
  {
    var channel := RtpSender.Run(ssrc, life, calls).channel;
    RtpSender.SentInOrder(ssrc, life, calls);
    ReceiveInvariant(channel, capacity, events);
    BufferHoldsArrivals(channel, capacity, events);
    var j := Receive(channel, capacity, events).j;
    PollAllInOrder(j);
    AllInOrder(channel, j.buffer);
  }

  lemma AllInOrder(channel: seq<seq<byte>>, es: Entries<Packet>)
    requires Ordered(es) && AllSent(channel, es) && forall i :: 0 <= i < |channel| ==> Has(es, i)
    ensures |es| == |channel| && forall i :: 0 <= i < |channel| ==> Sent(channel, i, es[i].1)
  {
    BufferFits(es, |channel|);
    if channel != [] {
      KeysDense(es, |channel| - 1);
    }
    forall i | 0 <= i < |channel|
      ensures Sent(channel, i, es[i].1)
    {
      KeysDense(es, i);
      assert es[i] in es;
    }
  }

  /** The packets on the wire. */
  function Wire(channel: seq<seq<byte>>): seq<Packet>
    requires RtpSender.Numbered(channel)
  {
    seq(|channel|, i requires 0 <= i < |channel| => assert RtpSender.NumberedAt(channel, i); PacketAt(channel, i))
  }

  /** Then the inbound pipeline publishes the audio of all sent packets in send order. */
  lemma PublishesInOrder<F, E>(channel: seq<seq<byte>>, capacity: nat, events: seq<Event>,
                               decode: seq<byte> -> Result<F, E>)
    requires RtpSender.Numbered(channel) && Admissible(channel, events) && NoReads(events) && |channel| <= capacity
    requires forall i :: 0 <= i < |channel| ==> Arrives(events, i)
    ensures var (j, frames, error) := Drained(Receive(channel, capacity, events).j, decode, []);
            && frames == Decodings(Wire(channel), decode).0 && error == Decodings(Wire(channel), decode).1
            && (error.None? ==> j.buffer == [])
  {
    BufferIsWire(channel, capacity, events);
    PublishesBuffer(Receive(channel, capacity, events).j, decode);
  }

  lemma BufferIsWire(channel: seq<seq<byte>>, capacity: nat, events: seq<Event>)
    requires RtpSender.Numbered(channel) && Admissible(channel, events) && NoReads(events) && |channel| <= capacity
    requires forall i :: 0 <= i < |channel| ==> Arrives(events, i)
    ensures var j := Receive(channel, capacity, events).j; Sound(j) && Packets(j.buffer) == Wire(channel)
  {
    ReceiveInvariant(channel, capacity, events);
    BufferHoldsArrivals(channel, capacity, events);
    AllInOrder(channel, Receive(channel, capacity, events).j.buffer);
  }

  lemma PublishesBuffer<F, E>(j: Jitter, decode: seq<byte> -> Result<F, E>)
    requires Sound(j)
    ensures var (j', frames, error) := Drained(j, decode, []);
            && frames == Decodings(Packets(j.buffer), decode).0 && error == Decodings(Packets(j.buffer), decode).1
            && (error.None? ==> j'.buffer == [])
  {
    DrainsInOrder(j, decode, []);
  }

  /** As long as fewer than 2^32 packets were sent, no index leaves the 32-bit range. */
  lemma IndicesFit(channel: seq<seq<byte>>, capacity: nat, events: seq<Event>)
    requires RtpSender.Numbered(channel) && Admissible(channel, events) && |channel| < 0x1_0000_0000
    ensures var j := Receive(channel, capacity, events).j;
            && j.unwrapper.cycles < 0x1_0000
            && (j.nextEmit.Some? ==> j.nextEmit.value < 0x1_0000_0000)
            && forall e :: e in j.buffer ==> e.0 < 0x1_0000_0000
  {
    ReceiveInvariant(channel, capacity, events);
    HighestSent(channel, events);
    if Receive(channel, capacity, events).j.nextEmit.Some? {
      NextFits(channel, Receive(channel, capacity, events), Highest(events));
    }
    if Highest(events) < 0 {
      FreshUnwrapper(channel, capacity, events);
    }
  }

  lemma NextFits(channel: seq<seq<byte>>, t: Trace, highest: int)
    requires Faithful(channel, t, highest) && t.j.nextEmit.Some?
    ensures t.j.nextEmit.value <= |channel|
  {
    var last := |t.log| - 1;
    assert FateAt(t.log, t.j.nextEmit.value - |t.log|, last);
    assert t.log[last] in t.log;
  }

  lemma {:induction false} HighestSent(channel: seq<seq<byte>>, events: seq<Event>)
    requires Admissible(channel, events)
    ensures -1 <= Highest(events) < |channel|
  {
    if events != [] {
      HighestSent(channel, events[..|events| - 1]);
    }
  }

  lemma {:induction false} FreshUnwrapper(channel: seq<seq<byte>>, capacity: nat, events: seq<Event>)
    requires RtpSender.Numbered(channel) && Admissible(channel, events) && Highest(events) < 0
    ensures Receive(channel, capacity, events).j.unwrapper == Unwrapper(None, 0)
  {
    if events != [] {
      FreshUnwrapper(channel, capacity, events[..|events| - 1]);
    }
  }
}
