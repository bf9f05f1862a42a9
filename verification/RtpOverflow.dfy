/** What is read when more packets arrive than the jitter buffer holds. */
module RtpOverflow {
  import opened Common
  import opened OrderedMap
  import opened RtpPacket
  import opened JitterBuffer
  import opened JitterTrace
  import opened JitterEviction
  import opened RtpPath
  import opened RtpCalls
  import opened RtpDelivery
  import RtpSender

  /** The indices that arrived. */
  ghost function Arrived(channel: seq<seq<byte>>, events: seq<Event>): set<nat> {
    set i | 0 <= i < |channel| && Arrives(events, i)
  }

  /** One arrival before the first read. */
  lemma ArrivalKeepsTop(channel: seq<seq<byte>>, t: Trace, highest: int, arrived: set<nat>, i: nat)
    requires Faithful(channel, t, highest) && t.j.nextEmit.None? && Top(arrived, Keys(t.j.buffer), t.j.capacity)
    requires RtpSender.NumberedAt(channel, i) && InReach(highest, i)
    ensures var j := Pushed(t.j, Decode(channel[i]).value);
            j.nextEmit.None? && Top(arrived + {i}, Keys(j.buffer), t.j.capacity)
  {
    UnwrapTracks(t.j.unwrapper, highest, i);
    var p := Decode(channel[i]).value;
    PushKeepsTop(t.j, p);
    TopGrows(arrived, Keys(t.j.buffer), t.j.capacity, i, Keys(Pushed(t.j, p).buffer));
  }

  lemma ArrivedGrows(channel: seq<seq<byte>>, events: seq<Event>)
    requires events != [] && events[|events| - 1].Arrive? && events[|events| - 1].index < |channel|
    ensures Arrived(channel, events) == Arrived(channel, events[..|events| - 1]) + {events[|events| - 1].index}
  {
    ArrivesLast(events);
  }

  /** Before the first read the buffer holds the newest packets that arrived. */
  lemma {:induction false} BufferHoldsNewest(channel: seq<seq<byte>>, capacity: nat, events: seq<Event>)
    requires RtpSender.Numbered(channel) && Admissible(channel, events) && NoReads(events)
    ensures var j := Receive(channel, capacity, events).j;
            j.nextEmit.None? && Top(Arrived(channel, events), Keys(j.buffer), capacity)
  {
    if events == [] {
      assert Arrived(channel, events) == {};
    } else {
      var n := |events| - 1;
      BufferHoldsNewest(channel, capacity, events[..n]);
      ReceiveInvariant(channel, capacity, events[..n]);
      assert RtpSender.NumberedAt(channel, events[n].index);
      ArrivalKeepsTop(channel, Receive(channel, capacity, events[..n]), Highest(events[..n]),
                      Arrived(channel, events[..n]), events[n].index);
      ArrivedGrows(channel, events);
    }
  }

  predicate Ascending(s: seq<nat>) {
    forall i, j :: 0 <= i < j < |s| ==> s[i] < s[j]
  }

  function Elements(s: seq<nat>): set<nat> {
    set i | i in s
  }

  function KeyList(es: Entries<Packet>): seq<nat> {
    seq(|es|, i requires 0 <= i < |es| => es[i].0)
  }

  lemma KeyListAscends(es: Entries<Packet>)
    requires Ordered(es)
    ensures Ascending(KeyList(es)) && Elements(KeyList(es)) == Keys(es)
  {
    forall i, j | 0 <= i < j < |es|
      ensures KeyList(es)[i] < KeyList(es)[j]
    {
      assert Below(es, i, j);
    }
    forall k | k in Keys(es)
      ensures k in KeyList(es)
    {
      var e :| e in es && e.0 == k;
      var i :| 0 <= i < |es| && es[i] == e;
      assert KeyList(es)[i] == k;
    }
    forall k | k in KeyList(es)
      ensures k in Keys(es)
    {
      var i :| 0 <= i < |es| && KeyList(es)[i] == k;
      assert es[i] in es;
    }
  }

  /** The packets of a list at the given indices. */
  ghost predicate PacketsAt(read: seq<Packet>, packets: seq<Packet>, indices: seq<nat>) {
    |read| == |indices| &&
    forall i :: 0 <= i < |read| ==> indices[i] < |packets| && read[i] == packets[indices[i]]
  }

  lemma BufferIsCalls(ssrc: u32, life: RtpSender.Lifetime, calls: seq<RtpSender.Call>, es: Entries<Packet>)
    requires AllSent(RtpSender.Run(ssrc, life, calls).channel, es)
    ensures PacketsAt(Packets(es), Media(ssrc, calls), KeyList(es))
  {
    forall i | 0 <= i < |es|
      ensures es[i].0 < |Media(ssrc, calls)| && es[i].1 == Media(ssrc, calls)[es[i].0]
    {
      assert es[i] in es;
      assert Sent(RtpSender.Run(ssrc, life, calls).channel, es[i].0, es[i].1);
      ChannelPacket(ssrc, life, calls, es[i].0);
    }
  }

  /** What polling until empty yields before the first read. */
  lemma PollsNewest(channel: seq<seq<byte>>, capacity: nat, events: seq<Event>)
    requires RtpSender.Numbered(channel) && Admissible(channel, events) && NoReads(events)
    ensures var j := Receive(channel, capacity, events).j;
            && AllSent(channel, j.buffer) && PollAll(j) == Packets(j.buffer) && Ordered(j.buffer)
            && Top(Arrived(channel, events), Keys(j.buffer), capacity)
  {
    ReceiveInvariant(channel, capacity, events);
    BufferHoldsNewest(channel, capacity, events);
    PollAllInOrder(Receive(channel, capacity, events).j);
  }

  /** The indices are ascending, the newest of those that arrived, as many as the capacity
      allows, and what was read are the packets there. */
  ghost predicate NewestRead(arrived: set<nat>, capacity: nat, packets: seq<Packet>, read: seq<Packet>, indices: seq<nat>) {
    Ascending(indices) && Top(arrived, Elements(indices), capacity) && PacketsAt(read, packets, indices)
  }

  lemma NewestReadFrom(arrived: set<nat>, capacity: nat, packets: seq<Packet>, es: Entries<Packet>)
    requires Ordered(es) && Top(arrived, Keys(es), capacity) && PacketsAt(Packets(es), packets, KeyList(es))
    ensures NewestRead(arrived, capacity, packets, Packets(es), KeyList(es))
  {
    KeyListAscends(es);
  }

  /** If reading starts after the arrivals, it yields the calls' packets of the newest
      indices that arrived, as many as the buffer holds, in call order. */
  lemma ReadsNewestCalls(ssrc: u32, life: RtpSender.Lifetime, calls: seq<RtpSender.Call>,
                         capacity: nat, events: seq<Event>) returns (indices: seq<nat>)
    requires Admissible(RtpSender.Run(ssrc, life, calls).channel, events) && NoReads(events)
    ensures var channel := RtpSender.Run(ssrc, life, calls).channel;
            && RtpSender.Numbered(channel)
            && NewestRead(Arrived(channel, events), capacity, Media(ssrc, calls),
                          PollAll(Receive(channel, capacity, events).j), indices)
  {
    var channel := RtpSender.Run(ssrc, life, calls).channel;
    RtpSender.SentInOrder(ssrc, life, calls);
    PollsNewest(channel, capacity, events);
    var es := Receive(channel, capacity, events).j.buffer;
    BufferIsCalls(ssrc, life, calls, es);
    NewestReadFrom(Arrived(channel, events), capacity, Media(ssrc, calls), es);
    indices := KeyList(es);
  }
}
