/** The jitter buffer: unwrapping of 16-bit sequence numbers (appendix A.1 of RFC 3550),
    reordering, and loss accounting. */
module JitterBuffer {
  import opened Common
  import opened OrderedMap
  import opened RtpPacket

  /** The highest raw number seen and how often the numbers wrapped. */
  datatype Unwrapper = Unwrapper(high: Option<u16>, cycles: nat)

  datatype Stats = Stats(received: nat, lost: nat, reordered: nat, late: nat)

  datatype Jitter = Jitter(capacity: nat, buffer: Entries<Packet>, nextEmit: Option<nat>, lastPushed: Option<nat>,
                           unwrapper: Unwrapper, events: seq<u16>, stats: Stats)

  function Unwrap(u: Unwrapper, seqNo: u16): (Unwrapper, nat) {
    if u.high.None? then (Unwrapper(Some(seqNo), 0), seqNo)
    else
      var high := u.high.value;
      var diff := Wrap16(seqNo as int - high as int);
      if diff < 0x8000 then
        var cycles := if seqNo < high && diff > 0 then u.cycles + 1 else u.cycles;
        (Unwrapper(Some(seqNo), cycles), cycles * 0x1_0000 + seqNo)
      else if seqNo > high then (u, (if u.cycles == 0 then 0 else u.cycles - 1) * 0x1_0000 + seqNo)
      else (u, u.cycles * 0x1_0000 + seqNo)
  }

  /** Drops the oldest entries beyond the capacity. */
  function Newest(es: Entries<Packet>, capacity: nat): Entries<Packet> {
    if |es| > capacity then es[|es| - capacity..] else es
  }

  predicate TooLate(j: Jitter, index: nat) {
    j.nextEmit.Some? && index < j.nextEmit.value
  }

  function Pushed(j: Jitter, p: Packet): Jitter {
    var (u, index) := Unwrap(j.unwrapper, p.seqNo);
    if TooLate(j, index) then j.(unwrapper := u, stats := j.stats.(late := j.stats.late + 1))
    else
      var reordered := if j.lastPushed.Some? && index < j.lastPushed.value then 1 else 0;
      j.(unwrapper := u, lastPushed := Some(index),
         buffer := Newest(Insert(j.buffer, index, p), j.capacity),
         stats := j.stats.(received := j.stats.received + 1, reordered := j.stats.reordered + reordered))
  }

  function Next(j: Jitter): nat
    requires j.buffer != []
  {
    if j.nextEmit.Some? then j.nextEmit.value else j.buffer[0].0
  }

  function Lookup(es: Entries<Packet>, k: nat): (r: Option<Packet>)
    ensures r.Some? <==> Has(es, k)
  {
    if es == [] then None
    else if es[0].0 == k then
      assert es[0].0 == k;
      Some(es[0].1)
    else
      HasTail(es, k);
      Lookup(es[1..], k)
  }

  function LostNumbers(from: nat, to: nat): seq<u16>
    requires from <= to
  {
    seq<u16>(to - from, i => Wrap16(from + i))
  }

  /** A poll fails on an empty buffer only and takes one packet otherwise, so polling
      until it fails ends. */
  function Polled(j: Jitter): (r: (Jitter, Option<Packet>))
    ensures r.1.None? <==> j.buffer == []
    ensures r.1.Some? ==> |r.0.buffer| == |j.buffer| - 1
  {
    if j.buffer == [] then (j, None)
    else
      var next := Next(j);
      var found := Lookup(j.buffer, next);
      var earliest := j.buffer[0].0;
      if found.Some? then
        RemoveShrinks(j.buffer, next);
        (j.(nextEmit := Some(next + 1), buffer := Remove(j.buffer, next)), found)
      else if earliest <= next then
        (j.(nextEmit := Some(earliest), buffer := Remove(j.buffer, earliest)), Some(j.buffer[0].1))
      else
        (j.(events := j.events + LostNumbers(next, earliest),
            stats := j.stats.(lost := j.stats.lost + (earliest - next)),
            nextEmit := Some(earliest + 1),
            buffer := Remove(j.buffer, earliest)),
         Some(j.buffer[0].1))
  }

  function New(capacity: nat): Jitter {
    Jitter(capacity, [], None, None, Unwrapper(None, 0), [], Stats(0, 0, 0, 0))
  }

  class JitterBuffer {
    const capacity: nat
    var buffer: Entries<Packet>
    var nextEmit: Option<nat>
    var lastPushed: Option<nat>
    var highSeq: Option<u16>
    var cycles: nat
    var events: seq<u16>
    var stats: Stats

    ghost function View(): Jitter
      reads this
    {
      Jitter(capacity, buffer, nextEmit, lastPushed, Unwrapper(highSeq, cycles), events, stats)
    }

    constructor (capacity: nat)
      ensures View() == New(capacity)
    {
      this.capacity := capacity;
      buffer, nextEmit, lastPushed, highSeq, cycles := [], None, None, None, 0;
      events, stats := [], Stats(0, 0, 0, 0);
    }

    method UnwrapSeq(seqNo: u16) returns (index: nat)
      modifies this`highSeq, this`cycles
      ensures (Unwrapper(highSeq, cycles), index) == Unwrap(Unwrapper(old(highSeq), old(cycles)), seqNo)
    {
      if highSeq.None? {
        highSeq := Some(seqNo);
        cycles := 0;
        return seqNo;
      }
      var high := highSeq.value;
      var diff := Wrap16(seqNo as int - high as int);
      if diff < 0x8000 {
        if seqNo < high && diff > 0 {
          cycles := cycles + 1;
        }
        highSeq := Some(seqNo);
      } else if seqNo > high {
        return (if cycles == 0 then 0 else cycles - 1) * 0x1_0000 + seqNo;
      }
      return cycles * 0x1_0000 + seqNo;
    }

    method PushPacket(p: Packet)
      modifies this
      ensures View() == Pushed(old(View()), p)
    {
      var index := UnwrapSeq(p.seqNo);
      if nextEmit.Some? && index < nextEmit.value {
        stats := stats.(late := stats.late + 1);
        return;
      }
      if lastPushed.Some? && index < lastPushed.value {
        stats := stats.(reordered := stats.reordered + 1);
      }
      lastPushed := Some(index);
      buffer := Insert(buffer, index, p);
      stats := stats.(received := stats.received + 1);
      Evict();
    }

    /** Drops the oldest packets until the capacity is respected. */
    method Evict()
      modifies this`buffer
      ensures buffer == Newest(old(buffer), capacity)
    {
      while |buffer| > capacity
        invariant Newest(buffer, capacity) == Newest(old(buffer), capacity)
        decreases |buffer|
      {
        buffer := buffer[1..];
      }
    }

    method PollPacket() returns (r: Option<Packet>)
      modifies this
      ensures (View(), r) == Polled(old(View()))
    {
      if buffer == [] {
        return None;
      }
      var next := if nextEmit.Some? then nextEmit.value else buffer[0].0;
      nextEmit := Some(next);
      r := Lookup(buffer, next);
      if r.Some? {
        buffer := Remove(buffer, next);
        nextEmit := Some(next + 1);
        return;
      }
      var earliest := buffer[0].0;
      r := Some(buffer[0].1);
      buffer := Remove(buffer, earliest);
      if earliest <= next {
        nextEmit := Some(earliest);
        return;
      }
      ReportLost(next, earliest);
      nextEmit := Some(earliest + 1);
    }

    method ReportLost(from: nat, to: nat)
      requires from <= to
      modifies this`events, this`stats
      ensures events == old(events) + LostNumbers(from, to)
      ensures stats == old(stats).(lost := old(stats).lost + (to - from))
    {
      for offset := 0 to to - from
        invariant events == old(events) + LostNumbers(from, from + offset)
        invariant stats == old(stats).(lost := old(stats).lost + offset)
      {
        assert LostNumbers(from, from + offset + 1) == LostNumbers(from, from + offset) + [Wrap16(from + offset)];
        events := events + [Wrap16(from + offset)];
        stats := stats.(lost := stats.lost + 1);
      }
    }

    method DrainEvents() returns (drained: seq<u16>)
      modifies this`events
      ensures drained == old(events) && events == []
    {
      drained := events;
      events := [];
    }
  }

  /** The true index of the highest packet seen. */
  function High(u: Unwrapper): nat
    requires u.high.Some?
  {
    u.cycles * 0x1_0000 + u.high.value
  }

  /** Unwrapping is right exactly for packets less than half the number space ahead of
      the highest or at most half behind it; before the first wrap it is also right for
      larger jumps ahead that stay below the wrap. */
  lemma UnwrapExactIff(u: Unwrapper, t: nat)
    requires u.high.Some?
    ensures Unwrap(u, Wrap16(t)).1 == t <==>
            || High(u) - 0x8000 <= t < High(u) + 0x8000
            || (u.cycles == 0 && High(u) + 0x8000 <= t < 0x1_0000)
  {
    UnwrapDigits(u, t, t / 0x1_0000, t % 0x1_0000);
  }

  lemma UnwrapDigits(u: Unwrapper, t: nat, q: nat, r: u16)
    requires u.high.Some? && t == q * 0x1_0000 + r
    ensures Unwrap(u, r).1 == t <==>
            || High(u) - 0x8000 <= t < High(u) + 0x8000
            || (u.cycles == 0 && High(u) + 0x8000 <= t < 0x1_0000)
  {
    WrapDifference(r, u.high.value);
  }

  lemma WrapDifference(a: u16, b: u16)
    ensures Wrap16(a as int - b as int) as int == a as int - b as int + if a < b then 0x1_0000 else 0
  {
  }

  /** Where the state then stands. */
  lemma UnwrapAdvances(u: Unwrapper, t: nat)
    requires u.high.Some? && High(u) - 0x8000 <= t < High(u) + 0x8000
    ensures var (u', index) := Unwrap(u, Wrap16(t));
            index == t && u'.high.Some? && High(u') == if t > High(u) then t else High(u)
  {
    UnwrapExactIff(u, t);
    WrapDifference(Wrap16(t), u.high.value);
    assert t == t / 0x1_0000 * 0x1_0000 + Wrap16(t);
  }

  /** The first arrival comes before the numbers wrap; every other one is less than half
      the number space ahead of the highest, or at most half behind. */
  predicate InReach(highest: int, index: nat) {
    if highest < 0 then index < 0x1_0000 else highest - 0x8000 <= index < highest + 0x8000
  }

  /** The unwrapper stands at the highest index seen, if any. */
  ghost predicate Tracks(u: Unwrapper, highest: int) {
    if highest < 0 then u.high.None? else u.high.Some? && High(u) == highest
  }

  lemma UnwrapTracks(u: Unwrapper, highest: int, t: nat)
    requires Tracks(u, highest) && InReach(highest, t)
    ensures var (u', index) := Unwrap(u, Wrap16(t));
            index == t && Tracks(u', if t > highest then t else highest)
  {
    if highest >= 0 {
      UnwrapAdvances(u, t);
    }
  }

  function Largest(indices: seq<nat>): int {
    if indices == [] then -1
    else
      var n := |indices| - 1;
      if indices[n] > Largest(indices[..n]) then indices[n] else Largest(indices[..n])
  }

  ghost predicate AllInReach(indices: seq<nat>) {
    indices == [] ||
    (var n := |indices| - 1; AllInReach(indices[..n]) && InReach(Largest(indices[..n]), indices[n]))
  }

  /** Unwrapping the 16-bit numbers of packets with the given indices, in order. */
  function UnwrapAll(indices: seq<nat>): (Unwrapper, seq<nat>) {
    if indices == [] then (Unwrapper(None, 0), [])
    else
      var n := |indices| - 1;
      var (u, out) := UnwrapAll(indices[..n]);
      var (u', index) := Unwrap(u, Wrap16(indices[n]));
      (u', out + [index])
  }

  /** Over every run within reach, however often the numbers wrap, the true indices are
      recovered. */
  lemma {:induction false} UnwrapRecovers(indices: seq<nat>)
    requires AllInReach(indices)
    ensures UnwrapAll(indices).1 == indices && Tracks(UnwrapAll(indices).0, Largest(indices))
  {
    if indices != [] {
      var n := |indices| - 1;
      UnwrapRecovers(indices[..n]);
      UnwrapTracks(UnwrapAll(indices[..n]).0, Largest(indices[..n]), indices[n]);
      assert indices == indices[..n] + [indices[n]];
    }
  }

  /** The packets are well placed: in order, within capacity, none behind the next index
      to emit, each under an index that its number is congruent to. */
  ghost predicate Placed(j: Jitter, e: (nat, Packet)) {
    !TooLate(j, e.0) && Wrap16(e.0) == e.1.seqNo
  }

  ghost predicate Sound(j: Jitter) {
    Ordered(j.buffer) && |j.buffer| <= j.capacity && forall e :: e in j.buffer ==> Placed(j, e)
  }

  lemma UnwrapCongruent(u: Unwrapper, seqNo: u16)
    ensures Wrap16(Unwrap(u, seqNo).1) == seqNo
  {
  }

  lemma NewestSound(es: Entries<Packet>, capacity: nat)
    requires Ordered(es)
    ensures Ordered(Newest(es, capacity)) && |Newest(es, capacity)| <= capacity
    ensures forall e :: e in Newest(es, capacity) ==> e in es
  {
    if |es| > capacity {
      var d := |es| - capacity;
      forall i, k | 0 <= i < k < |es[d..]|
        ensures Below(es[d..], i, k)
      {
        assert Below(es, i + d, k + d);
      }
    }
  }

  lemma PushSound(j: Jitter, p: Packet)
    requires Sound(j)
    ensures Sound(Pushed(j, p))
  {
    var (u, index) := Unwrap(j.unwrapper, p.seqNo);
    var j' := Pushed(j, p);
    if TooLate(j, index) {
      assert forall e :: Placed(j, e) ==> Placed(j', e);
    } else {
      InsertMeaning(j.buffer, index, p);
      NewestSound(Insert(j.buffer, index, p), j.capacity);
      UnwrapCongruent(j.unwrapper, p.seqNo);
      forall e | e in j'.buffer
        ensures Placed(j', e)
      {
        assert e in j.buffer ==> Placed(j, e);
      }
    }
  }

  /** What polling a non-empty buffer does: the earliest packet leaves, the indices
      skipped before it are lost. The branch for an earliest index that is not ahead of
      the next one is never taken. */
  lemma PollTakesEarliest(j: Jitter)
    requires Sound(j) && j.buffer != []
    ensures var next, k := Next(j), j.buffer[0].0;
            && next <= k
            && (Lookup(j.buffer, next).Some? || next < k)
            && Polled(j) == (j.(events := j.events + LostNumbers(next, k),
                              stats := j.stats.(lost := j.stats.lost + (k - next)),
                              nextEmit := Some(k + 1),
                              buffer := j.buffer[1..]),
                           Some(j.buffer[0].1))
  {
    var next, k := Next(j), j.buffer[0].0;
    assert j.buffer[0] in j.buffer;
    assert Placed(j, j.buffer[0]);
    if Lookup(j.buffer, next).Some? {
      var i :| 0 <= i < |j.buffer| && j.buffer[i].0 == next;
      FirstIsLeast(j.buffer, j.buffer[i]);
      assert k == next;
      assert LostNumbers(next, k) == [] && j.events + [] == j.events;
    }
  }

  lemma PollSound(j: Jitter)
    requires Sound(j)
    ensures Sound(Polled(j).0)
  {
    if j.buffer != [] {
      PollTakesEarliest(j);
      TailOrdered(j.buffer);
      forall e | e in j.buffer[1..]
        ensures Placed(Polled(j).0, e)
      {
        assert e in j.buffer;
        assert Placed(j, e);
      }
    }
  }

  /** Polling until the buffer is empty. */
  function PollAll(j: Jitter): seq<Packet>
    decreases |j.buffer|
  {
    var (j', p) := Polled(j);
    if p.None? then [] else [p.value] + PollAll(j')
  }

  function Packets(es: Entries<Packet>): seq<Packet> {
    seq(|es|, i requires 0 <= i < |es| => es[i].1)
  }

  /** It yields exactly the buffered packets in index order. */
  lemma {:induction false} PollAllInOrder(j: Jitter)
    requires Sound(j)
    ensures PollAll(j) == Packets(j.buffer)
    decreases |j.buffer|
  {
    if j.buffer != [] {
      PollTakesEarliest(j);
      PollSound(j);
      PollAllInOrder(Polled(j).0);
      assert Packets(j.buffer) == [j.buffer[0].1] + Packets(j.buffer[1..]);
    }
  }
}
