/** What a jitter buffer does over any interleaving of pushes and polls. */
module JitterTrace {
  import opened Common
  import opened OrderedMap
  import opened RtpPacket
  import opened JitterBuffer

  datatype Op = Push(packet: Packet) | Poll | DrainEvents

  /** The fate of one index. */
  datatype Fate = Emitted(index: nat, packet: Packet) | Lost(index: nat)

  /** A buffer with its history: the fates decided by polls, the loss events already
      drained, how many packets were pushed, evicted and overwritten. */
  datatype Trace = Trace(j: Jitter, log: seq<Fate>, drained: seq<u16>, pushed: nat, evicted: nat, overwritten: nat)

  function Losses(lo: nat, hi: nat): seq<Fate>
    requires lo <= hi
  {
    seq(hi - lo, i requires 0 <= i => Lost(lo + i))
  }

  /** The fates one poll decides, as its return value and its events show them. */
  function Fates(j: Jitter): seq<Fate> {
    if j.buffer == [] || j.buffer[0].0 < Next(j) then []
    else Losses(Next(j), j.buffer[0].0) + [Emitted(j.buffer[0].0, j.buffer[0].1)]
  }

  function Step(t: Trace, op: Op): Trace {
    match op
    case Push(p) =>
      var index := Unwrap(t.j.unwrapper, p.seqNo).1;
      if TooLate(t.j, index) then t.(j := Pushed(t.j, p), pushed := t.pushed + 1)
      else
        var inserted := |Insert(t.j.buffer, index, p)|;
        t.(j := Pushed(t.j, p),
           pushed := t.pushed + 1,
           evicted := t.evicted + (if inserted > t.j.capacity then inserted - t.j.capacity else 0),
           overwritten := t.overwritten + (if Has(t.j.buffer, index) then 1 else 0))
    case Poll => t.(j := Polled(t.j).0, log := t.log + Fates(t.j))
    case DrainEvents => t.(j := t.j.(events := []), drained := t.drained + t.j.events)
  }

  function Run(capacity: nat, ops: seq<Op>): Trace {
    if ops == [] then Trace(New(capacity), [], [], 0, 0, 0)
    else Step(Run(capacity, ops[..|ops| - 1]), ops[|ops| - 1])
  }

  function CountEmitted(log: seq<Fate>): nat {
    if log == [] then 0
    else CountEmitted(log[..|log| - 1]) + if log[|log| - 1].Emitted? then 1 else 0
  }

  /** The loss events that a log calls for, in order. */
  function Reported(log: seq<Fate>): seq<u16> {
    if log == [] then []
    else Reported(log[..|log| - 1]) + if log[|log| - 1].Lost? then [Wrap16(log[|log| - 1].index)] else []
  }

  ghost predicate FateAt(log: seq<Fate>, first: int, i: nat) {
    i < |log| && log[i].index == first + i && (log[i].Emitted? ==> Wrap16(log[i].index) == log[i].packet.seqNo)
  }

  /** The fates cover the indices from the first emitted one on, each once, in order. */
  ghost predicate Covers(log: seq<Fate>, first: int) {
    forall i :: 0 <= i < |log| ==> FateAt(log, first, i)
  }

  ghost predicate Balanced(t: Trace) {
    && t.pushed == t.j.stats.received + t.j.stats.late
    && t.j.stats.received == CountEmitted(t.log) + |t.j.buffer| + t.evicted + t.overwritten
    && t.j.stats.lost == |t.log| - CountEmitted(t.log)
    && t.drained + t.j.events == Reported(t.log)
  }

  ghost predicate Consistent(t: Trace) {
    && Sound(t.j)
    && (if t.j.nextEmit.None? then t.log == []
        else t.log != [] && t.log[0].Emitted? && t.log[|t.log| - 1].Emitted? &&
             Covers(t.log, t.j.nextEmit.value - |t.log|))
    && Balanced(t)
  }

  lemma LogAppend(log: seq<Fate>, f: Fate)
    ensures CountEmitted(log + [f]) == CountEmitted(log) + if f.Emitted? then 1 else 0
    ensures Reported(log + [f]) == Reported(log) + if f.Lost? then [Wrap16(f.index)] else []
  {
    assert (log + [f])[..|log|] == log;
  }

  lemma LossesMore(log: seq<Fate>, lo: nat, hi: nat)
    requires lo < hi
    ensures log + Losses(lo, hi) == log + Losses(lo, hi - 1) + [Lost(hi - 1)]
    ensures LostNumbers(lo, hi) == LostNumbers(lo, hi - 1) + [Wrap16(hi - 1)]
  {
  }

  lemma {:induction false} LossesAppend(log: seq<Fate>, lo: nat, hi: nat)
    requires lo <= hi
    ensures CountEmitted(log + Losses(lo, hi)) == CountEmitted(log)
    ensures Reported(log + Losses(lo, hi)) == Reported(log) + LostNumbers(lo, hi)
    decreases hi
  {
    if lo == hi {
      assert log + Losses(lo, hi) == log;
      assert Reported(log) + LostNumbers(lo, hi) == Reported(log);
    } else {
      LossesAppend(log, lo, hi - 1);
      LossesMore(log, lo, hi);
      LogAppend(log + Losses(lo, hi - 1), Lost(hi - 1));
    }
  }

  lemma CoversAppend(log: seq<Fate>, first: int, j: Jitter)
    requires Covers(log, first) && Sound(j) && j.buffer != [] && Next(j) == first + |log| && Next(j) <= j.buffer[0].0
    ensures Covers(log + Fates(j), first)
  {
    var all := log + Fates(j);
    assert j.buffer[0] in j.buffer;
    assert Placed(j, j.buffer[0]);
    forall i | 0 <= i < |all|
      ensures FateAt(all, first, i)
    {
      assert i < |log| ==> FateAt(log, first, i);
    }
  }

  lemma FatesBalance(log: seq<Fate>, next: nat, k: nat, p: Packet)
    requires next <= k
    ensures CountEmitted(log + (Losses(next, k) + [Emitted(k, p)])) == CountEmitted(log) + 1
    ensures Reported(log + (Losses(next, k) + [Emitted(k, p)])) == Reported(log) + LostNumbers(next, k)
  {
    assert log + (Losses(next, k) + [Emitted(k, p)]) == log + Losses(next, k) + [Emitted(k, p)];
    LossesAppend(log, next, k);
    LogAppend(log + Losses(next, k), Emitted(k, p));
  }

  /** A poll returns the packet its last fate names, and nothing from an empty buffer. */
  lemma PollShowsFates(j: Jitter)
    requires Sound(j)
    ensures Polled(j).1 ==
            if Fates(j) == [] then None else Some(Fates(j)[|Fates(j)| - 1].packet)
    ensures Polled(j).0.events == j.events + Reported(Fates(j))
    ensures Fates(j) == [] <==> j.buffer == []
  {
    if j.buffer == [] {
      assert Reported([]) == [] && j.events + [] == j.events;
    } else {
      PollTakesEarliest(j);
      FatesBalance([], Next(j), j.buffer[0].0, j.buffer[0].1);
      assert [] + Fates(j) == Fates(j);
      assert Reported([]) == [];
    }
  }

  lemma PushConsistent(t: Trace, p: Packet)
    requires Consistent(t)
    ensures Consistent(Step(t, Push(p)))
  {
    PushSound(t.j, p);
    var index := Unwrap(t.j.unwrapper, p.seqNo).1;
    if !TooLate(t.j, index) {
      InsertMeaning(t.j.buffer, index, p);
    }
  }

  lemma PollBalanced(t: Trace)
    requires Consistent(t) && t.j.buffer != []
    ensures Balanced(Step(t, Poll))
  {
    PollTakesEarliest(t.j);
    FatesBalance(t.log, Next(t.j), t.j.buffer[0].0, t.j.buffer[0].1);
    assert t.drained + (t.j.events + LostNumbers(Next(t.j), t.j.buffer[0].0)) ==
           t.drained + t.j.events + LostNumbers(Next(t.j), t.j.buffer[0].0);
  }

  lemma PollConsistent(t: Trace)
    requires Consistent(t)
    ensures Consistent(Step(t, Poll))
  {
    PollSound(t.j);
    if t.j.buffer == [] {
      assert t.log + Fates(t.j) == t.log;
    } else {
      PollBalanced(t);
      PollTakesEarliest(t.j);
      CoversAppend(t.log, Next(t.j) - |t.log|, t.j);
    }
  }

  lemma DrainConsistent(t: Trace)
    requires Consistent(t)
    ensures Consistent(Step(t, DrainEvents))
  {
    assert t.drained + t.j.events + [] == t.drained + t.j.events;
    assert forall e :: Placed(t.j, e) ==> Placed(t.j.(events := []), e);
  }

  /** Over every interleaving of pushes, polls and drains: from the first emitted index up
      to the next one, each index is emitted or reported lost exactly once and in order;
      every packet received was emitted, is buffered, was evicted or was overwritten;
      and the loss events are those of the lost indices. */
  lemma {:induction false} AlwaysConsistent(capacity: nat, ops: seq<Op>)
    ensures Consistent(Run(capacity, ops))
  {
    if ops != [] {
      var t := Run(capacity, ops[..|ops| - 1]);
      AlwaysConsistent(capacity, ops[..|ops| - 1]);
      match ops[|ops| - 1]
      case Push(p) => PushConsistent(t, p);
      case Poll => PollConsistent(t);
      case DrainEvents => DrainConsistent(t);
    }
  }
}
