/** Which packets a full jitter buffer gives up, and what its arrival statistics count. */
module JitterEviction {
  import opened Common
  import opened OrderedMap
  import opened RtpPacket
  import opened JitterBuffer
  import opened JitterTrace

  /** The entries at hand when a packet is put under an index, before any is dropped. */
  ghost predicate AtHand(es: Entries<Packet>, index: nat, p: Packet, e: (nat, Packet)) {
    e == (index, p) || (e in es && e.0 != index)
  }

  /** A push that is not late keeps the newest: every entry kept is at hand and has a
      larger index than every one dropped, and nothing is dropped unless the entries at
      hand outgrow the capacity, which is then used up. */
  lemma PushKeepsNewest(j: Jitter, p: Packet, e: (nat, Packet))
    requires Sound(j) && !TooLate(j, Unwrap(j.unwrapper, p.seqNo).1)
    ensures var index, kept := Unwrap(j.unwrapper, p.seqNo).1, Pushed(j, p).buffer;
            && (e in kept ==> AtHand(j.buffer, index, p, e))
            && (AtHand(j.buffer, index, p, e) && e !in kept ==>
                  |kept| == j.capacity && forall k :: k in kept ==> e.0 < k.0)
            && (var n := |j.buffer| + (if Has(j.buffer, index) then 0 else 1);
                |kept| == if n <= j.capacity then n else j.capacity)
  {
    var index := Unwrap(j.unwrapper, p.seqNo).1;
    InsertMeaning(j.buffer, index, p);
    NewestDropsSmaller(Insert(j.buffer, index, p), j.capacity, e);
  }

  lemma NewestDropsSmaller(es: Entries<Packet>, capacity: nat, e: (nat, Packet))
    requires Ordered(es)
    ensures var kept := Newest(es, capacity);
            && |kept| == (if |es| <= capacity then |es| else capacity)
            && (e in kept ==> e in es)
            && (e in es && e !in kept ==> |kept| == capacity && forall k :: k in kept ==> e.0 < k.0)
  {
    var kept := Newest(es, capacity);
    if e in es && |es| > capacity {
      var d := |es| - capacity;
      var i :| 0 <= i < |es| && es[i] == e;
      if i >= d {
        assert kept[i - d] == e;
      } else {
        forall k | k in kept
          ensures e.0 < k.0
        {
          var m :| 0 <= m < |kept| && kept[m] == k;
          assert Below(es, i, m + d);
        }
      }
    }
  }

  /** In every run a packet ahead of all buffered ones is kept, if there is any room at all. */
  lemma NewestAlwaysKept(capacity: nat, ops: seq<Op>, p: Packet)
    requires capacity >= 1
    requires var j := Run(capacity, ops).j;
             var index := Unwrap(j.unwrapper, p.seqNo).1;
             !TooLate(j, index) && forall e :: e in j.buffer ==> e.0 < index
    ensures var t := Run(capacity, ops);
            (Unwrap(t.j.unwrapper, p.seqNo).1, p) in Step(t, Push(p)).j.buffer
  {
    var t := Run(capacity, ops);
    AlwaysConsistent(capacity, ops);
    CapacityStays(capacity, ops);
    var e := (Unwrap(t.j.unwrapper, p.seqNo).1, p);
    PushKeepsNewest(t.j, p, e);
    var k := Pushed(t.j, p).buffer[0];
    assert k in Pushed(t.j, p).buffer;
    PushKeepsNewest(t.j, p, k);
  }

  lemma {:induction false} CapacityStays(capacity: nat, ops: seq<Op>)
    ensures Run(capacity, ops).j.capacity == capacity
  {
    if ops != [] {
      CapacityStays(capacity, ops[..|ops| - 1]);
    }
  }

  /** The set k holds the c largest elements of a, or all if there are no more. */
  ghost predicate Top(a: set<nat>, k: set<nat>, c: nat) {
    && k <= a && |k| == (if |a| <= c then |a| else c)
    && forall x, y :: x in a - k && y in k ==> x < y
  }

  /** Keeping the largest element by element keeps the largest of all. */
  lemma TopGrows(a: set<nat>, k: set<nat>, c: nat, i: nat, k': set<nat>)
    requires Top(a, k, c) && Top(k + {i}, k', c)
    ensures Top(a + {i}, k', c)
  {
    Sizes(a, k, c, i);
    forall x, y | x in a + {i} - k' && y in k'
      ensures x < y
    {
      if x in k + {i} {
        assert x in k + {i} - k';
      } else {
        assert x in a - k;
        if y !in k {
          Rest(k + {i}, k');
          var d :| d in k + {i} - k';
          assert d in k && x < d < i;
        }
      }
    }
  }

  lemma Rest(a: set<nat>, k: set<nat>)
    requires k <= a
    ensures |a - k| == |a| - |k|
  {
    assert a == k + (a - k);
  }

  lemma Sizes(a: set<nat>, k: set<nat>, c: nat, i: nat)
    requires Top(a, k, c)
    ensures |a| <= c ==> a == k
    ensures |a + {i}| == |a| + (if i in a then 0 else 1)
    ensures |k + {i}| == |k| + (if i in k then 0 else 1)
  {
    Rest(a, k);
    if |a| <= c {
      assert a == k + (a - k) && a - k == {};
    }
    if i in a {
      assert a + {i} == a;
    }
    if i in k {
      assert k + {i} == k;
    }
  }

  function Keys(es: Entries<Packet>): set<nat> {
    set e | e in es :: e.0
  }

  lemma {:induction false} KeyCount(es: Entries<Packet>)
    requires Ordered(es)
    ensures |Keys(es)| == |es|
  {
    if es != [] {
      TailOrdered(es);
      KeyCount(es[1..]);
      assert es == [es[0]] + es[1..];
      assert Keys(es) == Keys(es[1..]) + {es[0].0};
    }
  }

  lemma HasKeys(es: Entries<Packet>, k: nat)
    ensures Has(es, k) <==> k in Keys(es)
  {
    if Has(es, k) {
      var i :| 0 <= i < |es| && es[i].0 == k;
      assert es[i] in es;
    }
  }

  /** The indices a push leaves are the largest of those it finds and its own. */
  lemma PushKeepsTop(j: Jitter, p: Packet)
    requires Sound(j) && !TooLate(j, Unwrap(j.unwrapper, p.seqNo).1)
    ensures Top(Keys(j.buffer) + {Unwrap(j.unwrapper, p.seqNo).1}, Keys(Pushed(j, p).buffer), j.capacity)
  {
    var index, kept := Unwrap(j.unwrapper, p.seqNo).1, Pushed(j, p).buffer;
    var before := Keys(j.buffer);
    PushSound(j, p);
    KeyCount(j.buffer);
    KeyCount(kept);
    HasKeys(j.buffer, index);
    if index in before {
      assert before + {index} == before;
    }
    PushKeepsNewest(j, p, (index, p));
    forall x | x in Keys(kept)
      ensures x in before + {index}
    {
      var e :| e in kept && e.0 == x;
      PushKeepsNewest(j, p, e);
    }
    forall x, y | x in before + {index} - Keys(kept) && y in Keys(kept)
      ensures x < y
    {
      DroppedIsSmaller(j, p, x, y);
    }
  }

  lemma DroppedIsSmaller(j: Jitter, p: Packet, x: nat, y: nat)
    requires Sound(j) && !TooLate(j, Unwrap(j.unwrapper, p.seqNo).1)
    requires x in Keys(j.buffer) || x == Unwrap(j.unwrapper, p.seqNo).1
    requires x !in Keys(Pushed(j, p).buffer) && y in Keys(Pushed(j, p).buffer)
    ensures x < y
  {
    var index, kept := Unwrap(j.unwrapper, p.seqNo).1, Pushed(j, p).buffer;
    var k :| k in kept && k.0 == y;
    if x == index {
      PushKeepsNewest(j, p, (index, p));
    } else {
      var e :| e in j.buffer && e.0 == x;
      PushKeepsNewest(j, p, e);
    }
  }

  /** The indices of the pushes that were not late, in order of arrival. */
  function Accepted(capacity: nat, ops: seq<Op>): seq<nat> {
    if ops == [] then []
    else
      var n := |ops| - 1;
      var j := Run(capacity, ops[..n]).j;
      Accepted(capacity, ops[..n]) +
      if ops[n].Push? && !TooLate(j, Unwrap(j.unwrapper, ops[n].packet.seqNo).1)
      then [Unwrap(j.unwrapper, ops[n].packet.seqNo).1] else []
  }

  function Pushes(ops: seq<Op>): nat {
    if ops == [] then 0 else Pushes(ops[..|ops| - 1]) + if ops[|ops| - 1].Push? then 1 else 0
  }

  /** How often an element is smaller than the one before it. */
  function Descents(s: seq<nat>): nat {
    if |s| < 2 then 0
    else Descents(s[..|s| - 1]) + if s[|s| - 1] < s[|s| - 2] then 1 else 0
  }

  lemma DescentsAppend(s: seq<nat>, x: nat)
    ensures Descents(s + [x]) == Descents(s) + if s != [] && x < s[|s| - 1] then 1 else 0
  {
    assert (s + [x])[..|s|] == s;
  }

  /** The arrival statistics of a list of accepted indices among so many pushes. */
  ghost predicate Counted(j: Jitter, accepted: seq<nat>, pushes: nat) {
    && j.stats.received == |accepted|
    && j.stats.late == pushes - |accepted|
    && j.stats.reordered == Descents(accepted)
    && j.lastPushed == if accepted == [] then None else Some(accepted[|accepted| - 1])
  }

  /** Over every run: received counts the packets that were not late, late the others,
      and reordered those whose index is smaller than that of the one accepted before. */
  lemma {:induction false} ArrivalsCounted(capacity: nat, ops: seq<Op>)
    ensures Counted(Run(capacity, ops).j, Accepted(capacity, ops), Pushes(ops))
  {
    if ops != [] {
      var n := |ops| - 1;
      var j, before := Run(capacity, ops[..n]).j, Accepted(capacity, ops[..n]);
      ArrivalsCounted(capacity, ops[..n]);
      assert before + [] == before;
      match ops[n]
      case Push(p) => PushCounted(j, before, Pushes(ops[..n]), p);
      case Poll => PollCounted(j, before, Pushes(ops[..n]));
      case DrainEvents =>
    }
  }

  lemma PushCounted(j: Jitter, accepted: seq<nat>, pushes: nat, p: Packet)
    requires Counted(j, accepted, pushes)
    ensures var index := Unwrap(j.unwrapper, p.seqNo).1;
            Counted(Pushed(j, p), if TooLate(j, index) then accepted else accepted + [index], pushes + 1)
  {
    DescentsAppend(accepted, Unwrap(j.unwrapper, p.seqNo).1);
  }

  lemma PollCounted(j: Jitter, accepted: seq<nat>, pushes: nat)
    requires Counted(j, accepted, pushes)
    ensures Counted(Polled(j).0, accepted, pushes)
  {
  }
}
