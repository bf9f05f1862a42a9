/** Room membership, the reverse index of rooms per participant, and connection
    generations. */
module Signaling {
  import opened Common

  type Pid = nat
  type Room = string

  /** An outbound channel, identified by the connection it belongs to. */
  type Sink = nat

  /** The members of a room with their channels. */
  type Members = map<Pid, Sink>

  datatype State = State(rooms: map<Room, Members>, connections: map<Pid, (Sink, seq<Room>)>, gens: map<Pid, nat>)

  function Join(st: State, p: Pid, r: Room, sink: Sink): (State, bool) {
    var members := if r in st.rooms then st.rooms[r] else map[];
    var index := if p in st.connections then st.connections[p].1 else [];
    (st.(rooms := st.rooms[r := members[p := sink]],
         connections := st.connections[p := (sink, if r in index then index else index + [r])]),
     members == map[])
  }

  function Without(rooms: seq<Room>, r: Room): (out: seq<Room>)
    ensures forall s :: s in out <==> s in rooms && s != r
  {
    if rooms == [] then [] else (if rooms[0] == r then [] else [rooms[0]]) + Without(rooms[1..], r)
  }

  function LeaveRoom(rooms: map<Room, Members>, p: Pid, r: Room): map<Room, Members> {
    if r !in rooms then rooms
    else if rooms[r] - {p} == map[] then rooms - {r}
    else rooms[r := rooms[r] - {p}]
  }

  function Unindex(connections: map<Pid, (Sink, seq<Room>)>, p: Pid, r: Room): map<Pid, (Sink, seq<Room>)> {
    if p !in connections then connections
    else
      var rest := Without(connections[p].1, r);
      if rest == [] then connections - {p} else connections[p := (connections[p].0, rest)]
  }

  /** Leaving a room; true if the room is gone. */
  function Leave(st: State, p: Pid, r: Room): (State, bool) {
    (st.(rooms := LeaveRoom(st.rooms, p, r), connections := Unindex(st.connections, p, r)),
     r !in st.rooms || st.rooms[r] - {p} == map[])
  }

  function LeaveAll(st: State, p: Pid, rooms: seq<Room>): (State, seq<(Room, bool)>)
    decreases |rooms|
  {
    if rooms == [] then (st, [])
    else
      var (st1, empty) := Leave(st, p, rooms[0]);
      var (st2, rest) := LeaveAll(st1, p, rooms[1..]);
      (st2, [(rooms[0], empty)] + rest)
  }

  function IndexOf(st: State, p: Pid): seq<Room> {
    if p in st.connections then st.connections[p].1 else []
  }

  function Disconnect(st: State, p: Pid): (State, seq<(Room, bool)>) {
    var (st', affected) := LeaveAll(st, p, IndexOf(st, p));
    (st'.(connections := st'.connections - {p}, gens := st'.gens - {p}), affected)
  }

  /** Drops the members of a room whose channel is closed. */
  function PruneStale(st: State, r: Room, closed: set<Sink>): State {
    if r !in st.rooms then st
    else st.(rooms := st.rooms[r := map p | p in st.rooms[r] && st.rooms[r][p] !in closed :: st.rooms[r][p]])
  }

  class SignalingState {
    var rooms: map<Room, Members>
    var connections: map<Pid, (Sink, seq<Room>)>
    var connectionGens: map<Pid, nat>

    ghost function View(): State
      reads this
    {
      State(rooms, connections, connectionGens)
    }

    constructor ()
      ensures View() == State(map[], map[], map[])
    {
      rooms, connections, connectionGens := map[], map[], map[];
    }

    method JoinRoom(p: Pid, r: Room, sink: Sink) returns (isFirst: bool)
      modifies this`rooms, this`connections
      ensures (View(), isFirst) == Join(old(View()), p, r, sink)
    {
      var members: Members := if r in rooms then rooms[r] else map[];
      isFirst := members == map[];
      rooms := rooms[r := members[p := sink]];
      var index := if p in connections then connections[p].1 else [];
      if r !in index {
        index := index + [r];
      }
      connections := connections[p := (sink, index)];
    }

    method LeaveOne(p: Pid, r: Room) returns (empty: bool)
      modifies this`rooms, this`connections
      ensures (View(), empty) == Leave(old(View()), p, r)
    {
      empty := true;
      if r in rooms {
        var members: Members := rooms[r] - {p};
        empty := members == map[];
        rooms := if empty then rooms - {r} else rooms[r := members];
      }
      if p in connections {
        var rest := Without(connections[p].1, r);
        connections := if rest == [] then connections - {p} else connections[p := (connections[p].0, rest)];
      }
    }

    method DisconnectAll(p: Pid) returns (affected: seq<(Room, bool)>)
      modifies this
      ensures (View(), affected) == Disconnect(old(View()), p)
    {
      var index := if p in connections then connections[p].1 else [];
      assert index == IndexOf(View(), p);
      ghost var (st, all) := LeaveAll(View(), p, index);
      affected := [];
      for i := 0 to |index|
        invariant LeaveAll(View(), p, index[i..]).0 == st
        invariant affected + LeaveAll(View(), p, index[i..]).1 == all
      {
        var empty := LeaveOne(p, index[i]);
        affected := affected + [(index[i], empty)];
      }
      assert View() == st && affected == all;
      connections := connections - {p};
      connectionGens := connectionGens - {p};
    }

    method Prune(r: Room, closed: set<Sink>)
      modifies this`rooms
      ensures View() == PruneStale(old(View()), r, closed)
    {
      if r in rooms {
        var members := rooms[r];
        var stale := set p | p in members && members[p] in closed;
        rooms := rooms[r := members - stale];
        assert members - stale == map p | p in members && members[p] !in closed :: members[p];
      }
    }

    method SetConnectionGen(p: Pid, gen: nat)
      modifies this`connectionGens
      ensures View() == old(View()).(gens := old(View()).gens[p := gen])
    {
      connectionGens := connectionGens[p := gen];
    }
  }

  predicate IsMember(st: State, p: Pid, r: Room) {
    r in st.rooms && p in st.rooms[r]
  }

  ghost predicate IndexedAt(st: State, p: Pid, r: Room) {
    IsMember(st, p, r) ==> p in st.connections && r in st.connections[p].1
  }

  /** Every member of a room has that room in its reverse index, which lists no room twice. */
  ghost predicate Indexed(st: State) {
    && (forall p, r :: IndexedAt(st, p, r))
    && (forall p :: p in st.connections ==> Distinct(st.connections[p].1))
  }

  /** Membership and channels are as before, except that p is not in room r. */
  lemma LeaveMembers(st: State, p: Pid, r: Room, q: Pid, s: Room)
    ensures var (st', empty) := Leave(st, p, r);
            && (IsMember(st', q, s) <==> IsMember(st, q, s) && !(q == p && s == r))
            && (IsMember(st', q, s) ==> st'.rooms[s][q] == st.rooms[s][q])
            && (empty <==> r !in st'.rooms)
            && (s != r ==> (s in st'.rooms <==> s in st.rooms))
  {
    if IsMember(st, q, s) && s == r && q != p {
      assert q in st.rooms[r] - {p};
    }
  }

  /** Joining adds exactly one membership, with the new channel, and tells the first member. */
  lemma JoinAddsMember(st: State, p: Pid, r: Room, sink: Sink, q: Pid, s: Room)
    ensures var (st', first) := Join(st, p, r, sink);
            && (IsMember(st', q, s) <==> IsMember(st, q, s) || (q == p && s == r))
            && (IsMember(st', q, s) ==> st'.rooms[s][q] == if q == p && s == r then sink else st.rooms[s][q])
            && (first <==> forall m :: !IsMember(st, m, r))
            && st'.gens == st.gens
  {
    var (st', first) := Join(st, p, r, sink);
    if !first {
      var m :| m in st.rooms[r];
      assert IsMember(st, m, r);
    }
    if first && r in st.rooms {
      assert st.rooms[r] == map[];
    }
  }

  /** Pruning a room ends exactly the memberships in it whose channel is closed. */
  lemma PruneMembers(st: State, r: Room, closed: set<Sink>, q: Pid, s: Room)
    ensures var st' := PruneStale(st, r, closed);
            && (IsMember(st', q, s) <==> IsMember(st, q, s) && !(s == r && st.rooms[r][q] in closed))
            && (IsMember(st', q, s) ==> st'.rooms[s][q] == st.rooms[s][q])
            && st'.connections == st.connections && st'.gens == st.gens
  {
  }

  lemma {:induction false} WithoutDistinct(rooms: seq<Room>, r: Room)
    requires Distinct(rooms)
    ensures Distinct(Without(rooms, r))
  {
    if rooms != [] {
      WithoutDistinct(rooms[1..], r);
      assert rooms[0] !in rooms[1..];
    }
  }

  lemma LeaveIndexed(st: State, p: Pid, r: Room)
    requires Indexed(st)
    ensures Indexed(Leave(st, p, r).0)
  {
    var st' := Leave(st, p, r).0;
    forall q, s
      ensures IndexedAt(st', q, s)
    {
      LeaveMembers(st, p, r, q, s);
      assert IndexedAt(st, q, s);
    }
    if p in st.connections {
      WithoutDistinct(st.connections[p].1, r);
    }
  }

  lemma JoinIndexed(st: State, p: Pid, r: Room, sink: Sink)
    requires Indexed(st)
    ensures Indexed(Join(st, p, r, sink).0)
  {
    var st' := Join(st, p, r, sink).0;
    forall q, s
      ensures IndexedAt(st', q, s)
    {
      assert IndexedAt(st, q, s);
    }
  }

  lemma PruneIndexed(st: State, r: Room, closed: set<Sink>)
    requires Indexed(st)
    ensures Indexed(PruneStale(st, r, closed))
  {
    var st' := PruneStale(st, r, closed);
    forall q, s
      ensures IndexedAt(st', q, s)
    {
      assert IndexedAt(st, q, s);
    }
  }

  /** Leaving a list of distinct rooms: exactly the memberships of p in them end, and the
      flag of each says whether that room is gone at the end. */
  lemma {:induction false} LeaveAllMembers(st: State, p: Pid, rooms: seq<Room>, q: Pid, s: Room)
    requires Distinct(rooms)
    ensures var (st', affected) := LeaveAll(st, p, rooms);
            && (IsMember(st', q, s) <==> IsMember(st, q, s) && !(q == p && s in rooms))
            && (IsMember(st', q, s) ==> st'.rooms[s][q] == st.rooms[s][q])
            && (s !in rooms ==> (s in st'.rooms <==> s in st.rooms))
            && st'.gens == st.gens
            && |affected| == |rooms|
            && (forall i :: 0 <= i < |rooms| ==> affected[i].0 == rooms[i])
            && (forall i :: 0 <= i < |rooms| && rooms[i] == s ==> (affected[i].1 <==> s !in st'.rooms))
    decreases |rooms|
  {
    if rooms != [] {
      LeaveMembers(st, p, rooms[0], q, s);
      LeaveAllMembers(Leave(st, p, rooms[0]).0, p, rooms[1..], q, s);
      assert rooms[0] !in rooms[1..];
    }
  }

  lemma {:induction false} LeaveAllIndexed(st: State, p: Pid, rooms: seq<Room>)
    requires Indexed(st)
    ensures Indexed(LeaveAll(st, p, rooms).0)
    decreases |rooms|
  {
    if rooms != [] {
      LeaveIndexed(st, p, rooms[0]);
      LeaveAllIndexed(Leave(st, p, rooms[0]).0, p, rooms[1..]);
    }
  }

  /** Disconnecting removes p from every room and changes no other member; the rooms it
      reports are those of the reverse index, each flagged empty exactly when it is
      absent afterwards. */
  lemma DisconnectMembers(st: State, p: Pid, q: Pid, s: Room)
    requires Indexed(st)
    ensures var (st', affected) := Disconnect(st, p);
            && (IsMember(st', q, s) <==> IsMember(st, q, s) && q != p)
            && (IsMember(st', q, s) ==> st'.rooms[s][q] == st.rooms[s][q])
            && |affected| == |IndexOf(st, p)|
            && (forall i :: 0 <= i < |affected| ==> affected[i].0 == IndexOf(st, p)[i])
            && (forall i :: 0 <= i < |affected| && affected[i].0 == s ==> (affected[i].1 <==> s !in st'.rooms))
            && p !in st'.connections && p !in st'.gens
  {
    LeaveAllMembers(st, p, IndexOf(st, p), q, s);
    assert IndexedAt(st, q, s);
  }

  lemma DisconnectIndexed(st: State, p: Pid)
    requires Indexed(st)
    ensures Indexed(Disconnect(st, p).0)
  {
    LeaveAllIndexed(st, p, IndexOf(st, p));
    var st1 := LeaveAll(st, p, IndexOf(st, p)).0;
    var st' := Disconnect(st, p).0;
    forall q, s
      ensures IndexedAt(st', q, s)
    {
      assert IndexedAt(st1, q, s);
      DisconnectMembers(st, p, q, s);
    }
  }
}
