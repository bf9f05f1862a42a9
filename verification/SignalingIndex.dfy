/** The reverse index is exact: over every run of concurrent connections it lists, for each
    participant, the rooms joined and not left since, in the order they were joined. */
module SignalingIndex {
  import opened Common
  import opened Signaling
  import opened SignalingRuns

  /** The action is a join of p to room r that is admitted. */
  ghost predicate Joins(w: World, max: nat, a: Action, p: Pid, r: Room) {
    && a.c < |w.phases|
    && (|| (a.FirstJoin? && w.phases[a.c] == Joining(p, r))
        || (a.FurtherJoin? && w.phases[a.c].Active? && a.pid == p && a.room == r))
    && !Full(PruneStale(w.st, r, w.closed), r, max)
  }

  /** The action makes p leave room r: a leave message, or the cleanup of a connection of p. */
  ghost predicate Leaves(w: World, a: Action, p: Pid, r: Room) {
    && a.c < |w.phases|
    && (|| (a.LeaveMessage? && w.phases[a.c].Active? && a.pid == p && a.room == r)
        || (a.CleanUp? && w.phases[a.c] == Disconnecting(p)))
  }

  ghost predicate Untouched(w: World, max: nat, a: Action, p: Pid) {
    forall r :: !Joins(w, max, a, p, r) && !Leaves(w, a, p, r)
  }

  /** Action i is a join of p to r, and p did not leave r afterwards. */
  ghost predicate JoinedAt(connections: nat, max: nat, actions: seq<Action>, p: Pid, r: Room, i: int) {
    && 0 <= i < |actions|
    && Joins(Run(connections, max, actions[..i]), max, actions[i], p, r)
    && forall j :: i < j < |actions| ==> !Leaves(Run(connections, max, actions[..j]), actions[j], p, r)
  }

  /** The first of these joins, or -1. */
  ghost function ListedAt(connections: nat, max: nat, actions: seq<Action>, p: Pid, r: Room): (i: int)
    ensures -1 <= i < |actions|
  {
    if actions == [] then -1
    else
      var n := |actions| - 1;
      var w, before := Run(connections, max, actions[..n]), ListedAt(connections, max, actions[..n], p, r);
      if Leaves(w, actions[n], p, r) then -1
      else if before >= 0 then before
      else if Joins(w, max, actions[n], p, r) then n
      else -1
  }

  lemma NotBoth(w: World, max: nat, a: Action, p: Pid, r: Room, s: Room)
    requires Joins(w, max, a, p, r)
    ensures !Leaves(w, a, p, s)
  {
  }

  /** It is the first: there is such a join exactly if it exists, and none before it. */
  lemma {:induction false} ListedIsFirst(connections: nat, max: nat, actions: seq<Action>, p: Pid, r: Room)
    ensures var i := ListedAt(connections, max, actions, p, r);
            && (i >= 0 ==> JoinedAt(connections, max, actions, p, r, i))
            && (forall j :: JoinedAt(connections, max, actions, p, r, j) ==> 0 <= i <= j)
  {
    hide Joins, Leaves, SignalingRuns.Step;
    if actions != [] {
      var n := |actions| - 1;
      ListedIsFirst(connections, max, actions[..n], p, r);
      var i := ListedAt(connections, max, actions, p, r);
      if 0 <= i < n {
        JoinedEarlier(connections, max, actions, p, r, i);
      }
      forall j | JoinedAt(connections, max, actions, p, r, j)
        ensures 0 <= i <= j
      {
        if j < n {
          JoinedEarlier(connections, max, actions, p, r, j);
        } else {
          NotBoth(Run(connections, max, actions[..n]), max, actions[n], p, r, r);
        }
      }
    }
  }

  lemma JoinedEarlier(connections: nat, max: nat, actions: seq<Action>, p: Pid, r: Room, i: int)
    requires 0 <= i < |actions| - 1
    ensures var n := |actions| - 1;
            JoinedAt(connections, max, actions, p, r, i) <==>
            && JoinedAt(connections, max, actions[..n], p, r, i)
            && !Leaves(Run(connections, max, actions[..n]), actions[n], p, r)
  {
    hide Joins, Leaves, SignalingRuns.Run;
    var n := |actions| - 1;
    forall j | 0 <= j < n
      ensures actions[..n][..j] == actions[..j] && actions[..n][j] == actions[j]
    {
    }
  }

  /** Leaving a room takes it out of p's index and changes nobody else's entry. */
  lemma LeaveIndex(st: State, p: Pid, r: Room, q: Pid)
    ensures var st' := Leave(st, p, r).0;
            && IndexOf(st', q) == (if q == p then Without(IndexOf(st, q), r) else IndexOf(st, q))
            && (q in st'.connections ==> q in st.connections && st'.connections[q].0 == st.connections[q].0)
            && (q != p && q in st.connections ==> q in st'.connections)
  {
    assert Without([], r) == [];
  }

  lemma {:induction false} LeaveAllOthers(st: State, p: Pid, rooms: seq<Room>, q: Pid)
    requires q != p
    ensures var st' := LeaveAll(st, p, rooms).0;
            (q in st'.connections <==> q in st.connections) &&
            (q in st.connections ==> st'.connections[q] == st.connections[q])
    decreases |rooms|
  {
    if rooms != [] {
      LeaveAllOthers(Leave(st, p, rooms[0]).0, p, rooms[1..], q);
    }
  }

  /** What one step does to p's entry. */
  lemma StepIndex(w: World, max: nat, a: Action, p: Pid)
    ensures var index, index' := IndexOf(w.st, p), IndexOf(Step(w, max, a).st, p);
            && (forall r :: Joins(w, max, a, p, r) ==> index' == if r in index then index else index + [r])
            && (Untouched(w, max, a, p) ==> index' == index)
            && (a.LeaveMessage? && Leaves(w, a, p, a.room) ==> index' == Without(index, a.room))
            && (a.CleanUp? && Leaves(w, a, p, "") ==> index' == [])
  {
    if a.c < |w.phases| {
      var phase := w.phases[a.c];
      match a
      case LeaveMessage(_, q, r) =>
        LeaveIndex(w.st, q, r, p);
        if phase.Active? && q == p {
          assert Leaves(w, a, p, r);
        }
      case CleanUp(_) =>
        if phase.Disconnecting? {
          if phase.pid == p {
            assert Leaves(w, a, p, "");
          } else {
            LeaveAllOthers(w.st, phase.pid, IndexOf(w.st, phase.pid), p);
          }
        }
      case FirstJoin(_) =>
        if phase.Joining? && phase.pid == p {
          assert Joins(w, max, a, p, phase.room) <==> !Full(PruneStale(w.st, phase.room, w.closed), phase.room, max);
        }
      case FurtherJoin(_, q, r) =>
        if phase.Active? && q == p {
          assert Joins(w, max, a, p, r) <==> !Full(PruneStale(w.st, r, w.closed), r, max);
        }
      case _ =>
    }
  }

  /** Room r was joined before s. */
  ghost predicate Before(connections: nat, max: nat, actions: seq<Action>, p: Pid, r: Room, s: Room) {
    ListedAt(connections, max, actions, p, r) < ListedAt(connections, max, actions, p, s)
  }

  ghost predicate InJoinOrder(connections: nat, max: nat, actions: seq<Action>, p: Pid, rooms: seq<Room>) {
    forall i, j :: 0 <= i < j < |rooms| ==> Before(connections, max, actions, p, rooms[i], rooms[j])
  }

  /** The index lists exactly the rooms joined and not left since, in join order. */
  ghost predicate Lists(connections: nat, max: nat, actions: seq<Action>, p: Pid, index: seq<Room>) {
    && (forall r :: r in index <==> ListedAt(connections, max, actions, p, r) >= 0)
    && InJoinOrder(connections, max, actions, p, index)
  }

  /** If no listed room's join changes, the order stays. */
  lemma OrderCarries(connections: nat, max: nat, actions: seq<Action>, p: Pid, rooms: seq<Room>)
    requires actions != [] && InJoinOrder(connections, max, actions[..|actions| - 1], p, rooms)
    requires forall r :: r in rooms ==>
               ListedAt(connections, max, actions, p, r) == ListedAt(connections, max, actions[..|actions| - 1], p, r)
    ensures InJoinOrder(connections, max, actions, p, rooms)
  {
    hide ListedAt;
    forall i, j | 0 <= i < j < |rooms|
      ensures Before(connections, max, actions, p, rooms[i], rooms[j])
    {
      assert rooms[i] in rooms && rooms[j] in rooms;
      assert Before(connections, max, actions[..|actions| - 1], p, rooms[i], rooms[j]);
    }
  }

  lemma JoinLists(connections: nat, max: nat, actions: seq<Action>, p: Pid, r: Room, index: seq<Room>)
    requires actions != []
    requires Lists(connections, max, actions[..|actions| - 1], p, index)
    requires Joins(Run(connections, max, actions[..|actions| - 1]), max, actions[|actions| - 1], p, r)
    ensures Lists(connections, max, actions, p, if r in index then index else index + [r])
  {
    var n := |actions| - 1;
    var w := Run(connections, max, actions[..n]);
    forall s
      ensures ListedAt(connections, max, actions, p, s) ==
              var before := ListedAt(connections, max, actions[..n], p, s);
              if before >= 0 || s != r then before else n
    {
      NotBoth(w, max, actions[n], p, r, s);
    }
    OrderCarries(connections, max, actions, p, index);
    if r !in index {
      forall i | 0 <= i < |index|
        ensures Before(connections, max, actions, p, index[i], r)
      {
        assert index[i] in index;
      }
    }
  }

  lemma {:induction false} WithoutKeepsOrder(connections: nat, max: nat, actions: seq<Action>, p: Pid,
                                             index: seq<Room>, r: Room)
    requires InJoinOrder(connections, max, actions, p, index)
    ensures InJoinOrder(connections, max, actions, p, Without(index, r))
  {
    hide ListedAt, Before;
    if index != [] {
      WithoutKeepsOrder(connections, max, actions, p, index[1..], r);
      var rest := Without(index[1..], r);
      forall j | 0 <= j < |rest|
        ensures Before(connections, max, actions, p, index[0], rest[j])
      {
        assert rest[j] in rest;
        var k :| 0 <= k < |index[1..]| && index[1..][k] == rest[j];
        assert index[k + 1] == rest[j];
      }
    }
  }

  lemma LeaveLists(connections: nat, max: nat, actions: seq<Action>, p: Pid, index: seq<Room>)
    requires actions != [] && actions[|actions| - 1].LeaveMessage?
    requires Lists(connections, max, actions[..|actions| - 1], p, index)
    requires Leaves(Run(connections, max, actions[..|actions| - 1]), actions[|actions| - 1], p, actions[|actions| - 1].room)
    ensures Lists(connections, max, actions, p, Without(index, actions[|actions| - 1].room))
  {
    var n := |actions| - 1;
    var r := actions[n].room;
    WithoutKeepsOrder(connections, max, actions[..n], p, index, r);
    forall s
      ensures ListedAt(connections, max, actions, p, s) ==
              if s == r then -1 else ListedAt(connections, max, actions[..n], p, s)
    {
      assert Leaves(Run(connections, max, actions[..n]), actions[n], p, s) <==> s == r;
    }
    OrderCarries(connections, max, actions, p, Without(index, r));
  }

  lemma SameLists(connections: nat, max: nat, actions: seq<Action>, p: Pid, index: seq<Room>)
    requires actions != [] && Lists(connections, max, actions[..|actions| - 1], p, index)
    requires Untouched(Run(connections, max, actions[..|actions| - 1]), max, actions[|actions| - 1], p)
    ensures Lists(connections, max, actions, p, index)
  {
    hide Joins, Leaves;
    forall s
      ensures ListedAt(connections, max, actions, p, s) ==
              ListedAt(connections, max, actions[..|actions| - 1], p, s)
    {
    }
    OrderCarries(connections, max, actions, p, index);
  }

  lemma CleanUpLists(connections: nat, max: nat, actions: seq<Action>, p: Pid)
    requires actions != [] && actions[|actions| - 1].CleanUp?
    requires Leaves(Run(connections, max, actions[..|actions| - 1]), actions[|actions| - 1], p, "")
    ensures Lists(connections, max, actions, p, [])
  {
    forall r
      ensures ListedAt(connections, max, actions, p, r) == -1
    {
    }
  }

  /** In every reachable state p's index lists exactly the rooms that p joined and neither
      left nor was disconnected from since, each once, in the order they were joined. */
  lemma {:induction false} IndexIsExact(connections: nat, max: nat, actions: seq<Action>, p: Pid)
    ensures Lists(connections, max, actions, p, IndexOf(Run(connections, max, actions).st, p))
  {
    hide Joins, Leaves, SignalingRuns.Step, IndexOf, Lists, ListedAt;
    if actions == [] {
      NothingListed(connections, max, p);
    } else {
      var n := |actions| - 1;
      var w := Run(connections, max, actions[..n]);
      IndexIsExact(connections, max, actions[..n], p);
      StepIndex(w, max, actions[n], p);
      var index := IndexOf(w.st, p);
      if r :| Joins(w, max, actions[n], p, r) {
        JoinLists(connections, max, actions, p, r, index);
      } else if r :| Leaves(w, actions[n], p, r) {
        LeavesHow(w, actions[n], p, r);
        if actions[n].LeaveMessage? {
          LeaveLists(connections, max, actions, p, index);
        } else {
          CleanUpLists(connections, max, actions, p);
        }
      } else {
        SameLists(connections, max, actions, p, index);
      }
    }
  }

  lemma NothingListed(connections: nat, max: nat, p: Pid)
    ensures Lists(connections, max, [], p, IndexOf(Run(connections, max, []).st, p))
  {
  }

  lemma LeavesHow(w: World, a: Action, p: Pid, r: Room)
    requires Leaves(w, a, p, r)
    ensures if a.LeaveMessage? then a.room == r else a.CleanUp? && Leaves(w, a, p, "")
  {
  }

  ghost predicate Reports(affected: seq<(Room, bool)>, r: Room) {
    exists i :: 0 <= i < |affected| && affected[i].0 == r
  }

  /** So a disconnect reports exactly these rooms, each once, in the order they were
      joined, and flags a room empty exactly if it is absent afterwards. */
  lemma DisconnectReports(connections: nat, max: nat, actions: seq<Action>, p: Pid)
    ensures var st := Run(connections, max, actions).st;
            var (st', affected) := Disconnect(st, p);
            && (forall r :: Reports(affected, r) <==> exists i :: JoinedAt(connections, max, actions, p, r, i))
            && (forall i, j :: 0 <= i < j < |affected| ==>
                  Before(connections, max, actions, p, affected[i].0, affected[j].0))
            && (forall i :: 0 <= i < |affected| ==> (affected[i].1 <==> affected[i].0 !in st'.rooms))
  {
    var st := Run(connections, max, actions).st;
    var (st', affected) := Disconnect(st, p);
    var index := IndexOf(st, p);
    IndexIsExact(connections, max, actions, p);
    ReachableKeeps(connections, max, actions);
    DisconnectMembers(st, p, p, "");
    forall r
      ensures Reports(affected, r) <==> exists i :: JoinedAt(connections, max, actions, p, r, i)
    {
      ListedIsFirst(connections, max, actions, p, r);
      if r in index {
        var i :| 0 <= i < |index| && index[i] == r;
        assert affected[i].0 == r;
      }
    }
    forall i | 0 <= i < |affected|
      ensures affected[i].1 <==> affected[i].0 !in st'.rooms
    {
      DisconnectMembers(st, p, p, affected[i].0);
    }
  }

  /** The channel of the latest admitted join of p, or -1. */
  ghost function LatestChannel(connections: nat, max: nat, actions: seq<Action>, p: Pid): int {
    if actions == [] then -1
    else
      var n := |actions| - 1;
      if exists r :: Joins(Run(connections, max, actions[..n]), max, actions[n], p, r) then actions[n].c
      else LatestChannel(connections, max, actions[..n], p)
  }

  lemma LockedJoinChannel(st: State, closed: set<Sink>, max: nat, q: Pid, r: Room, sink: Sink, p: Pid)
    ensures var st' := LockedJoin(st, closed, max, q, r, sink);
            if p == q && !Full(PruneStale(st, r, closed), r, max)
            then p in st'.connections && st'.connections[p].0 == sink && r in st'.connections[p].1
            else (p in st'.connections <==> p in st.connections) &&
                 (p in st.connections ==> st'.connections[p] == st.connections[p])
  {
  }

  /** What each step does to p's channel. */
  lemma StepChannel(w: World, max: nat, a: Action, p: Pid)
    requires p in w.st.connections ==> w.st.connections[p].1 != []
    ensures var st' := Step(w, max, a).st;
            && (p in st'.connections ==> st'.connections[p].1 != [])
            && (p in st'.connections ==>
                  if exists r :: Joins(w, max, a, p, r) then st'.connections[p].0 == a.c
                  else p in w.st.connections && st'.connections[p].0 == w.st.connections[p].0)
  {
    hide LockedJoin;
    if a.c < |w.phases| {
      var phase := w.phases[a.c];
      match a
      case LeaveMessage(_, q, r) => LeaveIndex(w.st, q, r, p);
      case CleanUp(_) =>
        if phase.Disconnecting? && phase.pid != p {
          LeaveAllOthers(w.st, phase.pid, IndexOf(w.st, phase.pid), p);
        }
      case FirstJoin(_) =>
        if phase.Joining? {
          LockedJoinChannel(w.st, w.closed, max, phase.pid, phase.room, a.c, p);
        }
        if phase.Joining? && phase.pid == p && !Full(PruneStale(w.st, phase.room, w.closed), phase.room, max) {
          assert Joins(w, max, a, p, phase.room);
        }
      case FurtherJoin(_, q, r) =>
        LockedJoinChannel(w.st, w.closed, max, q, r, a.c, p);
        if phase.Active? && q == p && !Full(PruneStale(w.st, r, w.closed), r, max) {
          assert Joins(w, max, a, p, r);
        }
      case _ =>
    }
  }

  /** In every reachable state a participant is indexed exactly while some room is listed
      for it, under the channel of its latest admitted join. */
  lemma {:induction false} ChannelIsLatest(connections: nat, max: nat, actions: seq<Action>, p: Pid)
    ensures var st := Run(connections, max, actions).st;
            && (p in st.connections <==> IndexOf(st, p) != [])
            && (p in st.connections ==> st.connections[p].0 == LatestChannel(connections, max, actions, p))
  {
    if actions != [] {
      var n := |actions| - 1;
      ChannelIsLatest(connections, max, actions[..n], p);
      StepChannel(Run(connections, max, actions[..n]), max, actions[n], p);
    }
  }

  /** The members of a room whose channel is open. */
  function OpenMembers(st: State, r: Room, closed: set<Sink>): set<Pid> {
    set q | q in MemberSet(st, r) && r in st.rooms && q in st.rooms[r] && st.rooms[r][q] !in closed
  }

  /** A join is admitted exactly if the room does not exist or has fewer than the maximum of
      members with an open channel. The closed ones go in either case, and nothing changes
      in other rooms. */
  lemma JoinAdmittedIff(st: State, closed: set<Sink>, max: nat, p: Pid, r: Room, sink: Sink, s: Room)
    ensures var st' := LockedJoin(st, closed, max, p, r, sink);
            && (s != r ==> (s in st'.rooms <==> s in st.rooms) && (s in st.rooms ==> st'.rooms[s] == st.rooms[s]))
            && (if r !in st.rooms || |OpenMembers(st, r, closed)| < max
                then MemberSet(st', r) == OpenMembers(st, r, closed) + {p} && st'.rooms[r][p] == sink
                     && r in IndexOf(st', p)
                else MemberSet(st', r) == OpenMembers(st, r, closed) && st'.connections == st.connections)
  {
    var st1 := PruneStale(st, r, closed);
    assert MemberSet(st1, r) == OpenMembers(st, r, closed);
  }

  /** The unlocked check lets a connection go on exactly if the room does not exist or has
      fewer than the maximum of members, closed channels included; it changes nothing else. */
  lemma PreCheckAdmitsIff(w: World, max: nat, c: nat, p: Pid, r: Room)
    requires c < |w.phases| && w.phases[c].Reading?
    ensures var w' := Step(w, max, PreCheck(c, p, r));
            if r !in w.st.rooms || |w.st.rooms[r]| < max then w' == w.(phases := w.phases[c := Admitted(p, r)])
            else w' == w
  {
    if r in w.st.rooms {
      assert MemberSet(w.st, r) == w.st.rooms[r].Keys;
    }
  }
}
