/** Concurrent connections over the shared signaling state. Each region that holds the
    lock is one atomic step; everything else can interleave. */
module SignalingRuns {
  import opened Common
  import opened Signaling

  /** How far a connection has come with its first join, and with its cleanup. */
  datatype Phase =
    | Reading
    | Admitted(pid: Pid, room: Room)
    | Joining(pid: Pid, room: Room)
    | Active(pid: Pid)
    | Closing(pid: Pid)
    | Disconnecting(pid: Pid)
    | Done

  /** The shared state, the closed channels, the connections (whose number is both their
      channel and their generation), and, as history, who registered last as whom. */
  datatype World = World(st: State, closed: set<Sink>, phases: seq<Phase>, latest: map<Pid, nat>)

  datatype Action =
    | PreCheck(c: nat, pid: Pid, room: Room)
    | Register(c: nat)
    | HookPrune(c: nat, room: Room)
    | HookHandled(c: nat)
    | FirstJoin(c: nat)
    | FurtherJoin(c: nat, pid: Pid, room: Room)
    | LeaveMessage(c: nat, pid: Pid, room: Room)
    | ChannelCloses(c: nat)
    | Close(c: nat)
    | StaleCheck(c: nat)
    | CleanUp(c: nat)

  function MemberSet(st: State, r: Room): set<Pid> {
    if r in st.rooms then set p | p in st.rooms[r] else {}
  }

  predicate Full(st: State, r: Room, max: nat) {
    r in st.rooms && |MemberSet(st, r)| >= max
  }

  /** The join arm of the dispatcher under the write lock: prune, check again, join. */
  function LockedJoin(st: State, closed: set<Sink>, max: nat, p: Pid, r: Room, sink: Sink): State {
    var st1 := PruneStale(st, r, closed);
    if Full(st1, r, max) then st1 else Join(st1, p, r, sink).0
  }

  function Move(w: World, c: nat, phase: Phase): World
    requires c < |w.phases|
  {
    w.(phases := w.phases[c := phase])
  }

  /** One step of one connection; a step that is not enabled changes nothing. */
  function Step(w: World, max: nat, a: Action): (w': World)
    ensures |w'.phases| == |w.phases|
  {
    if a.c >= |w.phases| then w
    else
      var phase := w.phases[a.c];
      match a
      case PreCheck(c, p, r) =>
        if phase.Reading? && !Full(w.st, r, max) then Move(w, c, Admitted(p, r)) else w
      case Register(c) =>
        if phase.Admitted? then
          Move(w, c, Joining(phase.pid, phase.room)).(st := w.st.(gens := w.st.gens[phase.pid := c]),
                                                      latest := w.latest[phase.pid := c])
        else w
      case HookPrune(_, r) =>
        if phase.Joining? || phase.Active? then w.(st := PruneStale(w.st, r, w.closed)) else w
      case HookHandled(c) =>
        if phase.Joining? then Move(w, c, Active(phase.pid)) else w
      case FirstJoin(c) =>
        if phase.Joining? then
          Move(w, c, Active(phase.pid)).(st := LockedJoin(w.st, w.closed, max, phase.pid, phase.room, c))
        else w
      case FurtherJoin(c, p, r) =>
        if phase.Active? then w.(st := LockedJoin(w.st, w.closed, max, p, r, c)) else w
      case LeaveMessage(_, p, r) =>
        if phase.Active? then w.(st := Leave(w.st, p, r).0) else w
      case ChannelCloses(c) => w.(closed := w.closed + {c})
      case Close(c) =>
        if phase.Reading? then Move(w, c, Done).(closed := w.closed + {c})
        else if phase.Active? then Move(w, c, Closing(phase.pid)).(closed := w.closed + {c})
        else w
      case StaleCheck(c) =>
        if !phase.Closing? then w
        else if phase.pid in w.st.gens && w.st.gens[phase.pid] == c then Move(w, c, Disconnecting(phase.pid))
        else Move(w, c, Done)
      case CleanUp(c) =>
        if phase.Disconnecting? then Move(w, c, Done).(st := Disconnect(w.st, phase.pid).0) else w
  }

  function Run(connections: nat, max: nat, actions: seq<Action>): (w: World)
    ensures |w.phases| == connections
  {
    if actions == [] then World(State(map[], map[], map[]), {}, seq(connections, _ => Reading), map[])
    else Step(Run(connections, max, actions[..|actions| - 1]), max, actions[|actions| - 1])
  }

  /** A room that does not exist is never full, so even a limit of zero admits one member. */
  function Limit(max: nat): nat {
    if max == 0 then 1 else max
  }

  ghost predicate WithinLimit(st: State, max: nat) {
    forall r :: |MemberSet(st, r)| <= Limit(max)
  }

  lemma {:induction false} SubsetSize<T>(a: set<T>, b: set<T>)
    requires a <= b
    ensures |a| <= |b|
  {
    if a != {} {
      var x :| x in a;
      SubsetSize(a - {x}, b - {x});
    }
  }

  /** Steps that add no member keep every limit. */
  lemma FewerMembers(st: State, st': State, max: nat)
    requires WithinLimit(st, max)
    requires forall q, s :: IsMember(st', q, s) ==> IsMember(st, q, s)
    ensures WithinLimit(st', max)
  {
    forall r
      ensures |MemberSet(st', r)| <= Limit(max)
    {
      forall q | q in MemberSet(st', r)
        ensures q in MemberSet(st, r)
      {
        assert IsMember(st', q, r);
      }
      SubsetSize(MemberSet(st', r), MemberSet(st, r));
    }
  }

  lemma JoinMembers(st: State, p: Pid, r: Room, sink: Sink, s: Room)
    ensures MemberSet(Join(st, p, r, sink).0, s) == MemberSet(st, s) + if s == r then {p} else {}
  {
  }

  lemma LockedJoinKeeps(st: State, closed: set<Sink>, max: nat, p: Pid, r: Room, sink: Sink)
    requires Indexed(st) && WithinLimit(st, max)
    ensures Indexed(LockedJoin(st, closed, max, p, r, sink))
    ensures WithinLimit(LockedJoin(st, closed, max, p, r, sink), max)
  {
    var st1 := PruneStale(st, r, closed);
    PruneIndexed(st, r, closed);
    FewerMembers(st, st1, max);
    if !Full(st1, r, max) {
      JoinIndexed(st1, p, r, sink);
      forall s
        ensures |MemberSet(Join(st1, p, r, sink).0, s)| <= Limit(max)
      {
        JoinMembers(st1, p, r, sink, s);
      }
    }
  }

  lemma LeaveKeeps(st: State, p: Pid, r: Room, max: nat)
    requires Indexed(st) && WithinLimit(st, max)
    ensures Indexed(Leave(st, p, r).0) && WithinLimit(Leave(st, p, r).0, max)
  {
    LeaveIndexed(st, p, r);
    forall q, s
      ensures IsMember(Leave(st, p, r).0, q, s) ==> IsMember(st, q, s)
    {
      LeaveMembers(st, p, r, q, s);
    }
    FewerMembers(st, Leave(st, p, r).0, max);
  }

  lemma DisconnectKeeps(st: State, p: Pid, max: nat)
    requires Indexed(st) && WithinLimit(st, max)
    ensures Indexed(Disconnect(st, p).0) && WithinLimit(Disconnect(st, p).0, max)
  {
    DisconnectIndexed(st, p);
    forall q, s
      ensures IsMember(Disconnect(st, p).0, q, s) ==> IsMember(st, q, s)
    {
      DisconnectMembers(st, p, q, s);
    }
    FewerMembers(st, Disconnect(st, p).0, max);
  }

  lemma PruneKeeps(st: State, r: Room, closed: set<Sink>, max: nat)
    requires Indexed(st) && WithinLimit(st, max)
    ensures Indexed(PruneStale(st, r, closed)) && WithinLimit(PruneStale(st, r, closed), max)
  {
    PruneIndexed(st, r, closed);
    FewerMembers(st, PruneStale(st, r, closed), max);
  }

  lemma GensDontMatter(st: State, gens: map<Pid, nat>, max: nat)
    requires Indexed(st) && WithinLimit(st, max)
    ensures Indexed(st.(gens := gens)) && WithinLimit(st.(gens := gens), max)
  {
    var st' := st.(gens := gens);
    forall p, r
      ensures IndexedAt(st', p, r)
    {
      assert IndexedAt(st, p, r);
    }
    FewerMembers(st, st', max);
  }

  lemma StepKeeps(w: World, max: nat, a: Action)
    requires Indexed(w.st) && WithinLimit(w.st, max)
    ensures Indexed(Step(w, max, a).st) && WithinLimit(Step(w, max, a).st, max)
  {
    if a.c < |w.phases| {
      var phase := w.phases[a.c];
      match a
      case Register(c) =>
        if phase.Admitted? {
          GensDontMatter(w.st, w.st.gens[phase.pid := c], max);
        }
      case HookPrune(_, r) => PruneKeeps(w.st, r, w.closed, max);
      case FirstJoin(c) =>
        if phase.Joining? {
          LockedJoinKeeps(w.st, w.closed, max, phase.pid, phase.room, c);
        }
      case FurtherJoin(c, p, r) => LockedJoinKeeps(w.st, w.closed, max, p, r, c);
      case LeaveMessage(_, p, r) => LeaveKeeps(w.st, p, r, max);
      case CleanUp(c) =>
        if phase.Disconnecting? {
          DisconnectKeeps(w.st, phase.pid, max);
        }
      case _ =>
    }
  }

  /** In every reachable state, whatever the interleaving: members are indexed, so a
      disconnect finds all rooms, and no room is over the limit. */
  lemma {:induction false} ReachableKeeps(connections: nat, max: nat, actions: seq<Action>)
    ensures Indexed(Run(connections, max, actions).st)
    ensures WithinLimit(Run(connections, max, actions).st, max)
  {
    if actions != [] {
      ReachableKeeps(connections, max, actions[..|actions| - 1]);
      StepKeeps(Run(connections, max, actions[..|actions| - 1]), max, actions[|actions| - 1]);
    }
  }

  /** A join to a room that does not exist succeeds under any limit. */
  lemma NewRoomAdmits(st: State, closed: set<Sink>, max: nat, p: Pid, r: Room, sink: Sink)
    requires r !in st.rooms
    ensures MemberSet(LockedJoin(st, closed, max, p, r, sink), r) == {p}
  {
  }

  lemma RunExtend(connections: nat, max: nat, actions: seq<Action>, a: Action)
    ensures Run(connections, max, actions + [a]) == Step(Run(connections, max, actions), max, a)
  {
    assert (actions + [a])[..|actions|] == actions;
  }

  /** Some run puts a member into a room, whatever the limit. */
  lemma OneMember(max: nat, p: Pid, r: Room) returns (actions: seq<Action>)
    ensures |MemberSet(Run(1, max, actions).st, r)| == 1
  {
    RunExtend(1, max, [], PreCheck(0, p, r));
    RunExtend(1, max, [] + [PreCheck(0, p, r)], Register(0));
    RunExtend(1, max, [] + [PreCheck(0, p, r)] + [Register(0)], FirstJoin(0));
    var w := Run(1, max, [] + [PreCheck(0, p, r)] + [Register(0)]);
    NewRoomAdmits(w.st, w.closed, max, p, r, 0);
    actions := [] + [PreCheck(0, p, r)] + [Register(0)] + [FirstJoin(0)];
  }

  ghost predicate LimitHolds(max: nat) {
    forall connections, actions, r :: |MemberSet(Run(connections, max, actions).st, r)| <= max
  }

  /** No room ever has more members than allowed, exactly for limits of at least one. */
  lemma LimitHoldsIff(max: nat)
    ensures LimitHolds(max) <==> max >= 1
  {
    if max >= 1 {
      forall connections, actions, r
        ensures |MemberSet(Run(connections, max, actions).st, r)| <= max
      {
        ReachableKeeps(connections, max, actions);
      }
    } else {
      var actions := OneMember(max, 0, "room");
      assert !(|MemberSet(Run(1, max, actions).st, "room")| <= max);
    }
  }

  /** The generations name the latest registration, unless a cleanup removed it. */
  ghost predicate GensCurrent(w: World) {
    forall p :: p in w.st.gens ==> p in w.latest && w.latest[p] == w.st.gens[p]
  }

  lemma LeaveAllGens(st: State, p: Pid, rooms: seq<Room>)
    ensures LeaveAll(st, p, rooms).0.gens == st.gens
    decreases |rooms|
  {
    if rooms != [] {
      LeaveAllGens(Leave(st, p, rooms[0]).0, p, rooms[1..]);
    }
  }

  lemma StepGens(w: World, max: nat, a: Action)
    requires GensCurrent(w)
    ensures GensCurrent(Step(w, max, a))
  {
    if a.CleanUp? && a.c < |w.phases| && w.phases[a.c].Disconnecting? {
      LeaveAllGens(w.st, w.phases[a.c].pid, IndexOf(w.st, w.phases[a.c].pid));
    }
  }

  lemma {:induction false} ReachableGens(connections: nat, max: nat, actions: seq<Action>)
    ensures GensCurrent(Run(connections, max, actions))
  {
    if actions != [] {
      ReachableGens(connections, max, actions[..|actions| - 1]);
      StepGens(Run(connections, max, actions[..|actions| - 1]), max, actions[|actions| - 1]);
    }
  }

  /** A cleanup that passes the staleness check is that of the latest registration. */
  lemma PassingCheckIsLatest(connections: nat, max: nat, actions: seq<Action>, c: nat)
    requires c < |Run(connections, max, actions).phases| && Run(connections, max, actions).phases[c].Closing?
    requires Step(Run(connections, max, actions), max, StaleCheck(c)).phases[c].Disconnecting?
    ensures var w := Run(connections, max, actions);
            var p := w.phases[c].pid;
            p in w.latest && w.latest[p] == c
  {
    ReachableGens(connections, max, actions);
  }

  /** Connection d is the registered connection of p. */
  ghost predicate RegisteredAs(st: State, p: Pid, d: nat) {
    p in st.gens && st.gens[p] == d
  }

  /** A cleanup takes p's registration and all its memberships. */
  lemma CleanUpRemovesAll(w: World, max: nat, c: nat, p: Pid)
    requires Indexed(w.st) && c < |w.phases| && w.phases[c] == Disconnecting(p)
    ensures var st' := Step(w, max, CleanUp(c)).st; p !in st'.gens && forall r :: !IsMember(st', p, r)
  {
    forall r
      ensures !IsMember(Disconnect(w.st, p).0, p, r)
    {
      DisconnectMembers(w.st, p, p, r);
    }
  }

  /** The action registers connection d as p. */
  ghost predicate Registers(w: World, a: Action, p: Pid, d: nat) {
    a == Register(d) && d < |w.phases| && w.phases[d].Admitted? && w.phases[d].pid == p
  }

  /** Connection d registered as p at one of the steps from i on. */
  ghost predicate RegisteredSince(connections: nat, max: nat, actions: seq<Action>, i: nat, p: Pid, d: nat)
    decreases |actions|
  {
    i < |actions| &&
    (var n := |actions| - 1;
     || Registers(Run(connections, max, actions[..n]), actions[n], p, d)
     || RegisteredSince(connections, max, actions[..n], i, p, d))
  }

  /** Step i - 1 is a staleness check of c, as p, that passes. */
  ghost predicate PassesCheckAt(connections: nat, max: nat, actions: seq<Action>, i: nat, c: nat, p: Pid) {
    && 1 <= i <= |actions| && actions[i - 1] == StaleCheck(c) && c < connections
    && Run(connections, max, actions[..i - 1]).phases[c] == Closing(p)
    && Run(connections, max, actions[..i]).phases[c] == Disconnecting(p)
  }

  /** After its check passed, a connection is about to clean up, or has done so. */
  lemma {:induction false} DisconnectingOrDone(connections: nat, max: nat, actions: seq<Action>, i: nat, c: nat, p: Pid)
    requires PassesCheckAt(connections, max, actions, i, c, p)
    ensures var phase := Run(connections, max, actions).phases[c]; phase == Disconnecting(p) || phase == Done
    decreases |actions|
  {
    var n := |actions| - 1;
    if i == |actions| {
      assert actions[..i] == actions;
    } else {
      CheckInPrefix(connections, max, actions, i, c, p);
      DisconnectingOrDone(connections, max, actions[..n], i, c, p);
    }
  }

  lemma CheckInPrefix(connections: nat, max: nat, actions: seq<Action>, i: nat, c: nat, p: Pid)
    requires PassesCheckAt(connections, max, actions, i, c, p) && i < |actions|
    ensures PassesCheckAt(connections, max, actions[..|actions| - 1], i, c, p)
  {
    var n := |actions| - 1;
    assert actions[..n][..i - 1] == actions[..i - 1] && actions[..n][..i] == actions[..i];
  }

  /** While c has not cleaned up, the latest registration as p is c's or one made since
      c's check, and every one made since is another connection's. */
  lemma {:induction false} LatestSinceCheck(connections: nat, max: nat, actions: seq<Action>, i: nat, c: nat, p: Pid)
    requires PassesCheckAt(connections, max, actions, i, c, p)
    requires Run(connections, max, actions).phases[c] == Disconnecting(p)
    ensures var w := Run(connections, max, actions);
            p in w.latest && (w.latest[p] == c || RegisteredSince(connections, max, actions, i, p, w.latest[p]))
    ensures !RegisteredSince(connections, max, actions, i, p, c)
    decreases |actions|
  {
    var n := |actions| - 1;
    if i == |actions| {
      PassingCheckIsLatest(connections, max, actions[..n], c);
    } else {
      CheckInPrefix(connections, max, actions, i, c, p);
      DisconnectingOrDone(connections, max, actions[..n], i, c, p);
      LatestSinceCheck(connections, max, actions[..n], i, c, p);
      LatestStep(Run(connections, max, actions[..n]), max, actions[n], c, p);
    }
  }

  /** A step changes the latest registration as p only by registering as p. */
  lemma LatestStep(w: World, max: nat, a: Action, c: nat, p: Pid)
    requires c < |w.phases| && w.phases[c] == Disconnecting(p) && p in w.latest
    ensures p in Step(w, max, a).latest
    ensures Step(w, max, a).latest[p] == if Registers(w, a, p, a.c) then a.c else w.latest[p]
    ensures !Registers(w, a, p, c)
  {
  }

  /** p is a member of the room under the channel of a connection that registered as p
      since the check at step i. */
  ghost predicate NewerMember(connections: nat, max: nat, actions: seq<Action>, i: nat, p: Pid, st: State, r: Room) {
    IsMember(st, p, r) && RegisteredSince(connections, max, actions, i, p, st.rooms[r][p])
  }

  /** Going from st to st' destroys state of a session of p newer than the check: its
      registration or one of its memberships. */
  ghost predicate DestroysNewer(connections: nat, max: nat, actions: seq<Action>, i: nat, p: Pid, st: State, st': State) {
    || (exists d :: RegisteredSince(connections, max, actions, i, p, d) && RegisteredAs(st, p, d)
                    && !RegisteredAs(st', p, d))
    || (exists r :: NewerMember(connections, max, actions, i, p, st, r) && !IsMember(st', p, r))
  }

  /** Exactly when the cleanup of c destroys a newer session's state: p's generation is no
      longer c's, or p is a member somewhere under a newer connection's channel. */
  lemma DestroysNewerIff(connections: nat, max: nat, actions: seq<Action>, i: nat, c: nat, p: Pid)
    requires PassesCheckAt(connections, max, actions, i, c, p)
    requires Run(connections, max, actions).phases[c] == Disconnecting(p)
    ensures var st := Run(connections, max, actions).st;
            DestroysNewer(connections, max, actions, i, p, st, Step(Run(connections, max, actions), max, CleanUp(c)).st)
            <==>
            || (p in st.gens && st.gens[p] != c)
            || (exists r :: NewerMember(connections, max, actions, i, p, st, r))
  {
    var w := Run(connections, max, actions);
    var st' := Step(w, max, CleanUp(c)).st;
    LatestSinceCheck(connections, max, actions, i, c, p);
    ReachableGens(connections, max, actions);
    ReachableKeeps(connections, max, actions);
    CleanUpRemovesAll(w, max, c, p);
    if p in w.st.gens && w.st.gens[p] != c {
      assert RegisteredAs(w.st, p, w.st.gens[p]) && !RegisteredAs(st', p, w.st.gens[p]);
    }
  }

  /** It takes a registration between the check and the cleanup. */
  lemma DestructionNeedsRegistration(connections: nat, max: nat, actions: seq<Action>, i: nat, c: nat, p: Pid)
    returns (d: nat)
    requires PassesCheckAt(connections, max, actions, i, c, p)
    requires Run(connections, max, actions).phases[c] == Disconnecting(p)
    requires DestroysNewer(connections, max, actions, i, p, Run(connections, max, actions).st,
                           Step(Run(connections, max, actions), max, CleanUp(c)).st)
    ensures d != c && RegisteredSince(connections, max, actions, i, p, d)
  {
    var st := Run(connections, max, actions).st;
    LatestSinceCheck(connections, max, actions, i, c, p);
    if r :| NewerMember(connections, max, actions, i, p, st, r) {
      d := st.rooms[r][p];
    } else {
      d :| RegisteredSince(connections, max, actions, i, p, d);
    }
  }

  /** A newer connection that joins between the check and the cleanup becomes a member,
      unless the room is full, and then loses all memberships although it stays active. */
  lemma CleanUpAfterNewerJoin(w: World, max: nat, c: nat, d: nat, p: Pid, r: Room, s: Room)
    requires Indexed(w.st) && WithinLimit(w.st, max)
    requires c < |w.phases| && d < |w.phases| && c != d
    requires w.phases[c] == Disconnecting(p) && w.phases[d] == Joining(p, r)
    ensures var w1 := Step(w, max, FirstJoin(d));
            !Full(PruneStale(w.st, r, w.closed), r, max) ==> IsMember(w1.st, p, r) && w1.st.rooms[r][p] == d
    ensures var w' := Step(Step(w, max, FirstJoin(d)), max, CleanUp(c));
            w'.phases[d] == Active(p) && !IsMember(w'.st, p, s)
  {
    var w1 := Step(w, max, FirstJoin(d));
    LockedJoinKeeps(w.st, w.closed, max, p, r, d);
    DisconnectMembers(w1.st, p, p, s);
  }

  /** The room after the first member of all joined. */
  lemma FirstOfAll(st: State, max: nat, p: Pid, r: Room, sink: Sink)
    requires st.rooms == map[]
    ensures var st' := LockedJoin(st, {}, max, p, r, sink);
            st'.rooms == map[r := map[p := sink]] && st'.gens == st.gens
  {
    var members: Members := map[];
    var rooms: map<Room, Members> := map[];
    assert members[p := sink] == map[p := sink] && rooms[r := map[p := sink]] == map[r := map[p := sink]];
  }

  /** Two connections of the same participant pass the unlocked check, one registers. */
  lemma BothAdmitted(max: nat, p: Pid, r: Room) returns (actions: seq<Action>)
    ensures var w := Run(2, max, actions);
            && w.phases == [Joining(p, r), Admitted(p, r)] && w.closed == {}
            && w.st.gens == map[p := 0] && w.st.rooms == map[]
  {
    RunExtend(2, max, [], PreCheck(0, p, r));
    actions := [] + [PreCheck(0, p, r)];
    RunExtend(2, max, actions, PreCheck(1, p, r));
    actions := actions + [PreCheck(1, p, r)];
    RunExtend(2, max, actions, Register(0));
    actions := actions + [Register(0)];
  }

  /** That one joins and closes. */
  lemma FirstOneCloses(max: nat, p: Pid, r: Room) returns (actions: seq<Action>)
    ensures var w := Run(2, max, actions);
            && w.phases == [Closing(p), Admitted(p, r)] && w.closed == {0}
            && w.st.gens == map[p := 0] && w.st.rooms == map[r := map[p := 0]]
  {
    actions := BothAdmitted(max, p, r);
    FirstOfAll(Run(2, max, actions).st, max, p, r, 0);
    RunExtend(2, max, actions, FirstJoin(0));
    actions := actions + [FirstJoin(0)];
    RunExtend(2, max, actions, Close(0));
    actions := actions + [Close(0)];
  }

  /** The race does occur: the check of the first passes before the second registers. */
  lemma RaceIsReachable(max: nat, p: Pid, r: Room) returns (actions: seq<Action>)
    ensures var w := Run(2, max, actions);
            && w.phases == [Disconnecting(p), Joining(p, r)] && w.closed == {0}
            && w.st.rooms == map[r := map[p := 0]] && RegisteredAs(w.st, p, 1)
  {
    actions := FirstOneCloses(max, p, r);
    RunExtend(2, max, actions, StaleCheck(0));
    actions := actions + [StaleCheck(0)];
    RunExtend(2, max, actions, Register(1));
    actions := actions + [Register(1)];
  }

  lemma PrunedEmpty(st: State, p: Pid, r: Room)
    requires st.rooms == map[r := map[p := 0]]
    ensures MemberSet(PruneStale(st, r, {0}), r) == {}
  {
  }

  /** So a run exists in which the newer connection is a member and the older one's cleanup
      then removes it from every room, for every limit of at least one. */
  lemma NewerMemberRemoved(max: nat, p: Pid, r: Room, s: Room) returns (actions: seq<Action>)
    requires max >= 1
    ensures IsMember(Run(2, max, actions).st, p, r) && Run(2, max, actions).st.rooms[r][p] == 1
    ensures var w := Run(2, max, actions + [CleanUp(0)]); w.phases[1] == Active(p) && !IsMember(w.st, p, s)
  {
    var before := RaceIsReachable(max, p, r);
    var w := Run(2, max, before);
    ReachableKeeps(2, max, before);
    PrunedEmpty(w.st, p, r);
    CleanUpAfterNewerJoin(w, max, 0, 1, p, r, s);
    actions := before + [FirstJoin(1)];
    RunExtend(2, max, before, FirstJoin(1));
    RunExtend(2, max, actions, CleanUp(0));
  }
}
