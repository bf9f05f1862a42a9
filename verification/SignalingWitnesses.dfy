/** A run in which a cleanup destroys a newer session that is no longer registered. */
module SignalingWitnesses {
  import opened Common
  import opened Signaling
  import opened SignalingRuns

  /** Nobody is anywhere. */
  ghost predicate Nobody(st: State) {
    st.rooms == map[] && st.connections == map[]
  }

  /** p is alone in r, under channel k. */
  ghost predicate Alone(st: State, p: Pid, r: Room, k: Sink) {
    st.rooms == map[r := map[p := k]] && st.connections == map[p := (k, [r])]
  }

  lemma JoinFirst(st: State, p: Pid, r: Room, sink: Sink)
    requires Nobody(st)
    ensures Alone(Join(st, p, r, sink).0, p, r, sink) && Join(st, p, r, sink).0.gens == st.gens
  {
    var members: Members := map[];
    var rooms: map<Room, Members> := map[];
    var connections: map<Pid, (Sink, seq<Room>)> := map[];
    assert members[p := sink] == map[p := sink] && rooms[r := map[p := sink]] == map[r := map[p := sink]];
    assert [] + [r] == [r] && connections[p := (sink, [r])] == map[p := (sink, [r])];
  }

  /** p joins again, whether or not its old membership was pruned. */
  lemma JoinAgain(st: State, p: Pid, r: Room, k: Sink, sink: Sink)
    requires st.rooms == map[r := map[p := k]] || st.rooms == map[r := map[]]
    requires st.connections == map[p := (k, [r])]
    ensures Alone(Join(st, p, r, sink).0, p, r, sink) && Join(st, p, r, sink).0.gens == st.gens
  {
    var members := st.rooms[r];
    assert members[p := sink] == map[p := sink] && st.rooms[r := map[p := sink]] == map[r := map[p := sink]];
    assert st.connections[p := (sink, [r])] == map[p := (sink, [r])];
  }

  lemma PruneAlone(st: State, p: Pid, r: Room, k: Sink, closed: set<Sink>)
    requires Alone(st, p, r, k)
    ensures var st' := PruneStale(st, r, closed);
            && st'.rooms == (if k in closed then map[r := map[]] else st.rooms)
            && st'.connections == st.connections && st'.gens == st.gens
            && |MemberSet(st', r)| <= 1
  {
    var st' := PruneStale(st, r, closed);
    assert st'.rooms[r] == if k in closed then map[] else map[p := k];
    assert MemberSet(st', r) <= {p};
    SubsetSize(MemberSet(st', r), {p});
  }

  lemma LockedJoinAlone(st: State, closed: set<Sink>, max: nat, p: Pid, r: Room, sink: Sink, k: Sink)
    requires max >= 2 && (Nobody(st) || Alone(st, p, r, k))
    ensures var st' := LockedJoin(st, closed, max, p, r, sink); Alone(st', p, r, sink) && st'.gens == st.gens
  {
    if Nobody(st) {
      JoinFirst(st, p, r, sink);
    } else {
      PruneAlone(st, p, r, k, closed);
      JoinAgain(PruneStale(st, r, closed), p, r, k, sink);
    }
  }

  lemma DisconnectAlone(st: State, p: Pid, r: Room, k: Sink)
    requires Alone(st, p, r, k)
    ensures Nobody(Disconnect(st, p).0) && Disconnect(st, p).0.gens == st.gens - {p}
  {
    var index: seq<Room> := [r];
    assert index[1..] == [] && Without(index, r) == [];
    assert st.rooms[r] - {p} == map[] && st.rooms - {r} == map[] && st.connections - {p} == map[];
    var st1 := Leave(st, p, r).0;
    assert LeaveAll(st, p, index).0 == LeaveAll(st1, p, []).0;
    assert st1.connections - {p} == map[];
  }

  ghost predicate Stands(w: World, phases: seq<Phase>, closed: set<Sink>, gens: map<Pid, nat>) {
    w.phases == phases && w.closed == closed && w.st.gens == gens
  }

  lemma CheckStays(max: nat, actions: seq<Action>, a: Action, i: nat, c: nat, p: Pid)
    requires PassesCheckAt(3, max, actions, i, c, p)
    ensures PassesCheckAt(3, max, actions + [a], i, c, p)
  {
    assert (actions + [a])[..i - 1] == actions[..i - 1] && (actions + [a])[..i] == actions[..i];
  }

  lemma SinceStays(max: nat, actions: seq<Action>, a: Action, i: nat, p: Pid, d: nat)
    requires RegisteredSince(3, max, actions, i, p, d)
    ensures RegisteredSince(3, max, actions + [a], i, p, d)
  {
    assert (actions + [a])[..|actions|] == actions;
  }

  lemma SinceNow(max: nat, actions: seq<Action>, i: nat, p: Pid, d: nat)
    requires i <= |actions| && Registers(Run(3, max, actions), Register(d), p, d)
    ensures RegisteredSince(3, max, actions + [Register(d)], i, p, d)
  {
    assert (actions + [Register(d)])[..|actions|] == actions;
  }

  /** Three connections of p pass the unlocked check, the first registers. */
  lemma ThreeAdmitted(max: nat, p: Pid, r: Room) returns (actions: seq<Action>)
    ensures Stands(Run(3, max, actions), [Joining(p, r), Admitted(p, r), Admitted(p, r)], {}, map[p := 0])
    ensures Nobody(Run(3, max, actions).st)
  {
    RunExtend(3, max, [], PreCheck(0, p, r));
    actions := [] + [PreCheck(0, p, r)];
    RunExtend(3, max, actions, PreCheck(1, p, r));
    actions := actions + [PreCheck(1, p, r)];
    RunExtend(3, max, actions, PreCheck(2, p, r));
    actions := actions + [PreCheck(2, p, r)];
    RunExtend(3, max, actions, Register(0));
    actions := actions + [Register(0)];
  }

  /** It joins. */
  lemma FirstJoined(max: nat, p: Pid, r: Room) returns (actions: seq<Action>)
    requires max >= 2
    ensures Stands(Run(3, max, actions), [Active(p), Admitted(p, r), Admitted(p, r)], {}, map[p := 0])
    ensures Alone(Run(3, max, actions).st, p, r, 0)
  {
    actions := ThreeAdmitted(max, p, r);
    LockedJoinAlone(Run(3, max, actions).st, {}, max, p, r, 0, 0);
    RunExtend(3, max, actions, FirstJoin(0));
    actions := actions + [FirstJoin(0)];
  }

  /** It closes. */
  lemma FirstClosed(max: nat, p: Pid, r: Room) returns (actions: seq<Action>)
    requires max >= 2
    ensures Stands(Run(3, max, actions), [Closing(p), Admitted(p, r), Admitted(p, r)], {0}, map[p := 0])
    ensures Alone(Run(3, max, actions).st, p, r, 0)
  {
    actions := FirstJoined(max, p, r);
    RunExtend(3, max, actions, Close(0));
    actions := actions + [Close(0)];
  }

  /** It passes its staleness check. */
  lemma FirstChecked(max: nat, p: Pid, r: Room) returns (actions: seq<Action>)
    requires max >= 2
    ensures Stands(Run(3, max, actions), [Disconnecting(p), Admitted(p, r), Admitted(p, r)], {0}, map[p := 0])
    ensures Alone(Run(3, max, actions).st, p, r, 0) && PassesCheckAt(3, max, actions, |actions|, 0, p)
  {
    var before := FirstClosed(max, p, r);
    actions := before + [StaleCheck(0)];
    RunExtend(3, max, before, StaleCheck(0));
    assert actions[..|before|] == before && actions[..|actions|] == actions;
  }

  /** The first passed its check at step i, and the second registered since. */
  ghost predicate Overtaken(max: nat, actions: seq<Action>, i: nat, p: Pid) {
    PassesCheckAt(3, max, actions, i, 0, p) && RegisteredSince(3, max, actions, i, p, 1)
  }

  lemma Extend(max: nat, actions: seq<Action>, a: Action, i: nat, p: Pid)
    requires Overtaken(max, actions, i, p)
    ensures Overtaken(max, actions + [a], i, p) && Run(3, max, actions + [a]) == Step(Run(3, max, actions), max, a)
  {
    RunExtend(3, max, actions, a);
    SinceStays(max, actions, a, i, p, 1);
    CheckStays(max, actions, a, i, 0, p);
  }

  /** The second registers. */
  lemma SecondRegistered(max: nat, p: Pid, r: Room) returns (actions: seq<Action>, i: nat)
    requires max >= 2
    ensures Stands(Run(3, max, actions), [Disconnecting(p), Joining(p, r), Admitted(p, r)], {0}, map[p := 1])
    ensures Alone(Run(3, max, actions).st, p, r, 0) && Overtaken(max, actions, i, p)
  {
    actions := FirstChecked(max, p, r);
    i := |actions|;
    RunExtend(3, max, actions, Register(1));
    SinceNow(max, actions, i, p, 1);
    CheckStays(max, actions, Register(1), i, 0, p);
    actions := actions + [Register(1)];
  }

  /** It joins. */
  lemma SecondJoined(max: nat, p: Pid, r: Room) returns (actions: seq<Action>, i: nat)
    requires max >= 2
    ensures Stands(Run(3, max, actions), [Disconnecting(p), Active(p), Admitted(p, r)], {0}, map[p := 1])
    ensures Alone(Run(3, max, actions).st, p, r, 1) && Overtaken(max, actions, i, p)
  {
    actions, i := SecondRegistered(max, p, r);
    LockedJoinAlone(Run(3, max, actions).st, {0}, max, p, r, 1, 0);
    Extend(max, actions, FirstJoin(1), i, p);
    actions := actions + [FirstJoin(1)];
  }

  /** The third registers. */
  lemma ThirdRegistered(max: nat, p: Pid, r: Room) returns (actions: seq<Action>, i: nat)
    requires max >= 2
    ensures Stands(Run(3, max, actions), [Disconnecting(p), Active(p), Joining(p, r)], {0}, map[p := 2])
    ensures Alone(Run(3, max, actions).st, p, r, 1) && Overtaken(max, actions, i, p)
  {
    actions, i := SecondJoined(max, p, r);
    Extend(max, actions, Register(2), i, p);
    actions := actions + [Register(2)];
  }

  /** It joins. */
  lemma ThirdJoined(max: nat, p: Pid, r: Room) returns (actions: seq<Action>, i: nat)
    requires max >= 2
    ensures Stands(Run(3, max, actions), [Disconnecting(p), Active(p), Active(p)], {0}, map[p := 2])
    ensures Alone(Run(3, max, actions).st, p, r, 2) && Overtaken(max, actions, i, p)
  {
    actions, i := ThirdRegistered(max, p, r);
    LockedJoinAlone(Run(3, max, actions).st, {0}, max, p, r, 2, 1);
    Extend(max, actions, FirstJoin(2), i, p);
    actions := actions + [FirstJoin(2)];
  }

  /** It closes. */
  lemma ThirdClosed(max: nat, p: Pid, r: Room) returns (actions: seq<Action>, i: nat)
    requires max >= 2
    ensures Stands(Run(3, max, actions), [Disconnecting(p), Active(p), Closing(p)], {0, 2}, map[p := 2])
    ensures Alone(Run(3, max, actions).st, p, r, 2) && Overtaken(max, actions, i, p)
  {
    actions, i := ThirdJoined(max, p, r);
    Extend(max, actions, Close(2), i, p);
    actions := actions + [Close(2)];
  }

  /** It passes its check. */
  lemma ThirdChecked(max: nat, p: Pid, r: Room) returns (actions: seq<Action>, i: nat)
    requires max >= 2
    ensures Stands(Run(3, max, actions), [Disconnecting(p), Active(p), Disconnecting(p)], {0, 2}, map[p := 2])
    ensures Alone(Run(3, max, actions).st, p, r, 2) && Overtaken(max, actions, i, p)
  {
    actions, i := ThirdClosed(max, p, r);
    Extend(max, actions, StaleCheck(2), i, p);
    actions := actions + [StaleCheck(2)];
  }

  /** Its cleanup removes p everywhere. */
  lemma ThirdCleansUp(max: nat, p: Pid, r: Room) returns (actions: seq<Action>, i: nat)
    requires max >= 2
    ensures Stands(Run(3, max, actions), [Disconnecting(p), Active(p), Done], {0, 2}, map[])
    ensures Nobody(Run(3, max, actions).st) && Overtaken(max, actions, i, p)
  {
    actions, i := ThirdChecked(max, p, r);
    DisconnectAlone(Run(3, max, actions).st, p, r, 2);
    Extend(max, actions, CleanUp(2), i, p);
    actions := actions + [CleanUp(2)];
  }

  /** The second connection joins again. */
  lemma SecondRejoins(max: nat, p: Pid, r: Room) returns (actions: seq<Action>, i: nat)
    requires max >= 2
    ensures Stands(Run(3, max, actions), [Disconnecting(p), Active(p), Done], {0, 2}, map[])
    ensures Alone(Run(3, max, actions).st, p, r, 1) && Overtaken(max, actions, i, p)
  {
    actions, i := ThirdCleansUp(max, p, r);
    RejoinStep(Run(3, max, actions), max, p, r);
    Extend(max, actions, FurtherJoin(1, p, r), i, p);
    actions := actions + [FurtherJoin(1, p, r)];
  }

  lemma RejoinStep(w: World, max: nat, p: Pid, r: Room)
    requires max >= 2 && |w.phases| == 3 && w.phases[1] == Active(p) && Nobody(w.st)
    ensures var w' := Step(w, max, FurtherJoin(1, p, r));
            Alone(w'.st, p, r, 1) && w' == w.(st := w'.st) && w'.st.gens == w.st.gens
  {
    LockedJoinAlone(w.st, w.closed, max, p, r, 1, 0);
  }

  /** It is newer than the first and a member, without a generation; the first one's
      cleanup still removes it. */
  lemma UnregisteredMemberRemoved(max: nat, p: Pid, r: Room) returns (actions: seq<Action>, i: nat)
    requires max >= 2
    ensures PassesCheckAt(3, max, actions, i, 0, p)
    ensures var w := Run(3, max, actions);
            && w.phases == [Disconnecting(p), Active(p), Done] && p !in w.st.gens
            && NewerMember(3, max, actions, i, p, w.st, r) && w.st.rooms[r][p] == 1
    ensures var w, w' := Run(3, max, actions), Step(Run(3, max, actions), max, CleanUp(0));
            && w'.phases[1] == Active(p) && !IsMember(w'.st, p, r)
            && DestroysNewer(3, max, actions, i, p, w.st, w'.st)
  {
    actions, i := SecondRejoins(max, p, r);
    ReachableKeeps(3, max, actions);
    AfterCleanUp(max, actions, i, p, r);
  }

  lemma AfterCleanUp(max: nat, actions: seq<Action>, i: nat, p: Pid, r: Room)
    requires Indexed(Run(3, max, actions).st) && Overtaken(max, actions, i, p)
    requires Run(3, max, actions).phases == [Disconnecting(p), Active(p), Done]
    requires Alone(Run(3, max, actions).st, p, r, 1)
    ensures NewerMember(3, max, actions, i, p, Run(3, max, actions).st, r)
    ensures var w, w' := Run(3, max, actions), Step(Run(3, max, actions), max, CleanUp(0));
            && w'.phases[1] == Active(p) && !IsMember(w'.st, p, r)
            && DestroysNewer(3, max, actions, i, p, w.st, w'.st)
  {
    CleanUpRemovesAll(Run(3, max, actions), max, 0, p);
  }
}
