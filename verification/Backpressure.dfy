/** In-flight accounting of the media packets sent to one peer by concurrent
    forwarding tasks. A reservation is a load and a later add, so others can step
    in between. */
module Backpressure {
  import opened Common
  import opened MidPool

  const AUDIO_INFLIGHT_CAP: nat := 128
  const VIDEO_INFLIGHT_CAP: nat := 512

  /** The number of values of an atomic counter. */
  const WORD: nat := 0x1_0000_0000_0000_0000

  /** Atomic addition and subtraction of one wrap around. */
  function Up(n: nat): nat {
    if n + 1 == WORD then 0 else n + 1
  }

  function Down(n: nat): nat {
    if n == 0 then WORD - 1 else n - 1
  }

  function Cap(kind: Kind): nat {
    if kind == Audio then AUDIO_INFLIGHT_CAP else VIDEO_INFLIGHT_CAP
  }

  /** Where a forwarding task stands with the packet it is sending. */
  datatype Task = Idle | Checked(kind: Kind) | Reserved(kind: Kind)

  /** One peer: its counters, its command queue (media only), the packet its task has
      dequeued but not released, whether the task runs, and the tasks sending to it. */
  datatype Peer = Peer(audio: nat, video: nat, queue: seq<Kind>, inHand: Option<Kind>, alive: bool, tasks: seq<Task>)

  datatype Action =
    | Load(task: nat, kind: Kind)
    | Add(task: nat)
    | Send(task: nat)
    | Dequeue
    | Release
    | Stop

  function Counter(p: Peer, kind: Kind): nat {
    if kind == Audio then p.audio else p.video
  }

  function SetCounter(p: Peer, kind: Kind, n: nat): Peer {
    if kind == Audio then p.(audio := n) else p.(video := n)
  }

  function SetTask(p: Peer, i: nat, t: Task): Peer
    requires i < |p.tasks|
  {
    p.(tasks := p.tasks[i := t])
  }

  /** One atomic step; an action that is not enabled changes nothing. */
  function Step(p: Peer, a: Action): (p': Peer)
    ensures |p'.tasks| == |p.tasks|
  {
    match a
    case Load(i, kind) =>
      if i < |p.tasks| && p.tasks[i].Idle? && Counter(p, kind) < Cap(kind) then SetTask(p, i, Checked(kind)) else p
    case Add(i) =>
      if i < |p.tasks| && p.tasks[i].Checked? then
        var kind := p.tasks[i].kind;
        SetTask(SetCounter(p, kind, Up(Counter(p, kind))), i, Reserved(kind))
      else p
    case Send(i) =>
      if i < |p.tasks| && p.tasks[i].Reserved? then
        SetTask(if p.alive then p.(queue := p.queue + [p.tasks[i].kind]) else p, i, Idle)
      else p
    case Dequeue =>
      if p.alive && p.inHand.None? && p.queue != [] then p.(inHand := Some(p.queue[0]), queue := p.queue[1..]) else p
    case Release =>
      if p.inHand.Some? then
        var kind := p.inHand.value;
        SetCounter(p, kind, Down(Counter(p, kind))).(inHand := None)
      else p
    case Stop =>
      if p.inHand.None? then p.(alive := false, queue := []) else p
  }

  function Start(tasks: nat): Peer {
    Peer(0, 0, [], None, true, seq(tasks, _ => Idle))
  }

  function Run(tasks: nat, actions: seq<Action>): (p: Peer)
    ensures |p.tasks| == tasks
  {
    if actions == [] then Start(tasks)
    else Step(Run(tasks, actions[..|actions| - 1]), actions[|actions| - 1])
  }

  /** How often x occurs in s. */
  function Count<T(==)>(s: seq<T>, x: T): (r: nat)
    ensures r <= |s|
  {
    if s == [] then 0 else (if s[0] == x then 1 else 0) + Count(s[1..], x)
  }

  lemma {:induction false} CountConcat<T>(a: seq<T>, b: seq<T>, x: T)
    ensures Count(a + b, x) == Count(a, x) + Count(b, x)
  {
    if a == [] {
      assert a + b == b;
    } else {
      assert (a + b)[1..] == a[1..] + b;
      CountConcat(a[1..], b, x);
    }
  }

  /** Replacing one element moves one unit from its count to the new one's. */
  lemma {:induction false} CountReplaced<T>(s: seq<T>, i: nat, y: T, x: T)
    requires i < |s|
    ensures Count(s[i := y], x) == Count(s, x) - (if s[i] == x then 1 else 0) + if y == x then 1 else 0
  {
    if i == 0 {
      assert s[i := y][1..] == s[1..];
    } else {
      assert s[i := y][1..] == s[1..][i - 1 := y];
      CountReplaced(s[1..], i - 1, y, x);
    }
  }

  /** Packets of a kind that hold a reservation: queued, reserved but unsent, or in hand. */
  ghost function Outstanding(p: Peer, kind: Kind): nat {
    Count(p.queue, kind) + Count(p.tasks, Reserved(kind)) + if p.inHand == Some(kind) then 1 else 0
  }

  /** The counter is at least what is outstanding, and exactly that while the peer's
      task runs; with the tasks that passed the check it stays below cap + tasks. */
  ghost predicate Accounted(p: Peer, kind: Kind) {
    && (if p.alive then Counter(p, kind) == Outstanding(p, kind) else Counter(p, kind) >= Outstanding(p, kind))
    && Counter(p, kind) + Count(p.tasks, Checked(kind)) < Cap(kind) + |p.tasks|
  }

  lemma SetTaskCounts(tasks: seq<Task>, i: nat, t: Task, kind: Kind)
    requires i < |tasks|
    ensures Count(tasks[i := t], Reserved(kind)) ==
            Count(tasks, Reserved(kind)) - (if tasks[i] == Reserved(kind) then 1 else 0) +
            if t == Reserved(kind) then 1 else 0
    ensures Count(tasks[i := t], Checked(kind)) ==
            Count(tasks, Checked(kind)) - (if tasks[i] == Checked(kind) then 1 else 0) +
            if t == Checked(kind) then 1 else 0
  {
    CountReplaced(tasks, i, t, Reserved(kind));
    CountReplaced(tasks, i, t, Checked(kind));
  }

  lemma LoadAccounted(p: Peer, i: nat, k: Kind, kind: Kind)
    requires Accounted(p, kind)
    ensures Accounted(Step(p, Load(i, k)), kind)
  {
    if i < |p.tasks| {
      SetTaskCounts(p.tasks, i, Checked(k), kind);
    }
  }

  lemma AddAccounted(p: Peer, i: nat, kind: Kind)
    requires Accounted(p, kind) && Cap(kind) + |p.tasks| <= WORD
    ensures Accounted(Step(p, Add(i)), kind)
  {
    if i < |p.tasks| && p.tasks[i].Checked? {
      SetTaskCounts(p.tasks, i, Reserved(p.tasks[i].kind), kind);
    }
  }

  lemma SendAccounted(p: Peer, i: nat, kind: Kind)
    requires Accounted(p, kind)
    ensures Accounted(Step(p, Send(i)), kind)
  {
    if i < |p.tasks| && p.tasks[i].Reserved? {
      SetTaskCounts(p.tasks, i, Idle, kind);
      CountConcat(p.queue, [p.tasks[i].kind], kind);
    }
  }

  lemma ReceiverAccounted(p: Peer, a: Action, kind: Kind)
    requires Accounted(p, kind) && (a.Dequeue? || a.Release? || a.Stop?)
    ensures Accounted(Step(p, a), kind)
  {
  }

  lemma StepAccounted(p: Peer, a: Action, kind: Kind)
    requires Accounted(p, kind) && Cap(kind) + |p.tasks| <= WORD
    ensures Accounted(Step(p, a), kind)
  {
    match a
    case Load(i, k) => LoadAccounted(p, i, k, kind);
    case Add(i) => AddAccounted(p, i, kind);
    case Send(i) => SendAccounted(p, i, kind);
    case _ => ReceiverAccounted(p, a, kind);
  }

  lemma {:induction false} AllIdle(tasks: seq<Task>, kind: Kind)
    requires forall i :: 0 <= i < |tasks| ==> tasks[i] == Idle
    ensures Count(tasks, Checked(kind)) == Count(tasks, Reserved(kind)) == 0
  {
    if tasks != [] {
      AllIdle(tasks[1..], kind);
    }
  }

  /** Over every interleaving: the counters are exact while the peer lives and never
      reach cap + tasks. */
  lemma {:induction false} AlwaysAccounted(tasks: nat, actions: seq<Action>, kind: Kind)
    requires Cap(kind) + tasks <= WORD
    ensures Accounted(Run(tasks, actions), kind)
  {
    if actions == [] {
      AllIdle(seq(tasks, _ => Idle), kind);
    } else {
      AlwaysAccounted(tasks, actions[..|actions| - 1], kind);
      StepAccounted(Run(tasks, actions[..|actions| - 1]), actions[|actions| - 1], kind);
    }
  }

  /** A release never underflows: the counter goes down by exactly one. */
  lemma ReleaseIsExact(tasks: nat, actions: seq<Action>, kind: Kind)
    requires Cap(kind) + tasks <= WORD && Run(tasks, actions).inHand == Some(kind)
    ensures Counter(Step(Run(tasks, actions), Release), kind) == Counter(Run(tasks, actions), kind) - 1
  {
    AlwaysAccounted(tasks, actions, kind);
  }

  lemma RunExtend(tasks: nat, actions: seq<Action>, a: Action)
    ensures Run(tasks, actions + [a]) == Step(Run(tasks, actions), a)
  {
    assert (actions + [a])[..|actions|] == actions;
  }

  /** The first i tasks stand at one point, the others at another. */
  function Split(tasks: nat, i: nat, done: Task, others: Task): seq<Task> {
    seq(tasks, j => if j < i then done else others)
  }

  /** A running peer with n packets of one kind in flight and none of the other. */
  function InFlight(kind: Kind, n: nat, queued: nat, tasks: seq<Task>): Peer {
    Peer(if kind == Audio then n else 0, if kind == Video then n else 0, seq(queued, _ => kind), None, true, tasks)
  }

  /** A load lets an idle task pass exactly if the counter of its kind is below its cap. */
  lemma LoadPassesIff(p: Peer, i: nat, kind: Kind)
    requires i < |p.tasks| && p.tasks[i].Idle?
    ensures Step(p, Load(i, kind)).tasks[i] == Checked(kind) <==>
            if kind == Audio then p.audio < 128 else p.video < 512
  {
  }

  /** One task alone can queue packets up to one below the cap. */
  /** One packet of an idle task reaches the queue. */
  lemma OneSent(p: Peer, kind: Kind)
    requires p.tasks != [] && p.tasks[0].Idle? && p.alive && Counter(p, kind) < Cap(kind)
    ensures Step(Step(Step(p, Load(0, kind)), Add(0)), Send(0)) ==
            SetCounter(p, kind, Counter(p, kind) + 1).(queue := p.queue + [kind])
  {
    assert p.tasks[0 := Checked(kind)][0 := Reserved(kind)][0 := Idle] == p.tasks;
  }

  lemma {:induction false} FillQueue(tasks: nat, kind: Kind, n: nat) returns (actions: seq<Action>)
    requires 0 < tasks && n < Cap(kind)
    ensures Run(tasks, actions) == InFlight(kind, n, n, seq(tasks, _ => Idle))
  {
    hide Step;
    if n == 0 {
      actions := [];
    } else {
      var before := FillQueue(tasks, kind, n - 1);
      var idle := seq(tasks, _ => Idle);
      RunExtend(tasks, before, Load(0, kind));
      RunExtend(tasks, before + [Load(0, kind)], Add(0));
      RunExtend(tasks, before + [Load(0, kind)] + [Add(0)], Send(0));
      actions := before + [Load(0, kind)] + [Add(0)] + [Send(0)];
      OneSent(InFlight(kind, n - 1, n - 1, idle), kind);
      assert seq(n - 1, _ => kind) + [kind] == seq(n, _ => kind);
    }
  }

  /** Then every task can pass the check before any of them adds. */
  lemma {:induction false} AllCheck(tasks: nat, kind: Kind, i: nat) returns (actions: seq<Action>)
    requires 0 < tasks && i <= tasks
    ensures Run(tasks, actions) ==
            InFlight(kind, Cap(kind) - 1, Cap(kind) - 1, Split(tasks, i, Checked(kind), Idle))
  {
    if i == 0 {
      actions := FillQueue(tasks, kind, Cap(kind) - 1);
      assert Split(tasks, 0, Checked(kind), Idle) == seq(tasks, _ => Idle);
    } else {
      var before := AllCheck(tasks, kind, i - 1);
      RunExtend(tasks, before, Load(i - 1, kind));
      actions := before + [Load(i - 1, kind)];
      assert Split(tasks, i - 1, Checked(kind), Idle)[i - 1 := Checked(kind)] == Split(tasks, i, Checked(kind), Idle);
    }
  }

  lemma {:induction false} AllAdd(tasks: nat, kind: Kind, i: nat) returns (actions: seq<Action>)
    requires 0 < tasks && i <= tasks && Cap(kind) + tasks <= WORD
    ensures Run(tasks, actions) ==
            InFlight(kind, Cap(kind) - 1 + i, Cap(kind) - 1, Split(tasks, i, Reserved(kind), Checked(kind)))
  {
    if i == 0 {
      actions := AllCheck(tasks, kind, tasks);
      assert Split(tasks, tasks, Checked(kind), Idle) == Split(tasks, 0, Reserved(kind), Checked(kind));
    } else {
      var before := AllAdd(tasks, kind, i - 1);
      RunExtend(tasks, before, Add(i - 1));
      actions := before + [Add(i - 1)];
      assert Split(tasks, i - 1, Reserved(kind), Checked(kind))[i - 1 := Reserved(kind)] ==
             Split(tasks, i, Reserved(kind), Checked(kind));
    }
  }

  /** The bound cannot be lowered for either kind: some interleaving reaches cap + tasks - 1. */
  lemma BoundIsReached(tasks: nat, kind: Kind)
    requires 0 < tasks && Cap(kind) + tasks <= WORD
    ensures exists actions :: Counter(Run(tasks, actions), kind) == Cap(kind) + tasks - 1
  {
    var actions := AllAdd(tasks, kind, tasks);
  }
}
