/** When the registry is exact: always if connecting and disconnecting are atomic; and at the granularity of the locks,
    which single step can make two clients of one project sit in different rooms, and exactly when it does. */
module HubRegistry {
  import opened Outcomes
  import opened Uuids
  import opened HubMachine

  /** Holds a room it has joined or is about to join. */
  predicate Attached(c: Conn) {
    c.pc.GotRoom? || Inside(c.pc)
  }

  /** Every attached connection has the registered room of its project. */
  ghost predicate Consistent(s: State) {
    forall id :: id in s.conns && Attached(s.conns[id]) ==> Filed(s, s.conns[id])
  }

  predicate Filed(s: State, c: Conn) {
    c.project in s.registry && s.registry[c.project] == c.room
  }

  /** Some connection still holds a room of the project. */
  predicate InUse(s: State, project: Uuid) {
    exists id :: id in s.conns && Attached(s.conns[id]) && s.conns[id].project == project
  }

  // ---- at the granularity of the locks

  lemma OtherStepsKeepConsistent(s: State, step: Step)
    requires Inv(s) && Consistent(s) && Enabled(s, step)
    requires !step.ShutdownEnd? && (step.FinishCheck? ==> !s.conns[step.conn].pc.empty)
    ensures Consistent(Apply(s, step))
  {
    var s' := Apply(s, step);
    forall id | id in s'.conns && Attached(s'.conns[id])
      ensures Filed(s', s'.conns[id])
    {
      if id in s.conns {
        assert Attached(s.conns[id]) && Filed(s, s.conns[id]);
      }
    }
  }

  /** The registry stays consistent under every step, except that taking a room out of it breaks it exactly when some
      connection still holds a room of that project: one that got the room after the last client had left and before
      the check (or between the count and the deletion), or any at all at the end of a shutdown. */
  lemma ConsistentUnlessInUse(s: State, step: Step)
    requires Inv(s) && Consistent(s) && Enabled(s, step)
    ensures Consistent(Apply(s, step))
            <==> match step
                 case FinishCheck(id) => s.conns[id].pc.empty ==> !InUse(s, s.conns[id].project)
                 case ShutdownEnd => forall p :: p in s.registry ==> !InUse(s, p)
                 case _ => true
  {
    if step.FinishCheck? && s.conns[step.conn].pc.empty {
      CheckBreaksIff(s, step.conn);
    } else if step.ShutdownEnd? {
      StopBreaksIff(s);
    } else {
      OtherStepsKeepConsistent(s, step);
    }
  }

  lemma CheckBreaksIff(s: State, gone: Uuid)
    requires Inv(s) && Consistent(s) && Enabled(s, FinishCheck(gone)) && s.conns[gone].pc.empty
    ensures Consistent(Apply(s, FinishCheck(gone))) <==> !InUse(s, s.conns[gone].project)
  {
    var s', project := Apply(s, FinishCheck(gone)), s.conns[gone].project;
    assert ConnOk(s, gone);
    assert s'.registry == Without(s.registry, project);
    forall id | id in s.conns
      ensures Attached(s.conns[id]) <==> Attached(s'.conns[id])
      ensures Attached(s.conns[id]) ==> (Filed(s', s'.conns[id]) <==> s.conns[id].project != project)
    {
      assert Attached(s.conns[id]) ==> Filed(s, s.conns[id]);
    }
  }

  lemma StopBreaksIff(s: State)
    requires Inv(s) && Consistent(s) && Enabled(s, ShutdownEnd)
    ensures Consistent(Apply(s, ShutdownEnd)) <==> forall p :: p in s.registry ==> !InUse(s, p)
  {
    var s' := Apply(s, ShutdownEnd);
    forall id | id in s.conns && Attached(s.conns[id])
      ensures !Filed(s', s'.conns[id]) && s.conns[id].project in s.registry && InUse(s, s.conns[id].project)
    {
      assert Filed(s, s.conns[id]);
    }
  }

  // ---- a run that ends with two rooms for one project

  ghost predicate Reaches(s: State, steps: seq<Step>, t: State) {
    ValidRun(s, steps) && Run(s, steps) == t
  }

  lemma {:induction false} Take(s: State, steps: seq<Step>, t: State, step: Step)
    requires Reaches(s, steps, t) && Enabled(t, step)
    ensures Reaches(s, steps + [step], Apply(t, step))
    decreases |steps|
  {
    if steps == [] {
      assert [step][1..] == [];
    } else {
      assert (steps + [step])[1..] == steps[1..] + [step];
      Take(Apply(s, steps[0]), steps[1..], t, step);
    }
  }

  /** The first client has left room 0 and is about to check the registry. */
  function Leaving(project: Uuid, user: Uuid): State {
    State(map[0 := Room(project, {}, {}, false)], map[project := 0], map[1 := Conn(user, project, 0, Left)], Nobody)
  }

  /** The first client is in room 0. */
  function Alone(project: Uuid, user: Uuid): State {
    State(map[0 := Room(project, {1}, {}, false)], map[project := 0], map[1 := Conn(user, project, 0, Running)], Nobody)
  }

  lemma FirstClientJoins(project: Uuid, user: Uuid) returns (steps: seq<Step>)
    ensures Reaches(START, steps, Alone(project, user))
  {
    steps := [GetOrCreate(1, user, project, 0)];
    Take(START, [], START, steps[0]);
    var t := Apply(START, steps[0]);
    steps := Follow(steps, t, JoinLock(1));
    t := Apply(t, JoinLock(1));
    steps := Follow(steps, t, SendSnapshot(1));
    t := Apply(t, SendSnapshot(1));
    assert t.rooms[0].clients == {1};
    assert t.rooms == Alone(project, user).rooms && t.conns == Alone(project, user).conns;
  }

  /** The first client is out of room 0, its presence not yet withdrawn. */
  function Out(project: Uuid, user: Uuid): State {
    State(map[0 := Room(project, {}, {}, false)], map[project := 0], map[1 := Conn(user, project, 0, Unlinked)], Nobody)
  }

  lemma AloneGoesOut(project: Uuid, user: Uuid)
    ensures Apply(Alone(project, user), LeaveLock(1)) == Out(project, user)
  {
    var t := Apply(Alone(project, user), LeaveLock(1));
    assert t.rooms[0].clients == {};
    assert t.rooms == Out(project, user).rooms && t.conns == Out(project, user).conns;
  }

  lemma OutWithdraws(project: Uuid, user: Uuid)
    ensures Enabled(Out(project, user), HubMachine.RemovePresence(1))
    ensures var t := Apply(Out(project, user), HubMachine.RemovePresence(1));
            Enabled(t, BroadcastRemove(1)) && Apply(t, BroadcastRemove(1)) == Leaving(project, user)
  {
    var t := Apply(Apply(Out(project, user), HubMachine.RemovePresence(1)), BroadcastRemove(1));
    assert t.rooms[0].present == {};
    assert t.rooms == Leaving(project, user).rooms && t.conns == Leaving(project, user).conns;
  }

  lemma LastClientLeaves(project: Uuid, user: Uuid) returns (steps: seq<Step>)
    ensures Reaches(START, steps, Leaving(project, user))
  {
    steps := FirstClientJoins(project, user);
    steps := Follow(steps, Alone(project, user), LeaveLock(1));
    AloneGoesOut(project, user);
    OutWithdraws(project, user);
    steps := Follow(steps, Out(project, user), HubMachine.RemovePresence(1));
    steps := Follow(steps, Apply(Out(project, user), HubMachine.RemovePresence(1)), BroadcastRemove(1));
  }

  lemma Follow(steps: seq<Step>, t: State, step: Step) returns (longer: seq<Step>)
    requires Reaches(START, steps, t) && Enabled(t, step)
    ensures Reaches(START, longer, Apply(t, step))
  {
    longer := steps + [step];
    Take(START, steps, t, step);
  }

  /** The second client got room 0 before the check took it out of the registry, and is now in it. */
  function Orphaned(project: Uuid, user: Uuid): State {
    State(map[0 := Room(project, {2}, {}, false)], map[],
          map[1 := Conn(user, project, 0, Gone), 2 := Conn(user, project, 0, Running)], Nobody)
  }

  /** The second client has got room 0. */
  function Overlapping(project: Uuid, user: Uuid): (s: State)
    ensures s == Apply(Leaving(project, user), GetOrCreate(2, user, project, 1))
  {
    Leaving(project, user).(conns := map[1 := Conn(user, project, 0, Left), 2 := Conn(user, project, 0, GotRoom)])
  }

  /** The check is over, and the second client still holds the room it got before. */
  function Unfiled(project: Uuid, user: Uuid): State {
    State(map[0 := Room(project, {}, {}, false)], map[],
          map[1 := Conn(user, project, 0, Gone), 2 := Conn(user, project, 0, GotRoom)], Nobody)
  }

  lemma CheckTakesRoomOut(project: Uuid, user: Uuid)
    ensures Enabled(Overlapping(project, user), Count(1))
    ensures var t := Apply(Overlapping(project, user), Count(1));
            Enabled(t, FinishCheck(1)) && Apply(t, FinishCheck(1)) == Unfiled(project, user)
  {
    var t := Apply(Apply(Overlapping(project, user), Count(1)), FinishCheck(1));
    assert t.registry == map[];
    assert t.conns == Unfiled(project, user).conns;
  }

  lemma RoomGotBeforeCheck(project: Uuid, user: Uuid) returns (steps: seq<Step>)
    ensures Reaches(START, steps, Unfiled(project, user))
  {
    steps := LastClientLeaves(project, user);
    var t := Leaving(project, user);
    steps := Follow(steps, t, GetOrCreate(2, user, project, 1));
    steps := Follow(steps, Overlapping(project, user), Count(1));
    CheckTakesRoomOut(project, user);
    steps := Follow(steps, Apply(Overlapping(project, user), Count(1)), FinishCheck(1));
  }

  lemma LateJoiner(project: Uuid, user: Uuid) returns (steps: seq<Step>)
    ensures Reaches(START, steps, Orphaned(project, user))
  {
    steps := RoomGotBeforeCheck(project, user);
    var t := Unfiled(project, user);
    steps := Follow(steps, t, JoinLock(2));
    t := Apply(t, JoinLock(2));
    steps := Follow(steps, t, SendSnapshot(2));
    t := Apply(t, SendSnapshot(2));
    assert t.rooms[0].clients == {2} && t.registry == map[];
    assert t.rooms == Orphaned(project, user).rooms && t.conns == Orphaned(project, user).conns;
  }

  /** The step does happen: a second connection gets the room of a client that has left but not yet checked, the
      check then takes the room out of the registry, and a third connection of the same project opens another room. */
  lemma TwoRoomsForOneProject(project: Uuid, user: Uuid) returns (steps: seq<Step>)
    ensures ValidRun(START, steps)
    ensures var s := Run(START, steps);
            && Quiescent(s) && !Consistent(s)
            && 2 in s.conns && 3 in s.conns && s.conns[2].pc.Running? && s.conns[3].pc.Running?
            && s.conns[2].project == s.conns[3].project == project
            && s.conns[2].room != s.conns[3].room
  {
    steps := LateJoiner(project, user);
    var t := Orphaned(project, user);
    steps := Follow(steps, t, GetOrCreate(3, user, project, 1));
    t := Apply(t, GetOrCreate(3, user, project, 1));
    steps := Follow(steps, t, JoinLock(3));
    t := Apply(t, JoinLock(3));
    steps := Follow(steps, t, SendSnapshot(3));
    t := Apply(t, SendSnapshot(3));
    assert Attached(t.conns[2]) && !Filed(t, t.conns[2]);
  }

  // ---- atomic connect, announce and disconnect

  datatype Op =
    | Connect(conn: Uuid, user: Uuid, project: Uuid, spare: nat)
    | Announce(conn: Uuid)
    | Disconnect(conn: Uuid)

  /** Between operations nothing holds the hub's lock and every connection is reading messages or gone. */
  predicate Settled(s: State) {
    s.lock.Nobody? && forall id :: id in s.conns ==> s.conns[id].pc.Running? || s.conns[id].pc.Gone?
  }

  predicate OpEnabled(s: State, op: Op) {
    match op
    case Connect(id, _, _, spare) => id !in s.conns && spare !in s.rooms
    case Announce(id) => At(s, id, Running)
    case Disconnect(id) => At(s, id, Running)
  }

  /** The steps of one operation, uninterrupted. */
  function Steps(s: State, op: Op): seq<Step>
    requires OpEnabled(s, op)
  {
    match op
    case Connect(id, user, project, spare) => [GetOrCreate(id, user, project, spare), JoinLock(id), SendSnapshot(id)]
    case Announce(id) => [HubMachine.SetPresence(id), BroadcastPresence(id)]
    case Disconnect(id) =>
      if id in RoomOf(s, id).clients && !HasOther(s, id)
      then [LeaveLock(id), HubMachine.RemovePresence(id), BroadcastRemove(id), Count(id), FinishCheck(id)]
      else [LeaveLock(id), Count(id), FinishCheck(id)]
  }

  /** The project ids of the connections that are still there. */
  function ConnectedProjects(s: State): set<Uuid> {
    set id | id in s.conns && !s.conns[id].pc.Gone? :: s.conns[id].project
  }

  /** The registry is exact: it names the projects of the connected clients, and each client is in one room, the
      registered one of its project. */
  ghost predicate Exact(s: State) {
    && s.registry.Keys == ConnectedProjects(s)
    && forall id :: id in s.conns && !s.conns[id].pc.Gone? ==>
         forall r :: r in s.rooms ==>
             (id in s.rooms[r].clients <==> s.conns[id].project in s.registry && r == s.registry[s.conns[id].project])
  }

  ghost predicate NeverClosed(s: State) {
    forall r :: r in s.rooms ==> !s.rooms[r].closed
  }

  /** What holds between the steps of an operation of `id`, when nobody else is in the middle of one. */
  ghost predicate Uninterrupted(s: State, id: Uuid) {
    && Inv(s) && Consistent(s) && NeverClosed(s) && !s.lock.Stopper?
    && forall other :: other in s.conns && other != id ==> s.conns[other].pc.Running? || s.conns[other].pc.Gone?
  }

  predicate IsOwn(step: Step, id: Uuid) {
    !step.ShutdownBegin? && !step.CloseRoom? && !step.ShutdownEnd? && step.conn == id
  }

  lemma OwnStepEffect(s: State, id: Uuid, step: Step)
    requires NeverClosed(s) && !s.lock.Stopper? && Enabled(s, step) && IsOwn(step, id)
    ensures NeverClosed(Apply(s, step)) && !Apply(s, step).lock.Stopper?
    ensures forall other :: other != id ==> (other in s.conns <==> other in Apply(s, step).conns)
    ensures forall other :: other in s.conns && other != id ==> Apply(s, step).conns[other] == s.conns[other]
    ensures !step.GetOrCreate? && !step.FinishCheck? ==> Apply(s, step).registry == s.registry
  {
  }

  lemma OwnStep(s: State, id: Uuid, step: Step)
    requires Uninterrupted(s, id) && Enabled(s, step) && IsOwn(step, id)
    requires step.FinishCheck? && s.conns[id].pc.empty ==> !InUse(s, s.conns[id].project)
    ensures Uninterrupted(Apply(s, step), id)
    ensures !step.GetOrCreate? && !step.FinishCheck? ==> Apply(s, step).registry == s.registry
  {
    OwnStepEffect(s, id, step);
    StepKeeps(s, step);
    ConsistentUnlessInUse(s, step);
  }

  lemma SettledIsExact(s: State)
    requires Inv(s) && Consistent(s) && NeverClosed(s) && Settled(s)
    ensures Exact(s)
  {
    forall p | p in s.registry
      ensures p in ConnectedProjects(s)
    {
      var r := s.registry[p];
      assert Anchored(s, r) && EntryOk(s, p);
      var id :| id in s.rooms[r].clients;
      assert RoomOk(s, r) && ConnOk(s, id);
    }
    forall id | id in s.conns && !s.conns[id].pc.Gone?
      ensures s.conns[id].project in s.registry && forall r :: r in s.rooms ==>
                (id in s.rooms[r].clients <==> r == s.registry[s.conns[id].project])
    {
      assert ConnOk(s, id) && Filed(s, s.conns[id]);
      forall r | r in s.rooms && id in s.rooms[r].clients
        ensures r == s.conns[id].room
      {
        assert RoomOk(s, r);
      }
    }
  }

  /** When the count found no client, nobody else holds a room of the project. */
  lemma EmptyMeansUnused(s: State, id: Uuid)
    requires Uninterrupted(s, id) && id in s.conns && s.conns[id].pc == Checking(true) && Filed(s, s.conns[id])
    requires s.conns[id].room in s.rooms && s.rooms[s.conns[id].room].clients == {}
    ensures !InUse(s, s.conns[id].project)
  {
    forall other | other in s.conns && Attached(s.conns[other])
      ensures s.conns[other].project != s.conns[id].project
    {
      assert ConnOk(s, other) && Filed(s, s.conns[other]);
    }
  }

  /** What holds between operations, as long as there is no shutdown. */
  ghost predicate AtomicInv(s: State) {
    Inv(s) && Consistent(s) && NeverClosed(s) && Settled(s)
  }

  /** The steps can be taken and end between operations. */
  ghost predicate Completes(s: State, steps: seq<Step>) {
    ValidRun(s, steps) && AtomicInv(Run(s, steps))
  }

  lemma Prepend(s: State, step: Step, rest: seq<Step>, steps: seq<Step>)
    requires Enabled(s, step) && Completes(Apply(s, step), rest) && steps == [step] + rest
    ensures Completes(s, steps)
  {
    assert steps[1..] == rest;
  }

  lemma LastStep(s: State, id: Uuid, step: Step)
    requires Uninterrupted(s, id) && Enabled(s, step) && IsOwn(step, id) && Settled(Apply(s, step))
    requires step.FinishCheck? && s.conns[id].pc.empty ==> !InUse(s, s.conns[id].project)
    ensures Completes(s, [step])
  {
    OwnStep(s, id, step);
    assert Completes(Apply(s, step), []);
    Prepend(s, step, [], [step]);
  }

  lemma JoinCompletes(s: State, id: Uuid)
    requires Uninterrupted(s, id) && s.lock.Nobody? && At(s, id, GotRoom)
    ensures Completes(s, [JoinLock(id), SendSnapshot(id)])
  {
    OwnStep(s, id, JoinLock(id));
    LastStep(Apply(s, JoinLock(id)), id, SendSnapshot(id));
    Prepend(s, JoinLock(id), [SendSnapshot(id)], [JoinLock(id), SendSnapshot(id)]);
  }

  lemma ConnectCompletes(s: State, id: Uuid, user: Uuid, project: Uuid, spare: nat)
    requires AtomicInv(s) && id !in s.conns && spare !in s.rooms
    ensures Completes(s, [GetOrCreate(id, user, project, spare), JoinLock(id), SendSnapshot(id)])
  {
    var start := GetOrCreate(id, user, project, spare);
    OwnStep(s, id, start);
    var a := Apply(s, start);
    assert ConnOk(a, id);
    JoinCompletes(a, id);
    Prepend(s, start, [JoinLock(id), SendSnapshot(id)], [start, JoinLock(id), SendSnapshot(id)]);
  }

  lemma AnnounceCompletes(s: State, id: Uuid)
    requires AtomicInv(s) && At(s, id, Running)
    ensures Completes(s, [HubMachine.SetPresence(id), BroadcastPresence(id)])
  {
    OwnStep(s, id, HubMachine.SetPresence(id));
    LastStep(Apply(s, HubMachine.SetPresence(id)), id, BroadcastPresence(id));
    Prepend(s, HubMachine.SetPresence(id), [BroadcastPresence(id)],
        [HubMachine.SetPresence(id), BroadcastPresence(id)]);
  }

  lemma CheckCompletes(s: State, id: Uuid)
    requires Uninterrupted(s, id) && s.lock.Nobody? && At(s, id, Left) && Filed(s, s.conns[id])
    ensures Completes(s, [Count(id), FinishCheck(id)])
  {
    OwnStep(s, id, Count(id));
    var a := Apply(s, Count(id));
    if a.conns[id].pc.empty {
      EmptyMeansUnused(a, id);
    }
    LastStep(a, id, FinishCheck(id));
    Prepend(s, Count(id), [FinishCheck(id)], [Count(id), FinishCheck(id)]);
  }

  lemma RetractCompletes(s: State, id: Uuid)
    requires Uninterrupted(s, id) && s.lock.Nobody? && At(s, id, Retracting) && Filed(s, s.conns[id])
    ensures Completes(s, [BroadcastRemove(id), Count(id), FinishCheck(id)])
  {
    OwnStep(s, id, BroadcastRemove(id));
    CheckCompletes(Apply(s, BroadcastRemove(id)), id);
    Prepend(s, BroadcastRemove(id), [Count(id), FinishCheck(id)], [BroadcastRemove(id), Count(id), FinishCheck(id)]);
  }

  lemma WithdrawCompletes(s: State, id: Uuid)
    requires Uninterrupted(s, id) && s.lock.Nobody? && At(s, id, Unlinked) && Filed(s, s.conns[id])
    ensures Completes(s, [HubMachine.RemovePresence(id), BroadcastRemove(id), Count(id), FinishCheck(id)])
  {
    OwnStep(s, id, HubMachine.RemovePresence(id));
    RetractCompletes(Apply(s, HubMachine.RemovePresence(id)), id);
    Prepend(s, HubMachine.RemovePresence(id), [BroadcastRemove(id), Count(id), FinishCheck(id)],
            [HubMachine.RemovePresence(id), BroadcastRemove(id), Count(id), FinishCheck(id)]);
  }

  lemma LeaveEffect(s: State, id: Uuid)
    requires AtomicInv(s) && At(s, id, Running)
    ensures var a := Apply(s, LeaveLock(id));
            && Uninterrupted(a, id) && a.lock.Nobody? && Filed(a, a.conns[id])
            && At(a, id, if id in RoomOf(s, id).clients && !HasOther(s, id) then Unlinked else Left)
  {
    OwnStep(s, id, LeaveLock(id));
    assert Filed(s, s.conns[id]);
  }

  lemma DisconnectSteps(s: State, id: Uuid)
    requires At(s, id, Running)
    ensures Steps(s, Disconnect(id)) == [LeaveLock(id)] + Steps(s, Disconnect(id))[1..]
    ensures Steps(s, Disconnect(id))[1..]
            == if id in RoomOf(s, id).clients && !HasOther(s, id)
               then [HubMachine.RemovePresence(id), BroadcastRemove(id), Count(id), FinishCheck(id)]
               else [Count(id), FinishCheck(id)]
  {
  }

  lemma DisconnectCompletes(s: State, id: Uuid)
    requires AtomicInv(s) && At(s, id, Running)
    ensures Completes(s, Steps(s, Disconnect(id)))
  {
    LeaveEffect(s, id);
    var a := Apply(s, LeaveLock(id));
    DisconnectSteps(s, id);
    if id in RoomOf(s, id).clients && !HasOther(s, id) {
      WithdrawCompletes(a, id);
    } else {
      CheckCompletes(a, id);
    }
    Prepend(s, LeaveLock(id), Steps(s, Disconnect(id))[1..], Steps(s, Disconnect(id)));
  }

  lemma OpCompletes(s: State, op: Op)
    requires AtomicInv(s) && OpEnabled(s, op)
    ensures Completes(s, Steps(s, op))
  {
    match op
    case Connect(id, user, project, spare) => ConnectCompletes(s, id, user, project, spare);
    case Announce(id) => AnnounceCompletes(s, id);
    case Disconnect(id) => DisconnectCompletes(s, id);
  }

  /** A history of operations, each run to its end before the next begins. */
  predicate ValidHistory(s: State, ops: seq<Op>)
    decreases |ops|
  {
    ops == []
        || (OpEnabled(s, ops[0]) && ValidRun(s, Steps(s, ops[0])) && ValidHistory(Run(s, Steps(s, ops[0])), ops[1..]))
  }

  function Replay(s: State, ops: seq<Op>): State
    requires ValidHistory(s, ops)
    decreases |ops|
  {
    if ops == [] then s else Replay(Run(s, Steps(s, ops[0])), ops[1..])
  }

  lemma {:induction false} HistoryKeeps(s: State, ops: seq<Op>)
    requires AtomicInv(s) && ValidHistory(s, ops)
    ensures AtomicInv(Replay(s, ops))
    decreases |ops|
  {
    if ops != [] {
      OpCompletes(s, ops[0]);
      HistoryKeeps(Run(s, Steps(s, ops[0])), ops[1..]);
    }
  }

  /** With atomic operations and before any shutdown: the registered ids are exactly the projects of the connected
      clients, each client is in exactly one room, the registered room of its project, and the present users of a room
      are among its connected ones. */
  lemma RegistryIsExact(ops: seq<Op>)
    requires ValidHistory(START, ops)
    ensures var s := Replay(START, ops);
            && Exact(s)
            && forall r, u :: r in s.rooms && u in s.rooms[r].present ==> exists id ::
                  id in s.rooms[r].clients && id in s.conns && s.conns[id].user == u
  {
    HistoryKeeps(START, ops);
    var s := Replay(START, ops);
    SettledIsExact(s);
    forall r, u | r in s.rooms && u in s.rooms[r].present
      ensures exists id :: id in s.rooms[r].clients && id in s.conns && s.conns[id].user == u
    {
      assert Accounted(s, r, u);
      var id :| id in s.conns && Accounts(s, r, u, id);
    }
  }

  /** No operation can be refused for lack of a registered room, whatever happened before. */
  lemma AlwaysCanContinue(ops: seq<Op>, op: Op)
    requires ValidHistory(START, ops) && OpEnabled(Replay(START, ops), op)
    ensures ValidRun(Replay(START, ops), Steps(Replay(START, ops), op))
  {
    HistoryKeeps(START, ops);
    OpCompletes(Replay(START, ops), op);
  }
}
