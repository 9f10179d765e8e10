/** The converse of no ghost cursors: when a user who is still connected stops being present. */
module LostPresences {
  import opened Uuids
  import opened HubMachine
  import opened HubRegistry

  /** The user has a client in the room. */
  predicate Connected(s: State, r: nat, u: Uuid) {
    exists id :: id in s.conns && Connects(s, r, u, id)
  }

  predicate Connects(s: State, r: nat, u: Uuid, id: Uuid)
    requires id in s.conns
  {
    r in s.rooms && s.conns[id].room == r && s.conns[id].user == u && id in s.rooms[r].clients
  }

  /** Lock-level, for any step: a presence goes exactly when a leaver of that user withdraws it, whoever else of
      the user is in the room by then; and the withdrawal itself takes nobody out of the room. */
  lemma PresenceGoesIff(s: State, step: Step, r: nat, u: Uuid)
    requires WellFormed(s) && Enabled(s, step) && r in s.rooms && u in s.rooms[r].present
    ensures r in Apply(s, step).rooms
    ensures u !in Apply(s, step).rooms[r].present
            <==> step.RemovePresence? && s.conns[step.conn].room == r && s.conns[step.conn].user == u
    ensures step.RemovePresence? ==> (Connected(Apply(s, step), r, u) <==> Connected(s, r, u))
  {
    if step.RemovePresence? {
      var s' := Apply(s, step);
      assert forall id :: id in s.conns ==> (Connects(s', r, u, id) <==> Connects(s, r, u, id));
    }
  }

  /** So a step loses the presence of a connected user exactly if it withdraws it while another connection of the user
      is in the room, one that joined after the leaver had looked for others. */
  predicate Loses(s: State, step: Step, r: nat, u: Uuid)
    requires Enabled(s, step)
  {
    var s' := Apply(s, step);
    && r in s.rooms && r in s'.rooms && u in s.rooms[r].present && u !in s'.rooms[r].present && Connected(s', r, u)
  }

  lemma LosesIff(s: State, step: Step, r: nat, u: Uuid)
    requires WellFormed(s) && Enabled(s, step)
    ensures Loses(s, step, r, u)
            <==> step.RemovePresence? && s.conns[step.conn].room == r && s.conns[step.conn].user == u
                 && r in s.rooms && u in s.rooms[r].present && Connected(s, r, u)
  {
    if r in s.rooms && u in s.rooms[r].present {
      PresenceGoesIff(s, step, r, u);
    }
  }

  /** A leaver is past the point where it looks for other connections only if there was none: at that step the user is
      not connected any more. */
  lemma LeaverWasLast(s: State, id: Uuid)
    requires WellFormed(s) && Enabled(s, LeaveLock(id))
    requires At(Apply(s, LeaveLock(id)), id, Unlinked)
    ensures !Connected(Apply(s, LeaveLock(id)), s.conns[id].room, s.conns[id].user)
  {
    var s', r := Apply(s, LeaveLock(id)), s.conns[id].room;
    forall other | other in s'.conns
      ensures !Connects(s', r, s.conns[id].user, other)
    {
      assert RoomOk(s, r);
    }
  }

  // ---- runs

  predicate Joins(s: State, step: Step, r: nat, u: Uuid) {
    step.JoinLock? && step.conn in s.conns && s.conns[step.conn].room == r && s.conns[step.conn].user == u
  }

  predicate Withdraws(s: State, step: Step, r: nat, u: Uuid) {
    step.RemovePresence? && step.conn in s.conns && s.conns[step.conn].room == r && s.conns[step.conn].user == u
  }

  /** A room has a user's connection only if it had one before or one has just joined. */
  lemma ConnectsByJoining(s: State, step: Step, r: nat, u: Uuid)
    requires WellFormed(s) && Enabled(s, step) && Connected(Apply(s, step), r, u)
    ensures Connected(s, r, u) || Joins(Apply(s, step), step, r, u)
  {
    var s' := Apply(s, step);
    var id :| id in s'.conns && Connects(s', r, u, id);
    if r in s.rooms && id in s.rooms[r].clients {
      assert RoomOk(s, r);
      ConnStays(s, step, id);
      assert Connects(s, r, u, id);
    }
  }

  lemma {:induction false} IdentitiesStay(s: State, steps: seq<Step>, id: Uuid)
    requires ValidRun(s, steps) && id in s.conns
    ensures id in Run(s, steps).conns && Run(s, steps).conns[id].(pc := s.conns[id].pc) == s.conns[id]
    decreases |steps|
  {
    if steps != [] {
      ConnStays(s, steps[0], id);
      IdentitiesStay(Apply(s, steps[0]), steps[1..], id);
    }
  }

  /** Over every run: a user who was not in the room is in it at the end only if one of the user's connections took
      the room's lock to join in between. */
  lemma {:induction false} JoinedMeanwhile(s: State, steps: seq<Step>, r: nat, u: Uuid)
    requires Inv(s) && ValidRun(s, steps) && !Connected(s, r, u) && Connected(Run(s, steps), r, u)
    ensures exists i :: 0 <= i < |steps| && Joins(Run(s, steps), steps[i], r, u)
    decreases |steps|
  {
    var t := Apply(s, steps[0]);
    StepKeeps(s, steps[0]);
    if Connected(t, r, u) {
      ConnectsByJoining(s, steps[0], r, u);
      IdentitiesStay(t, steps[1..], steps[0].conn);
    } else {
      JoinedMeanwhile(t, steps[1..], r, u);
      var i :| 0 <= i < |steps| - 1 && Joins(Run(t, steps[1..]), steps[1..][i], r, u);
      assert Joins(Run(s, steps), steps[i + 1], r, u);
    }
  }

  /** Over every run that withdraws no presence of the user from the room, the user stays present. */
  lemma {:induction false} StaysPresent(s: State, steps: seq<Step>, r: nat, u: Uuid)
    requires Inv(s) && ValidRun(s, steps) && r in s.rooms && u in s.rooms[r].present
    requires forall i :: 0 <= i < |steps| ==> !Withdraws(Run(s, steps), steps[i], r, u)
    ensures r in Run(s, steps).rooms && u in Run(s, steps).rooms[r].present
    decreases |steps|
  {
    if steps != [] {
      var t := Apply(s, steps[0]);
      StepKeeps(s, steps[0]);
      PresenceGoesIff(s, steps[0], r, u);
      if steps[0].RemovePresence? {
        IdentitiesStay(s, steps, steps[0].conn);
        assert !Withdraws(Run(s, steps), steps[0], r, u);
      }
      forall i | 0 <= i < |steps| - 1
        ensures !Withdraws(Run(t, steps[1..]), steps[1..][i], r, u)
      {
        assert !Withdraws(Run(s, steps), steps[i + 1], r, u);
      }
      StaysPresent(t, steps[1..], r, u);
    }
  }

  /** So from the moment a leaver has found nobody else of its user, its withdrawal loses the presence of a connected
      user only if another connection of the user joined before it. */
  lemma LostToLateJoiner(s: State, id: Uuid, steps: seq<Step>, r: nat, u: Uuid)
    requires Inv(s) && Enabled(s, LeaveLock(id)) && At(Apply(s, LeaveLock(id)), id, Unlinked)
    requires ValidRun(Apply(s, LeaveLock(id)), steps)
    requires Enabled(Run(Apply(s, LeaveLock(id)), steps), HubMachine.RemovePresence(id))
    requires Loses(Run(Apply(s, LeaveLock(id)), steps), HubMachine.RemovePresence(id), r, u)
    ensures r == s.conns[id].room && u == s.conns[id].user
    ensures exists i :: 0 <= i < |steps| && Joins(Run(Apply(s, LeaveLock(id)), steps), steps[i], r, u)
  {
    var t := Apply(s, LeaveLock(id));
    StepKeeps(s, LeaveLock(id));
    RunKeeps(t, steps);
    LosesIff(Run(t, steps), HubMachine.RemovePresence(id), r, u);
    IdentitiesStay(t, steps, id);
    LeaverWasLast(s, id);
    JoinedMeanwhile(t, steps, r, u);
  }

  // ---- operations that nobody interrupts lose none

  lemma NoJoinWhileLeaving(s: State, id: Uuid)
    requires At(s, id, Running)
    ensures forall i :: 0 < i < |Steps(s, Disconnect(id))| ==> !Steps(s, Disconnect(id))[i].JoinLock?
  {
  }

  /** A leaver who was its user's last connection leaves nobody of that user behind. */
  lemma LastLeaverGoes(s: State, id: Uuid)
    requires AtomicInv(s) && At(s, id, Running) && ValidRun(s, Steps(s, Disconnect(id)))
    requires id in RoomOf(s, id).clients && !HasOther(s, id)
    ensures !Connected(Run(s, Steps(s, Disconnect(id))), s.conns[id].room, s.conns[id].user)
  {
    var steps, r, u := Steps(s, Disconnect(id)), s.conns[id].room, s.conns[id].user;
    DisconnectSteps(s, id);
    var t := Apply(s, LeaveLock(id));
    StepKeeps(s, LeaveLock(id));
    LeaverWasLast(s, id);
    if Connected(Run(t, steps[1..]), r, u) {
      JoinedMeanwhile(t, steps[1..], r, u);
      NoJoinWhileLeaving(s, id);
    }
  }

  /** Only the disconnect of a user's last connection withdraws that user's presence. */
  lemma OpWithdraws(s: State, op: Op, r: nat, u: Uuid)
    requires AtomicInv(s) && OpEnabled(s, op) && ValidRun(s, Steps(s, op))
    requires op.Disconnect? && s.conns[op.conn].room == r && s.conns[op.conn].user == u ==>
               !(op.conn in RoomOf(s, op.conn).clients && !HasOther(s, op.conn))
    ensures forall i :: 0 <= i < |Steps(s, op)| ==> !Withdraws(Run(s, Steps(s, op)), Steps(s, op)[i], r, u)
  {
    if op.Disconnect? {
      IdentitiesStay(s, Steps(s, op), op.conn);
    }
  }

  /** After every operation run to its end, a user who was present in a room and is still connected is still present. */
  lemma AtomicOpsLoseNone(s: State, op: Op, r: nat, u: Uuid)
    requires AtomicInv(s) && OpEnabled(s, op) && ValidRun(s, Steps(s, op))
    requires r in s.rooms && u in s.rooms[r].present && Connected(Run(s, Steps(s, op)), r, u)
    ensures r in Run(s, Steps(s, op)).rooms && u in Run(s, Steps(s, op)).rooms[r].present
  {
    if op.Disconnect? && op.conn in RoomOf(s, op.conn).clients && !HasOther(s, op.conn) {
      LastLeaverGoes(s, op.conn);
    }
    OpWithdraws(s, op, r, u);
    StaysPresent(s, Steps(s, op), r, u);
  }

  // ---- a run that loses one

  /** The user's first connection has left and not yet withdrawn the presence; the second is in the room. */
  function Overlap(project: Uuid, user: Uuid, pc: Pc, present: set<Uuid>): State {
    State(map[0 := Room(project, {2}, present, false)], map[project := 0],
          map[1 := Conn(user, project, 0, Unlinked), 2 := Conn(user, project, 0, pc)], Nobody)
  }

  lemma FirstGoesOut(project: Uuid, user: Uuid) returns (steps: seq<Step>)
    ensures Reaches(START, steps, Out(project, user))
  {
    steps := FirstClientJoins(project, user);
    steps := Follow(steps, HubRegistry.Alone(project, user), LeaveLock(1));
    AloneGoesOut(project, user);
  }

  lemma SecondJoins(project: Uuid, user: Uuid) returns (steps: seq<Step>)
    ensures Reaches(START, steps, Overlap(project, user, Joined, {}))
  {
    steps := FirstGoesOut(project, user);
    var t := Out(project, user);
    steps := Follow(steps, t, GetOrCreate(2, user, project, 1));
    t := Apply(t, GetOrCreate(2, user, project, 1));
    steps := Follow(steps, t, JoinLock(2));
    t := Apply(t, JoinLock(2));
    assert t.rooms[0].clients == {2};
    assert t.rooms == Overlap(project, user, Joined, {}).rooms && t.conns == Overlap(project, user, Joined, {}).conns;
  }

  lemma SecondAnnounces(project: Uuid, user: Uuid) returns (steps: seq<Step>)
    ensures Reaches(START, steps, Overlap(project, user, Announcing, {user}))
  {
    steps := SecondJoins(project, user);
    var t := Overlap(project, user, Joined, {});
    steps := Follow(steps, t, SendSnapshot(2));
    t := Overlap(project, user, Running, {});
    steps := Follow(steps, t, HubMachine.SetPresence(2));
    t := Apply(t, HubMachine.SetPresence(2));
    assert t.rooms[0].present == {user};
    assert t == Overlap(project, user, Announcing, {user});
  }

  /** It happens: the second connection announces between the two regions of the first one's leave. */
  lemma PresenceIsLost(project: Uuid, user: Uuid) returns (steps: seq<Step>)
    ensures ValidRun(START, steps)
    ensures var s := Run(START, steps);
            && Enabled(s, HubMachine.RemovePresence(1)) && Loses(s, HubMachine.RemovePresence(1), 0, user)
  {
    steps := SecondAnnounces(project, user);
    var s := Overlap(project, user, Announcing, {user});
    RunKeeps(START, steps);
    assert Connects(s, 0, user, 2);
    LosesIff(s, HubMachine.RemovePresence(1), 0, user);
  }
}
