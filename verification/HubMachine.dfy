/** The hub, its rooms and their connections at the granularity of the locks: every region held under one mutex is
    one step, and steps of different connections interleave freely. Only presence itself is kept, not its content. */
module HubMachine {
  import opened Outcomes
  import opened Uuids

  /** Where a connection's goroutine stands, from GetOrCreateRoom to the end of RemoveClient. */
  datatype Pc =
    | GotRoom                 // between GetOrCreateRoom and Join
    | Joined                  // registered in the room, snapshot taken but not sent
    | Running                 // reading messages
    | Announcing              // presence stored, not yet broadcast
    | Unlinked                // removed from the room as its user's last client, presence still to be withdrawn
    | Retracting              // presence withdrawn, removal not yet broadcast
    | Left                    // out of the room, registry not yet checked
    | Checking(empty: bool)   // holds the hub's lock and has counted the room's clients
    | Gone

  datatype Conn = Conn(user: Uuid, project: Uuid, room: nat, pc: Pc)

  datatype Room = Room(project: Uuid, clients: set<Uuid>, present: set<Uuid>, closed: bool)

  /** Who holds the hub's lock across steps: a connection checking its room, or a shutdown with rooms left to close. */
  datatype Holder = Nobody | Checker(conn: Uuid) | Stopper(todo: set<Uuid>)

  datatype State = State(rooms: map<nat, Room>, registry: map<Uuid, nat>, conns: map<Uuid, Conn>, lock: Holder)

  datatype Step =
    | GetOrCreate(conn: Uuid, user: Uuid, project: Uuid, spare: nat)
    | JoinLock(conn: Uuid)
    | SendSnapshot(conn: Uuid)
    | SetPresence(conn: Uuid)
    | BroadcastPresence(conn: Uuid)
    | LeaveLock(conn: Uuid)
    | RemovePresence(conn: Uuid)
    | BroadcastRemove(conn: Uuid)
    | Count(conn: Uuid)
    | FinishCheck(conn: Uuid)
    | ShutdownBegin
    | CloseRoom(project: Uuid)
    | ShutdownEnd

  predicate At(s: State, id: Uuid, pc: Pc) {
    id in s.conns && s.conns[id].pc == pc && s.conns[id].room in s.rooms
  }

  predicate Enabled(s: State, step: Step) {
    match step
    case GetOrCreate(id, _, _, spare) => s.lock.Nobody? && id !in s.conns && spare !in s.rooms
    case JoinLock(id) => At(s, id, GotRoom)
    case SendSnapshot(id) => At(s, id, Joined)
    case SetPresence(id) => At(s, id, Running)
    case BroadcastPresence(id) => At(s, id, Announcing)
    case LeaveLock(id) => At(s, id, Running)
    case RemovePresence(id) => At(s, id, Unlinked)
    case BroadcastRemove(id) => At(s, id, Retracting)
    case Count(id) => s.lock.Nobody? && At(s, id, Left)
    case FinishCheck(id) => id in s.conns && s.conns[id].pc.Checking? && s.conns[id].room in s.rooms
    case ShutdownBegin => s.lock.Nobody?
    case CloseRoom(p) => s.lock.Stopper? && p in s.lock.todo && p in s.registry && s.registry[p] in s.rooms
    case ShutdownEnd => s.lock == Stopper({})
  }

  function Moved(s: State, id: Uuid, pc: Pc): State
    requires id in s.conns
  {
    s.(conns := s.conns[id := s.conns[id].(pc := pc)])
  }

  function RoomOf(s: State, id: Uuid): Room
    requires id in s.conns && s.conns[id].room in s.rooms
  {
    s.rooms[s.conns[id].room]
  }

  function InRoom(s: State, id: Uuid, pc: Pc, room: Room): State
    requires id in s.conns
  {
    Moved(s, id, pc).(rooms := s.rooms[s.conns[id].room := room])
  }

  /** Whether the user has another connection in the room; looked up once this one is out of it. */
  predicate HasOther(s: State, id: Uuid)
    requires id in s.conns && s.conns[id].room in s.rooms
  {
    exists other ::
      other in RoomOf(s, id).clients && other != id && other in s.conns && s.conns[other].user == s.conns[id].user
  }

  function Apply(s: State, step: Step): State
    requires Enabled(s, step)
  {
    match step
    case GetOrCreate(id, user, project, spare) =>
      if project in s.registry then s.(conns := s.conns[id := Conn(user, project, s.registry[project], GotRoom)])
      else s.(rooms := s.rooms[spare := Room(project, {}, {}, false)], registry := s.registry[project := spare],
              conns := s.conns[id := Conn(user, project, spare, GotRoom)])
    case JoinLock(id) => InRoom(s, id, Joined, RoomOf(s, id).(clients := RoomOf(s, id).clients + {id}))
    case SendSnapshot(id) => Moved(s, id, Running)
    case SetPresence(id) =>
      InRoom(s, id, Announcing, RoomOf(s, id).(present := RoomOf(s, id).present + {s.conns[id].user}))
    case BroadcastPresence(id) => Moved(s, id, Running)
    case LeaveLock(id) =>
      if id !in RoomOf(s, id).clients then Moved(s, id, Left)
      else
        var pc := if HasOther(s, id) then Left else Unlinked;
        InRoom(s, id, pc, RoomOf(s, id).(clients := RoomOf(s, id).clients - {id}))
    case RemovePresence(id) =>
      InRoom(s, id, Retracting, RoomOf(s, id).(present := RoomOf(s, id).present - {s.conns[id].user}))
    case BroadcastRemove(id) => Moved(s, id, Left)
    case Count(id) => Moved(s, id, Checking(RoomOf(s, id).clients == {})).(lock := Checker(id))
    case FinishCheck(id) =>
      var project := RoomOf(s, id).project;
      Moved(s, id, Gone)
        .(lock := Nobody, registry := if s.conns[id].pc.empty then Without(s.registry, project) else s.registry)
    case ShutdownBegin => s.(lock := Stopper(s.registry.Keys))
    case CloseRoom(p) =>
      var r := s.registry[p];
      s.(rooms := s.rooms[r := s.rooms[r].(clients := {}, closed := true)], lock := Stopper(s.lock.todo - {p}))
    case ShutdownEnd => s.(registry := map[], lock := Nobody)
  }

  // ---- structure

  predicate Inside(pc: Pc) {
    pc.Joined? || pc.Running? || pc.Announcing?
  }

  predicate ConnOk(s: State, id: Uuid)
    requires id in s.conns
  {
    var c := s.conns[id];
    && c.room in s.rooms && s.rooms[c.room].project == c.project
    && (Inside(c.pc) && !s.rooms[c.room].closed ==> id in s.rooms[c.room].clients)
    && (c.pc.Checking? <==> s.lock == Checker(id))
  }

  ghost predicate RoomOk(s: State, r: nat)
    requires r in s.rooms
  {
    forall id :: id in s.rooms[r].clients ==> id in s.conns && s.conns[id].room == r && Inside(s.conns[id].pc)
  }

  predicate EntryOk(s: State, p: Uuid)
    requires p in s.registry
  {
    && s.registry[p] in s.rooms && s.rooms[s.registry[p]].project == p
    && (s.rooms[s.registry[p]].closed <==> s.lock.Stopper? && p !in s.lock.todo)
  }

  ghost predicate WellFormed(s: State) {
    && (forall id :: id in s.conns ==> ConnOk(s, id))
    && (forall r :: r in s.rooms ==> RoomOk(s, r))
    && (forall p :: p in s.registry ==> EntryOk(s, p))
    && (s.lock.Stopper? ==> s.lock.todo <= s.registry.Keys)
  }

  /** No step changes whose a connection is or which room it has. */
  lemma ConnStays(s: State, step: Step, id: Uuid)
    requires Enabled(s, step) && id in s.conns
    ensures var s' := Apply(s, step); id in s'.conns && s'.conns[id].(pc := s.conns[id].pc) == s.conns[id]
  {
  }

  /** No step changes which project a room belongs to, or reopens it. */
  lemma RoomStays(s: State, step: Step, r: nat)
    requires Enabled(s, step) && r in s.rooms
    ensures var s' := Apply(s, step);
            r in s'.rooms && s'.rooms[r].project == s.rooms[r].project && (!s'.rooms[r].closed ==> !s.rooms[r].closed)
  {
  }

  lemma StepKeepsConns(s: State, step: Step, id: Uuid)
    requires WellFormed(s) && Enabled(s, step) && id in Apply(s, step).conns
    ensures ConnOk(Apply(s, step), id)
  {
    if id in s.conns {
      assert ConnOk(s, id);
      ConnStays(s, step, id);
      RoomStays(s, step, s.conns[id].room);
    } else if step.project in s.registry {
      assert EntryOk(s, step.project);
    }
  }

  lemma StepKeepsRooms(s: State, step: Step, r: nat)
    requires WellFormed(s) && Enabled(s, step) && r in Apply(s, step).rooms
    ensures RoomOk(Apply(s, step), r)
  {
    assert r in s.rooms ==> RoomOk(s, r);
  }

  lemma StepKeepsEntries(s: State, step: Step, p: Uuid)
    requires WellFormed(s) && Enabled(s, step) && p in Apply(s, step).registry
    ensures EntryOk(Apply(s, step), p)
  {
    assert p in s.registry ==> EntryOk(s, p);
  }

  // ---- no ghost cursors

  /** The present user has a client in the room, or a leaver that has yet to withdraw the presence. */
  predicate Accounted(s: State, r: nat, u: Uuid) {
    exists id :: id in s.conns && Accounts(s, r, u, id)
  }

  predicate Accounts(s: State, r: nat, u: Uuid, id: Uuid)
    requires id in s.conns
  {
    s.conns[id].room == r && s.conns[id].user == u && r in s.rooms
        && (id in s.rooms[r].clients || s.conns[id].pc.Unlinked?)
  }

  ghost predicate NoGhosts(s: State) {
    forall r, u :: r in s.rooms && !s.rooms[r].closed && u in s.rooms[r].present ==> Accounted(s, r, u)
  }

  lemma StepKeepsAccount(s: State, step: Step, r: nat, u: Uuid)
    requires WellFormed(s) && NoGhosts(s) && Enabled(s, step)
    requires var s' := Apply(s, step); r in s'.rooms && !s'.rooms[r].closed && u in s'.rooms[r].present
    ensures Accounted(Apply(s, step), r, u)
  {
    var s' := Apply(s, step);
    if r in s.rooms && u in s.rooms[r].present {
      assert Accounted(s, r, u);
      var id :| id in s.conns && Accounts(s, r, u, id);
      if step.LeaveLock? && step.conn == id && HasOther(s, id) {
        var other :| other in s.rooms[r].clients && other != id && other in s.conns
            && s.conns[other].user == s.conns[id].user;
        assert RoomOk(s, r);
        assert Accounts(s', r, u, other);
      } else {
        assert Accounts(s', r, u, id);
      }
    } else {
      assert ConnOk(s, step.conn);
      assert Accounts(s', r, u, step.conn);
    }
  }

  // ---- no leaked rooms

  /** A reason for the room to be registered: a client, someone on the way in or yet to check, or a shutdown under way
      that has closed this very room. */
  predicate Anchored(s: State, r: nat) {
    || (s.lock.Stopper? && r in s.rooms && s.rooms[r].closed)
    || (r in s.rooms && s.rooms[r].clients != {})
    || exists id :: id in s.conns && Anchors(s.conns[id], r)
  }

  /** Between GetOrCreateRoom and Join, or between Leave and the registry check. */
  predicate Anchors(c: Conn, r: nat) {
    c.room == r && (c.pc.GotRoom? || c.pc.Unlinked? || c.pc.Retracting? || c.pc.Left? || c.pc == Checking(true))
  }

  ghost predicate NoLeaks(s: State) {
    forall p :: p in s.registry ==> Anchored(s, s.registry[p])
  }

  /** A room with a client keeps one, or its last client has yet to check the registry, or the shutdown closes it. */
  lemma ClientAnchors(s: State, step: Step, r: nat, id: Uuid)
    requires WellFormed(s) && Enabled(s, step)
    requires r in s.rooms && id in s.rooms[r].clients
    ensures Anchored(Apply(s, step), r)
  {
    var s' := Apply(s, step);
    assert RoomOk(s, r);
    if step.CloseRoom? && s.registry[step.project] == r {
    } else if step.LeaveLock? && step.conn == id {
      assert Anchors(s'.conns[id], r);
    } else {
      assert id in s'.rooms[r].clients;
    }
  }

  /** A connection on its way in or out keeps its room anchored until it joins or has checked the registry. */
  lemma ConnAnchors(s: State, step: Step, p: Uuid, id: Uuid)
    requires WellFormed(s) && Enabled(s, step)
    requires p in s.registry && p in Apply(s, step).registry && Apply(s, step).registry[p] == s.registry[p]
    requires id in s.conns && Anchors(s.conns[id], s.registry[p])
    requires s.registry[p] in s.rooms && s.rooms[s.registry[p]].project == p && s.rooms[s.registry[p]].clients == {}
    ensures Anchored(Apply(s, step), s.registry[p])
  {
    var s', r := Apply(s, step), s.registry[p];
    if step.JoinLock? && step.conn == id {
      assert id in s'.rooms[r].clients;
    } else {
      assert Anchors(s'.conns[id], r);
    }
  }

  lemma StepKeepsAnchor(s: State, step: Step, p: Uuid)
    requires WellFormed(s) && NoLeaks(s) && Enabled(s, step) && p in Apply(s, step).registry
    ensures Anchored(Apply(s, step), Apply(s, step).registry[p])
  {
    var s' := Apply(s, step);
    var r := s'.registry[p];
    if p !in s.registry {
      assert Anchors(s'.conns[step.conn], r);
    } else {
      assert Anchored(s, r) && EntryOk(s, p);
      if s.lock.Stopper? && s.rooms[r].closed {
        assert s'.lock.Stopper?;
      } else if s.rooms[r].clients != {} {
        var id :| id in s.rooms[r].clients;
        ClientAnchors(s, step, r, id);
      } else {
        var id :| id in s.conns && Anchors(s.conns[id], r);
        ConnAnchors(s, step, p, id);
      }
    }
  }

  // ---- every interleaving

  ghost predicate Inv(s: State) {
    WellFormed(s) && NoGhosts(s) && NoLeaks(s)
  }

  lemma StepKeeps(s: State, step: Step)
    requires Inv(s) && Enabled(s, step)
    ensures Inv(Apply(s, step))
  {
    var s' := Apply(s, step);
    forall id | id in s'.conns { StepKeepsConns(s, step, id); }
    forall r | r in s'.rooms { StepKeepsRooms(s, step, r); }
    forall p | p in s'.registry { StepKeepsEntries(s, step, p); }
    forall p | p in s'.registry { StepKeepsAnchor(s, step, p); }
    forall r, u | r in s'.rooms && !s'.rooms[r].closed && u in s'.rooms[r].present { StepKeepsAccount(s, step, r, u); }
  }

  predicate ValidRun(s: State, steps: seq<Step>)
    decreases |steps|
  {
    steps == [] || (Enabled(s, steps[0]) && ValidRun(Apply(s, steps[0]), steps[1..]))
  }

  function Run(s: State, steps: seq<Step>): State
    requires ValidRun(s, steps)
    decreases |steps|
  {
    if steps == [] then s else Run(Apply(s, steps[0]), steps[1..])
  }

  const START := State(map[], map[], map[], Nobody)

  lemma {:induction false} RunKeeps(s: State, steps: seq<Step>)
    requires Inv(s) && ValidRun(s, steps)
    ensures Inv(Run(s, steps))
    decreases |steps|
  {
    if steps != [] {
      StepKeeps(s, steps[0]);
      RunKeeps(Apply(s, steps[0]), steps[1..]);
    }
  }

  predicate LeaveInProgress(s: State, r: nat) {
    exists id :: id in s.conns && s.conns[id].room == r && s.conns[id].pc.Unlinked?
  }

  /** No ghost cursors, whatever the interleaving: in a room no shutdown closed, each present user has a client in the
      room or a leaver of that user on its way to withdraw the presence; so with no leave in progress the present are
      among the connected, and an empty room has nobody present. */
  lemma NoGhostCursors(steps: seq<Step>, r: nat, u: Uuid)
    requires ValidRun(START, steps) && r in Run(START, steps).rooms && !Run(START, steps).rooms[r].closed
    requires u in Run(START, steps).rooms[r].present
    ensures var s := Run(START, steps);
            && Accounted(s, r, u)
            && (!LeaveInProgress(s, r) ==> exists id ::
                  id in s.rooms[r].clients && id in s.conns && s.conns[id].user == u)
            && (s.rooms[r].clients == {} ==> LeaveInProgress(s, r))
  {
    RunKeeps(START, steps);
    var s := Run(START, steps);
    assert Accounted(s, r, u);
  }

  /** Nobody is between two regions of connecting or disconnecting. */
  predicate Quiescent(s: State) {
    s.lock.Nobody? && forall id :: id in s.conns ==> Inside(s.conns[id].pc) || s.conns[id].pc.Gone?
  }

  /** No leaked rooms, whatever the interleaving, shutdowns included: each registered room is filed under its own
      project and, unless a shutdown under way has already closed it, has a client, someone on the way in or someone
      yet to check; at quiescence it is open and has a client. */
  lemma NoLeakedRooms(steps: seq<Step>, p: Uuid)
    requires ValidRun(START, steps) && p in Run(START, steps).registry
    ensures var s := Run(START, steps); var r := s.registry[p];
            && r in s.rooms && s.rooms[r].project == p && Anchored(s, r)
            && (s.rooms[r].closed ==> s.lock.Stopper? && p !in s.lock.todo)
            && (Quiescent(s) ==> s.rooms[r].clients != {} && !s.rooms[r].closed)
  {
    RunKeeps(START, steps);
    var s := Run(START, steps);
    assert EntryOk(s, p) && Anchored(s, s.registry[p]);
  }

  /** Over every interleaving: while a shutdown is under way it has closed exactly the registered rooms it is done with,
      so it ends only when it has closed them all. */
  lemma ShutdownClosesAll(steps: seq<Step>, p: Uuid)
    requires ValidRun(START, steps) && Run(START, steps).lock.Stopper? && p in Run(START, steps).registry
    ensures var s := Run(START, steps);
            && s.registry[p] in s.rooms && (s.rooms[s.registry[p]].closed <==> p !in s.lock.todo)
            && (Enabled(s, ShutdownEnd) ==> s.rooms[s.registry[p]].closed)
  {
    RunKeeps(START, steps);
    assert EntryOk(Run(START, steps), p);
  }
}
