/** One room with each operation atomic: who is in it, who is present, and what each member has been sent. */
module Rooms {
  import opened Outcomes
  import opened Uuids
  import opened Mailboxes
  import opened Presences

  datatype Note =
    | Snapshot(presences: seq<Presence>)
    | Update(presence: Presence)
    | Remove(userID: Uuid)
    | OtherNote(text: string)

  datatype Member = Member(userID: Uuid, box: Mailbox<Note>)

  datatype Room = Room(members: map<Uuid, Member>, presences: PresenceMap)

  function SendTo(m: Member, n: Note): Member {
    m.(box := Send(m.box, n))
  }

  /** Every member gets the note, or refuses it, regardless of the others. */
  function Broadcast(r: Room, n: Note): Room {
    r.(members := map id | id in r.members :: SendTo(r.members[id], n))
  }

  function BroadcastExcept(r: Room, except: Uuid, n: Note): Room {
    r.(members := map id | id in r.members :: if id == except then r.members[id] else SendTo(r.members[id], n))
  }

  /** A relay adds exactly one copy for every open, non-full member but the sender, and nothing else anywhere. */
  lemma RelayDeliversOnce(r: Room, sender: Uuid, n: Note, id: Uuid)
    requires id in r.members
    ensures var before, after := r.members[id].box, BroadcastExcept(r, sender, n).members[id].box;
            if id == sender then after == before
            else if Open(before) then after.accepted == before.accepted + [n] && after.queue == before.queue + [n]
                && after.written == before.written
            else after.accepted == before.accepted && after.queue == before.queue && after.refused
    ensures BroadcastExcept(r, sender, n).presences == r.presences
    ensures sender !in r.members ==> BroadcastExcept(r, sender, n) == Broadcast(r, n)
  {
    if sender !in r.members {
      assert BroadcastExcept(r, sender, n).members == Broadcast(r, n).members;
    }
  }

  lemma BroadcastPointwise(r: Room, r': Room, n: Note)
    requires r'.presences == r.presences && r'.members.Keys == r.members.Keys
    requires forall id :: id in r.members ==> r'.members[id] == SendTo(r.members[id], n)
    ensures r' == Broadcast(r, n)
  {
    assert r'.members == Broadcast(r, n).members;
  }

  lemma BroadcastExceptPointwise(r: Room, r': Room, except: Uuid, n: Note)
    requires r'.presences == r.presences && r'.members.Keys == r.members.Keys
    requires forall id :: id in r.members ==>
               r'.members[id] == if id == except then r.members[id] else SendTo(r.members[id], n)
    ensures r' == BroadcastExcept(r, except, n)
  {
    assert r'.members == BroadcastExcept(r, except, n).members;
  }

  /** Registers the member and sends it the presences as listed. */
  function Join(r: Room, id: Uuid, m: Member, list: seq<Presence>): Room {
    r.(members := r.members[id := SendTo(m, Snapshot(list))])
  }

  predicate IsConnected(members: map<Uuid, Member>, userID: Uuid) {
    exists id :: id in members && members[id].userID == userID
  }

  /** Unregisters the member; when it was its user's last one, withdraws the presence and says so to the rest. */
  function Leave(r: Room, id: Uuid): Room {
    if id !in r.members then r
    else
      var rest, u := Without(r.members, id), r.members[id].userID;
      if IsConnected(rest, u) then r.(members := rest)
      else Broadcast(Room(rest, Without(r.presences, u)), Remove(u))
  }

  /** A cursor update: store the presence and tell everyone, the sender included. */
  function Announce(r: Room, p: Presence): Room {
    Broadcast(r.(presences := r.presences[p.userID := p]), Update(p))
  }

  /** Closes every member and empties the room; presences stay. */
  function Close(r: Room): Room {
    r.(members := map[])
  }

  // ---- what a member makes of its messages

  function Effect(m: PresenceMap, n: Note): PresenceMap {
    match n
    case Snapshot(list) => Keyed(list)
    case Update(p) => m[p.userID := p]
    case Remove(u) => Without(m, u)
    case OtherNote(_) => m
  }

  function Fold(notes: seq<Note>): PresenceMap {
    if notes == [] then map[] else Effect(Fold(notes[..|notes| - 1]), notes[|notes| - 1])
  }

  lemma FoldAppend(notes: seq<Note>, n: Note)
    ensures Fold(notes + [n]) == Effect(Fold(notes), n)
  {
    assert (notes + [n])[..|notes|] == notes;
  }

  // ---- runs of atomic operations

  datatype Step =
    | JoinStep(id: Uuid, userID: Uuid, list: seq<Presence>)
    | LeaveStep(id: Uuid)
    | AnnounceStep(userID: Uuid, email: string, fileID: Uuid, cursor: Cursor)
    | RelayStep(sender: Uuid, text: string)
    | CloseStep
    | MemberStep(id: Uuid, e: Event<Note>)

  /** A connection joins once, with a fresh id and a snapshot in any order; pumps and closes happen at any time.
      Anyone may announce, even a connection the room has already dropped. */
  ghost predicate Enabled(r: Room, s: Step) {
    match s
    case JoinStep(id, _, list) => id !in r.members && Lists(list, r.presences)
    case MemberStep(id, e) => id in r.members && Possible(r.members[id].box, e)
                              && (e.Sent? ==> e.m.OtherNote?)
    case _ => true
  }

  function Apply(r: Room, s: Step): Room
    requires Enabled(r, s)
  {
    match s
    case JoinStep(id, userID, list) => Join(r, id, Member(userID, NewMailbox()), list)
    case LeaveStep(id) => Leave(r, id)
    case AnnounceStep(userID, email, fileID, cursor) =>
      Announce(r, Presence(userID, email, ColorForUser(userID), fileID, cursor))
    case RelayStep(sender, text) => BroadcastExcept(r, sender, OtherNote(text))
    case CloseStep => Close(r)
    case MemberStep(id, e) => r.(members := r.members[id := r.members[id].(box := After(r.members[id].box, e))])
  }

  /** A member that was never refused a message reads as the room's presences. */
  ghost predicate InStep(m: Member, presences: PresenceMap) {
    Fifo(m.box) && (!m.box.refused ==> Fold(m.box.accepted) == presences)
  }

  ghost predicate Inv(r: Room) {
    ValidPresences(r.presences) && forall id :: id in r.members ==> InStep(r.members[id], r.presences)
  }

  lemma SendKeepsInStep(m: Member, presences: PresenceMap, n: Note)
    requires InStep(m, presences)
    ensures InStep(SendTo(m, n), Effect(presences, n))
  {
    FoldAppend(m.box.accepted, n);
  }

  lemma BroadcastKeeps(members: map<Uuid, Member>, before: PresenceMap, after: PresenceMap, n: Note)
    requires forall id :: id in members ==> InStep(members[id], before)
    requires after == Effect(before, n) && ValidPresences(after)
    ensures Inv(Broadcast(Room(members, after), n))
  {
    forall id | id in members {
      SendKeepsInStep(members[id], before, n);
    }
  }

  lemma LeaveKeeps(r: Room, id: Uuid)
    requires Inv(r) && id in r.members
    ensures Inv(Leave(r, id))
  {
    var rest, u := Without(r.members, id), r.members[id].userID;
    if !IsConnected(rest, u) {
      BroadcastKeeps(rest, r.presences, Without(r.presences, u), Remove(u));
    }
  }

  lemma AnnounceKeeps(r: Room, userID: Uuid, email: string, fileID: Uuid, cursor: Cursor)
    requires Inv(r)
    ensures Inv(Announce(r, Presence(userID, email, ColorForUser(userID), fileID, cursor)))
  {
    var p := Presence(userID, email, ColorForUser(userID), fileID, cursor);
    BroadcastKeeps(r.members, r.presences, r.presences[userID := p], Update(p));
  }

  lemma RelayKeeps(r: Room, sender: Uuid, text: string)
    requires Inv(r)
    ensures Inv(BroadcastExcept(r, sender, OtherNote(text)))
  {
    forall id | id in r.members {
      SendKeepsInStep(r.members[id], r.presences, OtherNote(text));
    }
  }

  lemma JoinKeeps(r: Room, userID: Uuid, list: seq<Presence>)
    requires ValidPresences(r.presences) && Lists(list, r.presences)
    ensures InStep(SendTo(Member(userID, NewMailbox()), Snapshot(list)), r.presences)
  {
    KeyedListing(list, r.presences);
    FoldAppend([], Snapshot(list));
  }

  lemma MemberKeeps(m: Member, presences: PresenceMap, e: Event<Note>)
    requires InStep(m, presences) && Possible(m.box, e) && (e.Sent? ==> e.m.OtherNote?)
    ensures InStep(m.(box := After(m.box, e)), presences)
  {
    if e.Sent? {
      SendKeepsInStep(m, presences, e.m);
    } else {
      EventKeepsFifo(m.box, e);
    }
  }

  lemma StepKeeps(r: Room, s: Step)
    requires Inv(r) && Enabled(r, s)
    ensures Inv(Apply(r, s))
  {
    match s
    case JoinStep(id, userID, list) => JoinKeeps(r, userID, list);
    case LeaveStep(id) =>
      if id in r.members {
        LeaveKeeps(r, id);
      }
    case AnnounceStep(userID, email, fileID, cursor) => AnnounceKeeps(r, userID, email, fileID, cursor);
    case RelayStep(sender, text) => RelayKeeps(r, sender, text);
    case CloseStep =>
    case MemberStep(id, e) => MemberKeeps(r.members[id], r.presences, e);
  }

  ghost predicate ValidRun(r: Room, steps: seq<Step>)
    decreases |steps|
  {
    steps == [] || (Enabled(r, steps[0]) && ValidRun(Apply(r, steps[0]), steps[1..]))
  }

  ghost function Run(r: Room, steps: seq<Step>): Room
    requires ValidRun(r, steps)
    decreases |steps|
  {
    if steps == [] then r else Run(Apply(r, steps[0]), steps[1..])
  }

  lemma {:induction false} RunKeeps(r: Room, steps: seq<Step>)
    requires Inv(r) && ValidRun(r, steps)
    ensures Inv(Run(r, steps))
    decreases |steps|
  {
    if steps != [] {
      StepKeeps(r, steps[0]);
      RunKeeps(Apply(r, steps[0]), steps[1..]);
    }
  }

  /** In every reachable state, a member that was refused nothing rebuilds the room's presences exactly from what was
      written to it, is being written, or is queued; whatever order its snapshot was taken in. */
  lemma ReplicasAgree(steps: seq<Step>, id: Uuid)
    requires ValidRun(Room(map[], map[]), steps)
    requires var r := Run(Room(map[], map[]), steps); id in r.members && !r.members[id].box.refused
    ensures var r := Run(Room(map[], map[]), steps); var b := r.members[id].box;
            && Fold(b.written + InHand(b) + b.queue) == r.presences
            && |b.queue| <= SEND_BUFFER_SIZE
  {
    RunKeeps(Room(map[], map[]), steps);
    var r := Run(Room(map[], map[]), steps);
    assert InStep(r.members[id], r.presences);
  }

  /** What it costs to be refused: a member that misses an announcement rebuilds the presences right exactly if the
      announcement changed nothing. */
  lemma RefusedUpdateIff(r: Room, id: Uuid, p: Presence)
    requires Inv(r) && id in r.members && !r.members[id].box.refused && !Open(r.members[id].box)
    ensures Fold(Announce(r, p).members[id].box.accepted) == Announce(r, p).presences
            <==> p.userID in r.presences && r.presences[p.userID] == p
  {
    assert InStep(r.members[id], r.presences);
    assert Announce(r, p).members[id].box.accepted == r.members[id].box.accepted;
    if r.presences[p.userID := p] == r.presences {
      assert p.userID in r.presences[p.userID := p];
    }
  }

  // ---- what is seen of a user

  predicate Shows(m: PresenceMap, u: Uuid, email: string, fileID: Uuid, cursor: Cursor) {
    && u in m && m[u].userID == u && m[u].color == ColorForUser(u)
    && m[u].email == email && m[u].fileID == fileID
    && m[u].cursor.anchor == cursor.anchor && m[u].cursor.head == cursor.head
  }

  /** The user announces, or the user's last connection leaves. */
  predicate Concerns(r: Room, s: Step, u: Uuid) {
    match s
    case AnnounceStep(v, _, _, _) => v == u
    case LeaveStep(id) =>
      && id in r.members && r.members[id].userID == u
      && forall other :: other in r.members && other != id ==> r.members[other].userID != u
    case _ => false
  }

  /** One step: an announcement shows what was announced, the last leave withdraws it, and nothing else touches what is
      seen of the user. */
  lemma SeenAfter(r: Room, s: Step, u: Uuid)
    requires Enabled(r, s)
    ensures !Concerns(r, s, u) ==>
              (u in Apply(r, s).presences <==> u in r.presences)
              && (u in r.presences ==> Apply(r, s).presences[u] == r.presences[u])
    ensures Concerns(r, s, u) && s.LeaveStep? ==> u !in Apply(r, s).presences
    ensures Concerns(r, s, u) && s.AnnounceStep? ==> Shows(Apply(r, s).presences, u, s.email, s.fileID, s.cursor)
  {
    if s.LeaveStep? && s.id in r.members {
      var rest, left := Without(r.members, s.id), r.members[s.id].userID;
      if other :| other in r.members && other != s.id && r.members[other].userID == left {
        assert other in rest;
        assert IsConnected(rest, left);
      }
    }
  }

  /** No step of the run concerns the user. */
  ghost predicate Quiet(r: Room, steps: seq<Step>, u: Uuid)
    requires ValidRun(r, steps)
    decreases |steps|
  {
    steps == [] || (!Concerns(r, steps[0], u) && Quiet(Apply(r, steps[0]), steps[1..], u))
  }

  /** Some step of the run announces this for the user, and no later one concerns the user. */
  ghost predicate SaidLast(r: Room, steps: seq<Step>, u: Uuid, email: string, fileID: Uuid, cursor: Cursor)
    requires ValidRun(r, steps)
    decreases |steps|
  {
    steps != []
        && ((steps[0] == AnnounceStep(u, email, fileID, cursor) && Quiet(Apply(r, steps[0]), steps[1..], u))
            || SaidLast(Apply(r, steps[0]), steps[1..], u, email, fileID, cursor))
  }

  /** Over every run from any state: exactly what the user announced last is seen, if no connection of the user was the
      last to leave since; or what was seen before, if nothing concerned the user. */
  lemma {:induction false} SeenIff(r: Room, steps: seq<Step>, u: Uuid, email: string, fileID: Uuid, cursor: Cursor)
    requires ValidRun(r, steps)
    ensures Shows(Run(r, steps).presences, u, email, fileID, cursor)
            <==> SaidLast(r, steps, u, email, fileID, cursor)
                 || (Quiet(r, steps, u) && Shows(r.presences, u, email, fileID, cursor))
    decreases |steps|
  {
    if steps != [] {
      SeenAfter(r, steps[0], u);
      SeenIff(Apply(r, steps[0]), steps[1..], u, email, fileID, cursor);
    }
  }

  /** From an empty room: the presence of a user is exactly what the user announced last, and that is what every member
      who was refused nothing rebuilds. */
  lemma LastAnnouncementIsSeen(steps: seq<Step>, u: Uuid, email: string, fileID: Uuid, cursor: Cursor, id: Uuid)
    requires ValidRun(Room(map[], map[]), steps)
    requires var r := Run(Room(map[], map[]), steps); id in r.members && !r.members[id].box.refused
    ensures var r := Run(Room(map[], map[]), steps); var b := r.members[id].box;
            Shows(Fold(b.written + InHand(b) + b.queue), u, email, fileID, cursor)
            <==> SaidLast(Room(map[], map[]), steps, u, email, fileID, cursor)
  {
    SeenIff(Room(map[], map[]), steps, u, email, fileID, cursor);
    ReplicasAgree(steps, id);
  }
}
