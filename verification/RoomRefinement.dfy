/** The atomic room operations are what the lock-level steps add up to when nothing interleaves. */
module RoomRefinement {
  import opened Outcomes
  import opened Uuids
  import opened Mailboxes
  import opened Presences
  import R = Rooms
  import opened HubMachine

  /** The room as the hub's machine sees it: who is in it and who is present. */
  function Seen(r: R.Room, project: Uuid): Room {
    Room(project, r.members.Keys, r.presences.Keys, false)
  }

  /** Connection `id` belongs to the room, which looks like `r`, and members are the machine's connections. */
  ghost predicate Matches(s: State, id: Uuid, r: R.Room) {
    && id in s.conns && s.conns[id].room in s.rooms
    && RoomOf(s, id) == Seen(r, RoomOf(s, id).project)
    && forall k :: k in r.members ==> k in s.conns && s.conns[k].user == r.members[k].userID
  }

  lemma JoinMatches(s: State, id: Uuid, r: R.Room, list: seq<Presence>)
    requires Matches(s, id, r) && At(s, id, GotRoom)
    ensures var s' := Apply(s, JoinLock(id));
            Matches(s', id, R.Join(r, id, R.Member(s.conns[id].user, NewMailbox()), list))
  {
  }

  lemma AnnounceMatches(s: State, id: Uuid, r: R.Room, p: Presence)
    requires Matches(s, id, r) && At(s, id, Running) && p.userID == s.conns[id].user
    ensures Matches(Apply(s, HubMachine.SetPresence(id)), id, R.Announce(r, p))
  {
  }

  lemma HasOtherMatches(s: State, id: Uuid, r: R.Room)
    requires Matches(s, id, r)
    ensures HasOther(s, id) <==> R.IsConnected(Without(r.members, id), s.conns[id].user)
  {
    if HasOther(s, id) {
      var other :| other in RoomOf(s, id).clients && other != id && other in s.conns
          && s.conns[other].user == s.conns[id].user;
      assert other in Without(r.members, id);
    }
  }

  /** Leaving in one go, or through its two regions. */
  lemma LeaveMatches(s: State, id: Uuid, r: R.Room)
    requires Matches(s, id, r) && At(s, id, Running) && id in r.members
    ensures var s' := Apply(s, LeaveLock(id));
            if s'.conns[id].pc.Unlinked? then
              Enabled(s', HubMachine.RemovePresence(id))
                  && Matches(Apply(s', HubMachine.RemovePresence(id)), id, R.Leave(r, id))
            else
              Matches(s', id, R.Leave(r, id))
  {
    HasOtherMatches(s, id, r);
    var u := s.conns[id].user;
    assert Without(r.members, id).Keys == r.members.Keys - {id};
    assert Without(r.presences, u).Keys == r.presences.Keys - {u};
  }
}
