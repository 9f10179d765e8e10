/** The queues of the editing protocol are the mailboxes of the rooms: delivering is Send, relaying an update is a
    broadcast to the sender's room with the sender left out, and the pump takes from the same end. */
module RelayRefinement {
  import opened Outcomes
  import opened Uuids
  import opened Documents
  import opened SyncPlan
  import M = Mailboxes
  import R = Rooms
  import opened EditProtocol

  type Encoder = Message -> R.Note

  function NotesOf(messages: seq<Message>, encode: Encoder): seq<R.Note> {
    seq(|messages|, i requires 0 <= i < |messages| => encode(messages[i]))
  }

  /** The mailbox holds what has not left the server's buffer. */
  ghost predicate Holds(c: Client, b: M.Mailbox<R.Note>, encode: Encoder) {
    b.closed == c.closed && c.sent <= |c.queue| && b.queue == NotesOf(c.queue[c.sent..], encode)
  }

  /** The room's members are the clients of that room, each with its mailbox. */
  ghost predicate IsRoom(s: State, room: nat, r: R.Room, encode: Encoder) {
    && (forall id :: id in r.members <==> id in s.clients && s.clients[id].room == room)
    && (forall id :: id in r.members ==> Holds(s.clients[id], r.members[id].box, encode))
  }

  /** Send has a place exactly when the protocol delivers, and both append the same message. */
  lemma DeliverIsSend(c: Client, b: M.Mailbox<R.Note>, m: Message, encode: Encoder)
    requires Holds(c, b, encode)
    ensures Takes(c) <==> M.Open(b)
    ensures Holds(Deliver(c, m), M.Send(b, encode(m)), encode)
  {
    if Takes(c) {
      assert (c.queue + [m])[c.sent..] == c.queue[c.sent..] + [m];
    }
  }

  lemma AnswerIsSend(s: State, c: Client, vectors: Vectors, b: M.Mailbox<R.Note>, encode: Encoder)
    requires Holds(c, b, encode) && Plannable(s, c.project, vectors)
    ensures Holds(Answered(s, c, vectors), M.Send(b, encode(SyncResponse(Instructions(s, c.project, vectors)))), encode)
  {
    DeliverIsSend(c, b, SyncResponse(Instructions(s, c.project, vectors)), encode);
  }

  lemma PumpIsPick(c: Client, b: M.Mailbox<R.Note>, encode: Encoder)
    requires Holds(c, b, encode) && c.sent < |c.queue| && b.pumping && b.taken.None?
    ensures M.Possible(b, M.Picked)
    ensures Holds(c.(sent := c.sent + 1), M.After(b, M.Picked), encode)
    ensures M.After(b, M.Picked).taken == Some(encode(c.queue[c.sent]))
  {
    assert c.queue[c.sent..][1..] == c.queue[c.sent + 1..];
  }

  lemma RelayedIsSent(sender: Client, id: Uuid, other: Client, k: Uuid, f: Uuid, delta: Bytes<Doc>,
                      b: M.Mailbox<R.Note>, encode: Encoder)
    requires Holds(other, b, encode) && k != id && other.room == sender.room
    ensures Holds(Relayed(other, k, id, sender, f, delta), M.Send(b, encode(Relay(f, delta))), encode)
  {
    DeliverIsSend(other, b, Relay(f, delta), encode);
  }

  /** The sender as the handler sees it, its request taken off. */
  ghost predicate SameQueue(c: Client, sender: Client) {
    c.room == sender.room && c.queue == sender.queue && c.sent == sender.sent && c.closed == sender.closed
  }

  lemma ElsewhereUntouched(s: State, id: Uuid, c: Client, f: Uuid, delta: Bytes<Doc>, k: Uuid, b: M.Mailbox<R.Note>,
                           encode: Encoder)
    requires id in s.clients && SameQueue(c, s.clients[id]) && Accepted(s, f, delta) && delta.Coded?
    requires k in s.clients && Holds(s.clients[k], b, encode) && (k == id || s.clients[k].room != c.room)
    ensures k in HandleUpdate(s, id, c, f, delta).clients
              && Holds(HandleUpdate(s, id, c, f, delta).clients[k], b, encode)
  {
    UpdateEffect(s, id, c, f, delta);
  }

  lemma RoomsStay(s: State, id: Uuid, c: Client, f: Uuid, delta: Bytes<Doc>)
    requires id in s.clients && SameQueue(c, s.clients[id]) && Accepted(s, f, delta) && delta.Coded?
    ensures var after := HandleUpdate(s, id, c, f, delta).clients;
            after.Keys == s.clients.Keys && forall k :: k in s.clients ==> after[k].room == s.clients[k].room
  {
    UpdateEffect(s, id, c, f, delta);
  }

  /** An accepted update does to the sender's room what the atomic broadcast does ... */
  lemma RelayIsBroadcast(s: State, id: Uuid, c: Client, f: Uuid, delta: Bytes<Doc>, r: R.Room, encode: Encoder)
    requires id in s.clients && SameQueue(c, s.clients[id]) && Accepted(s, f, delta) && delta.Coded?
    requires IsRoom(s, c.room, r, encode)
    ensures IsRoom(HandleUpdate(s, id, c, f, delta), c.room, R.BroadcastExcept(r, id, encode(Relay(f, delta))), encode)
  {
    var s', n := HandleUpdate(s, id, c, f, delta), encode(Relay(f, delta));
    RoomsStay(s, id, c, f, delta);
    forall k | k in r.members
      ensures Holds(s'.clients[k], R.BroadcastExcept(r, id, n).members[k].box, encode)
    {
      if k == id {
        ElsewhereUntouched(s, id, c, f, delta, k, r.members[k].box, encode);
      } else {
        UpdateEffect(s, id, c, f, delta);
        RelayedIsSent(c, id, s.clients[k], k, f, delta, r.members[k].box, encode);
      }
    }
  }

  /** ... and nothing to any other room. */
  lemma OtherRoomsUntouched(s: State, id: Uuid, c: Client, f: Uuid, delta: Bytes<Doc>, room: nat, r: R.Room,
                            encode: Encoder)
    requires id in s.clients && SameQueue(c, s.clients[id]) && Accepted(s, f, delta) && delta.Coded?
    requires IsRoom(s, room, r, encode) && room != c.room
    ensures IsRoom(HandleUpdate(s, id, c, f, delta), room, r, encode)
  {
    RoomsStay(s, id, c, f, delta);
    forall k | k in r.members
      ensures Holds(HandleUpdate(s, id, c, f, delta).clients[k], r.members[k].box, encode)
    {
      ElsewhereUntouched(s, id, c, f, delta, k, r.members[k].box, encode);
    }
  }
}
