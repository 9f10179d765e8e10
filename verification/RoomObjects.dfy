/** Connections, rooms and the hub as objects updated in place, one operation at a time. Each method is proved to do
    to the objects what the functions of Mailboxes and Rooms do to values. */
module RoomObjects {
  import opened Outcomes
  import opened Uuids
  import opened Mailboxes
  import opened Presences
  import R = Rooms

  type Note = R.Note

  /** What the write pump's select picked. */
  datatype Pick = ContextDone | Message(writeOk: bool) | Tick(pingOk: bool)

  class Client {
    const id: Uuid
    const userID: Uuid
    const email: string
    const projectID: Uuid
    const room: Room
    var sendChan: seq<Note>
    var cancelled: bool
    ghost var Box: Mailbox<Note>

    ghost predicate Valid()
      reads this
    {
      sendChan == Box.queue && cancelled == Box.closed
    }

    constructor (id: Uuid, userID: Uuid, email: string, projectID: Uuid, room: Room)
      ensures Valid() && Box == NewMailbox() && Fifo(Box)
      ensures this.id == id && this.userID == userID && this.email == email && this.projectID == projectID
                && this.room == room
    {
      this.id, this.userID, this.email, this.projectID, this.room := id, userID, email, projectID, room;
      sendChan, cancelled, Box := [], false, NewMailbox();
    }

    ghost function Member(): R.Member
      reads this
    {
      R.Member(userID, Box)
    }

    method Send(n: Note) returns (r: Result<()>)
      requires Valid()
      modifies this
      ensures Valid() && Box == Mailboxes.Send(old(Box), n) && r == SendOutcome(old(Box))
      ensures Fifo(old(Box)) ==> Fifo(Box)
    {
      if Fifo(Box) {
        EventKeepsFifo(Box, Sent(n));
      }
      if cancelled {
        Box := Box.(refused := true);
        return Err(ClientClosed);
      }
      if |sendChan| >= SEND_BUFFER_SIZE {
        Box := Box.(refused := true);
        return Err(BufferFull);
      }
      sendChan := sendChan + [n];
      Box := Mailboxes.Send(Box, n);
      r := Ok(());
    }

    method Close()
      requires Valid()
      modifies this
      ensures Valid() && Box == After(old(Box), Closed) && (Fifo(old(Box)) ==> Fifo(Box))
    {
      cancelled := true;
      Box := Box.(closed := true);
    }

    /** One turn of the pump's loop: whether it goes on, and what was written. */
    method PumpTurn(pick: Pick) returns (running: bool)
      requires Valid() && Box.pumping && Box.taken.None?
      requires pick.ContextDone? ==> cancelled
      requires pick.Message? ==> sendChan != []
      modifies this
      ensures Valid() && (running <==> Box.pumping) && (Fifo(old(Box)) ==> Fifo(Box))
      ensures match pick
              case ContextDone => Box == After(old(Box), PumpStopped(false))
              case Message(ok) => Box == After(After(old(Box), Picked), WriteDone(ok))
              case Tick(ok) => Box == if ok then old(Box) else After(old(Box), PumpStopped(true))
    {
      match pick
      case ContextDone =>
        running := false;
        Box := Box.(pumping := false);
        Close();
      case Message(ok) =>
        if Fifo(Box) {
          EventKeepsFifo(Box, Picked);
          EventKeepsFifo(After(Box, Picked), WriteDone(ok));
        }
        var data := sendChan[0];
        sendChan, Box := sendChan[1..], After(Box, Picked);
        running := ok;
        if ok {
          Box := Box.(written := Box.written + [data], taken := None);
        } else {
          Box := Box.(pumping := false, closed := true);
          cancelled := true;
        }
      case Tick(ok) =>
        running := ok;
        if !ok {
          Box := Box.(pumping := false, closed := true);
          cancelled := true;
        }
    }
  }

  ghost function Members(clients: map<Uuid, Client>): map<Uuid, R.Member>
    reads clients.Values
  {
    map id | id in clients :: clients[id].Member()
  }

  lemma MembersRemove(clients: map<Uuid, Client>, id: Uuid)
    ensures Members(Without(clients, id)) == Without(Members(clients), id)
  {
  }

  lemma PutTwice<V>(m: map<Uuid, V>, id: Uuid, v: V, w: V)
    ensures m[id := v][id := w] == m[id := w]
  {
  }

  class Room {
    const projectID: Uuid
    const awareness: AwarenessStore
    var clients: map<Uuid, Client>

    ghost predicate Valid()
      reads this, awareness, clients.Values
    {
      awareness.Valid() && forall id :: id in clients ==>
          clients[id].id == id && clients[id].room == this && clients[id].Valid()
    }

    /** The room as a value. */
    ghost function View(): R.Room
      reads this, awareness, clients.Values
    {
      R.Room(Members(clients), awareness.presences)
    }

    constructor (projectID: Uuid)
      ensures Valid() && this.projectID == projectID && View() == R.Room(map[], map[]) && clients == map[]
      ensures fresh(awareness)
    {
      this.projectID, clients := projectID, map[];
      awareness := new AwarenessStore();
    }

    /** One Send to each client, the excepted one left out. */
    method SendAll(n: Note, except: Option<Uuid>)
      requires Valid()
      modifies clients.Values
      ensures Valid()
      ensures View().presences == old(View().presences) && View().members.Keys == old(View().members.Keys)
      ensures forall id :: id in clients ==>
                View().members[id] == if except == Some(id) then old(View().members[id])
                    else R.SendTo(old(View().members[id]), n)
    {
      var todo := clients.Keys;
      while todo != {}
        invariant todo <= clients.Keys && Valid()
        invariant forall id :: id in clients ==>
                    clients[id].Member() == if id in todo || except == Some(id) then old(clients[id].Member())
                                            else R.SendTo(old(clients[id].Member()), n)
      {
        var id :| id in todo;
        todo := todo - {id};
        if except != Some(clients[id].id) {
          var sent := clients[id].Send(n);
        }
      }
    }

    method Broadcast(n: Note)
      requires Valid()
      modifies clients.Values
      ensures Valid() && View() == R.Broadcast(old(View()), n)
    {
      SendAll(n, None);
      R.BroadcastPointwise(old(View()), View(), n);
    }

    method BroadcastExcept(exceptID: Uuid, n: Note)
      requires Valid()
      modifies clients.Values
      ensures Valid() && View() == R.BroadcastExcept(old(View()), exceptID, n)
    {
      SendAll(n, Some(exceptID));
      R.BroadcastExceptPointwise(old(View()), View(), exceptID, n);
    }

    method Register(client: Client)
      requires Valid() && client.Valid() && client.room == this
                 && (client.id in clients ==> clients[client.id] == client)
      modifies this`clients
      ensures Valid() && clients == old(clients)[client.id := client]
      ensures View() == R.Room(old(View()).members[client.id := client.Member()], old(View()).presences)
    {
      clients := clients[client.id := client];
      assert View().members == old(View()).members[client.id := client.Member()];
    }

    /** One Send to one client of the room. */
    method SendOne(client: Client, n: Note)
      requires Valid() && client.id in clients && clients[client.id] == client
      modifies client
      ensures Valid() && View().presences == old(View()).presences
      ensures View().members == old(View()).members[client.id := R.SendTo(old(client.Member()), n)]
    {
      var sent := client.Send(n);
      assert forall id :: id in clients && id != client.id ==> clients[id].Member() == old(clients[id].Member());
    }

    method Join(client: Client) returns (ghost list: seq<Presence>)
      requires Valid() && client.Valid() && client.room == this
                 && (client.id in clients ==> clients[client.id] == client)
      modifies this`clients, client
      ensures Valid() && clients == old(clients)[client.id := client]
      ensures Lists(list, old(View()).presences)
      ensures View() == R.Join(old(View()), client.id, old(client.Member()), list)
    {
      Register(client);
      var snapshot := awareness.Snapshot();
      list := snapshot;
      SendOne(client, R.Snapshot(snapshot));
      PutTwice(old(View()).members, client.id, old(client.Member()), View().members[client.id]);
    }

    /** Whether a client of the user is in the room. */
    method HasUser(userID: Uuid) returns (found: bool)
      requires Valid()
      ensures found <==> R.IsConnected(View().members, userID)
    {
      found := false;
      var todo := clients.Keys;
      while todo != {} && !found
        invariant todo <= clients.Keys
        invariant found ==> R.IsConnected(View().members, userID)
        invariant !found ==> forall id :: id in clients && clients[id].userID == userID ==> id in todo
        decreases |todo|, !found
      {
        var id :| id in todo;
        assert id in View().members;
        found, todo := clients[id].userID == userID, todo - {id};
      }
    }

    /** Withdraws the presence of a user without connections. */
    method Withdraw(userID: Uuid)
      requires Valid()
      modifies awareness, clients.Values
      ensures Valid() && View()
                == R.Broadcast(R.Room(old(View()).members, Without(old(View()).presences, userID)), R.Remove(userID))
    {
      var removed := awareness.RemovePresence(userID);
      Broadcast(R.Remove(userID));
    }

    method Unregister(client: Client)
      requires Valid()
      modifies this`clients
      ensures Valid() && clients == Without(old(clients), client.id)
      ensures View() == R.Room(Without(old(View()).members, client.id), old(View()).presences)
    {
      MembersRemove(clients, client.id);
      clients := Without(clients, client.id);
    }

    method Leave(client: Client)
      requires Valid() && (client.id in clients ==> clients[client.id] == client)
      modifies this`clients, awareness, clients.Values
      ensures Valid() && clients == Without(old(clients), client.id)
      ensures View() == R.Leave(old(View()), client.id)
    {
      if client.id !in clients {
        assert Without(clients, client.id) == clients;
        return;
      }
      assert View().members[client.id].userID == client.userID;
      Unregister(client);
      var hasOther := HasUser(client.userID);
      if !hasOther {
        Withdraw(client.userID);
      }
    }

    /** A cursor update from the client, once decoded. */
    method Announce(client: Client, fileID: Uuid, cursor: Cursor)
      requires Valid()
      modifies awareness, clients.Values
      ensures Valid()
      ensures var p := Presence(client.userID, client.email, ColorForUser(client.userID), fileID, cursor);
              View() == R.Announce(old(View()), p)
    {
      ghost var before := View();
      var presence := awareness.SetPresence(client.userID, client.email, fileID, cursor);
      assert View() == before.(presences := before.presences[client.userID := presence]);
      Broadcast(R.Update(presence));
    }

    method Close()
      requires Valid()
      modifies this`clients, clients.Values
      ensures Valid() && View() == R.Close(old(View())) && clients == map[]
      ensures forall id :: id in old(clients) ==>
                old(clients)[id].cancelled && old(clients)[id].Box == After(old(clients[id].Box), Closed)
    {
      var all := clients;
      var todo := all.Keys;
      while todo != {}
        modifies all.Values
        invariant todo <= all.Keys
        invariant forall id :: id in all ==> all[id].id == id && all[id].Valid()
        invariant forall id :: id in all ==>
                    all[id].Box == if id in todo then old(all[id].Box) else After(old(all[id].Box), Closed)
      {
        var id :| id in todo;
        todo := todo - {id};
        all[id].Close();
      }
      clients := map[];
    }
  }

  /** The mailbox of each connection, by project and connection id. */
  type Boxes = map<(Uuid, Uuid), Mailbox<Note>>

  class Hub {
    var rooms: map<Uuid, Room>

    constructor ()
      ensures rooms == map[]
    {
      rooms := map[];
    }

    ghost function Connected(): set<Client>
      reads this, rooms.Values
    {
      set r, c | r in rooms.Values && c in r.clients.Values :: c
    }

    /** Each room is filed under its own project. */
    ghost predicate Valid()
      reads this, rooms.Values, set r | r in rooms.Values :: r.awareness, Connected()
    {
      forall p :: p in rooms ==> rooms[p].projectID == p && rooms[p].Valid()
    }

    method GetOrCreateRoom(projectID: Uuid) returns (room: Room)
      requires Valid()
      modifies this
      ensures Valid() && projectID in rooms && room == rooms[projectID]
      ensures rooms == old(rooms)[projectID := room]
      ensures if projectID in old(rooms) then room == old(rooms)[projectID] && room.View() == old(room.View())
              else fresh(room) && room.View() == R.Room(map[], map[])
    {
      if projectID in rooms {
        room := rooms[projectID];
        return;
      }
      room := new Room(projectID);
      rooms := rooms[projectID := room];
    }

    /** The room is looked up by the client, not in the registry: it need not be the registered one. */
    method RemoveClient(client: Client)
      requires client.room.Valid() && (client.id in client.room.clients ==> client.room.clients[client.id] == client)
      modifies this, client.room`clients, client.room.awareness, client.room.clients.Values
      ensures client.room.Valid() && client.room.clients == Without(old(client.room.clients), client.id)
      ensures client.room.View() == R.Leave(old(client.room.View()), client.id)
      ensures rooms == if client.room.clients == map[] then Without(old(rooms), client.room.projectID) else old(rooms)
    {
      client.room.Leave(client);
      if |client.room.clients| == 0 {
        rooms := Without(rooms, client.room.projectID);
      }
    }

    static lemma RoomsApart(all: map<Uuid, Room>, members: map<Uuid, map<Uuid, Client>>, p: Uuid)
      requires members.Keys == all.Keys && p in all
      requires forall q :: q in all ==> all[q].projectID == q
      requires forall q, id :: q in all && id in members[q] ==> members[q][id].room == all[q]
      ensures forall q :: q in all && q != p ==> all[q] != all[p]
      ensures forall q, id :: q in all && q != p && id in members[q] ==> members[q][id] !in members[p].Values
    {
    }

    /** Where a shutdown stands: rooms in `todo` are as they were, the others are empty and their clients closed. */
    static ghost predicate Closing(all: map<Uuid, Room>, members: map<Uuid, map<Uuid, Client>>, boxes: Boxes,
                                   connected: set<Client>, todo: set<Uuid>)
      reads all.Values, connected, set r | r in all.Values :: r.awareness
    {
      && members.Keys == all.Keys && todo <= all.Keys
      && (forall p :: p in all ==> all[p].projectID == p && members[p].Values <= connected)
      && (forall p, id :: p in all && id in members[p] ==> members[p][id].room == all[p])
      && (forall p :: p in all ==> all[p].clients == if p in todo then members[p] else map[])
      && (forall p, id :: p in todo && id in members[p] ==> members[p][id].id == id && members[p][id].Valid())
      && (forall p, id :: p in all && id in members[p] ==>
            (p, id) in boxes && members[p][id].Box == BoxAt(boxes, p, id, p in todo))
    }

    static ghost function BoxAt(boxes: Boxes, p: Uuid, id: Uuid, waiting: bool): Mailbox<Note>
      requires (p, id) in boxes
    {
      if waiting then boxes[(p, id)] else After(boxes[(p, id)], Closed)
    }

    static method CloseNext(all: map<Uuid, Room>, ghost members: map<Uuid, map<Uuid, Client>>, ghost boxes: Boxes,
                            ghost connected: set<Client>, ghost todo: set<Uuid>, p: Uuid, room: Room)
      requires Closing(all, members, boxes, connected, todo) && p in todo && all[p] == room && room.awareness.Valid()
      modifies room`clients, room.clients.Values
      ensures Closing(all, members, boxes, connected, todo - {p})
    {
      RoomsApart(all, members, p);
      room.Close();
    }

    lemma TakeBoxes() returns (boxes: Boxes)
      ensures forall p, id :: p in rooms && id in rooms[p].clients ==>
                (p, id) in boxes && boxes[(p, id)] == rooms[p].clients[id].Box
    {
      boxes := map p, id | p in rooms && id in rooms[p].clients :: (p, id) := rooms[p].clients[id].Box;
    }

    lemma ClosingStarts(members: map<Uuid, map<Uuid, Client>>, boxes: Boxes)
      requires Valid() && members == map p | p in rooms :: rooms[p].clients
      requires forall p, id :: p in rooms && id in rooms[p].clients ==>
                 (p, id) in boxes && boxes[(p, id)] == rooms[p].clients[id].Box
      ensures Closing(rooms, members, boxes, Connected(), rooms.Keys)
    {
      forall p, c | p in rooms && c in members[p].Values
        ensures c in Connected()
      {
        assert rooms[p] in rooms.Values && c in rooms[p].clients.Values;
      }
    }

    static method CloseAll(all: map<Uuid, Room>, ghost members: map<Uuid, map<Uuid, Client>>, ghost boxes: Boxes,
                           ghost connected: set<Client>)
      requires Closing(all, members, boxes, connected, all.Keys) && forall p :: p in all ==> all[p].awareness.Valid()
      modifies all.Values, connected
      ensures Closing(all, members, boxes, connected, {})
    {
      var todo := all.Keys;
      while todo != {}
        invariant Closing(all, members, boxes, connected, todo)
        invariant forall p :: p in all ==> all[p].awareness.Valid()
      {
        var p :| p in todo;
        CloseNext(all, members, boxes, connected, todo, p, all[p]);
        todo := todo - {p};
      }
    }

    /** What is left when no room waits. */
    static lemma AllClosed(all: map<Uuid, Room>, members: map<Uuid, map<Uuid, Client>>, boxes: Boxes,
                           connected: set<Client>)
      requires Closing(all, members, boxes, connected, {})
      ensures forall p :: p in all ==> p in members && all[p].clients == map[]
      ensures forall p, id :: p in all && id in members[p] ==>
                (p, id) in boxes && members[p][id].Box == After(boxes[(p, id)], Closed)
    {
    }

    /** Closes every registered room: every client ends closed and out of its room. */
    method Shutdown()
      requires Valid()
      modifies this, rooms.Values, Connected()
      ensures rooms == map[]
      ensures forall p :: p in old(rooms) ==> old(rooms)[p].clients == map[]
      ensures forall p, id :: p in old(rooms) && id in old(rooms[p].clients) ==>
                old(rooms[p].clients[id]).Box == After(old(rooms[p].clients[id].Box), Closed)
    {
      ghost var members: map<Uuid, map<Uuid, Client>> := map p | p in rooms :: rooms[p].clients;
      ghost var boxes := TakeBoxes();
      ClosingStarts(members, boxes);
      ghost var connected := Connected();
      CloseAll(rooms, members, boxes, connected);
      AllClosed(rooms, members, boxes, connected);
      rooms := map[];
    }
  }
}
