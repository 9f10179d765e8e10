/** Whole runs of the editing protocol for Typst files: clients connect to a room of their project with whatever they
    have, edit, send sync_init and crdt_update, the server dispatches one request at a time, and each client has a
    bounded queue of messages. Requests and messages in flight are part of the state. */
module EditProtocol {
  import opened Outcomes
  import opened Uuids
  import opened Documents
  import opened FileStore
  import opened YjsMerger
  import Mailboxes
  import opened SyncPlan

  datatype Request = SyncInit(vectors: Vectors) | CrdtUpdate(file: Uuid, delta: Bytes<Doc>)

  datatype Message = SyncResponse(instructions: map<Uuid, Instruction>) | Relay(file: Uuid, delta: Bytes<Doc>) | Failure

  datatype Client = Client(
    project: Uuid,             // the project the client works on
    room: nat,                 // the room it is in
    docs: map<Uuid, Doc>,      // local documents
    unsent: map<Uuid, Doc>,    // operations not yet handed to the connection
    outbox: seq<Request>,      // sent, not yet dispatched
    queue: seq<Message>,       // accepted by Send, not yet applied by the client
    sent: nat,                 // how many of them have left the server's buffer
    closed: bool,              // the connection's context is cancelled
    covered: set<Uuid>,        // files whose vector the server has answered, or that were downloaded since connecting
    missed: map<Uuid, Doc>)    // accepted updates it was not sent since the file was last answered or downloaded

  datatype State = State(
    server: map<Uuid, Doc>,    // the Typst files of every project
    owner: map<Uuid, Uuid>,    // the project of each file
    clients: map<Uuid, Client>,
    zeroBytes: bool)

  datatype Step =
    | Connect(client: Uuid, project: Uuid, room: nat, docs: map<Uuid, Doc>)
    | Disconnect(client: Uuid)
    | Edit(client: Uuid, file: Uuid, ops: Doc)
    | SendSyncInit(client: Uuid, files: set<Uuid>)
    | SendUpdate(client: Uuid, file: Uuid, ops: Doc)
    | Dispatch(client: Uuid)
    | Pump(client: Uuid)
    | Drain(client: Uuid)
    | Close(client: Uuid)

  function Learn(docs: map<Uuid, Doc>, f: Uuid, ops: Doc): map<Uuid, Doc> {
    docs[f := At(docs, f) + ops]
  }

  /** Whether `f` is a stored file of the project. */
  predicate Owns(s: State, project: Uuid, f: Uuid) {
    f in s.server && f in s.owner && s.owner[f] == project
  }

  // ---- the server's handlers

  /** Whether Send has a place: only messages the write pump has not taken yet count against the buffer. */
  predicate Takes(c: Client) {
    !c.closed && |c.queue| - c.sent < Mailboxes.SEND_BUFFER_SIZE
  }

  function Deliver(c: Client, m: Message): Client {
    if Takes(c) then c.(queue := c.queue + [m]) else c
  }

  /** The plan entry of one stored file for a client with these vectors. */
  function Planned(s: State, f: Uuid, vectors: Vectors): Result<Option<Instruction>>
    requires f in s.server
  {
    Resolve(ListedFile(f, TypstState(Coded(s.server[f]))), None, VectorFor(vectors, f),
            (state, vector) => ComputeDelta(s.zeroBytes, state, vector))
  }

  predicate Plannable(s: State, project: Uuid, vectors: Vectors) {
    forall f :: f in s.server && Owns(s, project, f) ==> Planned(s, f, vectors).Ok?
  }

  function Instructions(s: State, project: Uuid, vectors: Vectors): map<Uuid, Instruction>
    requires Plannable(s, project, vectors)
  {
    map f | f in s.server && Owns(s, project, f) && Planned(s, f, vectors).value.Some? ::
      Planned(s, f, vectors).value.value
  }

  /** The files of the project a non-empty vector was sent for. */
  function AnsweredFiles(s: State, project: Uuid, vectors: Vectors): set<Uuid> {
    set f | f in s.server && Owns(s, project, f) && !IsEmpty(VectorFor(vectors, f))
  }

  /** The client has been told all that is stored of these files. */
  function Informed(c: Client, files: set<Uuid>): Client {
    c.(covered := c.covered + files, missed := c.missed - files)
  }

  /** The client after the reply: a plan that answers every vector it sent for a file of its project, or a failure;
      nothing if Send refuses it. */
  function Answered(s: State, c: Client, vectors: Vectors): Client {
    if !Plannable(s, c.project, vectors) then Deliver(c, Failure)
    else if !Takes(c) then c
    else
      Informed(Deliver(c, SyncResponse(Instructions(s, c.project, vectors))), AnsweredFiles(s, c.project, vectors))
  }

  function HandleSyncInit(s: State, id: Uuid, c: Client, vectors: Vectors): State {
    s.(clients := s.clients[id := Answered(s, c, vectors)])
  }

  predicate Accepted(s: State, f: Uuid, delta: Bytes<Doc>) {
    f != NIL && !IsEmpty(delta) && f in s.server && MergeFile(Coded(s.server[f]), delta).Ok?
  }

  /** Persist, then relay the delta to everyone else in the sender's room. */
  function HandleUpdate(s: State, id: Uuid, c: Client, f: Uuid, delta: Bytes<Doc>): State {
    if !Accepted(s, f, delta) then
      s.(clients := s.clients[id := Deliver(c, Failure)])
    else
      s.(server := s.server[f := MergeFile(Coded(s.server[f]), delta).value.content],
         clients := map k | k in s.clients :: Relayed(s.clients[k], k, id, c, f, delta))
  }

  /** Whether the relay of an update by `sender` reaches the queue of `other`. */
  predicate Reaches(sender: Client, other: Client) {
    other.room == sender.room && Takes(other)
  }

  function Relayed(other: Client, k: Uuid, id: Uuid, c: Client, f: Uuid, delta: Bytes<Doc>): Client {
    if k == id then c
    else if Reaches(c, other) then Deliver(other, Relay(f, delta))
    else other.(missed := if delta.Coded? then Learn(other.missed, f, delta.content) else other.missed)
  }

  function Handle(s: State, id: Uuid, c: Client, r: Request): State {
    match r
    case SyncInit(vectors) => HandleSyncInit(s, id, c, vectors)
    case CrdtUpdate(f, delta) => HandleUpdate(s, id, c, f, delta)
  }

  // ---- the client

  /** Carrying out one message. A download fetches the stored state of the moment and merges it. */
  function Absorb(c: Client, m: Message, server: map<Uuid, Doc>): Client {
    match m
    case Failure => c
    case Relay(f, delta) => if delta.Coded? then c.(docs := Learn(c.docs, f, delta.content)) else c
    case SyncResponse(insts) =>
      Informed(c.(docs := map f | f in c.docs.Keys + insts.Keys :: At(c.docs, f) + Gained(insts, f, server)),
               Downloaded(insts, server))
  }

  function Downloaded(insts: map<Uuid, Instruction>, server: map<Uuid, Doc>): set<Uuid> {
    set f | f in insts && insts[f].action.Download? && f in server
  }

  function Gained(insts: map<Uuid, Instruction>, f: Uuid, server: map<Uuid, Doc>): Doc {
    if f !in insts then {}
    else if insts[f].action.Download? then At(server, f)
    else if insts[f].action.ApplyChanges? && insts[f].delta.Coded? then insts[f].delta.content
    else {}
  }

  predicate Enabled(s: State, step: Step) {
    match step
    case Connect(id, project, room, docs) =>
      id !in s.clients && forall k :: k in s.clients && s.clients[k].room == room ==> s.clients[k].project == project
    case Disconnect(id) => id in s.clients
    case Edit(id, f, ops) => id in s.clients
    case SendSyncInit(id, files) => id in s.clients
    case SendUpdate(id, f, ops) => id in s.clients && ops <= At(s.clients[id].docs, f)
    case Dispatch(id) => id in s.clients && s.clients[id].outbox != []
    case Pump(id) => id in s.clients && s.clients[id].sent < |s.clients[id].queue|
    case Drain(id) => id in s.clients && 0 < s.clients[id].sent <= |s.clients[id].queue|
    case Close(id) => id in s.clients
  }

  function Apply(s: State, step: Step): State
    requires Enabled(s, step)
  {
    match step
    case Connect(id, project, room, docs) =>
      s.(clients := s.clients[id := Client(project, room, docs, docs, [], [], 0, false, {}, map[])])
    case Disconnect(id) => s.(clients := Without(s.clients, id))
    case Edit(id, f, ops) =>
      var c := s.clients[id];
      s.(clients := s.clients[id := c.(docs := Learn(c.docs, f, ops), unsent := Learn(c.unsent, f, ops))])
    case SendSyncInit(id, files) =>
      var c := s.clients[id];
      s.(clients :=
          s.clients[id := c.(outbox := c.outbox + [SyncInit(map f | f in files :: Coded(VectorOf(At(c.docs, f))))])])
    case SendUpdate(id, f, ops) =>
      var c := s.clients[id];
      s.(clients := s.clients[id :=
          c.(outbox := c.outbox + [CrdtUpdate(f, Coded(ops))], unsent := c.unsent[f := At(c.unsent, f) - ops])])
    case Dispatch(id) =>
      var c := s.clients[id].(outbox := s.clients[id].outbox[1..]);
      Handle(s, id, c, s.clients[id].outbox[0])
    case Pump(id) => s.(clients := s.clients[id := s.clients[id].(sent := s.clients[id].sent + 1)])
    case Drain(id) =>
      var c := s.clients[id];
      s.(clients := s.clients[id := Absorb(Popped(c), c.queue[0], s.server)])
    case Close(id) => s.(clients := s.clients[id := s.clients[id].(closed := true)])
  }

  // ---- what the messages and requests in flight carry

  function Carried(m: Message, f: Uuid): Doc {
    match m
    case Failure => {}
    case Relay(g, delta) => if g == f && delta.Coded? then delta.content else {}
    case SyncResponse(insts) =>
      if f in insts && insts[f].action.ApplyChanges? && insts[f].delta.Coded? then insts[f].delta.content else {}
  }

  function Queued(queue: seq<Message>, f: Uuid): Doc {
    if queue == [] then {} else Carried(queue[0], f) + Queued(queue[1..], f)
  }

  function Sending(r: Request, f: Uuid): Doc {
    if r.CrdtUpdate? && r.file == f && r.delta.Coded? then r.delta.content else {}
  }

  function InFlight(outbox: seq<Request>, f: Uuid): Doc {
    if outbox == [] then {} else Sending(outbox[0], f) + InFlight(outbox[1..], f)
  }

  lemma {:induction false} QueuedAppend(queue: seq<Message>, m: Message, f: Uuid)
    ensures Queued(queue + [m], f) == Queued(queue, f) + Carried(m, f)
  {
    if queue != [] {
      assert (queue + [m])[1..] == queue[1..] + [m];
      QueuedAppend(queue[1..], m, f);
    }
  }

  lemma {:induction false} InFlightAppend(outbox: seq<Request>, r: Request, f: Uuid)
    ensures InFlight(outbox + [r], f) == InFlight(outbox, f) + Sending(r, f)
  {
    if outbox != [] {
      assert (outbox + [r])[1..] == outbox[1..] + [r];
      InFlightAppend(outbox[1..], r, f);
    }
  }

  // ---- the invariant, client by client and file by file

  /** Every vector in flight for `f` is the vector of something the client still has. */
  ghost predicate Honest(outbox: seq<Request>, f: Uuid, doc: Doc) {
    forall r :: r in outbox && r.SyncInit? && f in r.vectors ==> IsVectorOf(r.vectors[f], doc)
  }

  ghost predicate IsVectorOf(v: Bytes<StateVector>, doc: Doc) {
    exists sent :: sent <= doc && v == Coded(VectorOf(sent))
  }

  ghost predicate Good(stored: Doc, c: Client, f: Uuid) {
    var doc := At(c.docs, f);
    && (f in c.covered ==> stored <= doc + Queued(c.queue, f) + At(c.missed, f))
    && At(c.missed, f) <= stored
    && doc <= stored + At(c.unsent, f) + InFlight(c.outbox, f)
    && At(c.unsent, f) <= doc
    && InFlight(c.outbox, f) <= doc
    && Queued(c.queue, f) <= stored
    && Honest(c.outbox, f, doc)
  }

  ghost predicate Covering(s: State) {
    NIL !in s.server && forall id, f :: id in s.clients && Owns(s, s.clients[id].project, f) ==>
        Good(s.server[f], s.clients[id], f)
  }

  /** Every vector in flight is the encoding of some vector. */
  ghost predicate Encoded(outbox: seq<Request>) {
    forall r, f :: r in outbox && r.SyncInit? && f in r.vectors ==> r.vectors[f].Coded?
  }

  predicate BufferOk(c: Client) {
    0 <= |c.queue| - c.sent <= Mailboxes.SEND_BUFFER_SIZE
  }

  ghost predicate Inv(s: State) {
    && Covering(s)
    && (forall id :: id in s.clients ==> Encoded(s.clients[id].outbox))
    && (forall id :: id in s.clients ==> BufferOk(s.clients[id]))
  }

  lemma HonestMonotone(outbox: seq<Request>, f: Uuid, doc: Doc, doc': Doc)
    requires Honest(outbox, f, doc) && doc <= doc'
    ensures Honest(outbox, f, doc')
  {
    forall r | r in outbox && r.SyncInit? && f in r.vectors
      ensures IsVectorOf(r.vectors[f], doc')
    {
      var sent :| sent <= doc && r.vectors[f] == Coded(VectorOf(sent));
    }
  }

  lemma DeliverKeeps(stored: Doc, c: Client, m: Message, f: Uuid)
    requires Good(stored, c, f) && Carried(m, f) <= stored
    ensures Good(stored, Deliver(c, m), f)
  {
    QueuedAppend(c.queue, m, f);
  }

  lemma EditKeeps(stored: Doc, c: Client, f: Uuid, g: Uuid, ops: Doc)
    requires Good(stored, c, f)
    ensures Good(stored, c.(docs := Learn(c.docs, g, ops), unsent := Learn(c.unsent, g, ops)), f)
  {
    HonestMonotone(c.outbox, f, At(c.docs, f), At(Learn(c.docs, g, ops), f));
  }

  lemma SendSyncInitKeeps(stored: Doc, c: Client, f: Uuid, files: set<Uuid>)
    requires Good(stored, c, f)
    ensures Good(stored, c.(outbox := c.outbox + [SyncInit(map g | g in files :: Coded(VectorOf(At(c.docs, g))))]), f)
  {
    var r := SyncInit(map g | g in files :: Coded(VectorOf(At(c.docs, g))));
    InFlightAppend(c.outbox, r, f);
    forall x | x in c.outbox + [r] && x.SyncInit? && f in x.vectors
      ensures IsVectorOf(x.vectors[f], At(c.docs, f))
    {
      assert x in c.outbox || x == r;
    }
  }

  lemma SendUpdateKeeps(stored: Doc, c: Client, f: Uuid, g: Uuid, ops: Doc)
    requires Good(stored, c, f) && ops <= At(c.docs, g)
    ensures Good(stored,
              c.(outbox := c.outbox + [CrdtUpdate(g, Coded(ops))], unsent := c.unsent[g := At(c.unsent, g) - ops]), f)
  {
    InFlightAppend(c.outbox, CrdtUpdate(g, Coded(ops)), f);
    assert forall x :: x in c.outbox + [CrdtUpdate(g, Coded(ops))] && x.SyncInit? ==> x in c.outbox;
  }

  /** Taking a sync_init off the outbox. */
  lemma PopSyncInitKeeps(stored: Doc, c: Client, f: Uuid)
    requires Good(stored, c, f) && c.outbox != [] && c.outbox[0].SyncInit?
    ensures Good(stored, c.(outbox := c.outbox[1..]), f)
  {
    assert forall x :: x in c.outbox[1..] ==> x in c.outbox;
  }

  /** What the answer carries for one stored file: nothing unstored, and all that an honest vector lacks. */
  lemma AnswerCarries(s: State, project: Uuid, f: Uuid, vectors: Vectors, doc: Doc)
    requires Owns(s, project, f) && Plannable(s, project, vectors) && (f in vectors ==> IsVectorOf(vectors[f], doc))
    ensures var carried := Carried(SyncResponse(Instructions(s, project, vectors)), f);
            carried <= s.server[f] && (f in vectors ==> s.server[f] <= doc + carried)
  {
    if f in vectors {
      var sent :| sent <= doc && vectors[f] == Coded(VectorOf(sent));
      MissingCovers(s.server[f], sent, doc);
      assert Carried(SyncResponse(Instructions(s, project, vectors)), f) == Missing(s.server[f], VectorOf(sent));
    } else {
      assert Carried(SyncResponse(Instructions(s, project, vectors)), f) == {};
    }
  }

  /** Answering a vector covers the file: what is stored is in the client's document, in the answer, or in the queue
      before it. */
  lemma AnswerKeeps(s: State, c: Client, f: Uuid, vectors: Vectors)
    requires Owns(s, c.project, f) && Good(s.server[f], c, f) && Plannable(s, c.project, vectors)
    requires f in vectors ==> IsVectorOf(vectors[f], At(c.docs, f))
    ensures Good(s.server[f], Answered(s, c, vectors), f)
  {
    AnswerCarries(s, c.project, f, vectors, At(c.docs, f));
    QueuedAppend(c.queue, SyncResponse(Instructions(s, c.project, vectors)), f);
  }

  /** The sender's side of an accepted update. */
  lemma SenderKeeps(stored: Doc, c: Client, f: Uuid)
    requires Good(stored, c, f) && c.outbox != [] && c.outbox[0].CrdtUpdate?
    ensures Good(stored + Sending(c.outbox[0], f), c.(outbox := c.outbox[1..]), f)
  {
    assert forall x :: x in c.outbox[1..] ==> x in c.outbox;
  }

  /** Everyone else's side of an accepted update. */
  lemma RelayKeeps(stored: Doc, c: Client, f: Uuid, g: Uuid, delta: Bytes<Doc>)
    requires Good(stored, c, f) && delta.Coded? && Takes(c)
    ensures Good(stored + Carried(Relay(g, delta), f), Deliver(c, Relay(g, delta)), f)
  {
    QueuedAppend(c.queue, Relay(g, delta), f);
  }

  /** The message taken off the queue. */
  function Popped(c: Client): Client
    requires 0 < c.sent <= |c.queue|
  {
    c.(queue := c.queue[1..], sent := c.sent - 1)
  }

  lemma RelayAbsorbed(stored: Doc, c: Client, f: Uuid, server: map<Uuid, Doc>)
    requires Good(stored, c, f) && 0 < c.sent <= |c.queue| && !c.queue[0].SyncResponse?
    ensures Good(stored, Absorb(Popped(c), c.queue[0], server), f)
  {
    var c' := Absorb(Popped(c), c.queue[0], server);
    assert At(c'.docs, f) == At(c.docs, f) + Carried(c.queue[0], f);
    HonestMonotone(c.outbox, f, At(c.docs, f), At(c'.docs, f));
  }

  lemma ResponseAbsorbed(s: State, c: Client, f: Uuid)
    requires f in s.server && Good(s.server[f], c, f) && 0 < c.sent <= |c.queue| && c.queue[0].SyncResponse?
    ensures Good(s.server[f], Absorb(Popped(c), c.queue[0], s.server), f)
  {
    var c' := Absorb(Popped(c), c.queue[0], s.server);
    var insts := c.queue[0].instructions;
    assert At(c'.docs, f) == At(c.docs, f) + Gained(insts, f, s.server);
    assert Carried(c.queue[0], f) <= Gained(insts, f, s.server);
    assert f in Downloaded(insts, s.server) ==> Gained(insts, f, s.server) == s.server[f];
    HonestMonotone(c.outbox, f, At(c.docs, f), At(c'.docs, f));
  }

  lemma DrainKeeps(s: State, c: Client, f: Uuid)
    requires f in s.server && Good(s.server[f], c, f) && 0 < c.sent <= |c.queue|
    ensures Good(s.server[f], Absorb(Popped(c), c.queue[0], s.server), f)
  {
    if c.queue[0].SyncResponse? {
      ResponseAbsorbed(s, c, f);
    } else {
      RelayAbsorbed(s.server[f], c, f, s.server);
    }
  }

  /** A rejected request carries nothing for a stored file. */
  lemma PopRejectedKeeps(stored: Doc, c: Client, f: Uuid)
    requires Good(stored, c, f) && c.outbox != [] && Sending(c.outbox[0], f) == {}
    ensures Good(stored, c.(outbox := c.outbox[1..]), f)
  {
    assert forall x :: x in c.outbox[1..] ==> x in c.outbox;
  }

  // ---- every step keeps the invariant

  lemma SyncInitKeepsAt(s: State, before: Client, f: Uuid, vectors: Vectors)
    requires Owns(s, before.project, f) && Good(s.server[f], before, f) && before.outbox != []
               && before.outbox[0] == SyncInit(vectors)
    ensures Good(s.server[f], Answered(s, before.(outbox := before.outbox[1..]), vectors), f)
  {
    assert before.outbox[0] in before.outbox;
    var c := before.(outbox := before.outbox[1..]);
    PopSyncInitKeeps(s.server[f], before, f);
    if Plannable(s, c.project, vectors) {
      AnswerKeeps(s, c, f, vectors);
    } else {
      DeliverKeeps(s.server[f], c, Failure, f);
    }
  }

  lemma SyncInitKeeps(s: State, id: Uuid)
    requires Covering(s) && id in s.clients && s.clients[id].outbox != [] && s.clients[id].outbox[0].SyncInit?
    ensures Covering(Apply(s, Dispatch(id)))
  {
    var vectors := s.clients[id].outbox[0].vectors;
    forall f | Owns(s, s.clients[id].project, f)
      ensures Good(s.server[f], Answered(s, s.clients[id].(outbox := s.clients[id].outbox[1..]), vectors), f)
    {
      SyncInitKeepsAt(s, s.clients[id], f, vectors);
    }
  }

  /** What an accepted update does to the stored documents and to the clients. */
  lemma UpdateEffect(s: State, id: Uuid, c: Client, g: Uuid, delta: Bytes<Doc>)
    requires id in s.clients && Accepted(s, g, delta) && delta.Coded?
    ensures var s' := HandleUpdate(s, id, c, g, delta);
            && s'.server.Keys == s.server.Keys && s'.owner == s.owner && s'.clients.Keys == s.clients.Keys
            && (forall f :: f in s.server ==> s'.server[f] == s.server[f] + Carried(Relay(g, delta), f))
            && (forall k :: k in s.clients ==> s'.clients[k] == Relayed(s.clients[k], k, id, c, g, delta))
  {
  }

  /** A crdt_update is accepted exactly if it names a stored Typst file and its delta decodes. Rejected, it changes
      nothing but its author's queue, which gains the failure if it has a place; accepted, it leaves the author's queue
      alone. */
  lemma RejectedUpdateIff(s: State, id: Uuid)
    requires NIL !in s.server && Enabled(s, Dispatch(id)) && s.clients[id].outbox[0].CrdtUpdate?
    ensures var r, c := s.clients[id].outbox[0], s.clients[id].(outbox := s.clients[id].outbox[1..]);
            var s' := Apply(s, Dispatch(id));
            if r.file in s.server && r.delta.Coded? then
              s'.clients[id] == c && s'.server == s.server[r.file := s.server[r.file] + r.delta.content]
            else
              s' == s.(clients := s.clients[id := if Takes(c) then c.(queue := c.queue + [Failure]) else c])
  {
    var r, c := s.clients[id].outbox[0], s.clients[id].(outbox := s.clients[id].outbox[1..]);
    if Accepted(s, r.file, r.delta) {
      UpdateEffect(s, id, c, r.file, r.delta);
    }
  }

  /** A sync_init changes nothing but its author's queue, which gains one message if it has a place: the failure exactly
      if a vector for a file of the project does not decode, and otherwise the plan. */
  lemma SyncInitAnswers(s: State, id: Uuid)
    requires Enabled(s, Dispatch(id)) && s.clients[id].outbox[0].SyncInit?
    ensures var c, c' := s.clients[id], Apply(s, Dispatch(id)).clients[id]; var vectors := c.outbox[0].vectors;
            && Apply(s, Dispatch(id)) == s.(clients := s.clients[id := c'])
            && (!Takes(c) ==> c'.queue == c.queue)
            && (Takes(c) ==>
                  if exists f :: Owns(s, c.project, f) && f in vectors && vectors[f].Garbage? then
                    c'.queue == c.queue + [Failure]
                  else
                    Plannable(s, c.project, vectors)
                    && c'.queue == c.queue + [SyncResponse(Instructions(s, c.project, vectors))])
  {
    var c := s.clients[id];
    var vectors := c.outbox[0].vectors;
    forall f | Owns(s, c.project, f)
      ensures Planned(s, f, vectors).Ok? <==> !(f in vectors && vectors[f].Garbage?)
    {
    }
    if f :| Owns(s, c.project, f) && f in vectors && vectors[f].Garbage? {
      assert Planned(s, f, vectors).Err?;
    }
  }

  /** A client the relay does not reach misses the update, and nothing more. */
  lemma UnreachedKeeps(stored: Doc, other: Client, f: Uuid, g: Uuid, delta: Doc)
    requires Good(stored, other, f)
    ensures Good(stored + Carried(Relay(g, Coded(delta)), f), other.(missed := Learn(other.missed, g, delta)), f)
  {
  }

  lemma AcceptedKeeps(s: State, id: Uuid, before: Client, g: Uuid, delta: Bytes<Doc>)
    requires Covering(s) && id in s.clients && s.clients[id] == before && before.outbox != []
    requires before.outbox[0] == CrdtUpdate(g, delta) && Accepted(s, g, delta) && delta.Coded?
    ensures Covering(HandleUpdate(s, id, before.(outbox := before.outbox[1..]), g, delta))
  {
    var c := before.(outbox := before.outbox[1..]);
    var s' := HandleUpdate(s, id, c, g, delta);
    UpdateEffect(s, id, c, g, delta);
    forall k, f | k in s'.clients && Owns(s', s'.clients[k].project, f)
      ensures Good(s'.server[f], s'.clients[k], f)
    {
      assert Owns(s, s.clients[k].project, f);
      if k == id {
        SenderKeeps(s.server[f], before, f);
      } else if Reaches(c, s.clients[k]) {
        RelayKeeps(s.server[f], s.clients[k], f, g, delta);
      } else {
        UnreachedKeeps(s.server[f], s.clients[k], f, g, delta.content);
      }
    }
  }

  lemma RejectedCarriesNothing(s: State, g: Uuid, delta: Bytes<Doc>, f: Uuid)
    requires NIL !in s.server && f in s.server && !Accepted(s, g, delta)
    ensures Sending(CrdtUpdate(g, delta), f) == {}
  {
  }

  lemma RejectedKeepsAt(stored: Doc, before: Client, f: Uuid)
    requires Good(stored, before, f) && before.outbox != [] && Sending(before.outbox[0], f) == {}
    ensures Good(stored, Deliver(before.(outbox := before.outbox[1..]), Failure), f)
  {
    PopRejectedKeeps(stored, before, f);
    DeliverKeeps(stored, before.(outbox := before.outbox[1..]), Failure, f);
  }

  lemma RejectedKeeps(s: State, id: Uuid, before: Client, g: Uuid, delta: Bytes<Doc>)
    requires Covering(s) && id in s.clients && s.clients[id] == before && before.outbox != []
               && before.outbox[0] == CrdtUpdate(g, delta)
    requires !Accepted(s, g, delta)
    ensures Covering(HandleUpdate(s, id, before.(outbox := before.outbox[1..]), g, delta))
  {
    forall f | Owns(s, before.project, f)
      ensures Good(s.server[f], Deliver(before.(outbox := before.outbox[1..]), Failure), f)
    {
      RejectedCarriesNothing(s, g, delta, f);
      RejectedKeepsAt(s.server[f], before, f);
    }
  }

  lemma UpdateKeeps(s: State, id: Uuid, g: Uuid, delta: Bytes<Doc>)
    requires Covering(s) && id in s.clients && s.clients[id].outbox != []
               && s.clients[id].outbox[0] == CrdtUpdate(g, delta)
    ensures Covering(Apply(s, Dispatch(id)))
  {
    if Accepted(s, g, delta) {
      assert delta.Coded?;
      AcceptedKeeps(s, id, s.clients[id], g, delta);
    } else {
      RejectedKeeps(s, id, s.clients[id], g, delta);
    }
  }

  /** A step that only changes its own client, for the better. */
  lemma OwnClientKeeps(s: State, id: Uuid, after: Client)
    requires Covering(s)
    requires forall f :: Owns(s, after.project, f) ==> Good(s.server[f], after, f)
    ensures Covering(s.(clients := s.clients[id := after]))
  {
  }

  lemma ConnectionKeeps(s: State, step: Step)
    requires Covering(s) && Enabled(s, step) && (step.Connect? || step.Disconnect? || step.Pump? || step.Close?)
    ensures Covering(Apply(s, step))
  {
    match step
    case Connect(id, project, room, docs) => OwnClientKeeps(s, id, Apply(s, step).clients[id]);
    case Disconnect(id) =>
    case Pump(id) => OwnClientKeeps(s, id, s.clients[id].(sent := s.clients[id].sent + 1));
    case Close(id) => OwnClientKeeps(s, id, s.clients[id].(closed := true));
  }

  lemma EditorKeeps(s: State, step: Step)
    requires Covering(s) && Enabled(s, step) && (step.Edit? || step.SendSyncInit? || step.SendUpdate? || step.Drain?)
    ensures Covering(Apply(s, step))
  {
    var c, after := s.clients[step.client], Apply(s, step).clients[step.client];
    forall f | Owns(s, c.project, f)
      ensures Good(s.server[f], after, f)
    {
      match step
      case Edit(id, g, ops) => EditKeeps(s.server[f], c, f, g, ops);
      case SendSyncInit(id, files) => SendSyncInitKeeps(s.server[f], c, f, files);
      case SendUpdate(id, g, ops) => SendUpdateKeeps(s.server[f], c, f, g, ops);
      case Drain(id) => DrainKeeps(s, c, f);
    }
    OwnClientKeeps(s, step.client, after);
  }

  lemma UpdateOutbox(s: State, id: Uuid, c: Client, f: Uuid, delta: Bytes<Doc>, k: Uuid)
    requires id in s.clients && k in s.clients
    ensures k in HandleUpdate(s, id, c, f, delta).clients
    ensures HandleUpdate(s, id, c, f, delta).clients[k].outbox == if k == id then c.outbox else s.clients[k].outbox
  {
  }

  /** A dispatched request leaves its own outbox, and no other. */
  lemma DispatchOutbox(s: State, client: Uuid, id: Uuid)
    requires Enabled(s, Dispatch(client)) && id in s.clients
    ensures id in Apply(s, Dispatch(client)).clients
    ensures Apply(s, Dispatch(client)).clients[id].outbox
            == if id == client then s.clients[id].outbox[1..] else s.clients[id].outbox
  {
    var c := s.clients[client].(outbox := s.clients[client].outbox[1..]);
    match s.clients[client].outbox[0]
    case SyncInit(vectors) =>
    case CrdtUpdate(f, delta) => UpdateOutbox(s, client, c, f, delta, id);
  }

  lemma OutboxKeeps(s: State, step: Step, id: Uuid)
    requires Enabled(s, step) && id in Apply(s, step).clients
    requires id in s.clients ==> Encoded(s.clients[id].outbox)
    ensures Encoded(Apply(s, step).clients[id].outbox)
  {
    if id !in s.clients {
      assert Apply(s, step).clients[id].outbox == [];
    } else {
      var before, after := s.clients[id].outbox, Apply(s, step).clients[id].outbox;
      if step.Dispatch? {
        DispatchOutbox(s, step.client, id);
      } else if step.SendSyncInit? && step.client == id {
        assert after[..|before|] == before && |after| == |before| + 1;
      } else if step.SendUpdate? && step.client == id {
        assert after[..|before|] == before && after[|before|].CrdtUpdate? && |after| == |before| + 1;
      } else {
        assert after == before;
      }
    }
  }

  /** The server's buffer for a client never holds more than 64 messages, however many are on the wire. */
  lemma BufferKeeps(s: State, step: Step, id: Uuid)
    requires Enabled(s, step) && id in Apply(s, step).clients
    requires id in s.clients ==> BufferOk(s.clients[id])
    ensures BufferOk(Apply(s, step).clients[id])
  {
    if step.Dispatch? {
      DispatchBuffer(s, step.client, id);
    }
  }

  lemma DeliverBuffer(c: Client, m: Message)
    requires BufferOk(c)
    ensures BufferOk(Deliver(c, m))
  {
  }

  lemma AnsweredBuffer(s: State, c: Client, vectors: Vectors)
    requires BufferOk(c)
    ensures BufferOk(Answered(s, c, vectors))
  {
    if Plannable(s, c.project, vectors) {
      DeliverBuffer(c, SyncResponse(Instructions(s, c.project, vectors)));
    }
  }

  lemma UpdateBuffer(s: State, id: Uuid, c: Client, f: Uuid, delta: Bytes<Doc>, k: Uuid)
    requires id in s.clients && k in s.clients && BufferOk(s.clients[k]) && (k == id ==> BufferOk(c))
    ensures k in HandleUpdate(s, id, c, f, delta).clients && BufferOk(HandleUpdate(s, id, c, f, delta).clients[k])
  {
    DeliverBuffer(s.clients[k], Relay(f, delta));
  }

  lemma DispatchBuffer(s: State, client: Uuid, id: Uuid)
    requires Enabled(s, Dispatch(client)) && id in s.clients && BufferOk(s.clients[id])
    ensures id in Apply(s, Dispatch(client)).clients && BufferOk(Apply(s, Dispatch(client)).clients[id])
  {
    var c := s.clients[client].(outbox := s.clients[client].outbox[1..]);
    match s.clients[client].outbox[0]
    case SyncInit(vectors) =>
      if id == client {
        AnsweredBuffer(s, c, vectors);
      }
    case CrdtUpdate(f, delta) => UpdateBuffer(s, client, c, f, delta, id);
  }

  lemma StepKeeps(s: State, step: Step)
    requires Inv(s) && Enabled(s, step)
    ensures Inv(Apply(s, step))
  {
    forall id | id in Apply(s, step).clients {
      OutboxKeeps(s, step, id);
    }
    forall id | id in Apply(s, step).clients {
      BufferKeeps(s, step, id);
    }
    if step.Connect? || step.Disconnect? || step.Pump? || step.Close? {
      ConnectionKeeps(s, step);
    } else if !step.Dispatch? {
      EditorKeeps(s, step);
    } else if s.clients[step.client].outbox[0].SyncInit? {
      SyncInitKeeps(s, step.client);
    } else {
      var r := s.clients[step.client].outbox[0];
      UpdateKeeps(s, step.client, r.file, r.delta);
    }
  }

  // ---- runs

  predicate ValidRun(s: State, steps: seq<Step>)
    decreases |steps|
  {
    steps == [] || (Enabled(s, steps[0]) && ValidRun(Apply(s, steps[0]), steps[1..]))
  }

  function Run(s: State, steps: seq<Step>): State
    requires ValidRun(s, steps)
    decreases |steps|
  {
    if steps == [] then s else Run(Apply(s, steps[0]), steps[1..])
  }

  function Start(server: map<Uuid, Doc>, owner: map<Uuid, Uuid>, zeroBytes: bool): State {
    State(server, owner, map[], zeroBytes)
  }

  lemma {:induction false} RunKeeps(s: State, steps: seq<Step>)
    requires Inv(s) && ValidRun(s, steps)
    ensures Inv(Run(s, steps))
    decreases |steps|
  {
    if steps != [] {
      StepKeeps(s, steps[0]);
      RunKeeps(Apply(s, steps[0]), steps[1..]);
    }
  }

  /** In every run, for every client and every file of its project: nothing unstored is in its document but its own
      edits on their way, and nothing unstored waits for it. Once the server has answered the client for the file,
      everything stored is in the client's document, in its queue, or among the updates it was not sent since; so
      nothing is missing exactly if it has those updates all the same. */
  lemma NoAcceptedEditMissed(server: map<Uuid, Doc>, owner: map<Uuid, Uuid>, zeroBytes: bool, steps: seq<Step>,
                             id: Uuid, f: Uuid)
    requires NIL !in server && ValidRun(Start(server, owner, zeroBytes), steps)
    requires var s := Run(Start(server, owner, zeroBytes), steps);
             id in s.clients && Owns(s, s.clients[id].project, f)
    ensures var s := Run(Start(server, owner, zeroBytes), steps); var c := s.clients[id];
            && Queued(c.queue, f) <= s.server[f]
            && At(c.docs, f) <= s.server[f] + At(c.unsent, f) + InFlight(c.outbox, f)
            && (f in c.covered ==>
                  && s.server[f] <= At(c.docs, f) + Queued(c.queue, f) + At(c.missed, f)
                  && (s.server[f] <= At(c.docs, f) + Queued(c.queue, f)
                      <==> At(c.missed, f) <= At(c.docs, f) + Queued(c.queue, f)))
  {
    RunKeeps(Start(server, owner, zeroBytes), steps);
    var s := Run(Start(server, owner, zeroBytes), steps);
    assert Good(s.server[f], s.clients[id], f);
  }

  /** Nothing waits for the client, or passed it by, that it lacks; and nothing of its own waits that is not stored. A
      client that reconnects with a stored document is up to date without sending it again. */
  predicate UpToDate(s: State, c: Client, f: Uuid)
    requires f in s.server
  {
    && Queued(c.queue, f) <= At(c.docs, f)
    && At(c.missed, f) <= At(c.docs, f)
    && At(c.unsent, f) <= s.server[f]
    && InFlight(c.outbox, f) <= s.server[f]
  }

  /** In every run, a client that was answered for a file has exactly the stored document if and only if it is up to
      date. */
  lemma EqualIffUpToDate(server: map<Uuid, Doc>, owner: map<Uuid, Uuid>, zeroBytes: bool, steps: seq<Step>, id: Uuid,
                         f: Uuid)
    requires NIL !in server && ValidRun(Start(server, owner, zeroBytes), steps)
    requires var s := Run(Start(server, owner, zeroBytes), steps);
             id in s.clients && Owns(s, s.clients[id].project, f) && f in s.clients[id].covered
    ensures var s := Run(Start(server, owner, zeroBytes), steps);
            At(s.clients[id].docs, f) == s.server[f] <==> UpToDate(s, s.clients[id], f)
  {
    RunKeeps(Start(server, owner, zeroBytes), steps);
    var s := Run(Start(server, owner, zeroBytes), steps);
    assert Good(s.server[f], s.clients[id], f);
  }

  /** So any two up-to-date clients have the same document. */
  lemma UpToDateClientsAgree(server: map<Uuid, Doc>, owner: map<Uuid, Uuid>, zeroBytes: bool, steps: seq<Step>,
                             id: Uuid, other: Uuid, f: Uuid)
    requires NIL !in server && ValidRun(Start(server, owner, zeroBytes), steps)
    requires var s := Run(Start(server, owner, zeroBytes), steps);
             forall k :: k in {id, other} ==>
               && k in s.clients && Owns(s, s.clients[k].project, f)
               && f in s.clients[k].covered && UpToDate(s, s.clients[k], f)
    ensures var s := Run(Start(server, owner, zeroBytes), steps);
            At(s.clients[id].docs, f) == At(s.clients[other].docs, f)
  {
    EqualIffUpToDate(server, owner, zeroBytes, steps, id, f);
    EqualIffUpToDate(server, owner, zeroBytes, steps, other, f);
  }

  lemma EncodedVectorIsAnswered(s: State, f: Uuid, vectors: Vectors)
    requires f in s.server && (f in vectors ==> vectors[f].Coded?)
    ensures Planned(s, f, vectors).Ok?
    ensures f in vectors ==> !IsEmpty(VectorFor(vectors, f))
  {
  }

  /** A sync_init sent by a client is never rejected. If Send has a place for the response, then whatever happened
      before, every file of the project with a vector is covered, nothing is missed any more, and all that is stored is
      in the client's document or its queue; if not, the client only loses the request. */
  lemma SyncInitRecovers(s: State, id: Uuid)
    requires Inv(s) && id in s.clients && s.clients[id].outbox != [] && s.clients[id].outbox[0].SyncInit?
    ensures var c, after := s.clients[id], Apply(s, Dispatch(id)).clients[id]; var vectors := c.outbox[0].vectors;
            && Plannable(s, c.project, vectors)
            && (!Takes(c) ==> after == c.(outbox := c.outbox[1..]))
            && (Takes(c) ==> forall f :: Owns(s, c.project, f) && f in vectors ==>
                  && f in after.covered && At(after.missed, f) == {}
                  && s.server[f] <= At(after.docs, f) + Queued(after.queue, f))
  {
    var c, after := s.clients[id], Apply(s, Dispatch(id)).clients[id];
    var vectors := c.outbox[0].vectors;
    assert c.outbox[0] in c.outbox;
    forall f | f in s.server
      ensures Planned(s, f, vectors).Ok?
      ensures f in vectors ==> !IsEmpty(VectorFor(vectors, f))
    {
      EncodedVectorIsAnswered(s, f, vectors);
    }
    SyncInitKeeps(s, id);
    forall f | Takes(c) && Owns(s, c.project, f) && f in vectors
      ensures f in after.covered && At(after.missed, f) == {}
      ensures s.server[f] <= At(after.docs, f) + Queued(after.queue, f)
    {
      assert f in AnsweredFiles(s, c.project, vectors);
      assert Good(s.server[f], after, f);
    }
  }

  /** Stored edits are never taken back, and an accepted update is stored whole. */
  lemma StoredEditsStay(s: State, step: Step, f: Uuid)
    requires Enabled(s, step) && f in s.server
    ensures f in Apply(s, step).server && s.server[f] <= Apply(s, step).server[f]
    ensures step.Dispatch? && f != NIL ==> Sending(s.clients[step.client].outbox[0], f) <= Apply(s, step).server[f]
  {
  }

  // ---- what is missed, and when

  /** The update now dispatched for `client`, if it is accepted and does not reach `k`. */
  predicate PassesBy(s: State, client: Uuid, k: Uuid, f: Uuid)
    requires client in s.clients && s.clients[client].outbox != [] && k in s.clients
  {
    var r := s.clients[client].outbox[0];
    && r.CrdtUpdate? && r.file == f && r.delta.Coded? && Accepted(s, f, r.delta)
    && k != client && !Reaches(s.clients[client], s.clients[k])
  }

  /** What `k` misses of `f` when the request of `client` is dispatched. */
  function Passing(s: State, client: Uuid, k: Uuid, f: Uuid): Doc
    requires client in s.clients && s.clients[client].outbox != [] && k in s.clients
  {
    if PassesBy(s, client, k, f) then s.clients[client].outbox[0].delta.content else {}
  }

  /** An update adds its delta to what `k` has missed exactly if it is accepted and passes `k` by; a sync_init never
      adds anything. */
  lemma DispatchMisses(s: State, client: Uuid, k: Uuid, f: Uuid)
    requires Enabled(s, Dispatch(client)) && k in s.clients && k in Apply(s, Dispatch(client)).clients
    ensures var before, after := At(s.clients[k].missed, f), At(Apply(s, Dispatch(client)).clients[k].missed, f);
            if s.clients[client].outbox[0].CrdtUpdate?
            then after == before + Passing(s, client, k, f)
            else after <= before
  {
    var c := s.clients[client].(outbox := s.clients[client].outbox[1..]);
    match s.clients[client].outbox[0]
    case SyncInit(vectors) =>
      if k == client {
        AnswerMissesNothing(s, c, vectors, f);
      }
    case CrdtUpdate(g, delta) =>
      if Accepted(s, g, delta) {
        AcceptedMisses(s, client, c, g, delta, k, f);
      }
  }

  lemma AnswerMissesNothing(s: State, c: Client, vectors: Vectors, f: Uuid)
    ensures At(Answered(s, c, vectors).missed, f) <= At(c.missed, f)
  {
  }

  lemma AcceptedMisses(s: State, client: Uuid, c: Client, g: Uuid, delta: Bytes<Doc>, k: Uuid, f: Uuid)
    requires client in s.clients && k in s.clients && Accepted(s, g, delta)
    requires c.room == s.clients[client].room && c.missed == s.clients[client].missed
    ensures var after := HandleUpdate(s, client, c, g, delta).clients;
            && k in after
            && At(after[k].missed, f) == At(s.clients[k].missed, f)
                 + if k != client && !Reaches(s.clients[client], s.clients[k]) then Carried(Relay(g, delta), f) else {}
  {
    assert delta.Coded?;
    UpdateEffect(s, client, c, g, delta);
  }

  /** No other step makes a client miss anything; it starts with nothing missed. */
  lemma OtherStepsMissNothing(s: State, step: Step, k: Uuid, f: Uuid)
    requires Enabled(s, step) && !step.Dispatch? && k in Apply(s, step).clients
    ensures At(Apply(s, step).clients[k].missed, f) <= if k in s.clients then At(s.clients[k].missed, f) else {}
  {
  }

  /** What a full buffer and another room cost, whatever was missed before: when an accepted update passes an answered
      client by, all that is stored is still in its document or queue exactly if it has the delta and everything it
      missed earlier. */
  lemma UnrelayedMissesIff(s: State, id: Uuid, other: Uuid, g: Uuid, delta: Bytes<Doc>)
    requires Covering(s) && id in s.clients && other in s.clients && Owns(s, s.clients[other].project, g)
    requires s.clients[id].outbox != [] && s.clients[id].outbox[0] == CrdtUpdate(g, delta) && delta.Coded?
    requires g in s.clients[other].covered && PassesBy(s, id, other, g)
    ensures var s', before := Apply(s, Dispatch(id)), s.clients[other]; var after := s'.clients[other];
            s'.server[g] <= At(after.docs, g) + Queued(after.queue, g)
            <==> delta.content + At(before.missed, g) <= At(before.docs, g) + Queued(before.queue, g)
  {
    UpdateEffect(s, id, s.clients[id].(outbox := s.clients[id].outbox[1..]), g, delta);
    assert Good(s.server[g], s.clients[other], g);
  }
}
