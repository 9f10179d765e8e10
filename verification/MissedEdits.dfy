/** Runs in which a client that was answered does miss an accepted edit: through the room of another project, through
    another room of its own project, and through a full buffer; and how the next sync_init makes up for it. */
module MissedEdits {
  import opened Uuids
  import opened Documents
  import opened EditProtocol
  import Mailboxes

  lemma {:induction false} Chain(s: State, first: seq<Step>, more: seq<Step>)
    requires ValidRun(s, first) && ValidRun(Run(s, first), more)
    ensures ValidRun(s, first + more) && Run(s, first + more) == Run(Run(s, first), more)
    decreases |first|
  {
    if first == [] {
      assert first + more == more;
    } else {
      assert (first + more)[1..] == first[1..] + more;
      Chain(Apply(s, first[0]), first[1..], more);
    }
  }

  lemma OneStep(s: State, step: Step)
    requires Enabled(s, step)
    ensures ValidRun(s, [step]) && Run(s, [step]) == Apply(s, step)
  {
    assert [step][1..] == [];
    assert Run(Apply(s, step), []) == Apply(s, step);
  }

  lemma TwoSteps(s: State, x: Step, y: Step)
    requires Enabled(s, x) && Enabled(Apply(s, x), y)
    ensures ValidRun(s, [x, y]) && Run(s, [x, y]) == Apply(Apply(s, x), y)
  {
    OneStep(s, x);
    OneStep(Apply(s, x), y);
    Chain(s, [x], [y]);
    assert [x, y] == [x] + [y];
  }

  lemma ThreeSteps(s: State, x: Step, y: Step, z: Step)
    requires Enabled(s, x) && Enabled(Apply(s, x), y) && Enabled(Apply(Apply(s, x), y), z)
    ensures ValidRun(s, [x, y, z]) && Run(s, [x, y, z]) == Apply(Apply(Apply(s, x), y), z)
  {
    OneStep(s, x);
    TwoSteps(Apply(s, x), y, z);
    Chain(s, [x], [y, z]);
    assert [x, y, z] == [x] + [y, z];
  }

  /** The client was answered for a file of its project, which holds an operation that is nowhere on the client's
      side. */
  predicate Misses(s: State, id: Uuid, f: Uuid, op: Op) {
    && id in s.clients && Owns(s, s.clients[id].project, f)
    && f in s.clients[id].covered
    && op in s.server[f] && op !in At(s.clients[id].docs, f) + Queued(s.clients[id].queue, f)
  }

  /** A newcomer brings one new operation and sends it. */
  function Bring(id: Uuid, project: Uuid, room: nat, f: Uuid, op: Op): seq<Step> {
    [Connect(id, project, room, map[f := {op}]), SendUpdate(id, f, {op}), Dispatch(id)]
  }

  /** Whoever is not relayed the newcomer's operation misses it: anyone in another room, and anyone whose Send
      refuses. */
  lemma BroughtIsMissed(s: State, other: Uuid, f: Uuid, op: Op, id: Uuid, project: Uuid, room: nat)
    requires NIL !in s.server && other in s.clients && id !in s.clients && Owns(s, s.clients[other].project, f)
    requires f in s.clients[other].covered && op !in At(s.clients[other].docs, f) + Queued(s.clients[other].queue, f)
    requires Enabled(s, Connect(id, project, room, map[f := {op}]))
    requires room != s.clients[other].room || !Takes(s.clients[other])
    ensures ValidRun(s, Bring(id, project, room, f, op))
    ensures var t := Run(s, Bring(id, project, room, f, op));
            && Misses(t, other, f, op)
            && t.clients[other] == s.clients[other].(missed := Learn(s.clients[other].missed, f, {op}))
            && id in t.clients && t.clients[id].project == project && t.clients[id].room == room
  {
    var steps := Bring(id, project, room, f, op);
    var a := Apply(s, steps[0]);
    var b := Apply(a, steps[1]);
    assert b.clients[id].outbox == [CrdtUpdate(f, Coded({op}))];
    ThreeSteps(s, steps[0], steps[1], steps[2]);
    UpdateEffect(b, id, b.clients[id].(outbox := b.clients[id].outbox[1..]), f, Coded({op}));
  }

  // ---- a client that is answered and has nothing

  const FILE: Uuid := 1
  const PROJECT: Uuid := 2

  function Empty(zeroBytes: bool): State {
    Start(map[FILE := {}], map[FILE := PROJECT], zeroBytes)
  }

  ghost predicate Answered(s: State) {
    && Inv(s) && s.server == map[FILE := {}] && s.owner == map[FILE := PROJECT]
    && s.clients.Keys == {1} && s.clients[1].project == PROJECT && s.clients[1].room == 0 && s.clients[1].outbox == []
    && FILE in s.clients[1].covered && Takes(s.clients[1]) && At(s.clients[1].docs, FILE) == {}
  }

  /** The same before the answer. */
  ghost predicate Asking(s: State) {
    && Inv(s) && s.server == map[FILE := {}] && s.owner == map[FILE := PROJECT] && s.clients.Keys == {1}
    && s.clients[1].project == PROJECT && s.clients[1].room == 0 && s.clients[1].queue == [] && s.clients[1].sent == 0
    && Takes(s.clients[1]) && At(s.clients[1].docs, FILE) == {}
    && |s.clients[1].outbox| == 1 && s.clients[1].outbox[0].SyncInit? && FILE in s.clients[1].outbox[0].vectors
  }

  lemma AskingIsAnswered(s: State)
    requires Asking(s)
    ensures Answered(Apply(s, Dispatch(1)))
  {
    StepKeeps(s, Dispatch(1));
    SyncInitRecovers(s, 1);
  }

  lemma FirstHandshake(zeroBytes: bool) returns (steps: seq<Step>)
    ensures ValidRun(Empty(zeroBytes), steps) && Answered(Run(Empty(zeroBytes), steps))
  {
    var s := Empty(zeroBytes);
    steps := [Connect(1, PROJECT, 0, map[]), SendSyncInit(1, {FILE}), Dispatch(1)];
    var a := Apply(s, steps[0]);
    var b := Apply(a, steps[1]);
    StepKeeps(s, steps[0]);
    StepKeeps(a, steps[1]);
    assert Asking(b);
    AskingIsAnswered(b);
    ThreeSteps(s, steps[0], steps[1], steps[2]);
  }

  /** A run that ends with a missed edit though the client's buffer has a place: the edit came through another room, be
      it another project's or a second one of the same project. */
  lemma OtherRoomMisses(zeroBytes: bool, project: Uuid) returns (steps: seq<Step>)
    ensures ValidRun(Empty(zeroBytes), steps)
    ensures var s := Run(Empty(zeroBytes), steps);
            && Misses(s, 1, FILE, Op(0, 0)) && Takes(s.clients[1]) && s.clients[1].outbox == []
            && 2 in s.clients && s.clients[2].project == project && s.clients[2].room != s.clients[1].room
  {
    var first := FirstHandshake(zeroBytes);
    var s := Run(Empty(zeroBytes), first);
    assert Good(s.server[FILE], s.clients[1], FILE);
    BroughtIsMissed(s, 1, FILE, Op(0, 0), 2, project, 1);
    Chain(Empty(zeroBytes), first, Bring(2, project, 1, FILE, Op(0, 0)));
    steps := first + Bring(2, project, 1, FILE, Op(0, 0));
  }

  /** The client that missed the edit asks again, and then has it in its document or its queue. */
  lemma NextSyncInitRecovers(zeroBytes: bool, project: Uuid) returns (steps: seq<Step>)
    ensures ValidRun(Empty(zeroBytes), steps)
    ensures var s := Run(Empty(zeroBytes), steps);
            && 1 in s.clients && FILE in s.server && Op(0, 0) in s.server[FILE]
            && FILE in s.clients[1].covered && At(s.clients[1].missed, FILE) == {}
            && Op(0, 0) in At(s.clients[1].docs, FILE) + Queued(s.clients[1].queue, FILE)
  {
    var first := OtherRoomMisses(zeroBytes, project);
    RunKeeps(Empty(zeroBytes), first);
    var s := Run(Empty(zeroBytes), first);
    var ask := SendSyncInit(1, {FILE});
    var a := Apply(s, ask);
    StepKeeps(s, ask);
    assert |a.clients[1].outbox| == 1 && a.clients[1].outbox[0].SyncInit? && FILE in a.clients[1].outbox[0].vectors;
    SyncInitRecovers(a, 1);
    TwoSteps(s, ask, Dispatch(1));
    Chain(Empty(zeroBytes), first, [ask, Dispatch(1)]);
    steps := first + [ask, Dispatch(1)];
  }

  // ---- filling a buffer

  /** The sender of empty deltas. */
  predicate Filling(s: State, id: Uuid) {
    id != 1 && 1 in s.clients && id in s.clients && s.clients[id].room == s.clients[1].room
        && s.clients[id].outbox == []
  }

  /** What filling leaves alone. */
  predicate Unmoved(s: State, t: State) {
    && t.server == s.server && t.owner == s.owner && t.clients.Keys == s.clients.Keys
    && 1 in s.clients && 1 in t.clients
    && (forall k :: k in s.clients ==>
          t.clients[k].room == s.clients[k].room && t.clients[k].project == s.clients[k].project)
    && t.clients[1].(queue := s.clients[1].queue) == s.clients[1]
    && Queued(t.clients[1].queue, FILE) == Queued(s.clients[1].queue, FILE)
  }

  lemma EmptyUpdate(s: State, id: Uuid, c: Client)
    requires FILE in s.server && id != 1 && 1 in s.clients && id in s.clients
    requires c.room == s.clients[1].room == s.clients[id].room && c.project == s.clients[id].project
               && Takes(s.clients[1])
    ensures var t := HandleUpdate(s, id, c, FILE, Coded({}));
            && t.server == s.server && t.owner == s.owner && t.clients.Keys == s.clients.Keys && t.clients[id] == c
            && t.clients[1] == s.clients[1].(queue := s.clients[1].queue + [Relay(FILE, Coded({}))])
            && forall k :: k in s.clients ==>
                  t.clients[k].room == s.clients[k].room && t.clients[k].project == s.clients[k].project
  {
    assert Accepted(s, FILE, Coded({}));
    UpdateEffect(s, id, c, FILE, Coded({}));
    assert s.server[FILE] + {} == s.server[FILE];
  }

  lemma EmptyDeltaEffect(s: State, id: Uuid)
    requires Filling(s, id) && FILE in s.server && Takes(s.clients[1])
    ensures var a := Apply(s, SendUpdate(id, FILE, {}));
            && Enabled(a, Dispatch(id))
            && var t := Apply(a, Dispatch(id));
               Filling(t, id) && Unmoved(s, t) && |t.clients[1].queue| == |s.clients[1].queue| + 1
  {
    var a := Apply(s, SendUpdate(id, FILE, {}));
    assert a.clients[id].outbox == [CrdtUpdate(FILE, Coded({}))];
    EmptyUpdate(a, id, a.clients[id].(outbox := []));
    QueuedAppend(s.clients[1].queue, Relay(FILE, Coded({})), FILE);
  }

  lemma OneEmptyDelta(s: State, id: Uuid)
    requires Filling(s, id) && FILE in s.server && Takes(s.clients[1])
    ensures var steps := [SendUpdate(id, FILE, {}), Dispatch(id)];
            && ValidRun(s, steps)
            && var t := Run(s, steps);
               Filling(t, id) && Unmoved(s, t) && |t.clients[1].queue| == |s.clients[1].queue| + 1
  {
    EmptyDeltaEffect(s, id);
    TwoSteps(s, SendUpdate(id, FILE, {}), Dispatch(id));
  }

  lemma {:induction false} FillBuffer(s: State, id: Uuid) returns (steps: seq<Step>)
    requires Filling(s, id) && FILE in s.server
    ensures ValidRun(s, steps)
    ensures var t := Run(s, steps); Unmoved(s, t) && !Takes(t.clients[1])
    decreases Mailboxes.SEND_BUFFER_SIZE - (|s.clients[1].queue| - s.clients[1].sent)
  {
    if !Takes(s.clients[1]) {
      steps := [];
    } else {
      OneEmptyDelta(s, id);
      var one := [SendUpdate(id, FILE, {}), Dispatch(id)];
      var rest := FillBuffer(Run(s, one), id);
      Chain(s, one, rest);
      steps := one + rest;
    }
  }

  /** A run after which the buffer of the answered client is full of relays and nothing is missed. */
  lemma BufferFills(zeroBytes: bool) returns (steps: seq<Step>)
    ensures ValidRun(Empty(zeroBytes), steps)
    ensures var s := Run(Empty(zeroBytes), steps);
            && NIL !in s.server && s.clients.Keys == {1, 2} && Owns(s, PROJECT, FILE) && s.clients[1].project == PROJECT
            && s.clients[1].room == s.clients[2].room == 0 && s.clients[2].project == PROJECT
            && FILE in s.clients[1].covered && At(s.clients[1].docs, FILE) + Queued(s.clients[1].queue, FILE) == {}
            && !s.clients[1].closed && !Takes(s.clients[1])
  {
    var first := FirstHandshake(zeroBytes);
    var s := Run(Empty(zeroBytes), first);
    assert Good(s.server[FILE], s.clients[1], FILE);
    var join := Connect(2, PROJECT, 0, map[]);
    OneStep(s, join);
    Chain(Empty(zeroBytes), first, [join]);
    var fill := FillBuffer(Apply(s, join), 2);
    Chain(Empty(zeroBytes), first + [join], fill);
    steps := first + [join] + fill;
  }

  /** A run that ends with a missed edit in one room: sixty-four relays fill the buffer, and the next is refused. */
  lemma FullBufferMisses(zeroBytes: bool) returns (steps: seq<Step>)
    ensures ValidRun(Empty(zeroBytes), steps)
    ensures var s := Run(Empty(zeroBytes), steps);
            && Misses(s, 1, FILE, Op(0, 0)) && !s.clients[1].closed
            && |s.clients[1].queue| - s.clients[1].sent == Mailboxes.SEND_BUFFER_SIZE
  {
    var fill := BufferFills(zeroBytes);
    BroughtIsMissed(Run(Empty(zeroBytes), fill), 1, FILE, Op(0, 0), 3, PROJECT, 0);
    Chain(Empty(zeroBytes), fill, Bring(3, PROJECT, 0, FILE, Op(0, 0)));
    steps := fill + Bring(3, PROJECT, 0, FILE, Op(0, 0));
    RunKeeps(Empty(zeroBytes), steps);
  }
}
