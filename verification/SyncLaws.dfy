/** What the service guarantees across calls: with the Yjs engine, and for whole handshakes. */
module SyncLaws {
  import opened Outcomes
  import opened Uuids
  import opened Documents
  import opened MetadataModel
  import EntryMerge
  import opened YjsMerger
  import opened FileStore
  import opened MetadataEffects
  import opened SyncPlan
  import opened SyncService
  import opened YjsEngine
  import opened Repeats

  // ---- metadata updates through the engine

  lemma StoreEntriesValid(t: Table, projectID: Uuid)
    requires ValidTable(t)
    ensures ValidEntries(EntriesOf(t, projectID))
  {
  }

  lemma ReadsValid(client: FileMap)
    requires AllParse(client)
    ensures AllValid(ClientReads(client))
  {
    forall k | k in client
      ensures ValidEntry(ClientReads(client)[k])
    {
      assert ParseEntry(k, client[k]).Ok?;
    }
  }

  /** The engine answers every map that parses with its entries completed by the store's, in some order. */
  lemma AnswerYields(engine: Engine, t: Table, projectID: Uuid, delta: Bytes<FileMap>, client: FileMap)
    requires IsYjs(engine) && ValidTable(t) && DecodedFiles(delta) == Ok(client) && AllParse(client)
    ensures Answer(engine, t, projectID, delta, Nil).Ok?
    ensures Yields(t, projectID, ClientReads(client), Answer(engine, t, projectID, delta, Nil).value)
  {
    StoreEntriesValid(t, projectID);
    var server := EntriesOf(t, projectID);
    var answer := engine.syncEntries(server, delta, Nil);
    assert YjsAnswer(answer, server, delta, Nil);
    var order :| Iterates(order, Merged(client, server).Keys)
                 && LastWins(answer.value.1) == MergedEntries(client, server, order);
    MergedParsesIff(client, server);
    assert Iterates(order, Combined(t, projectID, ClientReads(client)).Keys);
  }

  /** What one steady delta asks for, and what it asks for again. */
  lemma SecondAnswerIsIdle(engine: Engine, t: Table, projectID: Uuid, delta: Bytes<FileMap>, client: FileMap)
    requires IsYjs(engine) && ValidTable(t) && DecodedFiles(delta) == Ok(client) && AllParse(client)
    requires Steady(t, projectID, ClientReads(client))
    ensures Answer(engine, t, projectID, delta, Nil).Ok?
    ensures var u := Applied(t, projectID, Answer(engine, t, projectID, delta, Nil).value);
            var again := Answer(engine, u, projectID, delta, Nil);
            again.Ok? && Idle(u, projectID, again.value) && Applied(u, projectID, again.value) == u
  {
    ReadsValid(client);
    AnswerYields(engine, t, projectID, delta, client);
    var a := Answer(engine, t, projectID, delta, Nil).value;
    var u := Applied(t, projectID, a);
    YieldedValid(t, projectID, ClientReads(client), a);
    MutatedKeepsValid(t, ProjectIds(t, projectID), a);
    AnswerYields(engine, u, projectID, delta, client);
    var b := Answer(engine, u, projectID, delta, Nil).value;
    SteadyRepeats(t, projectID, ClientReads(client), a, b);
    IdleChangesNothing(u, projectID, b);
  }

  /** ApplyMetadataUpdate with one delta twice, for any client map that parses and is steady: both calls succeed, and
      the second makes no call to the store and changes nothing. */
  lemma SameDeltaTwice(svc: Service, r: Result<()>, calls: seq<StoreCall>, r': Result<()>, calls': seq<StoreCall>,
                       t: Table, u: Table, u': Table, projectID: Uuid, delta: Bytes<FileMap>, client: FileMap)
    requires IsYjs(svc.engine) && ValidTable(t) && projectID != NIL && !IsEmpty(delta)
    requires DecodedFiles(delta) == Ok(client) && AllParse(client) && Steady(t, projectID, ClientReads(client))
    requires svc.Updated(r, calls, t, u, projectID, delta) && svc.Updated(r', calls', u, u', projectID, delta)
    ensures r.Ok? && r'.Ok? && calls' == [] && u' == u
  {
    SecondAnswerIsIdle(svc.engine, t, projectID, delta, client);
    var again := Answer(svc.engine, u, projectID, delta, Nil).value;
    NothingPerformed(calls', u, ProjectIds(u, projectID), again);
  }

  /** Maps in which no two keys disagree on an id are steady, canonical ones among them. */
  lemma WellSpelledIsSteady(t: Table, projectID: Uuid, client: FileMap)
    requires ValidTable(t) && AllParse(client)
    ensures EntryMerge.Unambiguous(Combined(t, projectID, ClientReads(client))) ==>
              Steady(t, projectID, ClientReads(client))
    ensures CanonicalMap(client) ==> EntryMerge.Unambiguous(Combined(t, projectID, ClientReads(client)))
  {
    UnambiguousIsSteady(t, projectID, ClientReads(client));
  }

  /** With keys that agree with the store's the engine's answer is the store's entries overridden by the client's. */
  lemma AlignedAnswer(engine: Engine, t: Table, projectID: Uuid, delta: Bytes<FileMap>, client: FileMap, a: EntryMap)
    requires IsYjs(engine) && ValidTable(t) && DecodedFiles(delta) == Ok(client) && AllParse(client)
    requires ReadsAs(t, projectID, ClientReads(client), a)
    ensures Answer(engine, t, projectID, delta, Nil) == Ok(UpdateEntries(t, projectID, a))
  {
    AnswerYields(engine, t, projectID, delta, client);
    AlignedYieldsUnion(t, projectID, ClientReads(client), a, Answer(engine, t, projectID, delta, Nil).value);
  }

  /** In particular for canonical maps. */
  lemma CanonicalAnswer(engine: Engine, t: Table, projectID: Uuid, delta: Bytes<FileMap>, client: FileMap)
    requires IsYjs(engine) && ValidTable(t) && DecodedFiles(delta) == Ok(client) && CanonicalMap(client)
    ensures ReadsAs(t, projectID, ClientReads(client), ClientEntries(client))
    ensures Answer(engine, t, projectID, delta, Nil) == Ok(UpdateEntries(t, projectID, ClientEntries(client)))
  {
    CanonicalReadsAs(t, projectID, ClientReads(client));
    AlignedAnswer(engine, t, projectID, delta, client, ClientEntries(client));
  }

  /** The table after one successful metadata update. */
  function Then(engine: Engine, t: Table, projectID: Uuid, delta: Bytes<FileMap>): Result<Table> {
    match Answer(engine, t, projectID, delta, Nil)
    case Err(e) => Err(e)
    case Ok(m) => Ok(Mutated(t, ProjectIds(t, projectID), m))
  }

  lemma ThenIsUpdate(engine: Engine, t: Table, projectID: Uuid, delta: Bytes<FileMap>, client: FileMap, a: EntryMap)
    requires IsYjs(engine) && ValidTable(t) && DecodedFiles(delta) == Ok(client) && AllParse(client)
    requires ReadsAs(t, projectID, ClientReads(client), a)
    ensures Then(engine, t, projectID, delta) == Ok(Update(t, projectID, a))
    ensures ValidTable(Update(t, projectID, a)) && ValidEntries(a)
    ensures ProjectIds(Update(t, projectID, a), projectID) <= ProjectIds(t, projectID)
  {
    ReadsValid(client);
    SameEntriesValid(ClientReads(client), a);
    AlignedAnswer(engine, t, projectID, delta, client, a);
    UpdateKeepsValid(t, projectID, a);
  }

  /** Two deltas applied through ApplyMetadataUpdate commute exactly when they agree on the files both mention; for any
      maps whose keys agree with the store's, canonical or not. */
  lemma DeltasCommuteIff(engine: Engine, t: Table, projectID: Uuid, delta: Bytes<FileMap>, client: FileMap, a: EntryMap,
                         delta': Bytes<FileMap>, client': FileMap, b: EntryMap)
    requires IsYjs(engine) && ValidTable(t)
    requires DecodedFiles(delta) == Ok(client) && AllParse(client) && ReadsAs(t, projectID, ClientReads(client), a)
    requires DecodedFiles(delta') == Ok(client') && AllParse(client') && ReadsAs(t, projectID, ClientReads(client'), b)
    ensures Then(engine, t, projectID, delta).Ok? && Then(engine, t, projectID, delta').Ok?
    ensures Then(engine, Then(engine, t, projectID, delta).value, projectID, delta')
            == Then(engine, Then(engine, t, projectID, delta').value, projectID, delta)
            <==> forall id :: id in ProjectIds(t, projectID) && id in a && id in b ==> Agree(a[id], b[id])
  {
    SecondUpdate(engine, t, projectID, delta, client, a, delta', client', b);
    SecondUpdate(engine, t, projectID, delta', client', b, delta, client, a);
    CommuteIff(t, projectID, a, b);
  }

  lemma SecondUpdate(engine: Engine, t: Table, projectID: Uuid, delta: Bytes<FileMap>, client: FileMap, a: EntryMap,
                     delta': Bytes<FileMap>, client': FileMap, b: EntryMap)
    requires IsYjs(engine) && ValidTable(t)
    requires DecodedFiles(delta) == Ok(client) && AllParse(client) && ReadsAs(t, projectID, ClientReads(client), a)
    requires DecodedFiles(delta') == Ok(client') && AllParse(client') && ReadsAs(t, projectID, ClientReads(client'), b)
    ensures ValidEntries(a) && Then(engine, t, projectID, delta) == Ok(Update(t, projectID, a))
    ensures Then(engine, Update(t, projectID, a), projectID, delta')
              == Ok(Update(Update(t, projectID, a), projectID, b))
  {
    ThenIsUpdate(engine, t, projectID, delta, client, a);
    var u := Update(t, projectID, a);
    AlignmentSurvives(t, u, projectID, ClientReads(client'), b);
    ThenIsUpdate(engine, u, projectID, delta', client', b);
  }

  // ---- sync_init through the engine

  /** The answer to no client delta is the store's own entries. */
  lemma AnswerToNothing(engine: Engine, t: Table, projectID: Uuid, vector: Bytes<StateVector>, client: FileMap)
    requires IsYjs(engine) && ValidTable(t) && (IsEmpty(vector) || vector.Coded?)
    requires |client| == 0 && DecodedFiles(Nil) == Ok(client)
    ensures Answer(engine, t, projectID, Nil, vector) == Ok(EntriesOf(t, projectID))
  {
    StoreEntriesValid(t, projectID);
    var server := EntriesOf(t, projectID);
    NothingFromClient(client);
    var answer := engine.syncEntries(server, Nil, vector);
    assert YjsAnswer(answer, server, Nil, vector);
    var order :| Iterates(order, Merged(client, server).Keys)
                 && LastWins(answer.value.1) == MergedEntries(client, server, order);
    EmptyDeltaIsIdentity(client, server, order);
  }

  lemma OwnEntriesAreInert(t: Table, projectID: Uuid)
    requires ValidTable(t)
    ensures Mutated(t, ProjectIds(t, projectID), EntriesOf(t, projectID)) == t
    ensures ActiveIds(EntriesOf(t, projectID)) == ProjectIds(t, projectID)
  {
  }

  lemma RejectedVector(engine: Engine, t: Table, projectID: Uuid, vector: Bytes<StateVector>)
    requires IsYjs(engine) && ValidTable(t) && Answer(engine, t, projectID, Nil, vector).Ok?
    ensures IsEmpty(vector) || vector.Coded?
  {
    StoreEntriesValid(t, projectID);
    assert YjsAnswer(engine.syncEntries(EntriesOf(t, projectID), Nil, vector), EntriesOf(t, projectID), Nil, vector);
  }

  /** What goes back to the sender of any delta and vector the engine accepts. */
  lemma AnswerReplies(engine: Engine, t: Table, projectID: Uuid, delta: Bytes<FileMap>, vector: Bytes<StateVector>)
    requires IsYjs(engine) && ValidTable(t) && Answer(engine, t, projectID, delta, vector).Ok?
    ensures Replies(AnswerDelta(engine, t, projectID, delta, vector).value,
              Answer(engine, t, projectID, delta, vector).value, vector, !IsEmpty(delta))
  {
    StoreEntriesValid(t, projectID);
    var server, client := EntriesOf(t, projectID), DecodedFiles(delta).value;
    var answer := engine.syncEntries(server, delta, vector);
    assert YjsAnswer(answer, server, delta, vector);
    var order :| Iterates(order, Merged(client, server).Keys)
                 && LastWins(answer.value.1) == MergedEntries(client, server, order);
    MergedParsesIff(client, server);
    DeltaReplies(Merged(client, server), order, vector, !IsEmpty(delta));
  }

  /** With the concrete engine a successful sync_init replies to a vector with what its sender lacks of a map that
      reads, in every order, as exactly the store's entries for the project; without a vector it sends no metadata. */
  lemma SyncInitReplies(svc: Service, r: Result<Response>, rows: seq<ListedFile>, t: Table, u: Table, projectID: Uuid,
                        vector: Bytes<StateVector>, vectors: Vectors)
    requires IsYjs(svc.engine) && ValidTable(t) && svc.Synced(r, rows, t, u, projectID, vector, vectors) && r.Ok?
    ensures Replies(r.value.metadataDelta, EntriesOf(t, projectID), vector, false)
    ensures vector.Coded? ==>
              EntryMerge.EveryOrderYields(ClientReads(r.value.metadataDelta.content.files), EntriesOf(t, projectID))
  {
    AnswerReplies(svc.engine, t, projectID, Nil, vector);
    RejectedVector(svc.engine, t, projectID, vector);
    AnswerToNothing(svc.engine, t, projectID, vector, map[]);
    if vector.Coded? {
      StoreEntriesValid(t, projectID);
      StoreMapReads(EntriesOf(t, projectID));
    }
  }

  lemma StoreMapReadsIn(server: EntryMap, order: seq<string>)
    requires ValidEntries(server) && AllParse(Merged(map[], server)) && Iterates(order, Merged(map[], server).Keys)
    ensures EntryMerge.Aggregate(ClientReads(Merged(map[], server)), order) == server
  {
    EmptyDeltaIsIdentity(map[], server, order);
  }

  /** The map the engine makes of the store's entries alone reads as them in every order. */
  lemma StoreMapReads(server: EntryMap)
    requires ValidEntries(server)
    ensures AllParse(Merged(map[], server)) && EntryMerge.EveryOrderYields(ClientReads(Merged(map[], server)), server)
  {
    MergedParsesIff(map[], server);
    forall order | Iterates(order, Merged(map[], server).Keys) {
      StoreMapReadsIn(server, order);
    }
  }

  /** sync_init sends the engine no client delta: the table stays as it is, and the plan is made for the store's own
      entries. */
  lemma SyncInitOnlyReads(svc: Service, r: Result<Response>, rows: seq<ListedFile>, t: Table, u: Table, projectID: Uuid,
                          vector: Bytes<StateVector>, vectors: Vectors)
    requires IsYjs(svc.engine) && ValidTable(t) && svc.Synced(r, rows, t, u, projectID, vector, vectors)
    ensures u == t
    ensures r.Ok? ==> IsListing(rows, t, projectID)
                      && ExactPlan(r.value.instructions, rows, EntriesOf(t, projectID), vectors,
                            svc.engine.computeDelta)
  {
    if projectID != NIL && Answer(svc.engine, t, projectID, Nil, vector).Ok? {
      RejectedVector(svc.engine, t, projectID, vector);
      AnswerToNothing(svc.engine, t, projectID, vector, map[]);
      OwnEntriesAreInert(t, projectID);
    }
  }

  /** Nor does it make any call that writes to the store. */
  lemma SyncInitWritesNothing(svc: Service, calls: seq<StoreCall>, t: Table, projectID: Uuid,
                              vector: Bytes<StateVector>)
    requires IsYjs(svc.engine) && ValidTable(t) && svc.Called(calls, t, projectID, Nil, vector)
    ensures calls == []
  {
    if projectID != NIL && Answer(svc.engine, t, projectID, Nil, vector).Ok? {
      RejectedVector(svc.engine, t, projectID, vector);
      AnswerToNothing(svc.engine, t, projectID, vector, map[]);
      OwnEntriesNeedNothing(t, projectID);
      NothingPerformed(calls, t, ProjectIds(t, projectID), EntriesOf(t, projectID));
    }
  }

  lemma OwnEntriesNeedNothing(t: Table, projectID: Uuid)
    requires ValidTable(t)
    ensures Idle(t, projectID, EntriesOf(t, projectID))
  {
  }

  lemma ListedIffOwned(rows: seq<ListedFile>, t: Table, projectID: Uuid, id: Uuid)
    requires IsListing(rows, t, projectID)
    ensures IsListed(rows, id) <==> id in ProjectIds(t, projectID)
  {
    if IsListed(rows, id) {
      var f :| f in rows && f.id == id;
      var i :| 0 <= i < |rows| && rows[i] == f;
    }
    if id in ProjectIds(t, projectID) {
      var i :| 0 <= i < |rows| && rows[i].id == id;
      assert rows[i] in rows;
    }
  }

  /** So no sync_init through the concrete engine asks for an upload. */
  lemma NoUploadArises(svc: Service, r: Result<Response>, rows: seq<ListedFile>, t: Table, u: Table, projectID: Uuid,
                       vector: Bytes<StateVector>, vectors: Vectors, inst: Instruction)
    requires IsYjs(svc.engine) && ValidTable(t) && svc.Synced(r, rows, t, u, projectID, vector, vectors)
    requires r.Ok? && inst in r.value.instructions
    ensures !inst.action.Upload?
  {
    SyncInitOnlyReads(svc, r, rows, t, u, projectID, vector, vectors);
    OwnEntriesAreInert(t, projectID);
    ListedIffOwned(rows, t, projectID, inst.fileID);
    assert Deserves(inst, rows, EntriesOf(t, projectID), vectors, svc.engine.computeDelta);
  }

  /** And every file of the project without a client vector is downloaded, at this and every later sync_init that
      sends none for it: binary files, which have none, always. */
  lemma UnknownIsDownloaded(svc: Service, r: Result<Response>, rows: seq<ListedFile>, t: Table, u: Table,
                            projectID: Uuid, vector: Bytes<StateVector>, vectors: Vectors, id: Uuid)
    requires IsYjs(svc.engine) && ValidTable(t) && svc.Synced(r, rows, t, u, projectID, vector, vectors)
    requires r.Ok? && id in ProjectIds(t, projectID)
    ensures Instruction(Download, id, Nil) in r.value.instructions <==> IsEmpty(VectorFor(vectors, id))
  {
    SyncInitOnlyReads(svc, r, rows, t, u, projectID, vector, vectors);
    ListedIffOwned(rows, t, projectID, id);
    assert !EntriesOf(t, projectID)[id].isDeleted;
    assert Instruction(Download, id, Nil) in r.value.instructions
      <==> Deserves(Instruction(Download, id, Nil), rows, EntriesOf(t, projectID), vectors, svc.engine.computeDelta);
  }

  /** After any successful sync_init, whatever the engine: computed from the listing taken before deletions, the plan
      still fits the table after them. What is to be downloaded or patched is stored, in the project; what is to be
      uploaded is not in the project, and is absent altogether exactly if no other project uses the id. */
  lemma PlanFitsTable(svc: Service, r: Result<Response>, rows: seq<ListedFile>, t: Table, u: Table, projectID: Uuid,
                      vector: Bytes<StateVector>, vectors: Vectors, inst: Instruction)
    requires ValidTable(t) && svc.Synced(r, rows, t, u, projectID, vector, vectors)
    requires r.Ok? && inst in r.value.instructions
    ensures if inst.action.Upload? then
              inst.fileID !in ProjectIds(u, projectID)
              && (inst.fileID in u <==> inst.fileID in t && t[inst.fileID].projectID != projectID)
            else
              inst.fileID in ProjectIds(u, projectID)
  {
    var m := Answer(svc.engine, t, projectID, Nil, vector).value;
    assert Deserves(inst, rows, m, vectors, svc.engine.computeDelta);
    ListedIffOwned(rows, t, projectID, inst.fileID);
    if inst.action.ApplyChanges? {
      assert IsListed(rows, inst.fileID);
    }
  }

  // ---- when the engine refuses

  /** With the concrete engine a sync_init fails exactly for the nil project, a metadata vector that does not decode, or
      a Typst file of the project with a vector, where the vector or the stored state does not decode. */
  lemma SyncInitSucceedsIff(svc: Service, r: Result<Response>, rows: seq<ListedFile>, t: Table, u: Table,
                            projectID: Uuid, vector: Bytes<StateVector>, vectors: Vectors, zeroBytes: bool)
    requires IsYjs(svc.engine) && IsYjsDelta(svc.engine.computeDelta, zeroBytes) && ValidTable(t)
    requires svc.Synced(r, rows, t, u, projectID, vector, vectors)
    ensures r.Ok? <==> projectID != NIL && !vector.Garbage? && forall id :: Scanned(t, projectID, vectors, id) ==>
                         !vectors[id].Garbage? && !t[id].payload.state.Garbage?
  {
    if projectID != NIL && !vector.Garbage? {
      AnswerToNothing(svc.engine, t, projectID, vector, map[]);
      PlanSucceedsIff(rows, t, projectID, vectors, svc.engine.computeDelta, zeroBytes);
    } else if projectID != NIL && Answer(svc.engine, t, projectID, Nil, vector).Ok? {
      RejectedVector(svc.engine, t, projectID, vector);
    }
  }

  lemma PlanSucceedsIff(rows: seq<ListedFile>, t: Table, projectID: Uuid, vectors: Vectors, compute: DeltaFunction,
                        zeroBytes: bool)
    requires ValidTable(t) && IsListing(rows, t, projectID) && IsYjsDelta(compute, zeroBytes)
    ensures ServerPlan(rows, EntriesOf(t, projectID), vectors, compute).Ok?
            <==> forall id :: Scanned(t, projectID, vectors, id) ==>
                   !vectors[id].Garbage? && !t[id].payload.state.Garbage?
  {
    var m := EntriesOf(t, projectID);
    forall id | Scanned(t, projectID, vectors, id)
      ensures exists row :: row in rows && row.id == id
    {
      ListedIffOwned(rows, t, projectID, id);
    }
    forall row | row in rows
      ensures Resolve(row, Lookup(m, row.id), VectorFor(vectors, row.id), compute).Err?
              <==> Scanned(t, projectID, vectors, row.id)
                   && (vectors[row.id].Garbage? || t[row.id].payload.state.Garbage?)
    {
      RowFailsIff(rows, t, projectID, vectors, compute, zeroBytes, row);
    }
  }

  lemma RowFailsIff(rows: seq<ListedFile>, t: Table, projectID: Uuid, vectors: Vectors, compute: DeltaFunction,
                    zeroBytes: bool, row: ListedFile)
    requires ValidTable(t) && IsListing(rows, t, projectID) && IsYjsDelta(compute, zeroBytes) && row in rows
    ensures Resolve(row, Lookup(EntriesOf(t, projectID), row.id), VectorFor(vectors, row.id), compute).Err?
            <==> Scanned(t, projectID, vectors, row.id)
                 && (vectors[row.id].Garbage? || t[row.id].payload.state.Garbage?)
  {
    var i :| 0 <= i < |rows| && rows[i] == row;
    assert !EntriesOf(t, projectID)[row.id].isDeleted;
    if row.payload.TypstState? {
      CopyDecodes(row.payload.state);
    }
  }

  /** The Typst files of the project for which the client sent a vector. */
  predicate Scanned(t: Table, projectID: Uuid, vectors: Vectors, id: Uuid) {
    id in t && t[id].projectID == projectID && t[id].payload.TypstState? && id in vectors && !IsEmpty(vectors[id])
  }

  /** The bytes stand for the document. */
  predicate Stands(b: Bytes<Doc>, d: Doc) {
    b == Coded(d) || (IsEmpty(b) && d == {})
  }

  /** With the concrete engine an update of a file is taken exactly if the file is Typst and both its state and the
      delta decode, and then the state becomes their union and nothing else changes. */
  lemma UpdateIsUnion(svc: Service, t: Table, f: Uuid, delta: Bytes<Doc>, stored: Doc, ops: Doc)
    requires forall state, d :: svc.engine.mergeFile(state, d) == MergeFile(state, d)
    ensures svc.Accepts(t, f, delta)
            <==> f in t && t[f].payload.TypstState? && !t[f].payload.state.Garbage? && !delta.Garbage?
    ensures svc.Accepts(t, f, delta) && Stands(t[f].payload.state, stored) && Stands(delta, ops) ==>
              svc.Accepted(t, f, delta) == t[f := t[f].(payload := TypstState(Coded(stored + ops)))]
  {
  }

  // ---- one handshake suffices

  function VectorsOf(docs: map<Uuid, Doc>): Vectors {
    map id | id in docs :: Coded(VectorOf(docs[id]))
  }

  /** What the client holds after carrying out one instruction on its Typst documents. */
  function Execute(docs: map<Uuid, Doc>, inst: Instruction, server: map<Uuid, Doc>): map<Uuid, Doc> {
    match inst.action
    case Download => if inst.fileID in server then docs[inst.fileID := server[inst.fileID]] else docs
    case ApplyChanges =>
      if inst.delta.Coded? then docs[inst.fileID := At(docs, inst.fileID) + inst.delta.content] else docs
    case Upload => docs
  }

  function ExecuteAll(docs: map<Uuid, Doc>, plan: seq<Instruction>, server: map<Uuid, Doc>): map<Uuid, Doc> {
    if plan == [] then docs
    else Execute(ExecuteAll(docs, plan[..|plan| - 1], server), plan[|plan| - 1], server)
  }

  lemma {:induction false} Untargeted(docs: map<Uuid, Doc>, plan: seq<Instruction>, server: map<Uuid, Doc>, id: Uuid)
    requires forall inst :: inst in plan ==> inst.fileID != id
    ensures id in ExecuteAll(docs, plan, server) <==> id in docs
    ensures At(ExecuteAll(docs, plan, server), id) == At(docs, id)
  {
    if plan != [] {
      assert plan[|plan| - 1] in plan;
      Untargeted(docs, plan[..|plan| - 1], server, id);
    }
  }

  lemma {:induction false} Targeted(docs: map<Uuid, Doc>, plan: seq<Instruction>, server: map<Uuid, Doc>,
                                    inst: Instruction)
    requires DistinctTargets(plan) && inst in plan
    ensures inst.fileID in ExecuteAll(docs, plan, server) <==> inst.fileID in Execute(docs, inst, server)
    ensures At(ExecuteAll(docs, plan, server), inst.fileID) == At(Execute(docs, inst, server), inst.fileID)
  {
    var front, last := plan[..|plan| - 1], plan[|plan| - 1];
    if inst == last {
      Untargeted(docs, front, server, inst.fileID);
    } else {
      assert inst in front && inst.fileID != last.fileID;
      Targeted(docs, front, server, inst);
    }
  }

  /** The decodable Typst documents of the project. */
  ghost predicate Stored(t: Table, projectID: Uuid, server: map<Uuid, Doc>) {
    forall id :: id in server <==> id in ProjectIds(t, projectID) && t[id].payload.TypstState?
                                   && Decoded(t[id].payload.state) == Ok(At(server, id))
  }

  /** The concrete engine's delta function. */
  ghost predicate IsYjsDelta(compute: DeltaFunction, zeroBytes: bool) {
    forall state, vector :: compute(state, vector) == ComputeDelta(zeroBytes, state, vector)
  }

  lemma CopyDecodes(state: Bytes<Doc>)
    ensures Decoded(Copy(state)) == Decoded(state)
  {
  }

  /** After one executed plan the client's document covers the server's. */
  lemma HandshakeCovers(rows: seq<ListedFile>, t: Table, projectID: Uuid, server: map<Uuid, Doc>, docs: map<Uuid, Doc>,
                        plan: seq<Instruction>, compute: DeltaFunction, zeroBytes: bool, id: Uuid)
    requires ValidTable(t) && IsListing(rows, t, projectID) && Stored(t, projectID, server)
               && IsYjsDelta(compute, zeroBytes)
    requires ExactPlan(plan, rows, EntriesOf(t, projectID), VectorsOf(docs), compute)
    requires id in server
    ensures id in ExecuteAll(docs, plan, server) && server[id] <= ExecuteAll(docs, plan, server)[id]
  {
    var m, vectors := EntriesOf(t, projectID), VectorsOf(docs);
    var f := ListedFile(id, t[id].payload);
    ListedIffOwned(rows, t, projectID, id);
    assert f in rows by {
      var i :| 0 <= i < |rows| && rows[i].id == id;
      assert rows[i] == f;
    }
    if id !in docs {
      assert Deserves(Instruction(Download, id, Nil), rows, m, vectors, compute);
      Targeted(docs, plan, server, Instruction(Download, id, Nil));
    } else {
      CopyDecodes(f.payload.state);
      MissingCovers(server[id], docs[id], docs[id]);
      var delta := compute(Copy(f.payload.state), VectorFor(vectors, id));
      assert delta.Ok? && (delta.value.Coded? ==> delta.value.content == Missing(server[id], VectorOf(docs[id])));
      if !IsEmpty(delta.value) {
        assert Deserves(Instruction(ApplyChanges, id, delta.value), rows, m, vectors, compute);
        Targeted(docs, plan, server, Instruction(ApplyChanges, id, delta.value));
      } else {
        NotTargeted(rows, f, m, vectors, compute, plan);
        Untargeted(docs, plan, server, id);
      }
    }
  }

  lemma NotTargeted(rows: seq<ListedFile>, f: ListedFile, m: EntryMap, vectors: Vectors, compute: DeltaFunction,
                    plan: seq<Instruction>)
    requires DistinctIds(rows) && f in rows && f.payload.TypstState? && ExactPlan(plan, rows, m, vectors, compute)
    requires !IsEmpty(VectorFor(vectors, f.id))
    requires var delta := compute(Copy(f.payload.state), VectorFor(vectors, f.id)); delta.Ok? && IsEmpty(delta.value)
    ensures forall inst :: inst in plan ==> inst.fileID != f.id
  {
    assert IsListed(rows, f.id);
    forall inst | inst in plan
      ensures inst.fileID != f.id
    {
      assert Deserves(inst, rows, m, vectors, compute);
    }
  }

  /** Two sync_inits with the first plan executed in between and no server change meanwhile: the second, whatever order
      it lists the files in, asks for no Typst download and sends no operation the client lacks; none at all when the
      client's document has no gap. */
  lemma OneHandshakeSuffices(svc: Service, r: Result<Response>, rows: seq<ListedFile>, r': Result<Response>,
                             rows': seq<ListedFile>, t: Table, u: Table, u': Table, projectID: Uuid,
                             vector: Bytes<StateVector>, vector': Bytes<StateVector>, server: map<Uuid, Doc>,
                             docs: map<Uuid, Doc>, zeroBytes: bool, inst: Instruction)
    requires IsYjs(svc.engine) && IsYjsDelta(svc.engine.computeDelta, zeroBytes)
    requires ValidTable(t) && Stored(t, projectID, server)
    requires svc.Synced(r, rows, t, u, projectID, vector, VectorsOf(docs)) && r.Ok?
    requires svc.Synced(r', rows', u, u', projectID, vector', VectorsOf(ExecuteAll(docs, r.value.instructions, server)))
    requires r'.Ok?
    requires inst in r'.value.instructions && inst.fileID in server
    ensures u == t && u' == t
    ensures var docs' := ExecuteAll(docs, r.value.instructions, server);
            && inst.action == ApplyChanges && inst.fileID in docs'
            && inst.delta.Coded? && inst.delta.content <= docs'[inst.fileID]
            && (GapFree(docs'[inst.fileID]) ==> inst.delta.content == {})
  {
    var docs', id, compute := ExecuteAll(docs, r.value.instructions, server), inst.fileID, svc.engine.computeDelta;
    SyncInitOnlyReads(svc, r, rows, t, u, projectID, vector, VectorsOf(docs));
    SyncInitOnlyReads(svc, r', rows', u, u', projectID, vector', VectorsOf(docs'));
    HandshakeCovers(rows, t, projectID, server, docs, r.value.instructions, compute, zeroBytes, id);
    SecondPlan(rows', t, projectID, server, docs', r'.value.instructions, compute, zeroBytes, inst);
  }

  /** What a plan holds for a client that covers the stored document. */
  lemma SecondPlan(rows: seq<ListedFile>, t: Table, projectID: Uuid, server: map<Uuid, Doc>, docs: map<Uuid, Doc>,
                   plan: seq<Instruction>, compute: DeltaFunction, zeroBytes: bool, inst: Instruction)
    requires ValidTable(t) && IsListing(rows, t, projectID) && Stored(t, projectID, server)
               && IsYjsDelta(compute, zeroBytes)
    requires ExactPlan(plan, rows, EntriesOf(t, projectID), VectorsOf(docs), compute)
    requires inst in plan && inst.fileID in server && inst.fileID in docs && server[inst.fileID] <= docs[inst.fileID]
    ensures inst.action == ApplyChanges && inst.delta.Coded? && inst.delta.content <= docs[inst.fileID]
    ensures GapFree(docs[inst.fileID]) ==> inst.delta.content == {}
  {
    var id, vectors := inst.fileID, VectorsOf(docs);
    ListedIffOwned(rows, t, projectID, id);
    assert Deserves(inst, rows, EntriesOf(t, projectID), vectors, compute);
    var f :| f in rows && f.id == id && f.payload.TypstState?
        && compute(Copy(f.payload.state), VectorFor(vectors, id)) == Ok(inst.delta);
    var i :| 0 <= i < |rows| && rows[i] == f;
    CopyDecodes(f.payload.state);
    assert inst.delta == Coded(Missing(server[id], VectorOf(docs[id])));
    MissingCovers(server[id], docs[id], docs[id]);
    if GapFree(docs[id]) {
      DeltaIsDifference(server[id], docs[id]);
    }
  }
}
