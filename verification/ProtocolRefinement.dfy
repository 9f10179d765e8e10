/** The protocol's handlers are what the sync service does to the file table: each dispatched request changes the
    stored documents and answers exactly as the service over a mirroring table does. */
module ProtocolRefinement {
  import opened Outcomes
  import opened Uuids
  import opened Documents
  import opened YjsMerger
  import opened FileStore
  import opened MetadataEffects
  import opened SyncPlan
  import opened SyncService
  import opened SyncLaws
  import opened YjsEngine
  import opened EditProtocol

  /** The stored documents are the decoded Typst states of the table, under the files' projects. */
  ghost predicate Mirrors(t: Table, s: State) {
    && (forall f :: f in s.server <==> f in t && t[f].payload.TypstState?)
    && (forall f :: f in s.server ==>
          f in s.owner && s.owner[f] == t[f].projectID && Decoded(t[f].payload.state) == Ok(s.server[f]))
  }

  /** The service accepts exactly the updates the protocol accepts, and stores the same documents. */
  lemma UpdateRefines(svc: Service, t: Table, s: State, id: Uuid, c: Client, f: Uuid, delta: Bytes<Doc>)
    requires Mirrors(t, s) && id in s.clients
    requires forall state, d :: svc.engine.mergeFile(state, d) == MergeFile(state, d)
    ensures f != NIL && !IsEmpty(delta) && svc.Accepts(t, f, delta) <==> Accepted(s, f, delta)
    ensures Accepted(s, f, delta) ==> Mirrors(svc.Accepted(t, f, delta), HandleUpdate(s, id, c, f, delta))
  {
    if f in s.server {
      CopyDecodes(t[f].payload.state);
      assert svc.engine.mergeFile(Copy(t[f].payload.state), delta) == MergeFile(Coded(s.server[f]), delta);
    }
  }

  lemma ListedIsPlanned(t: Table, s: State, project: Uuid, vectors: Vectors, compute: DeltaFunction, row: ListedFile)
    requires Mirrors(t, s) && row.id in ProjectIds(t, project) && row.payload == t[row.id].payload && row.id in s.server
    requires ValidTable(t) && IsYjsDelta(compute, s.zeroBytes)
    ensures ResolveListed(row, EntriesOf(t, project), vectors, compute) == Planned(s, row.id, vectors)
  {
    CopyDecodes(row.payload.state);
    assert !EntriesOf(t, project)[row.id].isDeleted;
  }

  lemma RowResolves(rows: seq<ListedFile>, t: Table, s: State, project: Uuid, vectors: Vectors, compute: DeltaFunction,
                    row: ListedFile)
    requires Mirrors(t, s) && ValidTable(t) && IsListing(rows, t, project) && IsYjsDelta(compute, s.zeroBytes)
    requires row in rows
    ensures row.id in ProjectIds(t, project)
    ensures var r := ResolveListed(row, EntriesOf(t, project), vectors, compute);
            if row.id in s.server then r == Planned(s, row.id, vectors) else r.Ok?
  {
    var i :| 0 <= i < |rows| && rows[i] == row;
    if row.id in s.server {
      ListedIsPlanned(t, s, project, vectors, compute, row);
    }
  }

  lemma PlannableIff(rows: seq<ListedFile>, t: Table, s: State, project: Uuid, vectors: Vectors, compute: DeltaFunction)
    requires Mirrors(t, s) && ValidTable(t) && IsListing(rows, t, project) && IsYjsDelta(compute, s.zeroBytes)
    ensures ServerPlan(rows, EntriesOf(t, project), vectors, compute).Ok? <==> Plannable(s, project, vectors)
  {
    var m := EntriesOf(t, project);
    forall row | row in rows
      ensures row.id in ProjectIds(t, project)
      ensures row.id in s.server ==> ResolveListed(row, m, vectors, compute) == Planned(s, row.id, vectors)
      ensures row.id !in s.server ==> ResolveListed(row, m, vectors, compute).Ok?
    {
      RowResolves(rows, t, s, project, vectors, compute, row);
    }
    forall f | f in s.server && Owns(s, project, f)
      ensures exists row :: row in rows && row.id == f
    {
      assert f in ProjectIds(t, project);
      var i :| 0 <= i < |rows| && rows[i].id == f;
      assert rows[i] in rows;
    }
  }

  /** The plan of the service, restricted to Typst files, is the plan of the protocol. */
  lemma PlanRefines(rows: seq<ListedFile>, plan: seq<Instruction>, t: Table, s: State, project: Uuid, vectors: Vectors,
                    compute: DeltaFunction, inst: Instruction)
    requires Mirrors(t, s) && ValidTable(t) && IsListing(rows, t, project) && Plannable(s, project, vectors)
    requires ExactPlan(plan, rows, EntriesOf(t, project), vectors, compute) && IsYjsDelta(compute, s.zeroBytes)
    requires Owns(s, project, inst.fileID)
    ensures inst in plan
            <==> inst.fileID in Instructions(s, project, vectors)
                  && Instructions(s, project, vectors)[inst.fileID] == inst
  {
    var m, f := EntriesOf(t, project), inst.fileID;
    assert f in ProjectIds(t, project);
    var i :| 0 <= i < |rows| && rows[i].id == f;
    assert rows[i] in rows && IsListed(rows, f);
    ListedIsPlanned(t, s, project, vectors, compute, rows[i]);
    if !inst.action.Upload? {
      ResolvedIsDeserved(rows, rows[i], m, vectors, compute, inst);
    }
    assert Deserves(inst, rows, m, vectors, compute) <==> inst in plan;
  }

  /** A whole sync_init: the service answers exactly when the protocol has a plan, leaves the documents alone, and sends
      for each Typst file of the project what the protocol sends. */
  lemma SyncInitRefines(svc: Service, r: Result<Response>, rows: seq<ListedFile>, t: Table, u: Table, s: State,
                        project: Uuid, vector: Bytes<StateVector>, vectors: Vectors)
    requires Mirrors(t, s) && ValidTable(t) && IsYjs(svc.engine) && IsYjsDelta(svc.engine.computeDelta, s.zeroBytes)
    requires svc.Synced(r, rows, t, u, project, vector, vectors) && project != NIL && (IsEmpty(vector) || vector.Coded?)
    ensures u == t && (r.Ok? <==> Plannable(s, project, vectors))
    ensures r.Ok? ==> forall inst: Instruction :: Owns(s, project, inst.fileID) ==>
              (inst in r.value.instructions
               <==> inst.fileID in Instructions(s, project, vectors)
                     && Instructions(s, project, vectors)[inst.fileID] == inst)
  {
    SyncInitOnlyReads(svc, r, rows, t, u, project, vector, vectors);
    AnswerToNothing(svc.engine, t, project, vector, map[]);
    PlannableIff(rows, t, s, project, vectors, svc.engine.computeDelta);
    forall inst: Instruction | r.Ok? && Owns(s, project, inst.fileID)
      ensures inst in r.value.instructions
              <==> inst.fileID in Instructions(s, project, vectors)
                    && Instructions(s, project, vectors)[inst.fileID] == inst
    {
      PlanRefines(rows, r.value.instructions, t, s, project, vectors, svc.engine.computeDelta, inst);
    }
  }
}
