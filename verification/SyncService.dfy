/** The synchronization service over the in-memory file table. The CRDT engine is a parameter, as in the source. */
module SyncService {
  import opened Outcomes
  import opened Uuids
  import opened Documents
  import opened MetadataModel
  import opened YjsMerger
  import opened FileStore
  import opened MetadataEffects
  import opened SyncPlan

  /** The engine's three operations; SyncMetadata hands back the entries it extracted, in its own order. */
  datatype Engine = Engine(
    syncEntries: (EntryMap, Bytes<FileMap>, Bytes<StateVector>) -> Result<(Bytes<MetaDelta>, seq<Entry>)>,
    mergeFile: (Bytes<Doc>, Bytes<Doc>) -> Result<Bytes<Doc>>,
    computeDelta: DeltaFunction)

  datatype Response = Response(metadataDelta: Bytes<MetaDelta>, instructions: seq<Instruction>)

  /** Entries only come from NewEntry, whatever the engine. */
  ghost predicate MakesEntries(engine: Engine) {
    forall server, delta, vector :: engine.syncEntries(server, delta, vector).Ok? ==>
      forall e :: e in engine.syncEntries(server, delta, vector).value.1 ==> ValidEntry(e)
  }

  lemma MadeEntriesValid(engine: Engine, server: EntryMap, delta: Bytes<FileMap>, vector: Bytes<StateVector>)
    requires MakesEntries(engine) && engine.syncEntries(server, delta, vector).Ok?
    ensures ValidEntries(LastWins(engine.syncEntries(server, delta, vector).value.1))
  {
  }

  /** The metadata the engine yields for a table, if it succeeds. */
  function Answer(engine: Engine, t: Table, projectID: Uuid, delta: Bytes<FileMap>,
                  vector: Bytes<StateVector>): Result<EntryMap> {
    match engine.syncEntries(EntriesOf(t, projectID), delta, vector)
    case Err(e) => Err(e)
    case Ok((_, entries)) => Ok(LastWins(entries))
  }

  /** The metadata delta it hands back with them. */
  function AnswerDelta(engine: Engine, t: Table, projectID: Uuid, delta: Bytes<FileMap>, vector: Bytes<StateVector>)
    : Result<Bytes<MetaDelta>>
  {
    match engine.syncEntries(EntriesOf(t, projectID), delta, vector)
    case Err(e) => Err(e)
    case Ok((metaDelta, _)) => Ok(metaDelta)
  }

  ghost predicate DistinctFiles(files: seq<File>) {
    forall i, j :: 0 <= i < j < |files| ==> files[i].id != files[j].id
  }

  ghost function IdsOf(files: seq<File>): set<Uuid> {
    set f | f in files :: f.id
  }

  /** `rows` is what the plan looks at in `files`. */
  ghost predicate RowsOf(rows: seq<ListedFile>, files: seq<File>)
    reads files`payload
  {
    |rows| == |files| && forall i :: 0 <= i < |files| ==> rows[i] == ListedFile(files[i].id, files[i].payload)
  }

  lemma {:induction false} TakeRows(files: seq<File>) returns (rows: seq<ListedFile>)
    ensures RowsOf(rows, files)
  {
    if files == [] {
      rows := [];
    } else {
      var last := files[|files| - 1];
      rows := TakeRows(files[..|files| - 1]);
      rows := rows + [ListedFile(last.id, last.payload)];
    }
  }

  method IndexFilesByID(files: seq<File>) returns (byID: map<Uuid, File>)
    requires DistinctFiles(files)
    ensures byID.Keys == IdsOf(files)
    ensures forall f :: f in files ==> byID[f.id] == f
  {
    byID := map[];
    for i := 0 to |files|
      invariant byID.Keys == IdsOf(files[..i])
      invariant forall j :: 0 <= j < i ==> files[j].id in byID && byID[files[j].id] == files[j]
    {
      byID := byID[files[i].id := files[i]];
      assert files[..i + 1] == files[..i] + [files[i]];
    }
    assert files[..|files|] == files;
  }

  class Service {
    const repo: FileRepository
    const engine: Engine

    constructor (repo: FileRepository, engine: Engine)
      ensures this.repo == repo && this.engine == engine
    {
      this.repo, this.engine := repo, engine;
    }

    method Save(f: File)
      requires repo.Valid() && f.Valid() && f.id in repo.All && repo.All[f.id] == f
      modifies repo
      ensures repo.Valid() && repo.All == old(repo.All) && repo.Table() == old(repo.Table())
      ensures repo.Log == old(repo.Log) + [Saved(f.id)]
    {
      assert repo.All[f.id := f] == repo.All;
      assert repo.Table()[f.id := f.Value()] == repo.Table();
      if f.typst {
        repo.SaveTypstFile(f);
      } else {
        repo.SaveBinaryFile(f);
      }
    }

    /** Deletes or renames one listed file as its entry says, by the one call this needs if any. */
    method MutateFileIfNeeded(sf: File, entry: Entry) returns (r: Result<()>)
      requires repo.Valid() && sf.id in repo.All && repo.All[sf.id] == sf
      requires ValidEntry(entry) && entry.id == sf.id
      modifies repo, sf`name
      ensures r.Ok? && repo.Valid()
      ensures repo.All == if entry.isDeleted then Without(old(repo.All), sf.id) else old(repo.All)
      ensures repo.Table() == ApplyEntry(old(repo.Table()), {sf.id}, sf.id, entry)
      ensures repo.Log == old(repo.Log) + CallFor(old(repo.Table()), {sf.id}, sf.id, entry)
    {
      if entry.isDeleted {
        r := repo.DeleteFile(entry.id);
        return;
      }
      if entry.name != sf.name {
        r := sf.Rename(entry.name);
        Renamed(old(repo.Table()), sf.id, entry.name, repo.Table());
        Save(sf);
        return Ok(());
      }
      Renamed(old(repo.Table()), sf.id, entry.name, repo.Table());
      r := Ok(());
    }

    static lemma Renamed(t: Table, id: Uuid, name: string, u: Table)
      requires id in t && t.Keys == u.Keys && u[id] == t[id].(name := name)
      requires forall k :: k in t && k != id ==> u[k] == t[k]
      ensures u == t[id := t[id].(name := name)]
    {
    }

    static lemma Patched(t: Table, id: Uuid, payload: Payload, u: Table)
      requires id in t && t.Keys == u.Keys && u[id] == t[id].(payload := payload)
      requires forall k :: k in t && k != id ==> u[k] == t[k]
      ensures u == t[id := t[id].(payload := payload)]
    {
    }

    /** Where the pass stands: the entries `done` are applied, and the listed files not yet reached are still stored. */
    ghost predicate Applied(listing: seq<File>, t: Table, done: EntryMap)
      reads repo, repo.Objects
    {
      && repo.Valid()
      && repo.Table() == Mutated(t, IdsOf(listing), done)
      && forall f :: f in listing && f.id !in done ==> f.id in repo.All && repo.All[f.id] == f
    }

    /** The store calls made since `start` are those the entries `done` need. */
    ghost predicate Logged(start: seq<StoreCall>, calls: seq<StoreCall>, listed: set<Uuid>, t: Table, done: EntryMap)
      reads repo`Log
    {
      repo.Log == start + calls && Performs(calls, t, listed, done)
    }

    /** One turn of the loop: skips an entry without a listed file. */
    method ApplyEntryOnce(byID: map<Uuid, File>, entry: Entry, ghost listing: seq<File>, ghost t: Table,
                          ghost done: EntryMap)
      returns (r: Result<()>)
      requires Applied(listing, t, done) && DistinctFiles(listing)
      requires byID.Keys == IdsOf(listing) && forall f :: f in listing ==> byID[f.id] == f
      requires ValidEntry(entry) && entry.id !in done
      modifies repo, listing`name
      ensures r.Ok? && Applied(listing, t, done[entry.id := entry])
      ensures repo.Log == old(repo.Log) + CallFor(t, IdsOf(listing), entry.id, entry)
    {
      ghost var ids := IdsOf(listing);
      MutatedStep(t, ids, done, entry.id, entry);
      if entry.id !in byID {
        return Ok(());
      }
      var sf := byID[entry.id];
      assert sf in listing && sf.id == entry.id;
      assert Mutated(t, ids, done)[sf.id] == t[sf.id] && t[sf.id].name == sf.name;
      r := MutateFileIfNeeded(sf, entry);
    }

    lemma LogStep(start: seq<StoreCall>, calls: seq<StoreCall>, listed: set<Uuid>, t: Table, done: EntryMap, e: Entry,
                  log: seq<StoreCall>)
      requires log == start + calls && Performs(calls, t, listed, done)
      requires e.id !in done && (e.id in listed ==> e.id in t)
      requires repo.Log == log + CallFor(t, listed, e.id, e)
      ensures Logged(start, calls + CallFor(t, listed, e.id, e), listed, t, done[e.id := e])
    {
      PerformsStep(t, listed, done, calls, e.id, e);
    }

    lemma LogStarts(start: seq<StoreCall>, listed: set<Uuid>, t: Table)
      requires repo.Log == start
      ensures Logged(start, [], listed, t, map[])
    {
      NothingApplied(t, listed);
    }

    /** Applies the entries in whatever order the map is iterated. It cannot fail, and what it leaves does not
        depend on the order; `calls` are the store calls it made. */
    method ApplyFileMutations(listing: seq<File>, meta: Metadata, ghost t: Table)
      returns (r: Result<()>, ghost calls: seq<StoreCall>)
      requires repo.Valid() && repo.Table() == t && ValidEntries(meta.entries) && DistinctFiles(listing)
      requires forall f :: f in listing ==> f.id in repo.All && repo.All[f.id] == f
      modifies repo, listing`name
      ensures r.Ok? && repo.Valid()
      ensures repo.Table() == Mutated(t, IdsOf(listing), meta.entries)
      ensures Logged(old(repo.Log), calls, IdsOf(listing), t, meta.entries)
    {
      var byID := IndexFilesByID(listing);
      var entries := meta.entries;
      var todo := entries.Keys;
      ghost var done: EntryMap := map[];
      ghost var start, listed := repo.Log, IdsOf(listing);
      calls, r := [], Ok(());
      NothingApplied(t, listed);
      LogStarts(start, listed, t);
      while todo != {}
        invariant todo <= entries.Keys && done.Keys == entries.Keys - todo && r.Ok?
        invariant forall id :: id in done ==> done[id] == entries[id]
        invariant Applied(listing, t, done)
        invariant Logged(start, calls, listed, t, done)
      {
        var id :| id in todo;
        ghost var log := repo.Log;
        r := ApplyEntryOnce(byID, entries[id], listing, t, done);
        LogStep(start, calls, listed, t, done, entries[id], log);
        calls := calls + CallFor(t, listed, id, entries[id]);
        done := done[id := entries[id]];
        todo := todo - {id};
      }
      assert done == entries;
    }

    method BuildUploadInstructions(meta: Metadata, byID: map<Uuid, File>, ghost rows: seq<ListedFile>)
      returns (instructions: seq<Instruction>, ghost active: seq<Uuid>)
      requires ValidEntries(meta.entries) && forall id :: id in byID <==> IsListed(rows, id)
      ensures Iterates(active, ActiveIds(meta.entries)) && instructions == UploadPlan(active, rows)
    {
      var entries;
      entries, active := meta.ActiveEntries();
      instructions := [];
      for i := 0 to |entries|
        invariant instructions == UploadPlan(active[..i], rows)
      {
        if entries[i].id !in byID {
          instructions := instructions + [Instruction(Upload, entries[i].id, Nil)];
        }
        assert active[..i + 1][..i] == active[..i];
      }
      assert active[..|entries|] == active;
    }

    method BuildServerFileInstructions(listing: seq<File>, meta: Metadata, vectors: Vectors,
                                       ghost rows: seq<ListedFile>)
      returns (r: Result<seq<Instruction>>)
      requires RowsOf(rows, listing)
      ensures r.Ok? <==> ServerPlan(rows, old(meta.entries), vectors, engine.computeDelta).Ok?
      ensures r.Ok? ==> r == ServerPlan(rows, old(meta.entries), vectors, engine.computeDelta)
    {
      var instructions: seq<Instruction> := [];
      for i := 0 to |listing|
        invariant ServerPlan(rows[..i], meta.entries, vectors, engine.computeDelta) == Ok(instructions)
      {
        var f := ListedFile(listing[i].id, listing[i].payload);
        var entry := meta.Get(f.id);
        var inst := Resolve(f, entry, VectorFor(vectors, f.id), engine.computeDelta);
        assert rows[..i + 1][..i] == rows[..i];
        if inst.Err? {
          assert rows[i] in rows;
          return Err(inst.error);
        }
        if inst.value.Some? {
          instructions := instructions + [inst.value.value];
        }
      }
      assert rows[..|listing|] == rows;
      r := Ok(instructions);
    }

    static lemma IndexedIffListed(listing: seq<File>, rows: seq<ListedFile>)
      requires RowsOf(rows, listing)
      ensures forall id :: id in IdsOf(listing) <==> IsListed(rows, id)
    {
      forall id
        ensures id in IdsOf(listing) <==> IsListed(rows, id)
      {
        if id in IdsOf(listing) {
          var i :| 0 <= i < |listing| && listing[i].id == id;
          assert rows[i] in rows;
        }
        if IsListed(rows, id) {
          var i :| 0 <= i < |rows| && rows[i].id == id;
          assert listing[i] in listing;
        }
      }
    }

    method GenerateInstructions(listing: seq<File>, meta: Metadata, vectors: Vectors, ghost rows: seq<ListedFile>)
      returns (r: Result<seq<Instruction>>)
      requires repo.Valid() && ValidEntries(meta.entries) && DistinctFiles(listing) && RowsOf(rows, listing)
      ensures repo.Valid() && repo.Table() == old(repo.Table()) && repo.Log == old(repo.Log)
      ensures r.Ok? <==> ServerPlan(rows, old(meta.entries), vectors, engine.computeDelta).Ok?
      ensures r.Ok? ==> ExactPlan(r.value, rows, old(meta.entries), vectors, engine.computeDelta)
    {
      var byID := IndexFilesByID(listing);
      IndexedIffListed(listing, rows);
      var uploads;
      ghost var active;
      uploads, active := BuildUploadInstructions(meta, byID, rows);
      r := BuildServerFileInstructions(listing, meta, vectors, rows);
      if r.Ok? {
        PlanIsExact(rows, active, meta.entries, vectors, engine.computeDelta);
        r := Ok(uploads + r.value);
      }
    }

    /** Loads the project's entries and runs them through the engine. */
    method SyncedMetadata(projectID: Uuid, delta: Bytes<FileMap>, vector: Bytes<StateVector>, ghost t: Table)
      returns (r: Result<(Bytes<MetaDelta>, Metadata)>)
      requires repo.Valid() && MakesEntries(engine) && repo.Table() == t
      ensures repo.Valid() && repo.Table() == t && repo.Log == old(repo.Log)
      ensures r.Ok? <==> projectID != NIL && Answer(engine, t, projectID, delta, vector).Ok?
      ensures r.Ok? ==> fresh(r.value.1) && Ok(r.value.1.entries) == Answer(engine, t, projectID, delta, vector)
      ensures r.Ok? ==> Ok(r.value.0) == AnswerDelta(engine, t, projectID, delta, vector)
      ensures r.Ok? ==> ValidEntries(r.value.1.entries)
    {
      var entries := repo.FindEntriesByProjectID(projectID);
      assert LastWins(entries) == EntriesOf(t, projectID);
      var current := NewMetadata(projectID, entries);
      if current.Err? {
        return Err(current.error);
      }
      var answer := engine.syncEntries(current.value.entries, delta, vector);
      if answer.Err? {
        return Err(answer.error);
      }
      MadeEntriesValid(engine, current.value.entries, delta, vector);
      var updated := NewMetadata(projectID, answer.value.1);
      r := Ok((answer.value.0, updated.value));
    }

    lemma ListingIds(listing: seq<File>, projectID: Uuid) returns (rows: seq<ListedFile>)
      requires repo.Valid() && DistinctFiles(listing)
      requires forall f :: f in listing <==> f.id in repo.All && repo.All[f.id] == f && f.projectID == projectID
      ensures IdsOf(listing) == ProjectIds(repo.Table(), projectID)
      ensures RowsOf(rows, listing) && IsListing(rows, repo.Table(), projectID)
    {
      rows := TakeRows(listing);
      forall id | id in ProjectIds(repo.Table(), projectID)
        ensures id in IdsOf(listing) && exists i :: 0 <= i < |listing| && listing[i].id == id
      {
        assert repo.All[id] in listing;
      }
      forall i | 0 <= i < |listing|
        ensures listing[i].id in repo.Table() && repo.Table()[listing[i].id] == listing[i].Value()
      {
        assert listing[i] in listing;
      }
    }

    /** Lists the project and applies the metadata to what was listed. */
    method ApplyToProject(projectID: Uuid, meta: Metadata, ghost t: Table)
      returns (listing: seq<File>, ghost rows: seq<ListedFile>, ghost calls: seq<StoreCall>)
      requires repo.Valid() && repo.Table() == t && ValidEntries(meta.entries)
      modifies repo, repo.Objects
      ensures repo.Valid() && DistinctFiles(listing)
      ensures repo.Table() == Mutated(t, ProjectIds(t, projectID), meta.entries)
      ensures RowsOf(rows, listing) && IsListing(rows, t, projectID)
      ensures repo.Log == old(repo.Log) + calls && Performs(calls, t, ProjectIds(t, projectID), meta.entries)
    {
      listing := repo.FindByProjectID(projectID);
      rows := ListingIds(listing, projectID);
      var applied;
      applied, calls := ApplyFileMutations(listing, meta, t);
    }

    /** The second half of SyncInit, for given metadata. */
    method ApplyAndPlan(projectID: Uuid, meta: Metadata, vectors: Vectors, ghost t: Table)
      returns (r: Result<seq<Instruction>>, ghost rows: seq<ListedFile>, ghost calls: seq<StoreCall>)
      requires repo.Valid() && repo.Table() == t && ValidEntries(meta.entries)
      modifies repo, repo.Objects
      ensures repo.Valid()
      ensures repo.Table() == Mutated(t, ProjectIds(t, projectID), meta.entries)
      ensures IsListing(rows, t, projectID)
      ensures repo.Log == old(repo.Log) + calls && Performs(calls, t, ProjectIds(t, projectID), meta.entries)
      ensures r.Ok? <==> ServerPlan(rows, meta.entries, vectors, engine.computeDelta).Ok?
      ensures r.Ok? ==> ExactPlan(r.value, rows, meta.entries, vectors, engine.computeDelta)
    {
      var listing;
      listing, rows, calls := ApplyToProject(projectID, meta, t);
      r := GenerateInstructions(listing, meta, vectors, rows);
    }

    /** Complete synchronization. The engine's answer decides the metadata, and is arbitrary here. */
    method SyncInit(projectID: Uuid, vector: Bytes<StateVector>, contentVectors: Vectors)
      returns (r: Result<Response>, ghost rows: seq<ListedFile>, ghost calls: seq<StoreCall>)
      requires repo.Valid() && MakesEntries(engine)
      modifies repo, repo.Objects
      ensures repo.Valid()
      ensures Synced(r, rows, old(repo.Table()), repo.Table(), projectID, vector, contentVectors)
      ensures repo.Log == old(repo.Log) + calls && Called(calls, old(repo.Table()), projectID, Nil, vector)
    {
      rows, calls := [], [];
      var synced := SyncedMetadata(projectID, Nil, vector, repo.Table());
      if synced.Err? {
        return Err(synced.error), [], [];
      }
      var instructions;
      instructions, rows, calls := ApplyAndPlan(projectID, synced.value.1, contentVectors, repo.Table());
      if instructions.Err? {
        return Err(instructions.error), rows, calls;
      }
      r := Ok(Response(synced.value.0, instructions.value));
    }

    /** The calls are those the engine's metadata needs, and none on an early failure. */
    ghost predicate Called(calls: seq<StoreCall>, t: Table, projectID: Uuid, delta: Bytes<FileMap>,
                           vector: Bytes<StateVector>) {
      var answer := Answer(engine, t, projectID, delta, vector);
      if projectID == NIL || answer.Err? then calls == []
      else Performs(calls, t, ProjectIds(t, projectID), answer.value)
    }

    /** What a sync_init leaves: nothing changed on an early failure; otherwise the metadata is applied to the table
        (even when a delta then fails) and a success carries the exact plan for the files listed before and the engine's
        metadata delta. */
    ghost predicate Synced(r: Result<Response>, rows: seq<ListedFile>, t: Table, u: Table, projectID: Uuid,
                           vector: Bytes<StateVector>, contentVectors: Vectors) {
      var answer := Answer(engine, t, projectID, Nil, vector);
      if projectID == NIL || answer.Err? then
        r.Err? && u == t
      else
        && u == Mutated(t, ProjectIds(t, projectID), answer.value)
        && IsListing(rows, t, projectID)
        && (r.Ok? <==> ServerPlan(rows, answer.value, contentVectors, engine.computeDelta).Ok?)
        && (r.Ok? ==> ExactPlan(r.value.instructions, rows, answer.value, contentVectors, engine.computeDelta)
                      && Ok(r.value.metadataDelta) == AnswerDelta(engine, t, projectID, Nil, vector))
    }

    /** Incremental metadata update: no content is scanned, nothing is planned. */
    method ApplyMetadataUpdate(projectID: Uuid, delta: Bytes<FileMap>)
      returns (r: Result<()>, ghost calls: seq<StoreCall>)
      requires repo.Valid() && MakesEntries(engine)
      modifies repo, repo.Objects
      ensures repo.Valid()
      ensures Updated(r, calls, old(repo.Table()), repo.Table(), projectID, delta)
      ensures repo.Log == old(repo.Log) + calls
    {
      calls := [];
      if IsEmpty(delta) {
        return Err(EmptyDelta), [];
      }
      var synced := SyncedMetadata(projectID, delta, Nil, repo.Table());
      if synced.Err? {
        return Err(synced.error), [];
      }
      var listing;
      ghost var rows;
      listing, rows, calls := ApplyToProject(projectID, synced.value.1, repo.Table());
      r := Ok(());
    }

    /** What a metadata update leaves: on any failure nothing, otherwise the merged metadata applied by the calls it
        needs. */
    ghost predicate Updated(r: Result<()>, calls: seq<StoreCall>, t: Table, u: Table, projectID: Uuid,
                            delta: Bytes<FileMap>) {
      var answer := Answer(engine, t, projectID, delta, Nil);
      if IsEmpty(delta) || projectID == NIL || answer.Err? then
        r.Err? && u == t && calls == []
      else
        && r.Ok? && u == Mutated(t, ProjectIds(t, projectID), answer.value)
        && Performs(calls, t, ProjectIds(t, projectID), answer.value)
    }

    /** Merges a delta into one Typst file; every failure leaves the table as it was. */
    method ApplyFileChanges(fileID: Uuid, delta: Bytes<Doc>) returns (r: Result<File>)
      requires repo.Valid()
      modifies repo, repo.Objects
      ensures repo.Valid()
      ensures repo.Log == old(repo.Log) + if r.Ok? then [Saved(fileID)] else []
      ensures var t := old(repo.Table());
              if fileID !in t || t[fileID].payload.BinaryContent? then r == Err(TypstFileNotFound) && repo.Table() == t
              else
                var merged := engine.mergeFile(Copy(t[fileID].payload.state), delta);
                if merged.Err? then r == Err(merged.error) && repo.Table() == t
                else if merged.value == Nil then r == Err(NilState) && repo.Table() == t
                else r.Ok? && repo.Table() == t[fileID := t[fileID].(payload := TypstState(Copy(merged.value)))]
    {
      ghost var t := repo.Table();
      var found := repo.FindTypstFileByID(fileID);
      if found.Err? {
        return Err(found.error);
      }
      var file := found.value;
      var merged := engine.mergeFile(Copy(file.payload.state), delta);
      if merged.Err? {
        return Err(merged.error);
      }
      var updated := file.UpdateState(merged.value);
      if updated.Err? {
        assert repo.Table() == t;
        return Err(updated.error);
      }
      Patched(t, fileID, TypstState(Copy(merged.value)), repo.Table());
      Save(file);
      r := Ok(file);
    }

    method ApplyCRDTUpdate(fileID: Uuid, delta: Bytes<Doc>) returns (r: Result<()>)
      requires repo.Valid()
      modifies repo, repo.Objects
      ensures repo.Valid()
      ensures fileID == NIL ==> r == Err(EmptyFileId)
      ensures fileID != NIL && IsEmpty(delta) ==> r == Err(EmptyDelta)
      ensures r.Err? ==> repo.Table() == old(repo.Table())
      ensures repo.Log == old(repo.Log) + if r.Ok? then [Saved(fileID)] else []
      ensures r.Ok? <==> fileID != NIL && !IsEmpty(delta) && Accepts(old(repo.Table()), fileID, delta)
      ensures r.Ok? ==> repo.Table() == Accepted(old(repo.Table()), fileID, delta)
    {
      if fileID == NIL {
        return Err(EmptyFileId);
      }
      if IsEmpty(delta) {
        return Err(EmptyDelta);
      }
      var changed := ApplyFileChanges(fileID, delta);
      r := if changed.Ok? then Ok(()) else Err(changed.error);
    }

    predicate Accepts(t: Table, fileID: Uuid, delta: Bytes<Doc>) {
      && fileID in t && t[fileID].payload.TypstState?
      && var merged := engine.mergeFile(Copy(t[fileID].payload.state), delta);
         merged.Ok? && merged.value != Nil
    }

    function Accepted(t: Table, fileID: Uuid, delta: Bytes<Doc>): Table
      requires Accepts(t, fileID, delta)
    {
      t[fileID := t[fileID].(payload := TypstState(Copy(engine.mergeFile(Copy(t[fileID].payload.state), delta).value)))]
    }
  }

  /** The rows are exactly the files of the project, each once. */
  ghost predicate IsListing(rows: seq<ListedFile>, t: Table, projectID: Uuid) {
    && DistinctIds(rows)
    && (forall i :: 0 <= i < |rows| ==>
          rows[i].id in ProjectIds(t, projectID) && t[rows[i].id].payload == rows[i].payload)
    && (forall id :: id in ProjectIds(t, projectID) ==> exists i :: 0 <= i < |rows| && rows[i].id == id)
  }
}
