/** The plan a client receives after sync_init: what each file gets, and that the loops produce exactly that. */
module SyncPlan {
  import opened Outcomes
  import opened Uuids
  import opened Documents
  import opened MetadataModel
  import opened FileStore

  datatype Action = Download | Upload | ApplyChanges

  datatype Instruction = Instruction(action: Action, fileID: Uuid, delta: Bytes<Doc>)

  /** A listed server file, as far as the plan looks at it. */
  datatype ListedFile = ListedFile(id: Uuid, payload: Payload)

  type Vectors = map<Uuid, Bytes<StateVector>>

  type DeltaFunction = (Bytes<Doc>, Bytes<StateVector>) -> Result<Bytes<Doc>>

  function VectorFor(vectors: Vectors, id: Uuid): Bytes<StateVector> {
    if id in vectors then vectors[id] else Nil
  }

  function Lookup(m: EntryMap, id: Uuid): Option<Entry> {
    if id in m then Some(m[id]) else None
  }

  /** A Typst file is patched with its delta unless that is empty; other files have no delta. */
  function TypstDelta(f: ListedFile, vector: Bytes<StateVector>, compute: DeltaFunction): Result<Option<Instruction>> {
    if !f.payload.TypstState? then Ok(None)
    else
      match compute(Copy(f.payload.state), vector)
      case Err(e) => Err(e)
      case Ok(delta) => Ok(if IsEmpty(delta) then None else Some(Instruction(ApplyChanges, f.id, delta)))
  }

  /** What one listed file gets: nothing if deleted, a download without a vector, otherwise its delta. */
  function Resolve(f: ListedFile, entry: Option<Entry>, vector: Bytes<StateVector>, compute: DeltaFunction)
    : Result<Option<Instruction>>
  {
    if entry.Some? && entry.value.isDeleted then Ok(None)
    else if IsEmpty(vector) then Ok(Some(Instruction(Download, f.id, Nil)))
    else TypstDelta(f, vector, compute)
  }

  /** The instructions for the listed files, in listing order, or the first failure. */
  function ServerPlan(files: seq<ListedFile>, m: EntryMap, vectors: Vectors,
                      compute: DeltaFunction): (r: Result<seq<Instruction>>)
    ensures r.Ok? <==> forall f :: f in files ==> Resolve(f, Lookup(m, f.id), VectorFor(vectors, f.id), compute).Ok?
  {
    if files == [] then Ok([])
    else
      var front, f := files[..|files| - 1], files[|files| - 1];
      var rest := ServerPlan(front, m, vectors, compute);
      var inst := Resolve(f, Lookup(m, f.id), VectorFor(vectors, f.id), compute);
      assert forall g :: g in files <==> g in front || g == f;
      if rest.Err? then rest
      else if inst.Err? then Err(inst.error)
      else Ok(if inst.value.Some? then rest.value + [inst.value.value] else rest.value)
  }

  predicate IsListed(files: seq<ListedFile>, id: Uuid) {
    exists f :: f in files && f.id == id
  }

  /** One upload for each active entry without a server file, in iteration order. */
  function UploadPlan(active: seq<Uuid>, files: seq<ListedFile>): seq<Instruction> {
    if active == [] then []
    else
      var rest, id := UploadPlan(active[..|active| - 1], files), active[|active| - 1];
      if IsListed(files, id) then rest else rest + [Instruction(Upload, id, Nil)]
  }

  function ActiveIds(m: EntryMap): set<Uuid> {
    set id | id in m && !m[id].isDeleted
  }

  ghost predicate DistinctIds(files: seq<ListedFile>) {
    forall i, j :: 0 <= i < j < |files| ==> files[i].id != files[j].id
  }

  /** What a file with this id ought to get, said once for the id:
      upload iff active in the metadata and absent on the server; download iff on the server, not deleted and
      without a client vector; apply_changes iff Typst, not deleted, with a vector and with a non-empty delta. */
  ghost predicate Deserves(inst: Instruction, files: seq<ListedFile>, m: EntryMap, vectors: Vectors,
                           compute: DeltaFunction) {
    var id := inst.fileID;
    match inst.action
    case Upload => id in ActiveIds(m) && !IsListed(files, id) && inst.delta == Nil
    case Download =>
      IsListed(files, id) && (id in m ==> !m[id].isDeleted) && IsEmpty(VectorFor(vectors, id)) && inst.delta == Nil
    case ApplyChanges =>
      && (id in m ==> !m[id].isDeleted) && !IsEmpty(VectorFor(vectors, id)) && !IsEmpty(inst.delta)
      && exists f :: f in files && f.id == id && f.payload.TypstState?
            && compute(Copy(f.payload.state), VectorFor(vectors, id)) == Ok(inst.delta)
  }

  /** Exactly the deserved instructions, each id once. */
  ghost predicate ExactPlan(plan: seq<Instruction>, files: seq<ListedFile>, m: EntryMap, vectors: Vectors,
                            compute: DeltaFunction) {
    && (forall inst :: inst in plan <==> Deserves(inst, files, m, vectors, compute))
    && DistinctTargets(plan)
  }

  ghost predicate DistinctTargets(plan: seq<Instruction>) {
    forall i, j :: 0 <= i < j < |plan| ==> plan[i].fileID != plan[j].fileID
  }

  lemma ConcatDistinct(p: seq<Instruction>, q: seq<Instruction>)
    requires DistinctTargets(p) && DistinctTargets(q)
    requires forall x, y :: x in p && y in q ==> x.fileID != y.fileID
    ensures DistinctTargets(p + q)
  {
    forall i, j | 0 <= i < j < |p + q|
      ensures (p + q)[i].fileID != (p + q)[j].fileID
    {
      if i < |p| <= j {
        assert p[i] in p && q[j - |p|] in q;
      }
    }
  }

  lemma {:induction false} UploadPlanMembers(active: seq<Uuid>, files: seq<ListedFile>)
    requires forall i, j :: 0 <= i < j < |active| ==> active[i] != active[j]
    ensures forall inst :: inst in UploadPlan(active, files)
              <==> inst == Instruction(Upload, inst.fileID, Nil) && inst.fileID in active
                    && !IsListed(files, inst.fileID)
    ensures DistinctTargets(UploadPlan(active, files))
  {
    if active != [] {
      var front, id := active[..|active| - 1], active[|active| - 1];
      UploadPlanMembers(front, files);
      assert forall x :: x in active <==> x in front || x == id;
      var rest := UploadPlan(front, files);
      if !IsListed(files, id) {
        ConcatDistinct(rest, [Instruction(Upload, id, Nil)]);
      }
    }
  }

  function ResolveListed(f: ListedFile, m: EntryMap, vectors: Vectors,
                         compute: DeltaFunction): (r: Result<Option<Instruction>>)
    ensures r.Ok? && r.value.Some? ==> r.value.value.fileID == f.id
  {
    Resolve(f, Lookup(m, f.id), VectorFor(vectors, f.id), compute)
  }

  lemma {:induction false} ServerPlanMembers(files: seq<ListedFile>, m: EntryMap, vectors: Vectors,
                                             compute: DeltaFunction)
    requires DistinctIds(files) && ServerPlan(files, m, vectors, compute).Ok?
    ensures var p := ServerPlan(files, m, vectors, compute).value;
            && (forall inst :: inst in p
                  <==> exists f :: f in files && ResolveListed(f, m, vectors, compute) == Ok(Some(inst)))
            && DistinctTargets(p)
  {
    if files != [] {
      var front, f := files[..|files| - 1], files[|files| - 1];
      ServerPlanMembers(front, m, vectors, compute);
      assert forall g :: g in files <==> g in front || g == f;
      var rest := ServerPlan(front, m, vectors, compute).value;
      var inst := ResolveListed(f, m, vectors, compute).value;
      if inst.Some? {
        ConcatDistinct(rest, [inst.value]);
      }
    }
  }

  lemma ResolvedIsDeserved(files: seq<ListedFile>, f: ListedFile, m: EntryMap, vectors: Vectors,
                           compute: DeltaFunction, inst: Instruction)
    requires DistinctIds(files) && f in files && inst.fileID == f.id && !inst.action.Upload?
    ensures ResolveListed(f, m, vectors, compute) == Ok(Some(inst))
            <==> Deserves(inst, files, m, vectors, compute)
  {
    assert IsListed(files, f.id);
    assert forall g :: g in files && g.id == f.id ==> g == f;
  }

  /** The plan is an exact partition: for any files with distinct ids, any metadata, any vectors, any delta
      function and any iteration order of the active entries. */
  lemma PlanIsExact(files: seq<ListedFile>, active: seq<Uuid>, m: EntryMap, vectors: Vectors, compute: DeltaFunction)
    requires DistinctIds(files) && Iterates(active, ActiveIds(m)) && ServerPlan(files, m, vectors, compute).Ok?
    ensures ExactPlan(UploadPlan(active, files) + ServerPlan(files, m, vectors, compute).value, files, m, vectors,
              compute)
  {
    var up, down := UploadPlan(active, files), ServerPlan(files, m, vectors, compute).value;
    var plan := up + down;
    UploadPlanMembers(active, files);
    ServerPlanMembers(files, m, vectors, compute);
    forall inst: Instruction
      ensures inst in plan <==> Deserves(inst, files, m, vectors, compute)
    {
      assert inst in plan <==> inst in up || inst in down;
      if !inst.action.Upload? {
        if inst in down {
          var f :| f in files && ResolveListed(f, m, vectors, compute) == Ok(Some(inst));
          ResolvedIsDeserved(files, f, m, vectors, compute, inst);
        }
        if Deserves(inst, files, m, vectors, compute) {
          var f :| f in files && f.id == inst.fileID;
          ResolvedIsDeserved(files, f, m, vectors, compute, inst);
        }
      }
    }
    ConcatDistinct(up, down);
  }
}
