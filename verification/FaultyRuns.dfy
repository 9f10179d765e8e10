/** Runs of the two-backend store in which calls also fail part-way: what each id has after any mixture of successful
    and failed calls, and exactly which ids cannot be read any more. */
module FaultyRuns {
  import opened Outcomes
  import opened Uuids
  import opened FileStore
  import opened CompositeStore

  datatype Event =
    | Done(op: CompositeStore.Op)
    | Refused                                  // failed before either backend changed
    | RowWriteFailed(f: FileVal)               // a binary save that uploaded its payload and no more
    | RowDeleteFailed(id: Uuid, dropped: bool) // a delete that may have dropped the object and no more

  predicate ValidEvent(e: Event) {
    match e
    case Done(op) => ValidOp(op)
    case Refused => true
    case RowWriteFailed(f) => ValidFile(f) && f.payload.BinaryContent?
    case RowDeleteFailed(_, _) => true
  }

  predicate ValidEvents(events: seq<Event>) {
    forall e :: e in events ==> ValidEvent(e)
  }

  /** How a save ends, by which backend call fails. */
  function SaveEvent(f: FileVal, uploadOk: bool, rowOk: bool): (e: Event)
    ensures ValidFile(f) ==> ValidEvent(e)
  {
    if f.payload.TypstState? then (if rowOk then Done(SaveTypst(f)) else Refused)
    else if !uploadOk then Refused
    else if !rowOk then RowWriteFailed(f)
    else Done(SaveBinary(f))
  }

  function DeleteEvent(id: Uuid, dropped: bool, rowOk: bool): (e: Event)
    ensures ValidEvent(e)
  {
    if rowOk then Done(Delete(id, dropped)) else RowDeleteFailed(id, dropped)
  }

  function After(s: Store, e: Event): Store
    requires ValidEvent(e)
  {
    match e
    case Done(op) => CompositeStore.Apply(s, op)
    case Refused => s
    case RowWriteFailed(f) => Uploaded(s, f)
    case RowDeleteFailed(id, dropped) => BlobDeleted(s, id, dropped)
  }

  function FaultyRun(s: Store, events: seq<Event>): Store
    requires ValidEvents(events)
  {
    if events == [] then s else
      assert events[|events| - 1] in events;
      After(FaultyRun(s, events[..|events| - 1]), events[|events| - 1])
  }

  // ---- one slot per id

  /** All a reader can ever see of an id: its row, and the object that row names. */
  datatype Slot = Slot(row: FileVal, blob: Option<Content>)

  function SlotOf(row: FileVal, blobs: map<string, Content>): Slot {
    Slot(row, if row.payload.BinaryContent? && KeyOf(row) in blobs then Some(blobs[KeyOf(row)]) else None)
  }

  function Slots(s: Store): map<Uuid, Slot> {
    map id | id in s.rows :: SlotOf(s.rows[id], s.blobs)
  }

  function Shown(slot: Slot): Result<FileVal> {
    if slot.row.payload.TypstState? then Ok(slot.row)
    else match slot.blob
      case Some(content) => Ok(slot.row.(payload := BinaryContent(content)))
      case None => if slot.row.payload.content != [] then Ok(slot.row) else Err(StoreFailure)
  }

  /** A failed row write is seen exactly by a binary row of the same project, id and name. */
  predicate Names(slot: Slot, f: FileVal) {
    slot.row.payload.BinaryContent? && slot.row.projectID == f.projectID && slot.row.name == f.name
  }

  function SlotsAfter(m: map<Uuid, Slot>, e: Event): map<Uuid, Slot>
    requires ValidEvent(e)
  {
    match e
    case Done(SaveBinary(f)) => m[f.id := Slot(Bare(f), Some(f.payload.content))]
    case Done(SaveTypst(f)) => m[f.id := Slot(f, None)]
    case Done(Delete(id, _)) => Without(m, id)
    case Refused => m
    case RowWriteFailed(f) =>
      if f.id in m && Names(m[f.id], f) then m[f.id := m[f.id].(blob := Some(f.payload.content))] else m
    case RowDeleteFailed(id, dropped) =>
      if dropped && id in m && m[id].row.payload.BinaryContent? then m[id := m[id].(blob := None)] else m
  }

  function SlotRun(m: map<Uuid, Slot>, events: seq<Event>): map<Uuid, Slot>
    requires ValidEvents(events)
  {
    if events == [] then m else
      assert events[|events| - 1] in events;
      SlotsAfter(SlotRun(m, events[..|events| - 1]), events[|events| - 1])
  }

  lemma SlotElsewhere(row: FileVal, other: FileVal, blobs: map<string, Content>, content: Content)
    requires row.id != other.id || row.projectID != other.projectID || row.name != other.name
    ensures SlotOf(row, blobs[KeyOf(other) := content]) == SlotOf(row, blobs)
    ensures SlotOf(row, Without(blobs, KeyOf(other))) == SlotOf(row, blobs)
  {
    if KeyOf(row) == KeyOf(other) {
      BlobKeyInjective(row.projectID, row.id, row.name, other.projectID, other.id, other.name);
    }
  }

  lemma UploadSlots(s: Store, f: FileVal)
    requires ValidTable(s.rows) && f.payload.BinaryContent?
    ensures forall id :: id in s.rows ==>
              SlotOf(s.rows[id], Uploaded(s, f).blobs)
              == if id == f.id && Names(Slots(s)[id], f)
                 then SlotOf(s.rows[id], s.blobs).(blob := Some(f.payload.content))
                 else SlotOf(s.rows[id], s.blobs)
  {
    forall id | id in s.rows && !(id == f.id && Names(Slots(s)[id], f))
      ensures SlotOf(s.rows[id], Uploaded(s, f).blobs) == SlotOf(s.rows[id], s.blobs)
    {
      if s.rows[id].payload.BinaryContent? {
        SlotElsewhere(s.rows[id], f, s.blobs, f.payload.content);
      }
    }
  }

  lemma DropSlots(s: Store, id: Uuid, dropped: bool)
    requires ValidTable(s.rows)
    ensures forall k :: k in s.rows ==>
              SlotOf(s.rows[k], BlobDeleted(s, id, dropped).blobs)
              == if k == id && dropped then SlotOf(s.rows[k], s.blobs).(blob := None)
                 else SlotOf(s.rows[k], s.blobs)
  {
    forall k | k in s.rows && k != id
      ensures SlotOf(s.rows[k], BlobDeleted(s, id, dropped).blobs) == SlotOf(s.rows[k], s.blobs)
    {
      if IsBinaryRow(s, id) {
        SlotElsewhere(s.rows[k], s.rows[id], s.blobs, []);
      }
    }
  }

  lemma BinarySaveSlots(s: Store, f: FileVal)
    requires ValidTable(s.rows) && f.payload.BinaryContent?
    ensures Slots(BinarySaved(s, f)) == Slots(s)[f.id := Slot(Bare(f), Some(f.payload.content))]
  {
    UploadSlots(s, f);
    assert KeyOf(Bare(f)) == KeyOf(f);
  }

  lemma RowWriteSlots(s: Store, f: FileVal)
    requires ValidTable(s.rows) && ValidEvent(RowWriteFailed(f))
    ensures Slots(Uploaded(s, f)) == SlotsAfter(Slots(s), RowWriteFailed(f))
  {
    UploadSlots(s, f);
  }

  lemma RowDeleteSlots(s: Store, id: Uuid, dropped: bool)
    requires ValidTable(s.rows)
    ensures Slots(BlobDeleted(s, id, dropped)) == SlotsAfter(Slots(s), RowDeleteFailed(id, dropped))
  {
    DropSlots(s, id, dropped);
  }

  lemma DeleteSlots(s: Store, id: Uuid, dropped: bool)
    requires ValidTable(s.rows)
    ensures Slots(Deleted(s, id, dropped)) == Without(Slots(s), id)
  {
    DropSlots(s, id, dropped);
  }

  /** One event, successful or failed, acts on the slots alone: an object that no row names never shows again. */
  lemma EventActsOnSlots(s: Store, e: Event)
    requires ValidTable(s.rows) && ValidEvent(e)
    ensures ValidTable(After(s, e).rows) && Slots(After(s, e)) == SlotsAfter(Slots(s), e)
  {
    match e
    case Done(SaveBinary(f)) => BinarySaveSlots(s, f);
    case Done(SaveTypst(f)) =>
    case Done(Delete(id, dropped)) => DeleteSlots(s, id, dropped);
    case Refused =>
    case RowWriteFailed(f) => RowWriteSlots(s, f);
    case RowDeleteFailed(id, dropped) => RowDeleteSlots(s, id, dropped);
  }

  lemma ReadsSlot(row: FileVal, blobs: map<string, Content>)
    ensures Read(row, blobs) == Shown(SlotOf(row, blobs))
  {
  }

  /** What a reader sees is a function of the slots. */
  lemma ViewOfSlots(s: Store)
    ensures View(s) == map id | id in Slots(s) && Shown(Slots(s)[id]).Ok? :: Shown(Slots(s)[id]).value
  {
    forall id | id in s.rows { ReadsSlot(s.rows[id], s.blobs); }
  }

  /** Every run of successful and failed calls: the slots at the end, and with them all a reader sees, follow from the
      slots at the start. */
  lemma {:induction false} FaultyRunActsOnSlots(s: Store, events: seq<Event>)
    requires ValidTable(s.rows) && ValidEvents(events)
    ensures var end := FaultyRun(s, events);
            && ValidTable(end.rows) && Slots(end) == SlotRun(Slots(s), events)
            && View(end) == map id | id in Slots(end) && Shown(Slots(end)[id]).Ok? :: Shown(Slots(end)[id]).value
  {
    ViewOfSlots(FaultyRun(s, events));
    if events != [] {
      var front := events[..|events| - 1];
      assert events[|events| - 1] in events;
      FaultyRunActsOnSlots(s, front);
      EventActsOnSlots(FaultyRun(s, front), events[|events| - 1]);
    }
  }

  // ---- which ids stay readable

  /** The id has a row that cannot be read. */
  predicate Stranded(s: Store, id: Uuid) {
    id in s.rows && id !in View(s)
  }

  /** A delete that drops the object of a binary row without content of its own, and fails at the row. */
  predicate Strands(s: Store, e: Event, id: Uuid) {
    e == RowDeleteFailed(id, true) && id in s.rows && s.rows[id].payload == BinaryContent([])
  }

  /** A save or delete of the id that succeeds, or a binary save that at least uploads what the row names. */
  predicate Mends(s: Store, e: Event, id: Uuid) {
    match e
    case Done(SaveBinary(f)) => f.id == id
    case Done(SaveTypst(f)) => f.id == id
    case Done(Delete(k, _)) => k == id
    case Refused => false
    case RowWriteFailed(f) => f.id == id && id in s.rows && Names(SlotOf(s.rows[id], s.blobs), f)
    case RowDeleteFailed(_, _) => false
  }

  predicate Unshown(m: map<Uuid, Slot>, id: Uuid) {
    id in m && Shown(m[id]).Err?
  }

  lemma StrandedIsUnshown(s: Store, id: Uuid)
    ensures Stranded(s, id) <==> Unshown(Slots(s), id)
  {
    if id in s.rows {
      ReadsSlot(s.rows[id], s.blobs);
    }
  }

  lemma UnshownStep(s: Store, e: Event, id: Uuid)
    requires ValidTable(s.rows) && ValidEvent(e)
    ensures Unshown(SlotsAfter(Slots(s), e), id) <==> Strands(s, e, id) || (Unshown(Slots(s), id) && !Mends(s, e, id))
  {
  }

  lemma StrandedStep(s: Store, e: Event, id: Uuid)
    requires ValidTable(s.rows) && ValidEvent(e)
    ensures Stranded(After(s, e), id) <==> Strands(s, e, id) || (Stranded(s, id) && !Mends(s, e, id))
  {
    EventActsOnSlots(s, e);
    UnshownStep(s, e, id);
    StrandedIsUnshown(s, id);
    StrandedIsUnshown(After(s, e), id);
  }

  predicate StrandedAt(s: Store, events: seq<Event>, id: Uuid, k: nat)
    requires ValidEvents(events) && k < |events|
  {
    Strands(FaultyRun(s, events[..k]), events[k], id)
  }

  predicate MendedAt(s: Store, events: seq<Event>, id: Uuid, k: nat)
    requires ValidEvents(events) && k < |events|
  {
    Mends(FaultyRun(s, events[..k]), events[k], id)
  }

  /** The k-th event has made the id unreadable, and no later one has mended it. */
  predicate StrandedBy(s: Store, events: seq<Event>, id: Uuid, k: nat)
    requires ValidEvents(events) && k < |events|
  {
    StrandedAt(s, events, id, k) && forall j :: k < j < |events| ==> !MendedAt(s, events, id, j)
  }

  lemma SameInFront(s: Store, events: seq<Event>, id: Uuid, k: nat)
    requires ValidEvents(events) && k < |events| - 1
    ensures StrandedAt(s, events, id, k) == StrandedAt(s, events[..|events| - 1], id, k)
    ensures MendedAt(s, events, id, k) == MendedAt(s, events[..|events| - 1], id, k)
  {
    assert events[..|events| - 1][..k] == events[..k];
  }

  lemma LongerStrandedBy(s: Store, events: seq<Event>, id: Uuid, k: nat)
    requires ValidEvents(events) && k < |events| - 1
    ensures StrandedBy(s, events, id, k)
            <==> StrandedBy(s, events[..|events| - 1], id, k) && !MendedAt(s, events, id, |events| - 1)
  {
    var n := |events| - 1;
    var front := events[..n];
    SameInFront(s, events, id, k);
    forall j: nat | j < n
      ensures MendedAt(s, events, id, j) == MendedAt(s, front, id, j)
    {
      SameInFront(s, events, id, j);
    }
    assert n == |front|;
    if StrandedBy(s, front, id, k) && !MendedAt(s, events, id, n) {
      forall j | k < j < |events|
        ensures !MendedAt(s, events, id, j)
      {
        if j < n {
          assert !MendedAt(s, front, id, j);
        }
      }
    }
  }

  predicate SomeStranding(s: Store, events: seq<Event>, id: Uuid)
    requires ValidEvents(events)
  {
    exists k: nat :: k < |events| && StrandedBy(s, events, id, k)
  }

  lemma StrandingStep(s: Store, events: seq<Event>, id: Uuid)
    requires ValidEvents(events) && events != []
    ensures SomeStranding(s, events, id)
            <==> StrandedAt(s, events, id, |events| - 1)
                 || (SomeStranding(s, events[..|events| - 1], id) && !MendedAt(s, events, id, |events| - 1))
  {
    var n := |events| - 1;
    forall k: nat | k < n
      ensures StrandedBy(s, events, id, k) <==> StrandedBy(s, events[..n], id, k) && !MendedAt(s, events, id, n)
    {
      LongerStrandedBy(s, events, id, k);
    }
    assert StrandedBy(s, events, id, n) <==> StrandedAt(s, events, id, n);
  }

  /** Over every run, an id that could be read, or had no row, at the start has an unreadable row at the end exactly if
      some delete dropped the object of its bare row and failed, and nothing has mended the id since. */
  lemma {:induction false} StrandedIff(s: Store, events: seq<Event>, id: Uuid)
    requires ValidTable(s.rows) && ValidEvents(events) && !Stranded(s, id)
    ensures Stranded(FaultyRun(s, events), id) <==> SomeStranding(s, events, id)
  {
    if events != [] {
      var front := events[..|events| - 1];
      assert events[|events| - 1] in events;
      FaultyRunActsOnSlots(s, front);
      StrandedStep(FaultyRun(s, front), events[|events| - 1], id);
      StrandedIff(s, front, id);
      StrandingStep(s, events, id);
    }
  }

  // ---- which objects nobody names

  predicate NamedBy(s: Store, key: string, id: Uuid) {
    IsBinaryRow(s, id) && KeyOf(s.rows[id]) == key
  }

  ghost predicate Unnamed(s: Store, key: string) {
    forall id :: !NamedBy(s, key, id)
  }

  /** The object is stored and no binary row names it: no read and no delete reaches it. */
  ghost predicate Orphan(s: Store, key: string) {
    key in s.blobs && Unnamed(s, key)
  }

  /** The row that names the object goes or comes to name another one, and the object stays; or it is uploaded for a row
      that is not written. */
  ghost predicate Orphans(s: Store, e: Event, key: string) {
    match e
    case Done(SaveBinary(f)) => key in s.blobs && NamedBy(s, key, f.id) && key != KeyOf(f)
    case Done(SaveTypst(f)) => key in s.blobs && NamedBy(s, key, f.id)
    case Done(Delete(id, dropped)) => key in s.blobs && NamedBy(s, key, id) && !dropped
    case Refused => false
    case RowWriteFailed(f) => key == KeyOf(f) && Unnamed(s, key)
    case RowDeleteFailed(_, _) => false
  }

  /** Only saving a binary file under the object's key takes an orphan back. */
  predicate Adopts(e: Event, key: string) {
    e.Done? && e.op.SaveBinary? && e.op.f.payload.BinaryContent? && KeyOf(e.op.f) == key
  }

  /** No two rows name one object. */
  lemma OnlyName(s: Store, key: string, id: Uuid, k: Uuid)
    requires ValidTable(s.rows) && NamedBy(s, key, id) && NamedBy(s, key, k)
    ensures id == k
  {
    var a, b := s.rows[id], s.rows[k];
    BlobKeyInjective(a.projectID, a.id, a.name, b.projectID, b.id, b.name);
  }

  /** When only the row of one id changes, only that row can give up the name or take it. */
  lemma UnnamedExcept(s: Store, u: Store, key: string, k: Uuid)
    requires ValidTable(s.rows) && forall id :: id != k ==> (NamedBy(u, key, id) <==> NamedBy(s, key, id))
    ensures Unnamed(u, key) <==> !NamedBy(u, key, k) && (Unnamed(s, key) || NamedBy(s, key, k))
  {
    if NamedBy(s, key, k) && !NamedBy(u, key, k) {
      forall id
        ensures !NamedBy(u, key, id)
      {
        if id != k && NamedBy(s, key, id) {
          OnlyName(s, key, id, k);
        }
      }
    }
    if !Unnamed(s, key) {
      var id :| NamedBy(s, key, id);
      assert id == k || NamedBy(u, key, id);
    }
  }

  lemma ObjectsAfter(s: Store, e: Event, key: string)
    requires ValidTable(s.rows) && ValidEvent(e)
    ensures key in After(s, e).blobs
            <==> match e
                 case Done(SaveBinary(f)) => key == KeyOf(f) || key in s.blobs
                 case RowWriteFailed(f) => key == KeyOf(f) || key in s.blobs
                 case Done(Delete(id, dropped)) => key in s.blobs && !(dropped && NamedBy(s, key, id))
                 case RowDeleteFailed(id, dropped) => key in s.blobs && !(dropped && NamedBy(s, key, id))
                 case _ => key in s.blobs
  {
  }

  lemma UnnamedAfter(s: Store, e: Event, key: string)
    requires ValidTable(s.rows) && ValidEvent(e)
    ensures Unnamed(After(s, e), key)
            <==> match e
                 case Done(SaveBinary(f)) => key != KeyOf(f) && (Unnamed(s, key) || NamedBy(s, key, f.id))
                 case Done(SaveTypst(f)) => Unnamed(s, key) || NamedBy(s, key, f.id)
                 case Done(Delete(k, _)) => Unnamed(s, key) || NamedBy(s, key, k)
                 case _ => Unnamed(s, key)
  {
    match e
    case Done(SaveBinary(f)) => UnnamedExcept(s, After(s, e), key, f.id);
    case Done(SaveTypst(f)) => UnnamedExcept(s, After(s, e), key, f.id);
    case Done(Delete(k, _)) => UnnamedExcept(s, After(s, e), key, k);
    case _ => assert forall id :: NamedBy(s, key, id) <==> NamedBy(After(s, e), key, id);
  }

  /** One event, successful or failed: exactly when an object is an orphan afterwards. */
  lemma OrphanStep(s: Store, e: Event, key: string)
    requires ValidTable(s.rows) && ValidEvent(e)
    ensures Orphan(After(s, e), key) <==> Orphans(s, e, key) || (Orphan(s, key) && !Adopts(e, key))
  {
    ObjectsAfter(s, e, key);
    UnnamedAfter(s, e, key);
  }

  /** Renaming a binary file leaves the object under its old name behind, and deleting the file later does not remove
      it. */
  lemma RenameLeavesObject(s: Store, f: FileVal, name: string)
    requires ValidTable(s.rows) && ValidFile(f) && f.payload.BinaryContent? && name != "" && name != f.name
    ensures var renamed := BinarySaved(BinarySaved(s, f), f.(name := name));
            Orphan(renamed, KeyOf(f)) && Orphan(Deleted(renamed, f.id, true), KeyOf(f))
  {
    var saved, g := BinarySaved(s, f), f.(name := name);
    if KeyOf(g) == KeyOf(f) {
      BlobKeyInjective(g.projectID, g.id, g.name, f.projectID, f.id, f.name);
    }
    var rename, delete := Done(SaveBinary(g)), Done(Delete(f.id, true));
    OrphanStep(saved, rename, KeyOf(f));
    OrphanStep(After(saved, rename), delete, KeyOf(f));
  }
}
