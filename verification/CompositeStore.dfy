/** The file store that keeps rows in PostgreSQL and binary payloads in S3: two backends that together behave as one
    map from ids to files, failures included. */
module CompositeStore {
  import opened Outcomes
  import opened Uuids
  import opened FileStore

  /** The files table, and the bucket. A row of a binary file saved here has no content of its own; a legacy row may. */
  datatype Store = Store(rows: Table, blobs: map<string, Content>)

  function KeyOf(f: FileVal): string {
    BlobKey(f.projectID, f.id, f.name)
  }

  function Bare(f: FileVal): FileVal {
    f.(payload := BinaryContent([]))
  }

  // ---- what a reader sees

  /** The object if there is one, the row's own content otherwise; an empty row without an object cannot be read. */
  function ReadBinary(row: FileVal, blobs: map<string, Content>): (r: Result<FileVal>)
    requires row.payload.BinaryContent?
  {
    if KeyOf(row) in blobs then Ok(row.(payload := BinaryContent(blobs[KeyOf(row)])))
    else if row.payload.content != [] then Ok(row)
    else Err(StoreFailure)
  }

  /** How a download goes: to the end, refused before the object is opened, or cut off while it is read. */
  datatype Transfer = Complete | NotOpened | Interrupted

  /** A download that cannot be opened falls back to the row; one that is cut off is an error. */
  function Fetch(row: FileVal, blobs: map<string, Content>, transfer: Transfer): Result<FileVal>
    requires row.payload.BinaryContent?
  {
    if transfer.Interrupted? && KeyOf(row) in blobs then Err(StoreFailure)
    else ReadBinary(row, if transfer.NotOpened? then map[] else blobs)
  }

  function Read(row: FileVal, blobs: map<string, Content>): Result<FileVal> {
    if row.payload.TypstState? then Ok(row) else ReadBinary(row, blobs)
  }

  /** The store as one map. */
  function View(s: Store): Table {
    map id | id in s.rows && Read(s.rows[id], s.blobs).Ok? :: Read(s.rows[id], s.blobs).value
  }

  ghost predicate Readable(s: Store) {
    ValidTable(s.rows) && forall id :: id in s.rows ==> Read(s.rows[id], s.blobs).Ok?
  }

  // ---- what each operation does to the two backends

  function Uploaded(s: Store, f: FileVal): Store
    requires f.payload.BinaryContent?
  {
    s.(blobs := s.blobs[KeyOf(f) := f.payload.content])
  }

  function BinarySaved(s: Store, f: FileVal): Store
    requires f.payload.BinaryContent?
  {
    Uploaded(s, f).(rows := s.rows[f.id := Bare(f)])
  }

  function TypstSaved(s: Store, f: FileVal): Store {
    s.(rows := s.rows[f.id := f])
  }

  predicate IsBinaryRow(s: Store, id: Uuid) {
    id in s.rows && s.rows[id].payload.BinaryContent?
  }

  /** Deleting the object of a binary row, when the row can be found and S3 obeys. */
  function BlobDeleted(s: Store, id: Uuid, obeyed: bool): Store {
    if IsBinaryRow(s, id) && obeyed then s.(blobs := Without(s.blobs, KeyOf(s.rows[id]))) else s
  }

  function Deleted(s: Store, id: Uuid, obeyed: bool): Store {
    BlobDeleted(s, id, obeyed).(rows := Without(s.rows, id))
  }

  /** A reader only notices changes to the row of an id and to the object of that row. */
  lemma ReadElsewhere(row: FileVal, other: FileVal, blobs: map<string, Content>, content: Content)
    requires row.id != other.id
    ensures Read(row, blobs[KeyOf(other) := content]) == Read(row, blobs)
    ensures Read(row, Without(blobs, KeyOf(other))) == Read(row, blobs)
  {
    if KeyOf(row) == KeyOf(other) {
      BlobKeyInjective(row.projectID, row.id, row.name, other.projectID, other.id, other.name);
    }
  }

  /** Saving a binary file is an update of the map, whatever was stored before. */
  lemma BinarySaveShows(s: Store, f: FileVal)
    requires ValidTable(s.rows) && f.payload.BinaryContent?
    ensures View(BinarySaved(s, f)) == View(s)[f.id := f]
  {
    var s' := BinarySaved(s, f);
    assert Read(Bare(f), s'.blobs) == Ok(f);
    forall id | id in s.rows && id != f.id
      ensures Read(s.rows[id], s'.blobs) == Read(s.rows[id], s.blobs)
    {
      ReadElsewhere(s.rows[id], f, s.blobs, f.payload.content);
    }
  }

  lemma TypstSaveShows(s: Store, f: FileVal)
    requires f.payload.TypstState?
    ensures View(TypstSaved(s, f)) == View(s)[f.id := f]
  {
  }

  /** Deleting removes the id from the map, even when the object stays behind. */
  lemma DeleteShows(s: Store, id: Uuid, obeyed: bool)
    requires ValidTable(s.rows)
    ensures View(Deleted(s, id, obeyed)) == Without(View(s), id)
  {
    forall k | k in s.rows && k != id
      ensures Read(s.rows[k], BlobDeleted(s, id, obeyed).blobs) == Read(s.rows[k], s.blobs)
    {
      if IsBinaryRow(s, id) {
        ReadElsewhere(s.rows[k], s.rows[id], s.blobs, []);
      }
    }
  }

  // ---- failures between the two backends

  /** A binary save that fails at the row write has uploaded its payload. Everything readable stays readable, and the
      map changes exactly if the file's row already names that object and reads differently. */
  lemma FailedRowWriteIff(s: Store, f: FileVal)
    requires ValidTable(s.rows) && f.payload.BinaryContent?
    ensures forall id :: id in View(s) ==>
              id in View(Uploaded(s, f)) && (id != f.id ==> View(Uploaded(s, f))[id] == View(s)[id])
    ensures View(Uploaded(s, f)) == View(s)
            <==> !(IsBinaryRow(s, f.id) && KeyOf(s.rows[f.id]) == KeyOf(f)) || Find(View(s), f.id) == Some(f)
  {
    var s' := Uploaded(s, f);
    forall id | id in s.rows && id != f.id
      ensures Read(s.rows[id], s'.blobs) == Read(s.rows[id], s.blobs)
    {
      ReadElsewhere(s.rows[id], f, s.blobs, f.payload.content);
    }
    if IsBinaryRow(s, f.id) && KeyOf(s.rows[f.id]) == KeyOf(f) {
      BlobKeyInjective(f.projectID, f.id, f.name, s.rows[f.id].projectID, s.rows[f.id].id, s.rows[f.id].name);
      assert Read(s.rows[f.id], s'.blobs) == Ok(f);
      assert f.id in View(s') && View(s')[f.id] == f;
    } else {
      assert f.id in s.rows ==> Read(s.rows[f.id], s'.blobs) == Read(s.rows[f.id], s.blobs);
    }
  }

  /** A delete that fails at the row has already dropped the object. The map is unharmed exactly if there was no object
      to drop or the row holds the same content itself. */
  lemma FailedRowDeleteIff(s: Store, id: Uuid)
    requires ValidTable(s.rows)
    ensures View(BlobDeleted(s, id, true)) == View(s)
            <==> (IsBinaryRow(s, id) && KeyOf(s.rows[id]) in s.blobs
                  ==> s.rows[id].payload.content != [] && s.rows[id].payload.content == s.blobs[KeyOf(s.rows[id])])
    ensures forall k :: k in View(s) && k != id ==>
              k in View(BlobDeleted(s, id, true)) && View(BlobDeleted(s, id, true))[k] == View(s)[k]
  {
    var s' := BlobDeleted(s, id, true);
    forall k | k in s.rows && k != id
      ensures Read(s.rows[k], s'.blobs) == Read(s.rows[k], s.blobs)
    {
      if IsBinaryRow(s, id) {
        ReadElsewhere(s.rows[k], s.rows[id], s.blobs, []);
      }
    }
    if IsBinaryRow(s, id) && KeyOf(s.rows[id]) in s.blobs {
      var row := s.rows[id];
      assert Read(row, s'.blobs) == if row.payload.content != [] then Ok(row) else Err(StoreFailure);
      assert id in View(s) && View(s)[id] == row.(payload := BinaryContent(s.blobs[KeyOf(row)]));
      assert id in View(s') <==> row.payload.content != [];
    } else {
      assert id in s.rows ==> Read(s.rows[id], s'.blobs) == Read(s.rows[id], s.blobs);
    }
  }

  // ---- renames

  /** Renaming through a lookup keeps the content. */
  lemma RenameShows(s: Store, id: Uuid, name: string)
    requires ValidTable(s.rows) && id in View(s)
    ensures var f := View(s)[id].(name := name);
            && f.id == id
            && View(if f.payload.BinaryContent? then BinarySaved(s, f) else TypstSaved(s, f)) == View(s)[id := f]
  {
    var f := View(s)[id].(name := name);
    if f.payload.BinaryContent? {
      BinarySaveShows(s, f);
    } else {
      TypstSaveShows(s, f);
    }
  }

  /** Renaming through a project listing saves what the row itself holds: the content survives exactly if that is what
      a lookup shows. A row this store has written holds nothing, so only an empty file survives. */
  lemma RenameThroughListingIff(s: Store, id: Uuid, name: string)
    requires ValidTable(s.rows) && id in View(s) && s.rows[id].payload.BinaryContent?
    ensures View(BinarySaved(s, s.rows[id].(name := name))) == View(s)[id := View(s)[id].(name := name)]
            <==> View(s)[id].payload == s.rows[id].payload
  {
    var row := s.rows[id].(name := name);
    BinarySaveShows(s, row);
    assert View(s)[id := row][id] == row;
    assert View(s)[id := View(s)[id].(name := name)][id] == View(s)[id].(name := name);
  }

  // ---- content that is lost

  /** The file reads as it was saved, and after a rename through a listing it is empty. */
  lemma ListingRenameLosesContent(s: Store, f: FileVal, name: string)
    requires ValidTable(s.rows) && ValidFile(f) && f.payload.BinaryContent? && f.payload.content != [] && name != ""
    ensures var saved := BinarySaved(s, f);
            && f.id in View(saved) && View(saved)[f.id] == f
            && var renamed := View(BinarySaved(saved, saved.rows[f.id].(name := name)));
               f.id in renamed && renamed[f.id] == f.(name := name, payload := BinaryContent([]))
  {
    BinarySaveShows(s, f);
    var saved := BinarySaved(s, f);
    BinarySaveShows(saved, saved.rows[f.id].(name := name));
  }

  /** The file reads as it was saved, and after a delete that failed at the row it cannot be read at all. */
  lemma FailedDeleteLosesFile(s: Store, f: FileVal)
    requires ValidTable(s.rows) && ValidFile(f) && f.payload.BinaryContent?
    ensures var saved := BinarySaved(s, f);
            && f.id in View(saved) && View(saved)[f.id] == f
            && f.id in BlobDeleted(saved, f.id, true).rows && f.id !in View(BlobDeleted(saved, f.id, true))
  {
    BinarySaveShows(s, f);
  }

  // ---- whole runs

  datatype Op = SaveBinary(f: FileVal) | SaveTypst(f: FileVal) | Delete(id: Uuid, blobDeleted: bool)

  predicate ValidOp(op: Op) {
    match op
    case SaveBinary(f) => ValidFile(f) && f.payload.BinaryContent?
    case SaveTypst(f) => ValidFile(f) && f.payload.TypstState?
    case Delete(_, _) => true
  }

  function Apply(s: Store, op: Op): Store
    requires ValidOp(op)
  {
    match op
    case SaveBinary(f) => BinarySaved(s, f)
    case SaveTypst(f) => TypstSaved(s, f)
    case Delete(id, blobDeleted) => Deleted(s, id, blobDeleted)
  }

  /** The same on a plain map. */
  function Plain(t: Table, op: Op): Table {
    match op
    case SaveBinary(f) => t[f.id := f]
    case SaveTypst(f) => t[f.id := f]
    case Delete(id, _) => Without(t, id)
  }

  predicate ValidOps(ops: seq<Op>) {
    forall op :: op in ops ==> ValidOp(op)
  }

  function Run(s: Store, ops: seq<Op>): Store
    requires ValidOps(ops)
  {
    if ops == [] then s else
      assert ops[|ops| - 1] in ops;
      Apply(Run(s, ops[..|ops| - 1]), ops[|ops| - 1])
  }

  function PlainRun(t: Table, ops: seq<Op>): Table {
    if ops == [] then t else Plain(PlainRun(t, ops[..|ops| - 1]), ops[|ops| - 1])
  }

  /** Every run of saves and deletes, whichever object deletions S3 silently fails, leaves the store looking like the
      plain map; legacy rows count with what they show at the start. With nothing unreadable at the start, nothing ever
      becomes unreadable, so a delete finds its row exactly if the map has the id. */
  lemma {:induction false} StoreRefinesMap(s: Store, ops: seq<Op>)
    requires ValidTable(s.rows) && ValidOps(ops)
    ensures ValidTable(Run(s, ops).rows)
    ensures View(Run(s, ops)) == PlainRun(View(s), ops)
    ensures Readable(s) ==> Readable(Run(s, ops)) && Run(s, ops).rows.Keys == PlainRun(View(s), ops).Keys
  {
    if ops == [] {
      if Readable(s) {
        KeysShown(s);
      }
    } else {
      var front, op := ops[..|ops| - 1], ops[|ops| - 1];
      assert op in ops;
      StoreRefinesMap(s, front);
      OpShows(Run(s, front), op);
      if Readable(s) {
        KeysShown(Run(s, ops));
      }
    }
  }

  /** Every run leaves each binary row either as it was at the start or without content of its own. */
  lemma {:induction false} SavedRowsAreBare(s: Store, ops: seq<Op>, id: Uuid)
    requires ValidOps(ops) && IsBinaryRow(Run(s, ops), id)
    ensures Run(s, ops).rows[id].payload == BinaryContent([]) || (id in s.rows && Run(s, ops).rows[id] == s.rows[id])
  {
    if ops != [] {
      var front, op := ops[..|ops| - 1], ops[|ops| - 1];
      assert op in ops;
      if Run(s, ops).rows[id].payload != BinaryContent([]) {
        SavedRowsAreBare(s, front, id);
      }
    }
  }

  /** So after any run over an empty store, a rename through a listing keeps the content of a binary file exactly if
      that content is empty. */
  lemma OnlyEmptySurvivesListing(ops: seq<Op>, id: Uuid, name: string)
    requires ValidOps(ops) && IsBinaryRow(Run(Store(map[], map[]), ops), id)
    ensures var s := Run(Store(map[], map[]), ops);
            && id in View(s)
            && (View(BinarySaved(s, s.rows[id].(name := name))) == View(s)[id := View(s)[id].(name := name)]
                <==> View(s)[id].payload == BinaryContent([]))
  {
    var empty := Store(map[], map[]);
    SavedRowsAreBare(empty, ops, id);
    StoreRefinesMap(empty, ops);
    KeysShown(Run(empty, ops));
    RenameThroughListingIff(Run(empty, ops), id, name);
  }

  lemma OpShows(s: Store, op: Op)
    requires ValidTable(s.rows) && ValidOp(op)
    ensures ValidTable(Apply(s, op).rows) && View(Apply(s, op)) == Plain(View(s), op)
    ensures Readable(s) ==> Readable(Apply(s, op))
  {
    match op
    case SaveBinary(f) => BinarySaveShows(s, f);
    case SaveTypst(f) => TypstSaveShows(s, f);
    case Delete(id, blobDeleted) => DeleteShows(s, id, blobDeleted);
    if Readable(s) {
      assert View(s).Keys == s.rows.Keys;
      forall id | id in Apply(s, op).rows
        ensures Read(Apply(s, op).rows[id], Apply(s, op).blobs).Ok?
      {
        assert id in View(Apply(s, op));
      }
    }
  }

  lemma KeysShown(s: Store)
    requires Readable(s)
    ensures View(s).Keys == s.rows.Keys
  {
  }
}
