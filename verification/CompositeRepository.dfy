/** The composite repository and the file service over it, in place; which backend calls fail is an argument. */
module CompositeRepository {
  import opened Outcomes
  import opened Uuids
  import opened FileStore
  import opened CompositeStore
  import FaultyRuns

  class FileRepository {
    var rows: Table
    var blobs: map<string, Content>

    ghost predicate Valid()
      reads this
    {
      ValidTable(rows)
    }

    ghost function State(): Store
      reads this
    {
      Store(rows, blobs)
    }

    constructor (rows: Table, blobs: map<string, Content>)
      requires ValidTable(rows)
      ensures Valid() && State() == Store(rows, blobs)
    {
      this.rows, this.blobs := rows, blobs;
    }

    method SaveTypstFile(f: File, rowOk: bool) returns (r: Result<()>)
      requires Valid() && f.Valid() && f.typst
      modifies this
      ensures Valid() && (r.Ok? <==> rowOk)
      ensures State() == if rowOk then TypstSaved(old(State()), f.Value()) else old(State())
    {
      if !rowOk {
        return Err(StoreFailure);
      }
      rows := rows[f.id := f.Value()];
      r := Ok(());
    }

    /** The payload is uploaded before the row is written, and the row does not carry it. */
    method SaveBinaryFile(f: File, uploadOk: bool, rowOk: bool) returns (r: Result<()>)
      requires Valid() && f.Valid() && !f.typst
      modifies this
      ensures Valid() && (r.Ok? <==> uploadOk && rowOk)
      ensures State() == if !uploadOk then old(State())
                         else if !rowOk then Uploaded(old(State()), f.Value())
                         else BinarySaved(old(State()), f.Value())
    {
      var content := f.payload.content;
      var key := BlobKey(f.projectID, f.id, f.name);
      if !uploadOk {
        return Err(StoreFailure);
      }
      blobs := blobs[key := content];
      var metaFile := FileVal(f.id, f.projectID, f.name, BinaryContent([]));
      if !rowOk {
        return Err(StoreFailure);
      }
      rows := rows[f.id := metaFile];
      r := Ok(());
    }

    method FindTypstFileByID(id: Uuid, rowOk: bool) returns (r: Result<File>)
      requires Valid()
      ensures r.Ok? <==> rowOk && id in rows && rows[id].payload.TypstState?
      ensures r.Ok? ==> fresh(r.value) && r.value.Valid() && r.value.Value() == rows[id]
    {
      if !rowOk {
        return Err(StoreFailure);
      }
      if id !in rows || !rows[id].payload.TypstState? {
        return Err(TypstFileNotFound);
      }
      var f := new File(rows[id]);
      r := Ok(f);
    }

    method FindBinaryFileByID(id: Uuid, rowOk: bool, transfer: Transfer) returns (r: Result<File>)
      requires Valid()
      ensures r.Ok? <==> rowOk && IsBinaryRow(State(), id) && Fetch(rows[id], blobs, transfer).Ok?
      ensures r.Ok? ==> fresh(r.value) && r.value.Valid() && Ok(r.value.Value()) == Fetch(rows[id], blobs, transfer)
      ensures r.Ok? <==>
                && rowOk && IsBinaryRow(State(), id)
                && (transfer.Interrupted? ==> KeyOf(rows[id]) !in blobs)
                && (rows[id].payload.content != [] || (transfer.Complete? && KeyOf(rows[id]) in blobs))
      ensures r.Ok? ==> r.value.Value() == if transfer.Complete? && KeyOf(rows[id]) in blobs
                                           then rows[id].(payload := BinaryContent(blobs[KeyOf(rows[id])]))
                                           else rows[id]
    {
      if !rowOk {
        return Err(StoreFailure);
      }
      if id !in rows || !rows[id].payload.BinaryContent? {
        return Err(BinaryFileNotFound);
      }
      var metaFile := rows[id];
      var key := BlobKey(metaFile.projectID, metaFile.id, metaFile.name);
      if transfer.NotOpened? || key !in blobs {
        if |metaFile.payload.content| > 0 {
          var legacy := new File(metaFile);
          return Ok(legacy);
        }
        return Err(StoreFailure);
      }
      if transfer.Interrupted? {
        return Err(StoreFailure);
      }
      var f := new File(FileVal(metaFile.id, metaFile.projectID, metaFile.name, BinaryContent(blobs[key])));
      r := Ok(f);
    }

    /** The object goes first, and whether S3 obeys is ignored; then the row. */
    method DeleteFile(id: Uuid, findOk: bool, blobDeleteOk: bool, rowOk: bool) returns (r: Result<()>)
      requires Valid()
      modifies this
      ensures Valid()
      ensures r == if !rowOk then Err(StoreFailure) else if id in old(rows) then Ok(()) else Err(FileNotFound)
      ensures State() == if rowOk then Deleted(old(State()), id, findOk && blobDeleteOk)
                         else BlobDeleted(old(State()), id, findOk && blobDeleteOk)
      ensures rows == if rowOk then Without(old(rows), id) else old(rows)
      ensures blobs == if IsBinaryRow(old(State()), id) && findOk && blobDeleteOk
                       then Without(old(blobs), KeyOf(old(rows)[id]))
                       else old(blobs)
      ensures State() == FaultyRuns.After(old(State()), FaultyRuns.DeleteEvent(id, findOk && blobDeleteOk, rowOk))
    {
      if findOk && id in rows && rows[id].payload.BinaryContent? {
        var key := BlobKey(rows[id].projectID, rows[id].id, rows[id].name);
        if blobDeleteOk {
          blobs := Without(blobs, key);
        }
      }
      if !rowOk {
        return Err(StoreFailure);
      }
      if id !in rows {
        assert Without(rows, id) == rows;
        return Err(FileNotFound);
      }
      rows := Without(rows, id);
      r := Ok(());
    }
  }

  class FileService {
    const repo: FileRepository

    constructor (repo: FileRepository)
      ensures this.repo == repo
    {
      this.repo := repo;
    }

    /** What lookups show, as one map. */
    ghost function Shown(): Table
      reads repo
    {
      View(repo.State())
    }

    /** Typst first, then binary. Without failures this is a lookup in the map. */
    method FindByID(fileID: Uuid, rowOk: bool, transfer: Transfer) returns (r: Result<File>)
      requires repo.Valid()
      ensures r.Ok? ==> fresh(r.value) && r.value.Valid() && fileID in repo.rows && fileID in Shown()
      ensures r.Ok? ==> r.value.typst == repo.rows[fileID].payload.TypstState?
      ensures r.Ok? <==>
                && rowOk && fileID in repo.rows
                && (repo.rows[fileID].payload.TypstState? || Fetch(repo.rows[fileID], repo.blobs, transfer).Ok?)
      ensures transfer.Complete? ==> (r.Ok? <==> rowOk && fileID in Shown())
      ensures r.Err? ==> r.error == FileNotFound
      ensures r.Ok? ==>
                r.value.Value() == if !transfer.NotOpened? || r.value.typst then Shown()[fileID] else repo.rows[fileID]
      ensures r.Ok? && !r.value.typst && transfer.NotOpened? ==> repo.rows[fileID].payload.content != []
    {
      var typst := repo.FindTypstFileByID(fileID, rowOk);
      if typst.Ok? {
        return typst;
      }
      var binary := repo.FindBinaryFileByID(fileID, rowOk, transfer);
      if binary.Ok? {
        return binary;
      }
      r := Err(FileNotFound);
    }

    method Save(f: File, uploadOk: bool, rowOk: bool) returns (r: Result<()>)
      requires repo.Valid() && f.Valid()
      modifies repo
      ensures repo.Valid() && (r.Ok? <==> rowOk && (f.typst || uploadOk))
      ensures repo.State() == var before := old(repo.State());
                              if r.Ok? && f.typst then TypstSaved(before, f.Value())
                              else if r.Ok? then BinarySaved(before, f.Value())
                              else if !f.typst && uploadOk then Uploaded(before, f.Value())
                              else before
      ensures repo.State() == FaultyRuns.After(old(repo.State()), FaultyRuns.SaveEvent(f.Value(), uploadOk, rowOk))
    {
      if f.typst {
        r := repo.SaveTypstFile(f, rowOk);
      } else {
        r := repo.SaveBinaryFile(f, uploadOk, rowOk);
      }
    }

    /** A rename that succeeds keeps the content exactly if the object could be opened, or the row holds the same
        content itself. A rename that fails, wherever it fails, then changes nothing a lookup could show. */
    method RenameFile(fileID: Uuid, newName: string, findOk: bool, transfer: Transfer, uploadOk: bool,
                      rowOk: bool) returns (r: Result<()>)
      requires repo.Valid()
      modifies repo
      ensures repo.Valid()
      ensures r.Ok? <==>
                && findOk && rowOk && newName != "" && fileID in old(repo.rows)
                && (old(repo.rows)[fileID].payload.TypstState?
                    || (uploadOk && Fetch(old(repo.rows)[fileID], old(repo.blobs), transfer).Ok?))
      ensures r.Ok? ==> fileID in old(Shown()) && newName != ""
      ensures r.Ok? ==>
                (Shown() == old(Shown())[fileID := old(Shown())[fileID].(name := newName)]
                 <==> Faithful(old(repo.State()), fileID, transfer))
      ensures r.Err? && Faithful(old(repo.State()), fileID, transfer) ==> Shown() == old(Shown())
    {
      ghost var before := repo.State();
      var found := FindByID(fileID, findOk, transfer);
      if found.Err? {
        return Err(found.error);
      }
      var f := found.value;
      ghost var seen := f.Value();
      var renamed := f.Rename(newName);
      if renamed.Err? {
        return Err(renamed.error);
      }
      r := Save(f, uploadOk, rowOk);
      if Faithful(before, fileID, transfer) {
        assert seen == View(before)[fileID];
        if r.Ok? {
          RenameShows(before, fileID, newName);
        } else if !f.typst && uploadOk {
          FailedRenameShows(before, f.Value());
        }
      } else if r.Ok? {
        assert seen == before.rows[fileID];
        RenameThroughListingIff(before, fileID, newName);
      }
    }

    /** The object could be opened, or a lookup that falls back to the row shows what it would have shown. */
    static predicate Faithful(s: Store, id: Uuid, transfer: Transfer) {
      transfer.NotOpened? && IsBinaryRow(s, id) && s.rows[id].payload.content != []
      ==> FileStore.Find(View(s), id) == Some(s.rows[id])
    }

    /** The object a failed rename leaves behind is either a new one or the same. */
    static lemma FailedRenameShows(s: Store, f: FileVal)
      requires ValidTable(s.rows) && f.payload.BinaryContent? && f.id in View(s)
      requires f == View(s)[f.id].(name := f.name)
      ensures View(Uploaded(s, f)) == View(s)
    {
      FailedRowWriteIff(s, f);
      if IsBinaryRow(s, f.id) && KeyOf(s.rows[f.id]) == KeyOf(f) {
        BlobKeyInjective(f.projectID, f.id, f.name, s.rows[f.id].projectID, s.rows[f.id].id, s.rows[f.id].name);
      }
    }
  }
}
