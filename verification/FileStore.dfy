/** Project files and the in-memory file table, in place. */
module FileStore {
  import opened Outcomes
  import opened Uuids
  import opened Documents
  import opened MetadataModel

  type Content = seq<bv8>

  /** What distinguishes the two file variants. */
  datatype Payload = TypstState(state: Bytes<Doc>) | BinaryContent(content: Content)

  datatype FileVal = FileVal(id: Uuid, projectID: Uuid, name: string, payload: Payload)

  type Table = map<Uuid, FileVal>

  function TypeName(p: Payload): string {
    if p.TypstState? then "typst" else "binary"
  }

  function Find(t: Table, id: Uuid): Option<FileVal> {
    if id in t then Some(t[id]) else None
  }

  /** The entries a store reports for a project: one live entry per file. */
  function EntriesOf(t: Table, projectID: Uuid): EntryMap {
    map id | id in t && t[id].projectID == projectID :: EntryOf(t[id])
  }

  function EntryOf(f: FileVal): Entry {
    Entry(f.id, f.name, TypeName(f.payload), false)
  }

  lemma EntriesFromRows(entries: seq<Entry>, t: Table, projectID: Uuid)
    requires forall i, j :: 0 <= i < j < |entries| ==> entries[i].id != entries[j].id
    requires forall j :: 0 <= j < |entries| ==>
               entries[j].id in t && t[entries[j].id].projectID == projectID && entries[j] == EntryOf(t[entries[j].id])
    requires forall id :: id in t && t[id].projectID == projectID ==> exists j ::
               0 <= j < |entries| && entries[j].id == id
    ensures LastWins(entries) == EntriesOf(t, projectID)
  {
    forall id
      ensures id in LastWins(entries) <==> id in EntriesOf(t, projectID)
      ensures id in LastWins(entries) ==> LastWins(entries)[id] == EntriesOf(t, projectID)[id]
    {
      if id in EntriesOf(t, projectID) {
        var j :| 0 <= j < |entries| && entries[j].id == id;
        UnshadowedIsKept(entries, j);
      }
    }
  }

  predicate ValidFile(f: FileVal) {
    f.id != NIL && f.projectID != NIL && f.name != ""
  }

  ghost predicate ValidTable(t: Table) {
    forall id :: id in t ==> t[id].id == id && ValidFile(t[id])
  }

  class File {
    const id: Uuid
    const projectID: Uuid
    const typst: bool
    var name: string
    var payload: Payload

    ghost predicate Valid()
      reads this
    {
      ValidFile(Value()) && payload.TypstState? == typst
    }

    function Value(): FileVal
      reads this
    {
      FileVal(id, projectID, name, payload)
    }

    constructor (f: FileVal)
      requires ValidFile(f)
      ensures Valid() && Value() == f
    {
      id, projectID, typst := f.id, f.projectID, f.payload.TypstState?;
      name, payload := f.name, f.payload;
    }

    method Rename(newName: string) returns (r: Result<()>)
      modifies this`name
      ensures r == if newName == "" then Err(EmptyFileName) else Ok(())
      ensures name == if newName == "" then old(name) else newName
    {
      if newName == "" {
        return Err(EmptyFileName);
      }
      name := newName;
      r := Ok(());
    }

    method UpdateState(state: Bytes<Doc>) returns (r: Result<()>)
      requires typst
      modifies this`payload
      ensures r == if state == Nil then Err(NilState) else Ok(())
      ensures payload == if state == Nil then old(payload) else TypstState(if IsEmpty(state) then Nil else state)
    {
      if state == Nil {
        return Err(NilState);
      }
      payload := TypstState(Copy(state));
      r := Ok(());
    }
  }

  ghost function Values(all: map<Uuid, File>, objects: set<File>): Table
    reads objects
  {
    map id | id in all && all[id] in objects :: all[id].Value()
  }

  lemma ValuesRemove(all: map<Uuid, File>, objects: set<File>, id: Uuid)
    ensures Values(Without(all, id), objects) == Without(Values(all, objects), id)
  {
  }

  lemma ValuesPut(all: map<Uuid, File>, objects: set<File>, f: File)
    requires forall id :: id in all ==> all[id] in objects
    ensures Values(all[f.id := f], objects + {f}) == Values(all, objects)[f.id := f.Value()]
  {
  }

  /** Every file sits under its own id, in the map of its variant, and no id is in both. */
  ghost predicate Split(all: map<Uuid, File>, typst: map<Uuid, File>, binary: map<Uuid, File>) {
    && (forall id :: id in all ==> all[id].id == id && if all[id].typst then id in typst else id in binary)
    && (forall id :: id in typst ==> id in all && typst[id] == all[id] && all[id].typst)
    && (forall id :: id in binary ==> id in all && binary[id] == all[id] && !all[id].typst)
  }

  /** Every file object has a row of its variant with a name and a project. */
  ghost predicate Sound(all: map<Uuid, File>, t: Table) {
    forall id :: id in all ==> id in t && ValidFile(t[id]) && t[id].payload.TypstState? == all[id].typst
  }

  lemma SplitRemove(all: map<Uuid, File>, typst: map<Uuid, File>, binary: map<Uuid, File>, id: Uuid)
    requires Split(all, typst, binary)
    ensures Split(Without(all, id), Without(typst, id), Without(binary, id))
    ensures id in all <==> id in typst || id in binary
  {
  }

  lemma SoundRemove(all: map<Uuid, File>, t: Table, id: Uuid)
    requires Sound(all, t)
    ensures Sound(Without(all, id), Without(t, id))
    ensures id !in all ==> Without(all, id) == all
  {
  }

  lemma SoundPut(all: map<Uuid, File>, t: Table, f: File)
    requires Sound(all, t) && f.Valid()
    ensures Sound(all[f.id := f], t[f.id := f.Value()])
  {
  }

  lemma SplitPut(all: map<Uuid, File>, typst: map<Uuid, File>, binary: map<Uuid, File>, f: File)
    requires Split(all, typst, binary)
    ensures f.typst && f.id !in binary ==> Split(all[f.id := f], typst[f.id := f], binary)
    ensures !f.typst && f.id !in typst ==> Split(all[f.id := f], typst, binary[f.id := f])
  {
  }

  /** The calls that write to the store. */
  datatype StoreCall = Saved(id: Uuid) | Removed(id: Uuid)

  class FileRepository {
    var typstFiles: map<Uuid, File>
    var binaryFiles: map<Uuid, File>
    var tombstones: set<Uuid>
    ghost var All: map<Uuid, File>  // both maps together
    ghost var Objects: set<File>    // the file objects ever stored
    ghost var Log: seq<StoreCall>   // every save and every delete asked for, oldest first

    ghost predicate Valid()
      reads this, Objects
    {
      && (forall f :: f in Objects ==> f as object != this)
      && Split(All, typstFiles, binaryFiles)
      && Sound(All, Table())
    }

    ghost function Table(): Table
      reads this, Objects
    {
      Values(All, Objects)
    }

    constructor ()
      ensures Valid() && Table() == map[] && tombstones == {} && Log == []
    {
      typstFiles, binaryFiles, tombstones := map[], map[], {};
      All, Objects, Log := map[], {}, [];
    }

    /** Installs all three maps at once. */
    method Install(typst: map<Uuid, File>, binary: map<Uuid, File>, buried: set<Uuid>, ghost all: map<Uuid, File>,
                   ghost objects: set<File>)
      requires Split(all, typst, binary) && Sound(all, Values(all, objects))
      requires forall f :: f in objects ==> f as object != this
      modifies this`typstFiles, this`binaryFiles, this`tombstones, this`All, this`Objects
      ensures Valid() && All == all && Objects == objects && Table() == old(Values(all, objects))
                && tombstones == buried
    {
      typstFiles, binaryFiles, tombstones, All, Objects := typst, binary, buried, all, objects;
    }

    method SaveTypstFile(f: File)
      requires Valid() && f.Valid() && f.typst && f.id !in binaryFiles
      modifies this
      ensures Valid() && All == old(All)[f.id := f] && Objects == old(Objects) + {f} && tombstones == old(tombstones)
      ensures Table() == old(Table())[f.id := f.Value()] && Log == old(Log) + [Saved(f.id)]
    {
      SplitPut(All, typstFiles, binaryFiles, f);
      ValuesPut(All, Objects, f);
      SoundPut(All, Table(), f);
      Log := Log + [Saved(f.id)];
      Install(typstFiles[f.id := f], binaryFiles, tombstones, All[f.id := f], Objects + {f});
    }

    method SaveBinaryFile(f: File)
      requires Valid() && f.Valid() && !f.typst && f.id !in typstFiles
      modifies this
      ensures Valid() && All == old(All)[f.id := f] && Objects == old(Objects) + {f} && tombstones == old(tombstones)
      ensures Table() == old(Table())[f.id := f.Value()] && Log == old(Log) + [Saved(f.id)]
    {
      SplitPut(All, typstFiles, binaryFiles, f);
      ValuesPut(All, Objects, f);
      SoundPut(All, Table(), f);
      Log := Log + [Saved(f.id)];
      Install(typstFiles, binaryFiles[f.id := f], tombstones, All[f.id := f], Objects + {f});
    }

    method FindTypstFileByID(id: Uuid) returns (r: Result<File>)
      requires Valid()
      ensures r == if id in typstFiles then Ok(typstFiles[id]) else Err(TypstFileNotFound)
    {
      r := if id in typstFiles then Ok(typstFiles[id]) else Err(TypstFileNotFound);
    }

    method FindBinaryFileByID(id: Uuid) returns (r: Result<File>)
      requires Valid()
      ensures r == if id in binaryFiles then Ok(binaryFiles[id]) else Err(BinaryFileNotFound)
    {
      r := if id in binaryFiles then Ok(binaryFiles[id]) else Err(BinaryFileNotFound);
    }

    lemma DropFits(id: Uuid)
      requires Valid()
      ensures id in All <==> id in typstFiles || id in binaryFiles
      ensures id !in All ==> Without(All, id) == All && Without(Table(), id) == Table()
      ensures Split(Without(All, id), Without(typstFiles, id), Without(binaryFiles, id))
      ensures Sound(Without(All, id), Without(Table(), id)) && Values(Without(All, id), Objects) == Without(Table(), id)
    {
      SplitRemove(All, typstFiles, binaryFiles, id);
      SoundRemove(All, Table(), id);
      ValuesRemove(All, Objects, id);
    }

    /** Notes a call in the log. */
    ghost method Record(call: StoreCall)
      requires Valid()
      modifies this`Log
      ensures Valid() && Table() == old(Table()) && Log == old(Log) + [call]
    {
      Log := Log + [call];
    }

    /** Takes the id out of whichever map has it. */
    method Drop(id: Uuid)
      requires Valid()
      modifies this`typstFiles, this`binaryFiles, this`tombstones, this`All, this`Objects
      ensures Valid() && Objects == old(Objects) && tombstones == old(tombstones) + {id}
      ensures All == Without(old(All), id) && Table() == Without(old(Table()), id)
    {
      DropFits(id);
      Install(Without(typstFiles, id), Without(binaryFiles, id), tombstones + {id}, Without(All, id), Objects);
    }

    method DeleteFile(id: Uuid) returns (r: Result<()>)
      requires Valid()
      modifies this
      ensures Valid() && Objects == old(Objects)
      ensures r == if id in old(All) then Ok(()) else Err(FileNotFound)
      ensures All == Without(old(All), id) && Table() == Without(old(Table()), id)
      ensures tombstones == if r.Ok? then old(tombstones) + {id} else old(tombstones)
      ensures Log == old(Log) + [Removed(id)]
    {
      Record(Removed(id));
      if id !in typstFiles && id !in binaryFiles {
        DropFits(id);
        return Err(FileNotFound);
      }
      DropFits(id);
      Drop(id);
      r := Ok(());
    }

    /** Appends the files of one map that belong to the project, in any order. */
    static method AppendFiles(files: map<Uuid, File>, projectID: Uuid, prefix: seq<File>) returns (result: seq<File>)
      requires forall id :: id in files ==> files[id].id == id
      requires forall i, j :: 0 <= i < j < |prefix| ==> prefix[i].id != prefix[j].id
      requires forall f :: f in prefix ==> f.id !in files
      ensures forall f :: f in result
                <==> f in prefix || (f.id in files && files[f.id] == f && f.projectID == projectID)
      ensures forall i, j :: 0 <= i < j < |result| ==> result[i].id != result[j].id
    {
      result := prefix;
      var todo := files.Keys;
      while todo != {}
        invariant todo <= files.Keys
        invariant forall f :: f in result
                    <==> f in prefix || (f.id in files.Keys - todo && files[f.id] == f && f.projectID == projectID)
        invariant forall i, j :: 0 <= i < j < |result| ==> result[i].id != result[j].id
      {
        var id :| id in todo;
        todo := todo - {id};
        if files[id].projectID == projectID {
          ghost var before := result;
          result := result + [files[id]];
          assert forall f :: f in result <==> f in before || f == files[id];
        }
      }
    }

    method FindByProjectID(projectID: Uuid) returns (files: seq<File>)
      requires Valid()
      ensures forall f :: f in files ==> f in Objects
      ensures forall f :: f in files <==> f.id in All && All[f.id] == f && f.projectID == projectID
      ensures forall i, j :: 0 <= i < j < |files| ==> files[i].id != files[j].id
    {
      files := AppendFiles(typstFiles, projectID, []);
      files := AppendFiles(binaryFiles, projectID, files);
    }

    method FindEntriesByProjectID(projectID: Uuid) returns (entries: seq<Entry>)
      requires Valid()
      ensures LastWins(entries) == EntriesOf(Table(), projectID)
      ensures forall id :: id in LastWins(entries) <==> id in Table() && Table()[id].projectID == projectID
      ensures forall id :: id in LastWins(entries) ==>
                LastWins(entries)[id] == Entry(id, Table()[id].name,
                                              if Table()[id].payload.TypstState? then "typst" else "binary", false)
      ensures ValidEntries(EntriesOf(Table(), projectID))
    {
      var files := FindByProjectID(projectID);
      entries := [];
      for i := 0 to |files|
        invariant |entries| == i
        invariant forall j :: 0 <= j < i ==> entries[j] == EntryOf(files[j].Value())
      {
        entries := entries + [EntryOf(files[i].Value())];
      }
      ghost var t := Table();
      forall j | 0 <= j < |entries|
        ensures entries[j].id in t && t[entries[j].id].projectID == projectID && entries[j] == EntryOf(t[entries[j].id])
      {
        assert files[j] in files;
      }
      forall id | id in t && t[id].projectID == projectID
        ensures exists j :: 0 <= j < |entries| && entries[j].id == id
      {
        assert All[id] in files;
      }
      EntriesFromRows(entries, t, projectID);
    }
  }
}
