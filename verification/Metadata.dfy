/** Metadata entries and the aggregate that keys them by file id. */
module MetadataModel {
  import opened Outcomes
  import opened Uuids

  datatype Entry = Entry(id: Uuid, name: string, entryType: string, isDeleted: bool)

  type EntryMap = map<Uuid, Entry>

  function NewEntry(id: Uuid, name: string, entryType: string, isDeleted: bool): (r: Result<Entry>)
    ensures r.Ok? <==> id != NIL && name != ""
    ensures r.Ok? ==> r.value == Entry(id, name, entryType, isDeleted)
  {
    if id == NIL then Err(EmptyId)
    else if name == "" then Err(EmptyName)
    else Ok(Entry(id, name, entryType, isDeleted))
  }

  /** What every entry built by `NewEntry` satisfies. */
  predicate ValidEntry(e: Entry) {
    e.id != NIL && e.name != ""
  }

  /** Each entry sits under its own id and came from `NewEntry`. */
  ghost predicate ValidEntries(m: EntryMap) {
    forall id :: id in m ==> m[id].id == id && ValidEntry(m[id])
  }

  /** Later entries replace earlier ones with the same id. */
  function LastWins(entries: seq<Entry>): (m: EntryMap)
    ensures forall id :: id in m ==> m[id] in entries && m[id].id == id
  {
    if entries == [] then map[]
    else
      var last := entries[|entries| - 1];
      LastWins(entries[..|entries| - 1])[last.id := last]
  }

  /** An entry that no later one shadows is the one kept. */
  lemma {:induction false} UnshadowedIsKept(entries: seq<Entry>, i: nat)
    requires i < |entries|
    requires forall j :: i < j < |entries| ==> entries[j].id != entries[i].id
    ensures entries[i].id in LastWins(entries) && LastWins(entries)[entries[i].id] == entries[i]
  {
    if i < |entries| - 1 {
      UnshadowedIsKept(entries[..|entries| - 1], i);
    }
  }

  lemma {:induction false} EveryIdIsKept(entries: seq<Entry>, e: Entry)
    requires e in entries
    ensures e.id in LastWins(entries)
  {
    var front, last := entries[..|entries| - 1], entries[|entries| - 1];
    if e != last {
      assert e in front;
      EveryIdIsKept(front, e);
    }
  }

  class Metadata {
    const projectID: Uuid
    var entries: EntryMap

    constructor (projectID: Uuid)
      ensures this.projectID == projectID && entries == map[]
    {
      this.projectID := projectID;
      entries := map[];
    }

    method Set(e: Entry)
      modifies this
      ensures entries == old(entries)[e.id := e]
    {
      entries := entries[e.id := e];
    }

    method Get(id: Uuid) returns (e: Option<Entry>)
      ensures e == if id in entries then Some(entries[id]) else None
    {
      if id in entries {
        e := Some(entries[id]);
      } else {
        e := None;
      }
    }

    /** The entries not deleted, in whatever order the map is iterated. */
    method ActiveEntries() returns (active: seq<Entry>, ghost order: seq<Uuid>)
      requires ValidEntries(entries)
      ensures forall e :: e in active <==> e.id in entries && entries[e.id] == e && !e.isDeleted
      ensures forall i, j :: 0 <= i < j < |active| ==> active[i].id != active[j].id
      ensures Iterates(order, set id | id in entries && !entries[id].isDeleted)
      ensures |order| == |active| && forall i :: 0 <= i < |active| ==> active[i].id == order[i]
    {
      active, order := [], [];
      var todo := entries.Keys;
      while todo != {}
        invariant todo <= entries.Keys
        invariant forall e :: e in active <==> e.id in entries.Keys - todo && entries[e.id] == e && !e.isDeleted
        invariant forall i, j :: 0 <= i < j < |active| ==> active[i].id != active[j].id
        invariant |order| == |active| && forall i :: 0 <= i < |active| ==> active[i].id == order[i]
      {
        var id :| id in todo;
        todo := todo - {id};
        if !entries[id].isDeleted {
          ghost var before := active;
          active, order := active + [entries[id]], order + [id];
          assert forall e :: e in active <==> e in before || e == entries[id];
        }
      }
      forall id | id in entries && !entries[id].isDeleted
        ensures id in order
      {
        assert entries[id] in active;
      }
    }
  }

  method NewMetadata(projectID: Uuid, entries: seq<Entry>) returns (r: Result<Metadata>)
    ensures r.Ok? <==> projectID != NIL
    ensures r.Err? ==> r.error == EmptyProjectId
    ensures r.Ok? ==> fresh(r.value) && r.value.projectID == projectID && r.value.entries == LastWins(entries)
  {
    if projectID == NIL {
      return Err(EmptyProjectId);
    }
    var m := new Metadata(projectID);
    for i := 0 to |entries|
      invariant fresh(m) && m.entries == LastWins(entries[..i])
    {
      m.Set(entries[i]);
      assert entries[..i + 1][..i] == entries[..i];
    }
    assert entries[..|entries|] == entries;
    r := Ok(m);
  }
}
