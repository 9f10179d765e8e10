/** What a metadata aggregate does to the file table: order independence, idempotence, commutation. */
module MetadataEffects {
  import opened Outcomes
  import opened Uuids
  import opened MetadataModel
  import opened FileStore

  /** The ids a project listing reports. */
  function ProjectIds(t: Table, projectID: Uuid): set<Uuid> {
    set id | id in t && t[id].projectID == projectID
  }

  /** The effect of one entry on the files listed before the pass. */
  function ApplyEntry(t: Table, listed: set<Uuid>, id: Uuid, e: Entry): Table {
    if id !in listed || id !in t then t
    else if e.isDeleted then Without(t, id)
    else t[id := t[id].(name := e.name)]
  }

  /** The entries applied one after the other, in some iteration order of the metadata map. */
  function ApplyInOrder(t: Table, listed: set<Uuid>, m: EntryMap, order: seq<Uuid>): Table
    requires forall id :: id in order ==> id in m
  {
    if order == [] then t
    else
      var last := order[|order| - 1];
      ApplyEntry(ApplyInOrder(t, listed, m, order[..|order| - 1]), listed, last, m[last])
  }

  /** The table after the pass, file by file: listed files whose entry is deleted are gone, listed files with a
      live entry carry its name, every other file and every payload is as it was. */
  function Mutated(t: Table, listed: set<Uuid>, m: EntryMap): Table {
    map id | id in t && !(id in listed && id in m && m[id].isDeleted)
      :: if id in listed && id in m then t[id].(name := m[id].name) else t[id]
  }

  lemma MutatedStep(t: Table, listed: set<Uuid>, m: EntryMap, id: Uuid, e: Entry)
    requires id !in m
    ensures Mutated(t, listed, m[id := e]) == ApplyEntry(Mutated(t, listed, m), listed, id, e)
  {
    assert Mutated(t, listed, m[id := e]).Keys == ApplyEntry(Mutated(t, listed, m), listed, id, e).Keys;
  }

  /** Every iteration order of the entries map produces the same table. */
  lemma {:induction false} OrderIndependent(t: Table, listed: set<Uuid>, m: EntryMap, order: seq<Uuid>)
    requires Iterates(order, m.Keys)
    ensures ApplyInOrder(t, listed, m, order) == Mutated(t, listed, m)
    decreases |order|
  {
    if order == [] {
      assert Mutated(t, listed, m) == t;
    } else {
      var front, last := order[..|order| - 1], order[|order| - 1];
      var rest := m - {last};
      assert forall id :: id in rest ==> id in front by {
        assert forall id :: id in m && id != last ==> id in order && id in front;
      }
      OrderIndependent(t, listed, rest, front);
      SameOnPrefix(t, listed, m, rest, front);
      MutatedStep(t, listed, rest, last, m[last]);
      assert rest[last := m[last]] == m;
    }
  }

  lemma {:induction false} SameOnPrefix(t: Table, listed: set<Uuid>, m: EntryMap, rest: EntryMap, order: seq<Uuid>)
    requires forall id :: id in order ==> id in m && id in rest && m[id] == rest[id]
    ensures ApplyInOrder(t, listed, m, order) == ApplyInOrder(t, listed, rest, order)
    decreases |order|
  {
    if order != [] {
      SameOnPrefix(t, listed, m, rest, order[..|order| - 1]);
    }
  }

  /** The deletes and saves a pass needs. */
  function Deletes(listed: set<Uuid>, m: EntryMap): set<Uuid> {
    set id | id in listed && id in m && m[id].isDeleted
  }

  function Saves(t: Table, listed: set<Uuid>, m: EntryMap): set<Uuid> {
    set id | id in listed && id in m && id in t && !m[id].isDeleted && m[id].name != t[id].name
  }

  /** The call one entry needs. */
  function CallFor(t: Table, listed: set<Uuid>, id: Uuid, e: Entry): seq<StoreCall> {
    if id !in listed || id !in t then []
    else if e.isDeleted then [Removed(id)]
    else if e.name != t[id].name then [Saved(id)]
    else []
  }

  /** The calls are exactly the deletes and saves the entries need, each file touched once. */
  ghost predicate Performs(calls: seq<StoreCall>, t: Table, listed: set<Uuid>, m: EntryMap) {
    && (forall id :: Removed(id) in calls <==> id in Deletes(listed, m))
    && (forall id :: Saved(id) in calls <==> id in Saves(t, listed, m))
    && (forall i, j :: 0 <= i < j < |calls| ==> calls[i].id != calls[j].id)
  }

  lemma NothingApplied(t: Table, listed: set<Uuid>)
    ensures Mutated(t, listed, map[]) == t
    ensures Performs([], t, listed, map[])
  {
  }

  lemma CallIsNeeded(calls: seq<StoreCall>, t: Table, listed: set<Uuid>, m: EntryMap, i: nat)
    requires Performs(calls, t, listed, m) && i < |calls|
    ensures calls[i].id in m && calls[i].id in Deletes(listed, m) + Saves(t, listed, m)
  {
    assert calls[i] in calls;
    match calls[i]
    case Removed(k) => assert k in Deletes(listed, m);
    case Saved(k) => assert k in Saves(t, listed, m);
  }

  lemma PerformsStep(t: Table, listed: set<Uuid>, m: EntryMap, calls: seq<StoreCall>, id: Uuid, e: Entry)
    requires id !in m && (id in listed ==> id in t) && Performs(calls, t, listed, m)
    ensures Performs(calls + CallFor(t, listed, id, e), t, listed, m[id := e])
  {
    forall i | 0 <= i < |calls| {
      CallIsNeeded(calls, t, listed, m, i);
    }
    var after := calls + CallFor(t, listed, id, e);
    assert forall c :: c in after <==> c in calls || c in CallFor(t, listed, id, e);
  }

  /** When nothing is needed, nothing is called. */
  lemma NothingPerformed(calls: seq<StoreCall>, t: Table, listed: set<Uuid>, m: EntryMap)
    requires Performs(calls, t, listed, m) && Deletes(listed, m) == {} && Saves(t, listed, m) == {}
    ensures calls == []
  {
    if calls != [] {
      CallIsNeeded(calls, t, listed, m, 0);
    }
  }

  // ---- metadata updates from clients: the store's own entries overridden by the decoded client map

  function UpdateEntries(t: Table, projectID: Uuid, client: EntryMap): EntryMap {
    EntriesOf(t, projectID) + client
  }

  function Update(t: Table, projectID: Uuid, client: EntryMap): Table {
    Mutated(t, ProjectIds(t, projectID), UpdateEntries(t, projectID, client))
  }

  /** One file under an update. */
  function UpdateFile(f: FileVal, projectID: Uuid, client: EntryMap): Option<FileVal> {
    if f.projectID != projectID || f.id !in client then Some(f)
    else if client[f.id].isDeleted then None
    else Some(f.(name := client[f.id].name))
  }

  lemma UpdateAt(t: Table, projectID: Uuid, client: EntryMap, id: Uuid)
    requires ValidTable(t)
    ensures Find(Update(t, projectID, client), id)
            == if id in t then UpdateFile(t[id], projectID, client) else None
  {
  }

  lemma UpdateKeepsValid(t: Table, projectID: Uuid, client: EntryMap)
    requires ValidTable(t) && ValidEntries(client)
    ensures ValidTable(Update(t, projectID, client))
  {
  }

  lemma SameTable(t: Table, u: Table)
    requires forall id :: Find(t, id) == Find(u, id)
    ensures t == u
  {
    assert forall id :: id in t <==> Find(t, id).Some?;
    assert forall id :: id in u <==> Find(u, id).Some?;
    forall id | id in t
      ensures id in u && t[id] == u[id]
    {
      assert Find(t, id) == Find(u, id);
    }
  }

  /** Applying the same client map a second time deletes nothing, saves nothing and changes nothing. */
  lemma Idempotent(t: Table, projectID: Uuid, client: EntryMap)
    requires ValidTable(t) && ValidEntries(client)
    ensures var u := Update(t, projectID, client);
            && Deletes(ProjectIds(u, projectID), UpdateEntries(u, projectID, client)) == {}
            && Saves(u, ProjectIds(u, projectID), UpdateEntries(u, projectID, client)) == {}
            && Update(u, projectID, client) == u
  {
    var u := Update(t, projectID, client);
    UpdateKeepsValid(t, projectID, client);
    forall id
      ensures id in u ==> id in t && UpdateFile(t[id], projectID, client) == Some(u[id])
      ensures Find(Update(u, projectID, client), id) == Find(u, id)
    {
      UpdateAt(t, projectID, client, id);
      UpdateAt(u, projectID, client, id);
    }
    SameTable(Update(u, projectID, client), u);
  }

  /** Two updates agree on a file they both mention if one deletes it or both give it one name. */
  predicate Agree(a: Entry, b: Entry) {
    a.isDeleted || b.isDeleted || a.name == b.name
  }

  lemma CommuteAt(t: Table, projectID: Uuid, a: EntryMap, b: EntryMap, id: Uuid)
    requires ValidTable(t) && ValidEntries(a) && ValidEntries(b)
    ensures Find(Update(Update(t, projectID, a), projectID, b), id)
              == Find(Update(Update(t, projectID, b), projectID, a), id)
            <==> !(id in ProjectIds(t, projectID) && id in a && id in b && !Agree(a[id], b[id]))
  {
    UpdateKeepsValid(t, projectID, a);
    UpdateKeepsValid(t, projectID, b);
    UpdateAt(t, projectID, a, id);
    UpdateAt(t, projectID, b, id);
    UpdateAt(Update(t, projectID, a), projectID, b, id);
    UpdateAt(Update(t, projectID, b), projectID, a, id);
  }

  /** Two updates commute exactly when they agree on every file of the project that both mention;
      in particular updates over disjoint ids commute. */
  lemma CommuteIff(t: Table, projectID: Uuid, a: EntryMap, b: EntryMap)
    requires ValidTable(t) && ValidEntries(a) && ValidEntries(b)
    ensures Update(Update(t, projectID, a), projectID, b) == Update(Update(t, projectID, b), projectID, a)
            <==> forall id :: id in ProjectIds(t, projectID) && id in a && id in b ==> Agree(a[id], b[id])
  {
    var ab, ba := Update(Update(t, projectID, a), projectID, b), Update(Update(t, projectID, b), projectID, a);
    if forall id :: id in ProjectIds(t, projectID) && id in a && id in b ==> Agree(a[id], b[id]) {
      forall id
        ensures Find(ab, id) == Find(ba, id)
      {
        CommuteAt(t, projectID, a, b, id);
      }
      SameTable(ab, ba);
    } else {
      var id :| id in ProjectIds(t, projectID) && id in a && id in b && !Agree(a[id], b[id]);
      CommuteAt(t, projectID, a, b, id);
    }
  }

  /** Updates to different projects always commute. */
  lemma ProjectsCommute(t: Table, p: Uuid, q: Uuid, a: EntryMap, b: EntryMap)
    requires ValidTable(t) && ValidEntries(a) && ValidEntries(b) && p != q
    ensures Update(Update(t, p, a), q, b) == Update(Update(t, q, b), p, a)
  {
    UpdateKeepsValid(t, p, a);
    UpdateKeepsValid(t, q, b);
    forall id
      ensures Find(Update(Update(t, p, a), q, b), id) == Find(Update(Update(t, q, b), p, a), id)
    {
      UpdateAt(t, p, a, id);
      UpdateAt(t, q, b, id);
      UpdateAt(Update(t, p, a), q, b, id);
      UpdateAt(Update(t, q, b), p, a, id);
    }
    SameTable(Update(Update(t, p, a), q, b), Update(Update(t, q, b), p, a));
  }
}
