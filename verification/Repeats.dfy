/** Merging one client map into a table's entries more than once, in any iteration orders: when a repetition is idle. */
module Repeats {
  import opened Outcomes
  import opened Uuids
  import opened MetadataModel
  import opened EntryMerge
  import opened YjsMerger
  import opened FileStore
  import opened MetadataEffects

  /** The table's entries under their canonical keys. */
  ghost function Names(t: Table, projectID: Uuid): KeyedEntries {
    Named(Canonical, EntriesOf(t, projectID))
  }

  /** The client's entries completed with the table's. */
  ghost function Combined(t: Table, projectID: Uuid, c: KeyedEntries): KeyedEntries {
    Completed(c, Names(t, projectID))
  }

  /** `a` is what the merge yields in some iteration order. */
  ghost predicate Yields(t: Table, projectID: Uuid, c: KeyedEntries, a: EntryMap) {
    exists order :: Iterates(order, Combined(t, projectID, c).Keys) && a == Aggregate(Combined(t, projectID, c), order)
  }

  ghost predicate AllValid(c: KeyedEntries) {
    forall k :: k in c ==> ValidEntry(c[k])
  }

  lemma NamesAt(t: Table, projectID: Uuid)
    requires ValidTable(t)
    ensures NamedBy(Canonical, EntriesOf(t, projectID), Names(t, projectID))
    ensures AllValid(Names(t, projectID))
  {
    CanonicalInjective();
    NamedIsServer(Canonical, EntriesOf(t, projectID));
  }

  lemma YieldedAt(t: Table, projectID: Uuid, c: KeyedEntries, a: EntryMap, id: Uuid) returns (k: string)
    requires Yields(t, projectID, c, a) && id in a
    ensures k in Combined(t, projectID, c) && Combined(t, projectID, c)[k] == a[id] && a[id].id == id
  {
    var m := Combined(t, projectID, c);
    var order :| Iterates(order, m.Keys) && a == Aggregate(m, order);
    AggregateIds(m, order, id);
    k :| k in m && m[k] == a[id] && m[k].id == id;
  }

  lemma ReadIsYielded(t: Table, projectID: Uuid, c: KeyedEntries, a: EntryMap, k: string)
    requires Yields(t, projectID, c, a) && k in c
    ensures c[k].id in a
  {
    var m := Combined(t, projectID, c);
    var order :| Iterates(order, m.Keys) && a == Aggregate(m, order);
    assert m[k] == c[k];
    AggregateIds(m, order, c[k].id);
  }

  lemma YieldedValid(t: Table, projectID: Uuid, c: KeyedEntries, a: EntryMap)
    requires ValidTable(t) && AllValid(c) && Yields(t, projectID, c, a)
    ensures ValidEntries(a)
  {
    NamesAt(t, projectID);
    forall id | id in a
      ensures a[id].id == id && ValidEntry(a[id])
    {
      var k := YieldedAt(t, projectID, c, a, id);
    }
  }

  lemma MutatedKeepsValid(t: Table, listed: set<Uuid>, a: EntryMap)
    requires ValidTable(t) && ValidEntries(a)
    ensures ValidTable(Mutated(t, listed, a))
  {
  }

  /** Any outcome can be had in which the entry under a chosen key wins. */
  lemma WinningKey(t: Table, projectID: Uuid, c: KeyedEntries, k: string) returns (a: EntryMap)
    requires k in Combined(t, projectID, c)
    ensures Yields(t, projectID, c, a)
    ensures Combined(t, projectID, c)[k].id in a && a[Combined(t, projectID, c)[k].id] == Combined(t, projectID, c)[k]
  {
    var m := Combined(t, projectID, c);
    var rest := KeyLast(m, k);
    LastKeyWins(m, rest, k);
    a := Aggregate(m, rest + [k]);
  }

  // ---- when a repetition does nothing

  /** The two entries may follow one another: what the second asks of the file, the first has already done to it. */
  predicate Follows(first: Entry, second: Entry) {
    first.isDeleted || (!second.isDeleted && second.name == first.name)
  }

  /** No entry of the client asks for anything after another entry of the same project file has won. */
  ghost predicate Steady(t: Table, projectID: Uuid, c: KeyedEntries) {
    var m := Combined(t, projectID, c);
    forall k, k' :: k in c && k' in m && m[k'].id == c[k].id && c[k].id in ProjectIds(t, projectID) ==>
        Follows(m[k'], c[k])
  }

  /** Applying the entries to the table performs no delete and no save. */
  ghost predicate Idle(t: Table, projectID: Uuid, a: EntryMap) {
    Deletes(ProjectIds(t, projectID), a) == {} && Saves(t, ProjectIds(t, projectID), a) == {}
  }

  function Applied(t: Table, projectID: Uuid, a: EntryMap): Table {
    Mutated(t, ProjectIds(t, projectID), a)
  }

  lemma IdleChangesNothing(t: Table, projectID: Uuid, a: EntryMap)
    requires Idle(t, projectID, a)
    ensures Applied(t, projectID, a) == t
  {
    var listed := ProjectIds(t, projectID);
    forall id | id in t
      ensures !(id in listed && id in a && a[id].isDeleted)
      ensures id in listed && id in a ==> a[id].name == t[id].name
    {
      assert id !in Deletes(listed, a) && id !in Saves(t, listed, a);
    }
  }

  lemma SteadyAt(t: Table, projectID: Uuid, c: KeyedEntries, a: EntryMap, b: EntryMap, id: Uuid)
    requires ValidTable(t) && AllValid(c) && Steady(t, projectID, c) && Yields(t, projectID, c, a)
    requires var u := Applied(t, projectID, a); Yields(u, projectID, c, b) && id in ProjectIds(u, projectID) && id in b
    ensures !b[id].isDeleted && b[id].name == Applied(t, projectID, a)[id].name
  {
    var u := Applied(t, projectID, a);
    YieldedValid(t, projectID, c, a);
    MutatedKeepsValid(t, ProjectIds(t, projectID), a);
    NamesAt(u, projectID);
    var k := YieldedAt(u, projectID, c, b, id);
    if k in c {
      ReadIsYielded(t, projectID, c, a, k);
      var k' := YieldedAt(t, projectID, c, a, id);
      assert Follows(Combined(t, projectID, c)[k'], c[k]);
    } else {
      assert Names(u, projectID)[k] == EntryOf(u[id]);
    }
  }

  lemma SteadyRepeats(t: Table, projectID: Uuid, c: KeyedEntries, a: EntryMap, b: EntryMap)
    requires ValidTable(t) && AllValid(c) && Steady(t, projectID, c)
    requires Yields(t, projectID, c, a) && Yields(Applied(t, projectID, a), projectID, c, b)
    ensures Idle(Applied(t, projectID, a), projectID, b)
  {
    var u := Applied(t, projectID, a);
    forall id | id in ProjectIds(u, projectID) && id in b
      ensures !b[id].isDeleted && b[id].name == u[id].name
    {
      SteadyAt(t, projectID, c, a, b, id);
    }
  }

  /** Two orders in which an unsteady map makes the second application delete or save. */
  lemma UnsteadyRepeats(t: Table, projectID: Uuid, c: KeyedEntries) returns (a: EntryMap, b: EntryMap)
    requires ValidTable(t) && !Steady(t, projectID, c)
    ensures Yields(t, projectID, c, a) && Yields(Applied(t, projectID, a), projectID, c, b)
    ensures !Idle(Applied(t, projectID, a), projectID, b)
  {
    var m := Combined(t, projectID, c);
    var k, k' :| k in c && k' in m && m[k'].id == c[k].id && c[k].id in ProjectIds(t, projectID)
        && !Follows(m[k'], c[k]);
    var id := c[k].id;
    a := WinningKey(t, projectID, c, k');
    var u := Applied(t, projectID, a);
    assert id in ProjectIds(u, projectID) && u[id].name == m[k'].name;
    b := WinningKey(u, projectID, c, k);
    assert b[id] == c[k];
    if c[k].isDeleted {
      assert id in Deletes(ProjectIds(u, projectID), b);
    } else {
      assert id in Saves(u, ProjectIds(u, projectID), b);
    }
  }

  ghost predicate AlwaysIdle(t: Table, projectID: Uuid, c: KeyedEntries) {
    forall a, b :: Yields(t, projectID, c, a) && Yields(Applied(t, projectID, a), projectID, c, b)
                   ==> Idle(Applied(t, projectID, a), projectID, b)
  }

  /** For any client entries: whatever orders the two merges take, the second application deletes and saves nothing,
      exactly if the entries are steady. */
  lemma IdleIffSteady(t: Table, projectID: Uuid, c: KeyedEntries)
    requires ValidTable(t) && AllValid(c)
    ensures AlwaysIdle(t, projectID, c) <==> Steady(t, projectID, c)
  {
    if Steady(t, projectID, c) {
      forall a, b | Yields(t, projectID, c, a) && Yields(Applied(t, projectID, a), projectID, c, b)
        ensures Idle(Applied(t, projectID, a), projectID, b)
      {
        SteadyRepeats(t, projectID, c, a, b);
      }
    } else {
      var a, b := UnsteadyRepeats(t, projectID, c);
    }
  }

  /** Entries without disagreement are steady; canonical keys, in particular, never disagree. */
  lemma UnambiguousIsSteady(t: Table, projectID: Uuid, c: KeyedEntries)
    requires ValidTable(t)
    ensures Unambiguous(Combined(t, projectID, c)) ==> Steady(t, projectID, c)
    ensures Canonically(Canonical, c) ==> Unambiguous(Combined(t, projectID, c))
  {
    NamesAt(t, projectID);
    var m := Combined(t, projectID, c);
    assert forall k :: k in c ==> m[k] == c[k];
    assert forall k :: k in m && k !in c ==> Canonical(m[k].id) == k;
  }

  // ---- keys that agree with the table's

  /** The client's entries by id are `a`, and its keys and ids correspond to the table's. */
  ghost predicate ReadsAs(t: Table, projectID: Uuid, c: KeyedEntries, a: EntryMap) {
    SameEntries(c, a) && Aligned(c, Names(t, projectID))
  }

  lemma AlignedYieldsUnion(t: Table, projectID: Uuid, c: KeyedEntries, a: EntryMap, x: EntryMap)
    requires ValidTable(t) && ReadsAs(t, projectID, c, a) && Yields(t, projectID, c, x)
    ensures x == UpdateEntries(t, projectID, a)
  {
    CanonicalInjective();
    NamedIsServer(Canonical, EntriesOf(t, projectID));
    var order :| Iterates(order, Combined(t, projectID, c).Keys) && x == Aggregate(Combined(t, projectID, c), order);
    CompletedReadsAsUnion(c, Names(t, projectID), a, EntriesOf(t, projectID), order);
  }

  /** Alignment only looks at ids, so it survives updates. */
  lemma AlignmentSurvives(t: Table, u: Table, projectID: Uuid, c: KeyedEntries, a: EntryMap)
    requires ValidTable(t) && ValidTable(u) && ReadsAs(t, projectID, c, a)
    requires ProjectIds(u, projectID) <= ProjectIds(t, projectID)
    ensures ReadsAs(u, projectID, c, a)
  {
    NamesAt(t, projectID);
    NamesAt(u, projectID);
    var n, n' := Names(t, projectID), Names(u, projectID);
    forall k | k in n'
      ensures k in n && n[k].id == n'[k].id
    {
      assert n'[k].id in ProjectIds(t, projectID);
      assert n[Canonical(n'[k].id)] == EntriesOf(t, projectID)[n'[k].id];
    }
  }

  lemma SameEntriesValid(c: KeyedEntries, a: EntryMap)
    requires SameEntries(c, a) && AllValid(c)
    ensures ValidEntries(a)
  {
    forall id | id in a
      ensures a[id].id == id && ValidEntry(a[id])
    {
      var k :| k in c && c[k].id == id;
    }
  }

  lemma CanonicalReadsAs(t: Table, projectID: Uuid, c: KeyedEntries)
    requires ValidTable(t) && Canonically(Canonical, c)
    ensures ReadsAs(t, projectID, c, ById(Canonical, c))
  {
    CanonicalInjective();
    CanonicalAlignment(Canonical, c, EntriesOf(t, projectID));
  }
}
