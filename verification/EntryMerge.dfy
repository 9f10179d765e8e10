/** Completing a client's shared map with the server's entries and reading it back in an arbitrary order.
    How values are read and written and how ids are spelled are parameters here; YjsMerger supplies them. */
module EntryMerge {
  import opened Outcomes
  import opened Uuids
  import opened MetadataModel

  /** What each key of the shared map reads as. */
  type KeyedEntries = map<string, Entry>

  function Listed(m: KeyedEntries, order: seq<string>): (es: seq<Entry>)
    requires forall k :: k in order ==> k in m
    ensures |es| == |order| && forall i :: 0 <= i < |order| ==> es[i] == m[order[i]]
  {
    seq(|order|, i requires 0 <= i < |order| => assert order[i] in order; m[order[i]])
  }

  /** The entries read in the given order and keyed by id. */
  function Aggregate(m: KeyedEntries, order: seq<string>): EntryMap
    requires forall k :: k in order ==> k in m
  {
    LastWins(Listed(m, order))
  }

  /** Whatever the order, an id is present exactly when some key reads as it, with the entry of such a key. */
  lemma AggregateIds(m: KeyedEntries, order: seq<string>, id: Uuid)
    requires Iterates(order, m.Keys)
    ensures id in Aggregate(m, order) <==> exists k :: k in m && m[k].id == id
    ensures id in Aggregate(m, order) ==> exists k :: k in m && m[k] == Aggregate(m, order)[id] && m[k].id == id
  {
    var es := Listed(m, order);
    if id in LastWins(es) {
      var i :| 0 <= i < |es| && es[i] == LastWins(es)[id];
      assert order[i] in order;
    }
    if k :| k in m && m[k].id == id {
      var i :| 0 <= i < |order| && order[i] == k;
      EveryIdIsKept(es, es[i]);
    }
  }

  /** No two keys read as different entries with the same id. */
  ghost predicate Unambiguous(m: KeyedEntries) {
    forall k, k' :: k in m && k' in m && m[k].id == m[k'].id ==> m[k] == m[k']
  }

  lemma LastKeyWins(m: KeyedEntries, rest: seq<string>, k: string)
    requires Iterates(rest + [k], m.Keys)
    ensures m[k].id in Aggregate(m, rest + [k]) && Aggregate(m, rest + [k])[m[k].id] == m[k]
  {
    UnshadowedIsKept(Listed(m, rest + [k]), |rest|);
  }

  /** Some iteration ends with `k`. */
  lemma KeyLast(m: KeyedEntries, k: string) returns (rest: seq<string>)
    requires k in m
    ensures Iterates(rest + [k], m.Keys)
  {
    rest := SomeIteration(m.Keys - {k});
    var order := rest + [k];
    assert forall i :: 0 <= i < |rest| ==> order[i] == rest[i] && rest[i] in m.Keys - {k};
  }

  /** Every iteration of the map yields the same entries. */
  ghost predicate OrderIrrelevant(m: KeyedEntries) {
    forall o, o' :: Iterates(o, m.Keys) && Iterates(o', m.Keys) ==> Aggregate(m, o) == Aggregate(m, o')
  }

  /** Map order can change the outcome exactly when two keys read as different entries with one id. */
  lemma OrderIrrelevantIff(m: KeyedEntries)
    ensures OrderIrrelevant(m) <==> Unambiguous(m)
  {
    if Unambiguous(m) {
      forall o, o' | Iterates(o, m.Keys) && Iterates(o', m.Keys)
        ensures Aggregate(m, o) == Aggregate(m, o')
      {
        forall id
          ensures id in Aggregate(m, o) <==> id in Aggregate(m, o')
          ensures id in Aggregate(m, o) ==> Aggregate(m, o)[id] == Aggregate(m, o')[id]
        {
          AggregateIds(m, o, id);
          AggregateIds(m, o', id);
        }
      }
    } else {
      var k, k' :| k in m && k' in m && m[k].id == m[k'].id && m[k] != m[k'];
      var rest := KeyLast(m, k);
      var rest' := KeyLast(m, k');
      LastKeyWins(m, rest, k);
      LastKeyWins(m, rest', k');
    }
  }

  ghost predicate SomeOrderYields(m: KeyedEntries, entries: EntryMap) {
    exists order :: Iterates(order, m.Keys) && Aggregate(m, order) == entries
  }

  ghost predicate EveryOrderYields(m: KeyedEntries, entries: EntryMap) {
    forall order :: Iterates(order, m.Keys) ==> Aggregate(m, order) == entries
  }

  /** What one order yields, every order yields, exactly if no two keys disagree on an id. */
  lemma EveryOrderYieldsIff(m: KeyedEntries, entries: EntryMap)
    requires SomeOrderYields(m, entries)
    ensures EveryOrderYields(m, entries) <==> Unambiguous(m)
  {
    OrderIrrelevantIff(m);
    var o :| Iterates(o, m.Keys) && Aggregate(m, o) == entries;
    if OrderIrrelevant(m) {
      forall order | Iterates(order, m.Keys)
        ensures Aggregate(m, order) == entries
      {
      }
    }
    if EveryOrderYields(m, entries) {
      forall o, o' | Iterates(o, m.Keys) && Iterates(o', m.Keys)
        ensures Aggregate(m, o) == Aggregate(m, o')
      {
      }
    }
  }

  /** `n` completed by `c`: keys of `c` keep their entry. */
  function Completed(c: KeyedEntries, n: KeyedEntries): KeyedEntries {
    n + c
  }

  /** `e` holds exactly the entries of `m`, keyed by id. */
  ghost predicate SameEntries(m: KeyedEntries, e: EntryMap) {
    && (forall k :: k in m ==> m[k].id in e && e[m[k].id] == m[k])
    && (forall id :: id in e ==> exists k :: k in m && m[k].id == id)
  }

  /** Keys and ids of the two maps correspond: two keys read as one id exactly when they are the same key. */
  ghost predicate Aligned(c: KeyedEntries, n: KeyedEntries) {
    forall k, k' :: k in c && k' in n ==> (k == k' <==> c[k].id == n[k'].id)
  }

  lemma CompletedAt(c: KeyedEntries, n: KeyedEntries, ce: EntryMap, ne: EntryMap, order: seq<string>, id: Uuid)
    requires SameEntries(c, ce) && SameEntries(n, ne) && Aligned(c, n)
    requires Iterates(order, Completed(c, n).Keys)
    ensures id in Aggregate(Completed(c, n), order) <==> id in ce || id in ne
    ensures id in Aggregate(Completed(c, n), order) ==>
              Aggregate(Completed(c, n), order)[id] == if id in ce then ce[id] else ne[id]
  {
    var m := Completed(c, n);
    AggregateIds(m, order, id);
    if id in ce {
      var k :| k in c && c[k].id == id;
      assert m[k] == c[k];
    } else if id in ne {
      var k :| k in n && n[k].id == id;
      assert k !in c;
      assert m[k] == n[k];
    }
    if id in Aggregate(m, order) {
      var k :| k in m && m[k] == Aggregate(m, order)[id] && m[k].id == id;
      if k in c {
        assert ce[id] == c[k];
      } else {
        assert ne[id] == n[k];
      }
    }
  }

  /** With aligned keys the completed map reads, in every order, as `c`'s entry where there is one and `n`'s
      otherwise. */
  lemma CompletedReadsAsUnion(c: KeyedEntries, n: KeyedEntries, ce: EntryMap, ne: EntryMap, order: seq<string>)
    requires SameEntries(c, ce) && SameEntries(n, ne) && Aligned(c, n)
    requires Iterates(order, Completed(c, n).Keys)
    ensures Aggregate(Completed(c, n), order) == ne + ce
  {
    var result := Aggregate(Completed(c, n), order);
    forall id: Uuid
      ensures id in result <==> id in ce || id in ne
      ensures id in result ==> result[id] == if id in ce then ce[id] else ne[id]
    {
      CompletedAt(c, n, ce, ne, order, id);
    }
    UnionFromPoints(result, ce, ne);
  }

  lemma UnionFromPoints(result: EntryMap, ce: EntryMap, ne: EntryMap)
    requires forall id :: id in result <==> id in ce || id in ne
    requires forall id :: id in result ==> result[id] == if id in ce then ce[id] else ne[id]
    ensures result == ne + ce
  {
  }

  /** For any two maps: an id of `n` survives exactly when `c` leaves its key alone or has the id itself. */
  lemma IdKeptIff(c: KeyedEntries, n: KeyedEntries, order: seq<string>, k: string)
    requires Iterates(order, Completed(c, n).Keys) && k in n
    requires forall k' :: k' in n && n[k'].id == n[k].id ==> k' == k
    ensures n[k].id in Aggregate(Completed(c, n), order) <==> k !in c || exists k' :: k' in c && c[k'].id == n[k].id
  {
    var m, id := Completed(c, n), n[k].id;
    AggregateIds(m, order, id);
    if k !in c {
      assert m[k] == n[k];
    } else if k' :| k' in c && c[k'].id == id {
      assert m[k'] == c[k'];
    }
  }

  /** A second key of `c` for an entry of `n`, with another content, makes the outcome depend on map order. */
  lemma AliasIsAmbiguous(c: KeyedEntries, n: KeyedEntries, k: string, k': string)
    requires k in c && k' in n && k' !in c
    requires c[k].id == n[k'].id && c[k] != n[k']
    ensures !Unambiguous(Completed(c, n))
  {
    assert Completed(c, n)[k] == c[k] && Completed(c, n)[k'] == n[k'];
  }

  // ---- the shared map and its reader

  type Reader<!V> = (string, V) -> Result<Entry>

  ghost predicate AllRead<V>(read: Reader<V>, files: map<string, V>) {
    forall k :: k in files ==> read(k, files[k]).Ok?
  }

  ghost function Reads<V>(read: Reader<V>, files: map<string, V>): KeyedEntries
    requires AllRead(read, files)
  {
    map k | k in files :: read(k, files[k]).value
  }

  /** The client's map completed with the named entries whose key it lacks. */
  ghost function WithServer<V>(write: Entry -> V, client: map<string, V>, n: KeyedEntries): map<string, V> {
    client + map k | k in n.Keys - client.Keys :: write(n[k])
  }

  /** When the reader undoes the writer, the merge can fail only through an entry of the client's,
      and otherwise reads as the completed map. */
  lemma MergeReadsAsCompleted<V>(read: Reader<V>, write: Entry -> V, client: map<string, V>, n: KeyedEntries)
    requires forall k :: k in n ==> read(k, write(n[k])) == Ok(n[k])
    ensures AllRead(read, WithServer(write, client, n)) <==> AllRead(read, client)
    ensures AllRead(read, client) ==> Reads(read, WithServer(write, client, n)) == Completed(Reads(read, client), n)
  {
    var files := WithServer(write, client, n);
    assert forall k :: k in files && k !in client ==> read(k, files[k]) == Ok(n[k]);
    assert forall k :: k in client ==> k in files && files[k] == client[k];
  }

  lemma CompletedPointwise<V>(write: Entry -> V, client: map<string, V>, n: KeyedEntries, files: map<string, V>)
    requires files.Keys == client.Keys + n.Keys
    requires forall k :: k in client ==> files[k] == client[k]
    requires forall k :: k in n && k !in client ==> files[k] == write(n[k])
    ensures files == WithServer(write, client, n)
  {
  }

  // ---- ids and their spelling

  ghost predicate Injective(text: Uuid -> string) {
    forall id, id' :: text(id) == text(id') ==> id == id'
  }

  ghost function IdOf(text: Uuid -> string, server: EntryMap, k: string): (id: Uuid)
    requires exists id :: id in server && text(id) == k
    ensures id in server && text(id) == k
  {
    var id :| id in server && text(id) == k;
    id
  }

  /** The server's entries under their spelled ids. */
  ghost function Named(text: Uuid -> string, server: EntryMap): KeyedEntries {
    map k | k in (set id | id in server :: text(id)) :: server[IdOf(text, server, k)]
  }

  ghost predicate NamedBy(text: Uuid -> string, server: EntryMap, n: KeyedEntries) {
    && (forall id :: id in server ==> text(id) in n && n[text(id)] == server[id])
    && (forall k :: k in n ==> n[k].id in server && text(n[k].id) == k)
  }

  lemma NamedIsServer(text: Uuid -> string, server: EntryMap)
    requires ValidEntries(server) && Injective(text)
    ensures SameEntries(Named(text, server), server)
    ensures NamedBy(text, server, Named(text, server))
    ensures forall k :: k in Named(text, server) ==> ValidEntry(Named(text, server)[k])
  {
    var n := Named(text, server);
    forall id | id in server
      ensures text(id) in n && n[text(id)] == server[id] && n[text(id)].id == id
    {
      assert IdOf(text, server, text(id)) == id;
    }
    forall k | k in n
      ensures n[k].id in server && server[n[k].id] == n[k] && text(n[k].id) == k && ValidEntry(n[k])
    {
      var id := IdOf(text, server, k);
      assert server[id].id == id;
    }
  }

  /** Every key spells the id of its entry. */
  ghost predicate Canonically(text: Uuid -> string, c: KeyedEntries) {
    forall k :: k in c ==> text(c[k].id) == k
  }

  ghost function ById(text: Uuid -> string, c: KeyedEntries): EntryMap
    requires Canonically(text, c)
  {
    map id | id in (set k | k in c :: c[k].id) :: c[text(id)]
  }

  lemma CanonicalAlignment(text: Uuid -> string, c: KeyedEntries, server: EntryMap)
    requires Injective(text) && Canonically(text, c) && ValidEntries(server)
    ensures SameEntries(c, ById(text, c))
    ensures Aligned(c, Named(text, server))
  {
    NamedIsServer(text, server);
    var n := Named(text, server);
    forall k, k' | k in c && k' in n
      ensures k == k' <==> c[k].id == n[k'].id
    {
      assert text(c[k].id) == k && text(n[k'].id) == k';
    }
  }

  lemma NothingRead<V>(read: Reader<V>, text: Uuid -> string)
    ensures AllRead<V>(read, map[]) && Reads<V>(read, map[]) == map[] && ById(text, map[]) == map[]
  {
  }

  // ---- the loops of the engine

  /** Writes each entry unless the client's own map, as it was before the merge, has its key. */
  method MergeServerMetadata<V>(text: Uuid -> string, write: Entry -> V, client: map<string, V>, server: EntryMap,
                                ghost n: KeyedEntries)
    returns (files: map<string, V>)
    requires NamedBy(text, server, n)
    ensures files == WithServer(write, client, n)
  {
    files := client;
    var existingKeys := client.Keys;
    var todo := server.Keys;
    ghost var written: set<string> := {};
    while todo != {}
      invariant todo <= server.Keys
      invariant written <= n.Keys
      invariant forall id :: id in server && id !in todo ==> text(id) in written
      invariant files.Keys == client.Keys + written
      invariant forall k :: k in client ==> files[k] == client[k]
      invariant forall k :: k in written && k !in client ==> files[k] == write(n[k])
    {
      var id :| id in todo;
      var key := text(id);
      if key !in existingKeys {
        files := files[key := write(server[id])];
      }
      written := written + {key};
      todo := todo - {id};
    }
    assert forall k :: k in n ==> n[k].id in server;
    assert written == n.Keys;
    CompletedPointwise(write, client, n, files);
  }

  method ExtractEntries<V>(read: Reader<V>, files: map<string, V>) returns (r: Result<seq<Entry>>,
                           ghost order: seq<string>)
    ensures r.Ok? <==> AllRead(read, files)
    ensures r.Ok? ==> Iterates(order, files.Keys) && r.value == Listed(Reads(read, files), order)
  {
    var entries: seq<Entry> := [];
    var todo := files.Keys;
    order := [];
    while todo != {}
      invariant todo <= files.Keys
      invariant forall i, j :: 0 <= i < j < |order| ==> order[i] != order[j]
      invariant forall k :: k in order ==> k in files && k !in todo
      invariant forall k :: k in files ==> k in order || k in todo
      invariant |entries| == |order|
      invariant forall i :: 0 <= i < |order| ==> read(order[i], files[order[i]]) == Ok(entries[i])
    {
      var k :| k in todo;
      var entry := read(k, files[k]);
      if entry.Err? {
        return Err(entry.error), order;
      }
      entries, order, todo := entries + [entry.value], order + [k], todo - {k};
    }
    forall k | k in files
      ensures read(k, files[k]).Ok?
    {
      var i :| 0 <= i < |order| && order[i] == k;
    }
    r := Ok(entries);
  }
}
