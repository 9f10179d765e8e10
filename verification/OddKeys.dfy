/** Client maps whose keys do not spell the ids of their values: inputs on which a server entry is lost, the outcome
    depends on map order, and a repeated update is not idle. */
module OddKeys {
  import opened Outcomes
  import opened Uuids
  import opened Documents
  import opened MetadataModel
  import EntryMerge
  import opened YjsMerger
  import opened FileStore
  import opened MetadataEffects
  import opened Repeats

  /** A live value with an id and a name. */
  function Item(id: Uuid, name: string): Val {
    PlainMap(map["id" := Str(Canonical(id)), "name" := Str(name)])
  }

  lemma ItemFields(id: Uuid, name: string)
    ensures GetString(Item(id, name), "id") == Canonical(id)
    ensures GetString(Item(id, name), "name") == name
    ensures GetString(Item(id, name), "type") == ""
    ensures !GetBool(Item(id, name), "is_deleted")
  {
    assert "id" != "name" && |"name"| == |"type"| == 4 && "name"[0] != "type"[0] && |"is_deleted"| == 10;
  }

  lemma ItemReads(key: string, id: Uuid, name: string)
    requires id != NIL && name != ""
    ensures ParseEntry(key, Item(id, name)) == Ok(Entry(id, name, "", false))
  {
    ParseCanonical(id);
    ItemFields(id, name);
    ReadFromFields(key, Item(id, name), Entry(id, name, "", false), Canonical(id));
  }

  lemma OneItemReads(key: string, id: Uuid, name: string)
    requires id != NIL && name != ""
    ensures AllParse(map[key := Item(id, name)])
    ensures ClientReads(map[key := Item(id, name)]) == map[key := Entry(id, name, "", false)]
  {
    ItemReads(key, id, name);
  }

  /** The server's entry is gone in every order: the client used its key for another id. */
  lemma ServerEntryLost(id: Uuid, other: Uuid)
    requires id != NIL && other != NIL && id != other
    ensures var client, server := map[Canonical(id) := Item(other, "b")], map[id := Entry(id, "a", "typst", false)];
            && AllParse(client) && ValidEntries(server)
            && forall order :: Iterates(order, Merged(client, server).Keys) ==>
                  id !in MergedEntries(client, server, order)
  {
    var client, server := map[Canonical(id) := Item(other, "b")], map[id := Entry(id, "a", "typst", false)];
    OneItemReads(Canonical(id), other, "b");
    forall order | Iterates(order, Merged(client, server).Keys)
      ensures id !in MergedEntries(client, server, order)
    {
      ServerIdKeptIff(client, server, order, id);
    }
  }

  /** The outcome depends on map order: the client has the server's id under another key, with another name. */
  lemma OutcomeDependsOnOrder(id: Uuid)
    requires id != NIL
    ensures var client, server := map["x" := Item(id, "b")], map[id := Entry(id, "a", "typst", false)];
            && AllParse(client) && ValidEntries(server) && AllParse(Merged(client, server))
            && !EntryMerge.OrderIrrelevant(ClientReads(Merged(client, server)))
  {
    var client, server := map["x" := Item(id, "b")], map[id := Entry(id, "a", "typst", false)];
    OneItemReads("x", id, "b");
    assert |Canonical(id)| == 36;
    AliasedKeyIsAmbiguous(client, server, "x");
    MergeOrderIrrelevantIff(client, server);
  }

  /** One file, "a" on the server. */
  function OneFile(id: Uuid, project: Uuid): Table {
    map[id := FileVal(id, project, "a", TypstState(Nil))]
  }

  lemma OneName(id: Uuid, project: Uuid)
    requires id != NIL && project != NIL
    ensures var n := Names(OneFile(id, project), project);
            ValidTable(OneFile(id, project)) && Canonical(id) in n && n[Canonical(id)] == Entry(id, "a", "typst", false)
  {
    NamesAt(OneFile(id, project), project);
    assert EntriesOf(OneFile(id, project), project)[id] == Entry(id, "a", "typst", false);
  }

  /** The server's name under its canonical key, the client's under another. */
  lemma TwoNames(id: Uuid, project: Uuid, c: EntryMerge.KeyedEntries)
    requires id != NIL && project != NIL && c == map["x" := Entry(id, "b", "", false)]
    ensures ValidTable(OneFile(id, project))
    ensures var m := Combined(OneFile(id, project), project, c);
            && "x" in m && m["x"] == c["x"]
            && Canonical(id) in m && m[Canonical(id)] == Entry(id, "a", "typst", false)
  {
    OneName(id, project);
    assert |Canonical(id)| == 36;
  }

  lemma NameOnly(id: Uuid, project: Uuid, a: EntryMap)
    requires id in a && !a[id].isDeleted
    ensures a[id].name == "a" ==> Applied(OneFile(id, project), project, a) == OneFile(id, project)
    ensures a[id].name == "b" ==> Saves(OneFile(id, project), ProjectIds(OneFile(id, project), project), a) == {id}
  {
  }

  /** The same map sent twice renames the file on the second occasion only: the first merge reads the server's name
      last, the second the client's. */
  lemma SecondUpdateSaves(id: Uuid, project: Uuid) returns (a: EntryMap, b: EntryMap)
    requires id != NIL && project != NIL
    ensures AllParse(map["x" := Item(id, "b")])
    ensures var t, c := OneFile(id, project), ClientReads(map["x" := Item(id, "b")]);
            && Yields(t, project, c, a) && Applied(t, project, a) == t
            && Yields(t, project, c, b) && Saves(t, ProjectIds(t, project), b) == {id}
            && !Steady(t, project, c)
  {
    OneItemReads("x", id, "b");
    var t, c := OneFile(id, project), ClientReads(map["x" := Item(id, "b")]);
    TwoNames(id, project, c);
    a := WinningKey(t, project, c, Canonical(id));
    b := WinningKey(t, project, c, "x");
    NameOnly(id, project, a);
    NameOnly(id, project, b);
    assert id in ProjectIds(t, project);
    assert !Follows(Combined(t, project, c)[Canonical(id)], c["x"]);
  }
}
