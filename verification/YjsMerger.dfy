/** The CRDT engine: merging documents, computing deltas, and merging a client's metadata map with the server's. */
module YjsMerger {
  import opened Outcomes
  import opened Uuids
  import opened Documents
  import opened MetadataModel
  import opened EntryMerge

  /** A dynamically typed value of the shared map; the two map forms are read alike. */
  datatype Val =
    | Str(s: string)
    | YText(s: string)
    | Stringer(s: string)
    | Flag(b: bool)
    | PlainMap(m: map<string, Val>)
    | YMap(m: map<string, Val>)
    | Other

  type FileMap = map<string, Val>

  datatype MetaDelta = Since(sv: StateVector, files: FileMap) | Everything(files: FileMap)

  // ---- file documents

  /** Applies an update unless it is empty. */
  function Decoded(b: Bytes<Doc>): Result<Doc> {
    match b
    case Nil | Blank => Ok({})
    case Garbage => Err(InvalidUpdate)
    case Coded(d) => Ok(d)
  }

  function MergeFile(state: Bytes<Doc>, delta: Bytes<Doc>): Result<Bytes<Doc>> {
    var s, d := Decoded(state), Decoded(delta);
    if s.Ok? && d.Ok? then Ok(Coded(s.value + d.value)) else Err(InvalidUpdate)
  }

  /** An empty vector never reaches the decoder from the service, and does not decode.
      Whether the library may encode "nothing missing" as zero bytes is left open: `zeroBytes` decides. */
  function ComputeDelta(zeroBytes: bool, state: Bytes<Doc>, vector: Bytes<StateVector>): Result<Bytes<Doc>> {
    var s := Decoded(state);
    if s.Err? then Err(InvalidUpdate)
    else if !vector.Coded? then Err(InvalidVector)
    else
      var missing := Missing(s.value, vector.content);
      Ok(if zeroBytes && missing == {} then Nil else Coded(missing))
  }

  // ---- reading and writing entries

  function GetValue(item: Val, key: string): Option<Val> {
    match item
    case PlainMap(m) => if key in m then Some(m[key]) else None
    case YMap(m) => if key in m then Some(m[key]) else None
    case _ => None
  }

  function GetString(item: Val, key: string): string {
    match GetValue(item, key)
    case Some(Str(s)) => s
    case Some(YText(s)) => s
    case Some(Stringer(s)) => s
    case _ => ""
  }

  function GetBool(item: Val, key: string): bool {
    match GetValue(item, key)
    case Some(Flag(b)) => b
    case _ => false
  }

  function ExtractEntryID(item: Val, fallback: string): Result<Uuid> {
    var s := GetString(item, "id");
    Parse(if s == "" then fallback else s)
  }

  function ParseEntry(fallback: string, item: Val): (r: Result<Entry>)
    ensures r.Ok? ==> ValidEntry(r.value)
  {
    var id := ExtractEntryID(item, fallback);
    if id.Err? then Err(id.error)
    else NewEntry(id.value, GetString(item, "name"), GetString(item, "type"), GetBool(item, "is_deleted"))
  }

  predicate IsText(v: Val) {
    v.Str? || v.YText? || v.Stringer?
  }

  /** The field reads as `s`: it is this text in any of its three forms, or `s` is empty and it is no text at all. */
  predicate FieldReads(m: map<string, Val>, key: string, s: string) {
    || (key in m && m[key] in {Str(s), YText(s), Stringer(s)})
    || (s == "" && (key !in m || !IsText(m[key])))
  }

  lemma FieldReadsIff(m: map<string, Val>, key: string, s: string)
    ensures FieldReads(m, key, s) <==> GetString(PlainMap(m), key) == s
    ensures FieldReads(m, key, s) <==> GetString(YMap(m), key) == s
  {
  }

  lemma FieldsAlike(m: map<string, Val>, key: string)
    ensures GetString(PlainMap(m), key) == GetString(YMap(m), key)
    ensures GetBool(PlainMap(m), key) == GetBool(YMap(m), key)
  {
  }

  /** A value is read alike whether it is a plain map or a nested shared one. */
  lemma FormsReadAlike(fallback: string, m: map<string, Val>)
    ensures ParseEntry(fallback, PlainMap(m)) == ParseEntry(fallback, YMap(m))
  {
    FieldsAlike(m, "id");
    FieldsAlike(m, "name");
    FieldsAlike(m, "type");
    FieldsAlike(m, "is_deleted");
  }

  /** Exactly when a map of fields parses, and as which entry: its "id", or its key when it has none, spells the entry's
      id; "name" and "type" read as they are; and it is deleted exactly if the flag says so. */
  lemma ParsesAsIff(fallback: string, m: map<string, Val>, e: Entry)
    ensures ParseEntry(fallback, YMap(m)) == Ok(e)
            <==> && ValidEntry(e)
                 && (exists s :: FieldReads(m, "id", s) && Parse(if s == "" then fallback else s) == Ok(e.id))
                 && FieldReads(m, "name", e.name) && FieldReads(m, "type", e.entryType)
                 && (e.isDeleted <==> "is_deleted" in m && m["is_deleted"] == Flag(true))
  {
    FieldReadsIff(m, "id", GetString(YMap(m), "id"));
    FieldReadsIff(m, "name", e.name);
    FieldReadsIff(m, "type", e.entryType);
    forall s | FieldReads(m, "id", s)
      ensures s == GetString(YMap(m), "id")
    {
      FieldReadsIff(m, "id", s);
    }
  }

  /** What is no map has no name, so it never parses. */
  lemma OnlyMapsParse(fallback: string, item: Val)
    requires !item.PlainMap? && !item.YMap?
    ensures ParseEntry(fallback, item).Err?
  {
  }

  function WriteEntry(e: Entry): Val {
    PlainMap(map["id" := Str(Canonical(e.id)), "name" := Str(e.name), "type" := Str(e.entryType), "is_deleted" :=
        Flag(e.isDeleted)])
  }

  lemma WrittenFields(e: Entry)
    ensures GetString(WriteEntry(e), "id") == Canonical(e.id)
    ensures GetString(WriteEntry(e), "name") == e.name
    ensures GetString(WriteEntry(e), "type") == e.entryType
    ensures GetBool(WriteEntry(e), "is_deleted") == e.isDeleted
  {
    assert "id" != "name" && "id" != "type" && "id" != "is_deleted";
    assert |"name"| == |"type"| == 4 && "name"[0] != "type"[0] && |"is_deleted"| == 10;
  }

  /** The reader undoes the writer, under any key. */
  lemma ReadWritten(fallback: string, e: Entry)
    requires ValidEntry(e)
    ensures ParseEntry(fallback, WriteEntry(e)) == Ok(e)
  {
    WrittenFields(e);
    ParseCanonical(e.id);
    ReadFromFields(fallback, WriteEntry(e), e, Canonical(e.id));
  }

  lemma ReadFromFields(fallback: string, item: Val, e: Entry, id: string)
    requires ValidEntry(e) && id != "" && Parse(id) == Ok(e.id)
    requires GetString(item, "id") == id && GetString(item, "name") == e.name
    requires GetString(item, "type") == e.entryType && GetBool(item, "is_deleted") == e.isDeleted
    ensures ParseEntry(fallback, item) == Ok(e)
  {
  }

  lemma CanonicalInjective()
    ensures Injective(Canonical)
  {
    forall id, id' | Canonical(id) == Canonical(id')
      ensures id == id'
    {
      ParseCanonical(id);
      ParseCanonical(id');
    }
  }

  lemma WrittenReads(n: KeyedEntries)
    requires forall k :: k in n ==> ValidEntry(n[k])
    ensures forall k :: k in n ==> ParseEntry(k, WriteEntry(n[k])) == Ok(n[k])
  {
    forall k | k in n {
      ReadWritten(k, n[k]);
    }
  }

  // ---- the merged map

  ghost predicate AllParse(client: FileMap) {
    AllRead(ParseEntry, client)
  }

  /** What the client's map reads as, key by key. */
  ghost function ClientReads(client: FileMap): KeyedEntries
    requires AllParse(client)
  {
    Reads(ParseEntry, client)
  }

  /** The map after the merge. */
  ghost function Merged(client: FileMap, server: EntryMap): FileMap {
    WithServer(WriteEntry, client, Named(Canonical, server))
  }

  /** The merge fails to read exactly when the client's own map does. */
  lemma MergedParsesIff(client: FileMap, server: EntryMap)
    requires ValidEntries(server)
    ensures AllParse(Merged(client, server)) <==> AllParse(client)
    ensures AllParse(client) ==>
              ClientReads(Merged(client, server)) == Completed(ClientReads(client), Named(Canonical, server))
  {
    var n := Named(Canonical, server);
    CanonicalInjective();
    NamedIsServer(Canonical, server);
    WrittenReads(n);
    MergeReadsAsCompleted(ParseEntry, WriteEntry, client, n);
  }

  /** The metadata the merge yields when the keys are iterated in `order`. */
  ghost function MergedEntries(client: FileMap, server: EntryMap, order: seq<string>): EntryMap
    requires ValidEntries(server) && AllParse(client) && Iterates(order, Merged(client, server).Keys)
  {
    MergedParsesIff(client, server);
    Aggregate(ClientReads(Merged(client, server)), order)
  }

  // ---- left-biased union

  /** Every key is the canonical text of the id its value carries. */
  ghost predicate CanonicalMap(client: FileMap) {
    AllParse(client) && Canonically(Canonical, ClientReads(client))
  }

  /** The client's entries by id. */
  ghost function ClientEntries(client: FileMap): EntryMap
    requires CanonicalMap(client)
  {
    ById(Canonical, ClientReads(client))
  }

  /** With canonical keys the result holds the client's entry where it has one and the server's otherwise,
      in every iteration order. */
  lemma LeftBiasedUnion(client: FileMap, server: EntryMap, order: seq<string>)
    requires CanonicalMap(client) && ValidEntries(server) && Iterates(order, Merged(client, server).Keys)
    ensures MergedEntries(client, server, order) == server + ClientEntries(client)
  {
    var c, n := ClientReads(client), Named(Canonical, server);
    CanonicalInjective();
    NamedIsServer(Canonical, server);
    MergedParsesIff(client, server);
    CanonicalAlignment(Canonical, c, server);
    CompletedReadsAsUnion(c, n, ClientEntries(client), server, order);
  }

  /** For any client map at all: a server id survives exactly when the client leaves its canonical key alone
      or some client value reads as that id. */
  lemma ServerIdKeptIff(client: FileMap, server: EntryMap, order: seq<string>, id: Uuid)
    requires AllParse(client) && ValidEntries(server) && id in server && Iterates(order, Merged(client, server).Keys)
    ensures id in MergedEntries(client, server, order)
            <==> Canonical(id) !in client || exists k :: k in client && ClientReads(client)[k].id == id
  {
    CanonicalInjective();
    NamedIsServer(Canonical, server);
    MergedParsesIff(client, server);
    IdKeptIff(ClientReads(client), Named(Canonical, server), order, Canonical(id));
  }

  /** Map order can change the outcome exactly when two keys of the merged map read as different entries with one id. */
  lemma MergeOrderIrrelevantIff(client: FileMap, server: EntryMap)
    requires AllParse(client) && ValidEntries(server)
    ensures AllParse(Merged(client, server))
    ensures OrderIrrelevant(ClientReads(Merged(client, server)))
            <==> Unambiguous(Completed(ClientReads(client), Named(Canonical, server)))
  {
    MergedParsesIff(client, server);
    OrderIrrelevantIff(Completed(ClientReads(client), Named(Canonical, server)));
  }

  /** A client that spells a server key differently and changes the entry makes the outcome depend on map order. */
  lemma AliasedKeyIsAmbiguous(client: FileMap, server: EntryMap, k: string)
    requires AllParse(client) && ValidEntries(server) && k in client
    requires var e := ClientReads(client)[k]; e.id in server && Canonical(e.id) !in client && server[e.id] != e
    ensures !Unambiguous(Completed(ClientReads(client), Named(Canonical, server)))
  {
    CanonicalInjective();
    NamedIsServer(Canonical, server);
    AliasIsAmbiguous(ClientReads(client), Named(Canonical, server), k, Canonical(ClientReads(client)[k].id));
  }

  lemma NothingFromClient(client: FileMap)
    requires |client| == 0
    ensures CanonicalMap(client) && ClientEntries(client) == map[]
  {
    NothingRead<Val>(ParseEntry, Canonical);
    assert client == map[];
  }

  /** Nothing from the client leaves the server's entries as they are. */
  lemma EmptyDeltaIsIdentity(client: FileMap, server: EntryMap, order: seq<string>)
    requires |client| == 0 && ValidEntries(server) && Iterates(order, Merged(client, server).Keys)
    ensures AllParse(client) && MergedEntries(client, server, order) == server
  {
    NothingFromClient(client);
    LeftBiasedUnion(client, server, order);
    PlusNothing(server, ClientEntries(client));
  }

  lemma PlusNothing(server: EntryMap, nothing: EntryMap)
    requires nothing == map[]
    ensures server + nothing == server
  {
  }

  // ---- the engine's entry point

  function DecodedFiles(b: Bytes<FileMap>): Result<FileMap> {
    match b
    case Nil | Blank => Ok(map[])
    case Garbage => Err(InvalidUpdate)
    case Coded(m) => Ok(m)
  }

  lemma DecodedFilesIff(b: Bytes<FileMap>, m: FileMap)
    ensures DecodedFiles(b) == Ok(m) <==> b == Coded(m) || (IsEmpty(b) && m == map[])
  {
  }

  function ComputeMetadataDelta(files: FileMap, vector: Bytes<StateVector>,
                                hasClientDelta: bool): Result<Bytes<MetaDelta>> {
    if !IsEmpty(vector) then
      if vector.Coded? then Ok(Coded(Since(vector.content, files))) else Err(InvalidVector)
    else if hasClientDelta then Ok(Coded(Everything(files)))
    else Ok(Nil)
  }

  /** The map reads, in some order, as these entries; and in every order exactly if no two of its keys disagree on an
      id. */
  ghost predicate Conveys(files: FileMap, entries: EntryMap) {
    && AllParse(files) && SomeOrderYields(ClientReads(files), entries)
    && (EveryOrderYields(ClientReads(files), entries) <==> Unambiguous(ClientReads(files)))
  }

  lemma MergedConveys(files: FileMap, order: seq<string>)
    requires AllParse(files) && Iterates(order, files.Keys)
    ensures Conveys(files, Aggregate(ClientReads(files), order))
  {
    EveryOrderYieldsIff(ClientReads(files), Aggregate(ClientReads(files), order));
  }

  /** What the sender gets back for its vector: what it lacks of a map that conveys the entries; without a vector the
      whole map if it sent any changes, and nothing at all if it sent none. */
  ghost predicate Replies(delta: Bytes<MetaDelta>, entries: EntryMap, vector: Bytes<StateVector>, changed: bool) {
    match vector
    case Coded(sv) =>
      delta.Coded? && delta.content.Since? && delta.content.sv == sv && Conveys(delta.content.files, entries)
    case Garbage => false
    case _ =>
      if changed then delta.Coded? && delta.content.Everything? && Conveys(delta.content.files, entries)
      else delta == Nil
  }

  lemma DeltaReplies(files: FileMap, order: seq<string>, vector: Bytes<StateVector>, changed: bool)
    requires AllParse(files) && Iterates(order, files.Keys)
    ensures var delta := ComputeMetadataDelta(files, vector, changed);
            && (delta.Ok? <==> !vector.Garbage?)
            && (delta.Ok? ==> Replies(delta.value, Aggregate(ClientReads(files), order), vector, changed))
  {
    MergedConveys(files, order);
  }

  /** The client's map completed with the server's entries, if there is server metadata. */
  method MergeInto(client: FileMap, current: Metadata?, ghost server: EntryMap) returns (files: FileMap)
    requires ValidEntries(server) && server == if current == null then map[] else current.entries
    ensures files == Merged(client, server)
  {
    CanonicalInjective();
    NamedIsServer(Canonical, server);
    files := client;
    if current != null {
      files := MergeServerMetadata(Canonical, WriteEntry, files, current.entries, Named(Canonical, server));
    } else {
      CompletedPointwise(WriteEntry, files, Named(Canonical, server), files);
    }
  }

  /** The metadata a map holds, read in some order. */
  method ExtractProjectMetadata(files: FileMap, projectID: Uuid) returns (r: Result<Metadata>, ghost order: seq<string>)
    ensures r.Ok? <==> AllParse(files) && projectID != NIL
    ensures r.Ok? ==> Iterates(order, files.Keys) && r.value.entries == Aggregate(ClientReads(files), order)
    ensures r.Ok? ==> fresh(r.value) && r.value.projectID == projectID
  {
    var entries;
    entries, order := ExtractEntries(ParseEntry, files);
    if entries.Err? {
      return Err(entries.error), order;
    }
    r := NewMetadata(projectID, entries.value);
  }

  method SyncMetadata(projectID: Uuid, current: Metadata?, clientDelta: Bytes<FileMap>,
                      clientVector: Bytes<StateVector>)
    returns (r: Result<(Bytes<MetaDelta>, Metadata)>, ghost order: seq<string>)
    requires current != null ==> ValidEntries(current.entries)
    ensures var client := DecodedFiles(clientDelta);
            var server := if current == null then map[] else current.entries;
            && (r.Ok? <==>
                  client.Ok? && AllParse(client.value) && projectID != NIL && !clientVector.Garbage?)
            && (r.Ok? ==>
                  && Iterates(order, Merged(client.value, server).Keys)
                  && fresh(r.value.1) && r.value.1.projectID == projectID
                  && r.value.1.entries == MergedEntries(client.value, server, order)
                  && Ok(r.value.0)
                     == ComputeMetadataDelta(Merged(client.value, server), clientVector, !IsEmpty(clientDelta)))
    ensures r.Ok? ==> Replies(r.value.0, r.value.1.entries, clientVector, !IsEmpty(clientDelta))
  {
    order := [];
    var client := DecodedFiles(clientDelta);
    if client.Err? {
      return Err(client.error), order;
    }
    ghost var server := if current == null then map[] else current.entries;
    MergedParsesIff(client.value, server);
    var files := MergeInto(client.value, current, server);
    var meta;
    meta, order := ExtractProjectMetadata(files, projectID);
    if meta.Err? {
      return Err(meta.error), order;
    }
    DeltaReplies(files, order, clientVector, !IsEmpty(clientDelta));
    var delta := ComputeMetadataDelta(files, clientVector, !IsEmpty(clientDelta));
    if delta.Err? {
      return Err(delta.error), order;
    }
    r := Ok((delta.value, meta.value));
  }
}
