/** The concrete engine behind the service's engine parameter: what its metadata merge may answer. */
module YjsEngine {
  import opened Outcomes
  import opened Documents
  import opened MetadataModel
  import EntryMerge
  import opened YjsMerger
  import opened SyncPlan
  import opened SyncService

  /** The entries are the merged map read in some iteration order. */
  ghost predicate ReadsMerged(entries: seq<Entry>, server: EntryMap, client: FileMap)
    requires ValidEntries(server) && AllParse(client)
  {
    exists order :: Iterates(order, Merged(client, server).Keys)
                    && LastWins(entries) == MergedEntries(client, server, order)
  }

  /** An answer YjsMerger.SyncMetadata may give. */
  ghost predicate YjsAnswer(answer: Result<(Bytes<MetaDelta>, seq<Entry>)>, server: EntryMap, delta: Bytes<FileMap>,
                            vector: Bytes<StateVector>)
    requires ValidEntries(server)
  {
    var client := DecodedFiles(delta);
    && (answer.Ok? <==> client.Ok? && AllParse(client.value) && (IsEmpty(vector) || vector.Coded?))
    && (answer.Ok? ==>
          && Ok(answer.value.0) == ComputeMetadataDelta(Merged(client.value, server), vector, !IsEmpty(delta))
          && ReadsMerged(answer.value.1, server, client.value))
  }

  ghost predicate IsYjs(engine: Engine) {
    forall server, delta, vector ::
      ValidEntries(server) ==> YjsAnswer(engine.syncEntries(server, delta, vector), server, delta, vector)
  }

  lemma IterationExists(keys: set<string>)
    ensures exists order :: Iterates(order, keys)
  {
    var order := SomeIteration(keys);
  }

  lemma ListedReadsAreValid(files: FileMap, order: seq<string>)
    requires AllParse(files) && forall k :: k in order ==> k in files
    ensures forall e :: e in EntryMerge.Listed(ClientReads(files), order) ==> ValidEntry(e)
  {
    var es := EntryMerge.Listed(ClientReads(files), order);
    forall i | 0 <= i < |es|
      ensures ValidEntry(es[i])
    {
      assert order[i] in order;
      assert ParseEntry(order[i], files[order[i]]).Ok?;
    }
  }

  ghost function OrderOf(keys: set<string>): (order: seq<string>)
    ensures Iterates(order, keys)
  {
    IterationExists(keys);
    var order :| Iterates(order, keys);
    order
  }

  ghost function ReadBack(server: EntryMap, client: FileMap): seq<Entry>
    requires ValidEntries(server) && AllParse(client)
  {
    MergedParsesIff(client, server);
    EntryMerge.Listed(ClientReads(Merged(client, server)), OrderOf(Merged(client, server).Keys))
  }

  lemma ReadBackReads(server: EntryMap, client: FileMap)
    requires ValidEntries(server) && AllParse(client)
    ensures ReadsMerged(ReadBack(server, client), server, client)
  {
    var order := OrderOf(Merged(client, server).Keys);
    assert LastWins(ReadBack(server, client)) == MergedEntries(client, server, order);
  }

  lemma ReadBackIsValid(server: EntryMap, client: FileMap)
    requires ValidEntries(server) && AllParse(client)
    ensures forall e :: e in ReadBack(server, client) ==> ValidEntry(e)
  {
    MergedParsesIff(client, server);
    ListedReadsAreValid(Merged(client, server), OrderOf(Merged(client, server).Keys));
  }

  /** One such engine: some iteration order is taken at every merge. */
  ghost function YjsSync(server: EntryMap, delta: Bytes<FileMap>,
                         vector: Bytes<StateVector>): Result<(Bytes<MetaDelta>, seq<Entry>)>
  {
    var client := DecodedFiles(delta);
    if client.Err? then Err(client.error)
    else if !ValidEntries(server) || !AllParse(client.value) then Err(InvalidUuid)
    else
      var metaDelta := ComputeMetadataDelta(Merged(client.value, server), vector, !IsEmpty(delta));
      if metaDelta.Err? then Err(metaDelta.error) else Ok((metaDelta.value, ReadBack(server, client.value)))
  }

  lemma YjsSyncAnswers(server: EntryMap, delta: Bytes<FileMap>, vector: Bytes<StateVector>)
    ensures ValidEntries(server) ==> YjsAnswer(YjsSync(server, delta, vector), server, delta, vector)
    ensures YjsSync(server, delta, vector).Ok? ==>
              forall e :: e in YjsSync(server, delta, vector).value.1 ==> ValidEntry(e)
  {
    var client := DecodedFiles(delta);
    if client.Ok? && ValidEntries(server) && AllParse(client.value) {
      ReadBackReads(server, client.value);
      ReadBackIsValid(server, client.value);
    }
  }

  /** The assumptions made of the engine can be met. */
  lemma YjsEngineExists(mergeFile: (Bytes<Doc>, Bytes<Doc>) -> Result<Bytes<Doc>>, computeDelta: DeltaFunction)
    ensures IsYjs(Engine(YjsSync, mergeFile, computeDelta)) && MakesEntries(Engine(YjsSync, mergeFile, computeDelta))
  {
    forall server, delta, vector {
      YjsSyncAnswers(server, delta, vector);
    }
  }
}
