# Verified model of the typstlab server

The server keeps Typst projects that several people edit at once. This project models, in Dafny, the parts of it whose
correctness is hardest to see, and proves what they promise:

* **Synchronization.** A client and the server merge project metadata, the server renames and deletes files as the
  metadata says, and answers with a plan of downloads, uploads and deltas; later edits are merged and relayed. A
  document is a set of operations (editor, clock), a state vector is the longest gap-free prefix for each editor, and a
  delta is what lies at or beyond it. `Documents`, `MetadataModel`, `EntryMerge`, `YjsMerger`, `FileStore`,
  `MetadataEffects`, `SyncPlan`, `SyncService` and `YjsEngine` model the code; `Repeats`, `SyncLaws`, `EditProtocol` and
  `ProtocolRefinement` state what holds across calls and over whole runs, `OddKeys` and `MissedEdits` where it stops.
  `RelayRefinement` ties the queues of the protocol to the mailboxes and rooms below. The in-memory store keeps a ghost
  record of the saves and deletes asked of it, so that the service can be shown to ask for no more than it needs.
* **Rooms.** Connections join the room of their project, announce cursors, and leave. `Mailboxes`, `Presences`, `Rooms`
  and `RoomObjects` have every operation atomic. `HubMachine` is the same system at the granularity of its mutexes,
  where every region held under one lock is a step and steps interleave freely. `HubRegistry` uses both: theorems marked
  "lock-level" below hold for every interleaving, the others assume that connecting, disconnecting and dispatching are
  each uninterrupted. `RoomRefinement` connects the two granularities, and `LostPresences` says when a connected user
  stops being present.
* **Storage.** `CompositeStore` and `CompositeRepository` model the store that splits binary files between PostgreSQL
  rows and S3 objects, with a failure possible at every backend call; `FaultyRuns` is about whole runs with failures.
* **Tables.** `Projects` models the member list of a project and its join table, `Sessions` the rotation of refresh
  tokens.

Code that updates objects in place is modelled by classes whose methods are proved against functions on values; the
theorems are about those functions. Go's unspecified map iteration order is an arbitrary choice in every loop over a
map, so what is proved holds for every order.

## Where a property fails

The model follows the code. Where the code does not keep an expected property for all inputs, the exact condition is
proved:

* Metadata keys that do not spell their own id can drop a server entry (`YjsMerger.ServerIdKeptIff`, an input in
  `OddKeys.ServerEntryLost`), can make the result depend on map order (`YjsMerger.MergeOrderIrrelevantIff`,
  `OddKeys.OutcomeDependsOnOrder`), and can make the second of two equal updates delete or rename a file
  (`Repeats.IdleIffSteady`, `OddKeys.SecondUpdateSaves`).
* The synchronization guide under `docs/` (its section 4) has the server ask for files created offline. SyncInit hands
  the engine no client delta, so with the concrete engine no upload arises at all (`SyncLaws.NoUploadArises`). The plan
  theorems leave the engine's metadata arbitrary, so the upload, delete and rename branches are covered all the same.
* The same section issues `download` for files absent from the client's manifest. The code issues it exactly when the
  content vector is empty, so binary files, which have none, are downloaded at every sync_init
  (`SyncLaws.UnknownIsDownloaded`, and `SyncPlan.PlanIsExact` for any engine). The model follows the code.
* Were an upload to arise, its id would be absent from the project, but from the whole table only if no other project
  uses it (`SyncLaws.PlanFitsTable`).
* A crdt_update is applied to whatever file it names but relayed in the sender's room only, and a full buffer refuses
  it. The protocol keeps for each client what passed it by since its last answer: in every run an answered client lacks
  something stored exactly if it lacks some of that (`EditProtocol.NoAcceptedEditMissed`), one update adds to it exactly
  if it does not reach the client (`EditProtocol.DispatchMisses`, `EditProtocol.UnrelayedMissesIff`), and the next
  answered sync_init clears it (`EditProtocol.SyncInitRecovers`). Runs that end with a missed edit are
  `MissedEdits.OtherRoomMisses` and `MissedEdits.FullBufferMisses`; `MissedEdits.NextSyncInitRecovers` goes on.
* Getting a room and joining it are separate regions, and so are leaving a room and checking whether it is empty. A room
  can therefore be taken out of the registry while someone holds it (`HubRegistry.CheckBreaksIff`), and then one project
  has two rooms (`HubRegistry.TwoRoomsForOneProject`).
* Leave looks for other connections of the user under the room's lock and withdraws the presence after releasing it. A
  connection of the user that joins and announces in between loses its presence (`LostPresences.LosesIff`,
  `LostPresences.LostToLateJoiner`, a run in `LostPresences.PresenceIsLost`).
* Renaming a binary file through a project listing, as a metadata update does, keeps the content only if the row holds
  it (`CompositeStore.RenameThroughListingIff`). Rows written here hold none (`CompositeStore.SavedRowsAreBare`),
  so content that is not empty is lost (`CompositeStore.ListingRenameLosesContent`). A delete that fails at the row may
  have dropped the object (`CompositeStore.FailedRowDeleteIff`, `CompositeStore.FailedDeleteLosesFile`); over whole runs
  with failures this is the only way an id becomes unreadable (`FaultyRuns.StrandedIff`).
* A rename writes the object under the new name and leaves the old one, which no row names and no delete reaches any
  more (`FaultyRuns.OrphanStep`, `FaultyRuns.RenameLeavesObject`).

`Projects.RemoveEmptiesIff` is not such a failure: it says which lists a removal could empty, and no caller in the
repository builds one, since a project starts with one user, AddUser adds no duplicate and the join table holds none
(`Projects.TableRunKeeps`).

Check the whole project with `dafny verify dfyconfig.toml`.

## Model

| member | source | states |
|---|---|---|
| Uuids.ParseCanonical | internal/infrastructure/crdt/yjs_merger.go:187-197 | every id is read back from its canonical text |
| Uuids.ParseIff | internal/infrastructure/crdt/yjs_merger.go:187-197 | a text is read as an id iff in lower case it is the canonical text, the bare digits, or the canonical text after the urn prefix or between two characters |
| Uuids.BlobKeyInjective | internal/infrastructure/persistence/s3/client.go:137-139 | distinct (project, file, name) triples never share an object key |
| Uuids.BlobKeyPrefixIff | internal/infrastructure/persistence/s3/client.go:137-139 | the keys under the prefix of a project are exactly the keys of its files |
| Documents.FirstGap | internal/infrastructure/crdt/yjs_merger.go:41-53 | the first missing clock of one editor: everything before it is there, it is not |
| Documents.MissingCovers | internal/infrastructure/crdt/yjs_merger.go:41-53 | a client that receives the delta for a vector it sent has all the server holds, whatever gaps it had and whatever it learned since |
| Documents.ResentIsBehindGap | internal/infrastructure/crdt/yjs_merger.go:41-53 | an operation is sent needlessly exactly if the client holds it behind a gap |
| Documents.DeltaIsDifference | internal/infrastructure/crdt/yjs_merger.go:41-53 | for a gap-free client the delta is the exact difference |
| MetadataModel.NewEntry | internal/domain/entry/factory.go:12-32 | an entry is made exactly from an id and a name that are not empty |
| MetadataModel.UnshadowedIsKept | internal/domain/metadata/factory.go:10-24 | an entry that no later entry with its id follows is the one kept |
| MetadataModel.EveryIdIsKept | internal/domain/metadata/factory.go:10-24 | every id in the list is a key of the map |
| MetadataModel.NewMetadata | internal/domain/metadata/factory.go:10-24 | fails exactly for the nil project; otherwise later entries replace earlier ones |
| MetadataModel.Metadata.ActiveEntries | internal/domain/metadata/metadata.go:27-35 | the entries not deleted, each id once, in any iteration order |
| MetadataModel.Metadata.Get | internal/domain/metadata/metadata.go:37-40 | the entry under the id, if any |
| MetadataModel.Metadata.Set | internal/domain/metadata/metadata.go:42-46 | replaces one key |
| EntryMerge.MergeServerMetadata | internal/infrastructure/crdt/yjs_merger.go:95-120 | in any iteration order the client map gains exactly the server entries whose key it lacks |
| EntryMerge.ExtractEntries | internal/infrastructure/crdt/yjs_merger.go:147-167 | succeeds iff every value parses, and lists the entries in the order taken |
| EntryMerge.AggregateIds | internal/infrastructure/crdt/yjs_merger.go:135-167 | an id is present iff some key reads as it, and then with such an entry |
| EntryMerge.OrderIrrelevantIff | internal/infrastructure/crdt/yjs_merger.go:135-167 | map order cannot matter iff no two keys read as different entries with one id |
| EntryMerge.EveryOrderYieldsIff | internal/infrastructure/crdt/yjs_merger.go:147-167 | what one order yields every order yields iff no two keys disagree on an id |
| EntryMerge.IdKeptIff | internal/infrastructure/crdt/yjs_merger.go:95-120 | a server id survives iff the client leaves its key alone or carries the id elsewhere |
| EntryMerge.CompletedReadsAsUnion | internal/infrastructure/crdt/yjs_merger.go:95-167 | with aligned keys the merged map reads as the union biased to the client |
| YjsMerger.ParseEntry | internal/infrastructure/crdt/yjs_merger.go:169-185 | whatever parses has an id and a name |
| YjsMerger.FormsReadAlike | internal/infrastructure/crdt/yjs_merger.go:228-238 | plain maps and nested shared maps are read alike |
| YjsMerger.ParsesAsIff | internal/infrastructure/crdt/yjs_merger.go:169-264 | exactly when a map of fields parses and as which entry: the three text forms of a field, the key in place of an absent or empty id, and a flag that counts only if it is true |
| YjsMerger.OnlyMapsParse | internal/infrastructure/crdt/yjs_merger.go:228-238 | a value that is no map never parses |
| YjsMerger.ReadWritten | internal/infrastructure/crdt/yjs_merger.go:109-120 | the reader undoes the writer, under any fallback key |
| YjsMerger.MergedParsesIff | internal/infrastructure/crdt/yjs_merger.go:56-80 | the merge can only fail to read through an entry of the client, and reads as the completed map |
| YjsMerger.LeftBiasedUnion | internal/infrastructure/crdt/yjs_merger.go:56-120 | with canonical keys the result is the client entry where present and the server entry otherwise, in every iteration order |
| YjsMerger.ServerIdKeptIff | internal/infrastructure/crdt/yjs_merger.go:95-197 | for any client map: a server entry id is dropped iff the client reuses its key for another id and has it nowhere else |
| YjsMerger.MergeOrderIrrelevantIff | internal/infrastructure/crdt/yjs_merger.go:56-80 | the outcome depends on map order iff two keys of the merged map read as different entries with one id |
| YjsMerger.AliasedKeyIsAmbiguous | internal/infrastructure/crdt/yjs_merger.go:187-197 | a client that spells a server key differently and changes the entry makes the outcome depend on map order |
| YjsMerger.EmptyDeltaIsIdentity | internal/infrastructure/crdt/yjs_merger.go:56-80 | nothing from the client leaves the server entries as they are |
| YjsMerger.MergeInto | internal/infrastructure/crdt/yjs_merger.go:95-107 | the map gains exactly the server entries whose key it lacks, in any order |
| YjsMerger.ExtractProjectMetadata | internal/infrastructure/crdt/yjs_merger.go:135-145 | the metadata read from the map in some order, or the failure of the map or of the project id |
| YjsMerger.SyncMetadata | internal/infrastructure/crdt/yjs_merger.go:56-80 | success exactly when the client map decodes and reads, the project is not nil and the vector decodes; the metadata is the merged map read in some order; the reply to a vector is what its sender lacks of a map that reads as that metadata, in every order iff no two keys disagree on an id; without a vector it is the whole map iff the client sent changes |
| YjsMerger.DecodedFilesIff | internal/infrastructure/crdt/yjs_merger.go:82-93 | a client delta decodes to a map iff it is the map encoded, or there are no bytes and the map is empty |
| YjsMerger.DeltaReplies | internal/infrastructure/crdt/yjs_merger.go:199-218 | the same of the delta alone, for every map that parses |
| FileStore.File.Rename | internal/domain/file/file.go:60-67 | refuses the empty name and changes nothing else |
| FileStore.File.UpdateState | internal/domain/file/file.go:104-111 | refuses nil; an empty state is stored as nil |
| FileStore.FileRepository.SaveTypstFile | internal/infrastructure/persistence/memory/file_repository.go:29-35 | the table gains or replaces exactly this file, and the call is on record |
| FileStore.FileRepository.SaveBinaryFile | internal/infrastructure/persistence/memory/file_repository.go:37-43 | the table gains or replaces exactly this file, and the call is on record |
| FileStore.FileRepository.FindTypstFileByID | internal/infrastructure/persistence/memory/file_repository.go:45-54 | found iff in the Typst map |
| FileStore.FileRepository.FindBinaryFileByID | internal/infrastructure/persistence/memory/file_repository.go:56-65 | found iff in the binary map |
| FileStore.FileRepository.FindByProjectID | internal/infrastructure/persistence/memory/file_repository.go:67-86 | exactly the files of the project, from both maps, each once, in any order |
| FileStore.FileRepository.DeleteFile | internal/infrastructure/persistence/memory/file_repository.go:88-103 | removes exactly this id and buries it, or reports it missing; the call is on record either way |
| FileStore.FileRepository.FindEntriesByProjectID | internal/infrastructure/persistence/memory/file_repository.go:112-164 | one live entry per file of the project, with its name and its kind, typst or binary |
| MetadataEffects.OrderIndependent | internal/application/sync/service.go:268-314 | every iteration order of the entries leaves the same table: deleted entries remove their listed files, live ones rename them, everything else stays |
| MetadataEffects.Idempotent | internal/application/sync/service.go:136-161 | the same client map applied twice deletes, saves and changes nothing the second time |
| MetadataEffects.PerformsStep | internal/application/sync/service.go:268-314 | one more entry extends the record of store calls by exactly the call it needs: each needed delete and save once, nothing else |
| MetadataEffects.NothingPerformed | internal/application/sync/service.go:268-314 | where nothing is needed the record is empty |
| MetadataEffects.CommuteIff | internal/application/sync/service.go:136-161 | two updates commute iff they agree on every project file both mention |
| MetadataEffects.ProjectsCommute | internal/application/sync/service.go:136-161 | updates of different projects commute |
| SyncPlan.ServerPlan | internal/application/sync/service.go:348-367 | succeeds iff every listed file resolves |
| SyncPlan.UploadPlanMembers | internal/application/sync/service.go:332-346 | one upload for each active id without a server file, no other |
| SyncPlan.ServerPlanMembers | internal/application/sync/service.go:348-408 | the resolved instructions of the listed files, each id at most once |
| SyncPlan.ResolvedIsDeserved | internal/application/sync/service.go:369-408 | a file resolves to an instruction iff the rule for its id demands it |
| SyncPlan.PlanIsExact | internal/application/sync/service.go:316-408 | the plan holds exactly the demanded upload, download and apply_changes instructions, each id once, in every iteration order |
| SyncService.IndexFilesByID | internal/application/sync/service.go:410-416 | the index finds each listed file under its id and nothing else |
| SyncService.Service.MutateFileIfNeeded | internal/application/sync/service.go:289-314 | always succeeds; deletes or renames this file as its entry says, by the one store call this needs, or none |
| SyncService.Service.ApplyFileMutations | internal/application/sync/service.go:268-287 | cannot fail; in any order it leaves the table the entries call for, and the store calls it adds to the record are exactly the deletes and saves they need, each once |
| SyncService.Service.BuildUploadInstructions | internal/application/sync/service.go:332-346 | the loop produces the upload plan for the order taken |
| SyncService.Service.BuildServerFileInstructions | internal/application/sync/service.go:348-367 | the loop produces the plan of the listed files or the failure |
| SyncService.Service.GenerateInstructions | internal/application/sync/service.go:316-330 | produces the exact plan and changes nothing |
| SyncService.Service.SyncedMetadata | internal/application/sync/service.go:198-232 | the entries of the store run through the engine, its delta is handed back; the table is only read |
| SyncService.Service.SyncInit | internal/application/sync/service.go:104-133 | on an early failure nothing changes and nothing is called; otherwise the metadata is applied to the listed files by exactly the store calls it needs, even if a delta fails afterwards, and a success carries the exact plan and the metadata delta of the engine |
| SyncService.Service.ApplyMetadataUpdate | internal/application/sync/service.go:136-161 | rejects the empty delta; otherwise applies the merged metadata, with exactly the needed store calls on record |
| SyncService.Service.ApplyFileChanges | internal/application/sync/service.go:180-196 | the merged state is stored by one save, or nothing changes, nothing is called and the reason is reported |
| SyncService.Service.ApplyCRDTUpdate | internal/application/sync/service.go:164-177 | accepted iff the ids and the delta are not empty, the file is Typst and the merge succeeds with a state; all failures leave the table and the record of calls alone |
| YjsEngine.YjsEngineExists | internal/infrastructure/crdt/yjs_merger.go:25-80 | the assumptions made of the engine can be met |
| Repeats.IdleIffSteady | internal/application/sync/service.go:136-161 | for any client entries, over all pairs of iteration orders: the second application of one map deletes and saves nothing iff no client entry asks for more after another entry of its id has won |
| Repeats.UnambiguousIsSteady | internal/infrastructure/crdt/yjs_merger.go:95-197 | entries that never disagree on an id meet that condition, and canonical keys never disagree |
| Repeats.AlignedYieldsUnion | internal/infrastructure/crdt/yjs_merger.go:95-197 | with keys that agree with the server, canonical or not, the merge yields the union biased to the client in every order |
| Repeats.AlignmentSurvives | internal/application/sync/service.go:136-161 | such agreement outlives updates |
| SyncLaws.AnswerYields | internal/infrastructure/crdt/yjs_merger.go:56-80 | the engine answers every map that parses with its entries completed by the server entries, in some order |
| SyncLaws.AnswerReplies | internal/infrastructure/crdt/yjs_merger.go:56-80 | whatever delta and vector the engine accepts, its reply conveys the metadata it yields |
| SyncLaws.SameDeltaTwice | internal/application/sync/service.go:136-161 | two calls of ApplyMetadataUpdate with one delta, for every map that parses and is steady: the second makes no store call and changes nothing |
| SyncLaws.WellSpelledIsSteady | internal/infrastructure/crdt/yjs_merger.go:187-197 | maps in which no two keys disagree on an id are steady, canonical ones among them |
| SyncLaws.AlignedAnswer | internal/application/sync/service.go:210-232 | with keys that agree with the server the metadata is the store overridden by the client |
| SyncLaws.CanonicalAnswer | internal/application/sync/service.go:210-232 | canonical keys agree with the server |
| SyncLaws.DeltasCommuteIff | internal/application/sync/service.go:136-161 | two deltas whose keys agree with the server give one table in either order iff they agree on the files both mention |
| OddKeys.ServerEntryLost | internal/infrastructure/crdt/yjs_merger.go:95-120 | an input on which a server entry is lost in every order |
| OddKeys.OutcomeDependsOnOrder | internal/infrastructure/crdt/yjs_merger.go:147-197 | an input on which the outcome depends on map order |
| OddKeys.SecondUpdateSaves | internal/application/sync/service.go:136-161 | an input and two orders with which the second of two equal updates renames the file |
| SyncLaws.SyncInitOnlyReads | internal/application/sync/service.go:104-133 | since sync_init passes no client delta, the concrete engine leaves the table as it is and the plan is made for the store entries |
| SyncLaws.SyncInitReplies | internal/application/sync/service.go:104-133 | a successful sync_init replies to a vector with what its sender lacks of a map that reads, in every order, as exactly the entries of the store; without a vector it sends no metadata |
| SyncLaws.SyncInitSucceedsIff | internal/application/sync/service.go:104-133 | through the concrete engine a sync_init fails iff the project is nil, the metadata vector does not decode, or some Typst file with a vector has a vector or a state that does not decode |
| SyncLaws.SyncInitWritesNothing | internal/application/sync/service.go:104-133 | nor does it make any store call that writes |
| SyncLaws.NoUploadArises | internal/application/sync/service.go:332-346 | no sync_init through the concrete engine asks for an upload |
| SyncLaws.UnknownIsDownloaded | internal/application/sync/service.go:369-386 | a successful sync_init downloads a file of the project iff the client sent no vector for it |
| SyncLaws.PlanFitsTable | internal/application/sync/service.go:104-133 | after any successful sync_init, whatever the engine: though planned before the deletions, what is to be downloaded or patched is still stored, and what is to be uploaded is not in the project; it is absent altogether iff no other project uses the id |
| SyncLaws.HandshakeCovers | internal/application/sync/service.go:348-408 | after one executed plan the client covers the server |
| SyncLaws.OneHandshakeSuffices | internal/application/sync/service.go:104-133 | of two sync_inits with the first plan executed in between, the second, whatever order it lists the files in, asks for no Typst download and sends no operation the client lacks, and none at all to a gap-free client |
| SyncLaws.UpdateIsUnion | internal/application/sync/service.go:164-196 | through the concrete engine an update is taken iff the file is Typst and its state and the delta decode, and the state becomes their union |
| EditProtocol.AnswerCarries | internal/application/sync/service.go:388-408 | the answer for a file carries nothing unstored and all that an honest vector lacks |
| EditProtocol.SyncInitKeeps | internal/infrastructure/websocket/handler.go:166-206 | dispatching a sync_init keeps the invariant for every client and every file of its project: once answered, all that is stored is in the client document, in its queue or among what it missed since |
| EditProtocol.SyncInitAnswers | internal/infrastructure/websocket/handler.go:166-206 | a sync_init changes nothing but the queue of its author, which gains, if there is a place, the failure iff a vector for a file of the project does not decode, and otherwise the plan |
| EditProtocol.UpdateKeeps | internal/infrastructure/websocket/handler.go:219-244 | dispatching a crdt_update, accepted or not, keeps it |
| EditProtocol.RejectedUpdateIff | internal/infrastructure/websocket/handler.go:114-125 | an update is rejected iff its file is not stored or its delta does not decode; its author is then sent the failure if there is a place, and nothing else changes |
| EditProtocol.ConnectionKeeps | internal/infrastructure/websocket/handler.go:100-109 | connects, disconnects, closed contexts and queue drains keep it |
| EditProtocol.EditorKeeps | internal/infrastructure/websocket/handler.go:114-125 | edits, requests and received messages keep it |
| EditProtocol.StepKeeps | internal/infrastructure/websocket/handler.go:114-133 | every step keeps the invariant |
| EditProtocol.BufferKeeps | internal/infrastructure/websocket/client.go:105-112 | the buffer of a client never holds more than 64 messages, however many are on the wire |
| EditProtocol.NoAcceptedEditMissed | internal/infrastructure/websocket/handler.go:166-244 | in every run: once a vector for a file is answered, all that is stored is in the client document, its buffer, on the wire, or among the updates that were relayed elsewhere or refused since the last answer; so nothing is missing iff the client has those all the same |
| EditProtocol.EqualIffUpToDate | internal/infrastructure/websocket/room.go:94-104 | in every run an answered client has exactly the stored document iff nothing waits for it or passed it by that it lacks and nothing of its own waits that is not stored |
| EditProtocol.UpToDateClientsAgree | internal/infrastructure/websocket/room.go:94-104 | any two such clients have the same document |
| EditProtocol.SyncInitRecovers | internal/infrastructure/websocket/handler.go:166-206 | a sync_init sent by a client is never rejected; if its response has a place, every file with a vector is covered and nothing of it is missed any more, whatever happened before; if not, nothing becomes covered |
| EditProtocol.StoredEditsStay | internal/application/sync/service.go:164-196 | stored operations are never taken back and an accepted update is stored whole |
| EditProtocol.DispatchMisses | internal/infrastructure/websocket/room.go:94-104 | a dispatch adds to what a client missed exactly the delta of an accepted update that does not reach it; an answer never adds anything |
| EditProtocol.OtherStepsMissNothing | internal/infrastructure/websocket/client.go:94-113 | no other step makes a client miss anything |
| EditProtocol.UnrelayedMissesIff | internal/infrastructure/websocket/room.go:94-104 | when an accepted update passes an answered client by (full buffer, or another room), the client still covers the file iff it has the delta and all it missed earlier |
| MissedEdits.OtherRoomMisses | internal/infrastructure/websocket/handler.go:225-242 | a run in which an answered client misses an edit though its buffer has a place: it came through another room, of any project |
| MissedEdits.NextSyncInitRecovers | internal/infrastructure/websocket/handler.go:166-206 | that run goes on to a state in which the client has the edit after asking again |
| MissedEdits.FullBufferMisses | internal/infrastructure/websocket/client.go:105-112 | a run in which sixty-four relays fill a buffer and the edit after them is missed, all in one room |
| MissedEdits.BroughtIsMissed | internal/infrastructure/websocket/room.go:94-104 | from any state: whoever is in another room or refuses the message misses what a newcomer brings |
| ProtocolRefinement.UpdateRefines | internal/application/sync/service.go:164-196 | the service accepts exactly the updates the protocol accepts and stores the same documents |
| ProtocolRefinement.PlannableIff | internal/application/sync/service.go:348-367 | the service can plan iff the protocol can |
| ProtocolRefinement.PlanRefines | internal/application/sync/service.go:369-408 | the service plan restricted to Typst files is the protocol plan |
| ProtocolRefinement.SyncInitRefines | internal/application/sync/service.go:104-133 | a whole sync_init succeeds iff the protocol has a plan, changes nothing, and sends for each Typst file what the protocol sends |
| RelayRefinement.DeliverIsSend | internal/infrastructure/websocket/client.go:94-113 | the protocol delivers exactly when the mailbox has a place, and both append the same message |
| RelayRefinement.AnswerIsSend | internal/infrastructure/websocket/handler.go:192-205 | answering a sync_init is one Send to its sender |
| RelayRefinement.PumpIsPick | internal/infrastructure/websocket/client.go:141-168 | the pump of the protocol takes what the mailbox pump takes |
| RelayRefinement.RelayIsBroadcast | internal/infrastructure/websocket/room.go:94-104 | relaying an accepted update is the broadcast to the sender room with the sender left out |
| RelayRefinement.OtherRoomsUntouched | internal/infrastructure/websocket/room.go:94-104 | and leaves the mailboxes of every other room alone |
| Mailboxes.EventKeepsFifo | internal/infrastructure/websocket/client.go:95-168 | no event loses, duplicates or reorders an accepted message, exceeds 64 queued or accepts after a close |
| Mailboxes.OutcomeIffAccepted | internal/infrastructure/websocket/client.go:94-113 | Send reports success iff the message is accepted, and otherwise why: the context is done, or 64 messages wait |
| Mailboxes.EventEnds | internal/infrastructure/websocket/client.go:115-168 | closing closes, a failed write or ping ends the pump and closes the client, a write puts out the oldest message not yet written |
| Mailboxes.HistoryIsFifo | internal/infrastructure/websocket/client.go:95-168 | over every history: at most 64 queued, written is a prefix of accepted, nothing accepted after a close |
| Presences.FirstWord | internal/infrastructure/websocket/awareness.go:42-42 | the four most significant bytes of the id |
| Presences.SameColorIff | internal/infrastructure/websocket/awareness.go:41-44 | two users share a colour iff the first words of their ids agree modulo the palette |
| Presences.ColorIsDealt | internal/infrastructure/websocket/awareness.go:40-44 | the palette is dealt out in turn by the first word of the id |
| Presences.AwarenessStore.SetPresence | internal/infrastructure/websocket/awareness.go:60-74 | the presence of the user becomes exactly what was given, in the colour of the user |
| Presences.AwarenessStore.RemovePresence | internal/infrastructure/websocket/awareness.go:77-86 | removed, and whether it was there |
| Presences.AwarenessStore.Snapshot | internal/infrastructure/websocket/awareness.go:98-107 | every presence once, in any order |
| Presences.KeyedListing | internal/infrastructure/websocket/awareness.go:98-107 | a receiver rebuilds the store from a snapshot taken in any order |
| Rooms.RelayDeliversOnce | internal/infrastructure/websocket/room.go:84-104 | one copy for every open, non-full member but the sender, whatever the state of the others; nothing else changes |
| Rooms.BroadcastKeeps | internal/infrastructure/websocket/room.go:84-91 | a broadcast moves every member that is sent it to the new presences |
| Rooms.LeaveKeeps | internal/infrastructure/websocket/room.go:55-81 | leaving keeps every remaining replica right |
| Rooms.AnnounceKeeps | internal/infrastructure/websocket/handler.go:286-315 | an announcement keeps every replica right |
| Rooms.JoinKeeps | internal/infrastructure/websocket/room.go:40-52 | a joining client starts with a right replica |
| Rooms.ReplicasAgree | internal/infrastructure/websocket/room.go:40-91 | with atomic operations and no refused send, folding what was written, is being written and is queued gives exactly the room presences, in every reachable state |
| Rooms.SeenAfter | internal/infrastructure/websocket/handler.go:286-316 | one step: an announcement shows the email, file and cursor given, the last leave withdraws them, nothing else touches what is seen of a user |
| Rooms.SeenIff | internal/infrastructure/websocket/handler.go:286-316 | over every run: what is seen of a user is exactly the last announcement, unless the last connection of the user has left since |
| Rooms.LastAnnouncementIsSeen | internal/infrastructure/websocket/handler.go:286-316 | and every member who was refused nothing rebuilds exactly that |
| Rooms.RefusedUpdateIff | internal/infrastructure/websocket/client.go:105-112 | a member that refuses an announcement still reads right iff the announcement changed nothing |
| RoomObjects.Client.Send | internal/infrastructure/websocket/client.go:95-113 | enqueues, or refuses with the reason, as the mailbox does |
| RoomObjects.Client.Close | internal/infrastructure/websocket/client.go:116-123 | closes the mailbox |
| RoomObjects.Client.PumpTurn | internal/infrastructure/websocket/client.go:146-158 | one turn of the pump: a picked message is written or the pump stops and closes |
| RoomObjects.Room.SendAll | internal/infrastructure/websocket/room.go:94-104 | each client but the excepted one gets one send, whatever the others do |
| RoomObjects.Room.Broadcast | internal/infrastructure/websocket/room.go:84-91 | exactly one copy to every open, non-full client, in any order |
| RoomObjects.Room.BroadcastExcept | internal/infrastructure/websocket/room.go:94-104 | the same, the excepted client left as it is |
| RoomObjects.Room.Join | internal/infrastructure/websocket/room.go:40-52 | registers the client and sends it a snapshot in any order |
| RoomObjects.Room.HasUser | internal/infrastructure/websocket/room.go:63-69 | whether another connection of the user is in the room |
| RoomObjects.Room.Withdraw | internal/infrastructure/websocket/room.go:72-80 | withdraws the presence and tells the rest |
| RoomObjects.Room.Leave | internal/infrastructure/websocket/room.go:55-81 | leaves as the atomic operation does; a client not in the room changes nothing |
| RoomObjects.Room.Announce | internal/infrastructure/websocket/handler.go:286-316 | the store and every client get the email of the client, its file and its cursor as given |
| RoomObjects.Room.Close | internal/infrastructure/websocket/room.go:114-122 | every client ends closed and out; presences stay |
| RoomObjects.Hub.GetOrCreateRoom | internal/infrastructure/websocket/hub.go:25-36 | the registered room, or a new empty one now registered |
| RoomObjects.Hub.RemoveClient | internal/infrastructure/websocket/hub.go:48-64 | the client leaves its own room; the entry of that project goes iff that room is then empty |
| RoomObjects.Hub.CloseNext | internal/infrastructure/websocket/hub.go:78-80 | closing one room leaves the others as they are |
| RoomObjects.Hub.Shutdown | internal/infrastructure/websocket/hub.go:74-82 | every registered room ends empty, every client closed with its mailbox otherwise as it was, the registry empty |
| HubMachine.StepKeepsAccount | internal/infrastructure/websocket/room.go:55-81 | lock-level: no step leaves a present user without a client or a leaver |
| HubMachine.StepKeepsAnchor | internal/infrastructure/websocket/hub.go:25-64 | lock-level: no step, a shutdown step included, leaves a registered room without a client, someone on the way in or yet to check, unless the shutdown has closed that very room |
| HubMachine.StepKeeps | internal/infrastructure/websocket/hub.go:25-82 | lock-level: every step of every interleaving keeps the invariants |
| HubMachine.NoGhostCursors | internal/infrastructure/websocket/room.go:40-81 | lock-level, every interleaving: in a room no shutdown closed, each present user has a client there or a leaver about to withdraw it; with no leave in progress the present are connected, and an empty room has nobody present |
| HubMachine.NoLeakedRooms | internal/infrastructure/websocket/hub.go:25-82 | lock-level, every interleaving, shutdowns included: each registered room is filed under its project and, unless a shutdown under way has already closed it, has a client, someone on the way in or someone yet to check; at quiescence it is open and has a client |
| HubMachine.ShutdownClosesAll | internal/infrastructure/websocket/hub.go:74-82 | lock-level: a shutdown ends only when it has closed every registered room |
| LostPresences.PresenceGoesIff | internal/infrastructure/websocket/room.go:71-81 | lock-level, any step: a presence goes iff a leaver of that user withdraws it |
| LostPresences.LosesIff | internal/infrastructure/websocket/room.go:71-81 | lock-level: a step takes the presence of a connected user iff it is such a withdrawal while another connection of the user is in the room |
| LostPresences.LeaverWasLast | internal/infrastructure/websocket/room.go:56-71 | lock-level: a leaver goes on to withdraw only if the user then had no other connection in the room |
| LostPresences.LostToLateJoiner | internal/infrastructure/websocket/room.go:40-81 | lock-level, every run: it then takes a connected user out only if another connection of the user joined in between |
| LostPresences.PresenceIsLost | internal/infrastructure/websocket/room.go:55-81 | lock-level: a run in which that happens |
| LostPresences.AtomicOpsLoseNone | internal/infrastructure/websocket/room.go:55-81 | operations that nobody interrupts never lose the presence of a user who stays connected |
| HubRegistry.ConsistentUnlessInUse | internal/infrastructure/websocket/hub.go:57-63 | lock-level: a step makes a connection lose its registered room iff it takes out of the registry a project whose room someone still holds |
| HubRegistry.CheckBreaksIff | internal/infrastructure/websocket/hub.go:59-63 | lock-level: the deletion after the check does so iff someone got the room after the last client left |
| HubRegistry.StopBreaksIff | internal/infrastructure/websocket/hub.go:74-82 | lock-level: the end of a shutdown does so iff someone still holds a room of a registered project |
| HubRegistry.TwoRoomsForOneProject | internal/infrastructure/websocket/handler.go:100-109 | lock-level: a run that ends with two clients of one project in different rooms |
| HubRegistry.SettledIsExact | internal/infrastructure/websocket/hub.go:25-64 | between operations the invariants make the registry exact |
| HubRegistry.OpCompletes | internal/infrastructure/websocket/handler.go:100-109 | an uninterrupted connect, announcement or disconnect can run to its end and keeps the invariants |
| HubRegistry.RegistryIsExact | internal/infrastructure/websocket/hub.go:25-64 | atomic operations, no shutdown: registered ids are the projects of connected clients, each client is in exactly one room, the registered one of its project, and the present are connected |
| HubRegistry.AlwaysCanContinue | internal/infrastructure/websocket/handler.go:100-109 | after any history every operation can be carried out |
| RoomRefinement.JoinMatches | internal/infrastructure/websocket/room.go:40-44 | the locked region of Join does to the room what the atomic join does |
| RoomRefinement.LeaveMatches | internal/infrastructure/websocket/room.go:55-73 | the two regions of Leave add up to the atomic leave |
| RoomRefinement.AnnounceMatches | internal/infrastructure/websocket/awareness.go:60-74 | storing a presence does to the room what the atomic announcement does |
| CompositeStore.ReadElsewhere | internal/infrastructure/persistence/s3/client.go:137-139 | a change to the object of one file is invisible in every other |
| CompositeStore.BinarySaveShows | internal/infrastructure/persistence/composite/file_repository.go:71-90 | a binary save is an update of one map entry, whatever was stored |
| CompositeStore.DeleteShows | internal/infrastructure/persistence/composite/file_repository.go:132-143 | a delete removes the id from the map even when the object stays behind |
| CompositeStore.FailedRowWriteIff | internal/infrastructure/persistence/composite/file_repository.go:76-87 | a save failing at the row write keeps everything readable, and changes what is read iff the row already names that object and reads differently |
| CompositeStore.FailedRowDeleteIff | internal/infrastructure/persistence/composite/file_repository.go:132-140 | a delete failing at the row harms nothing iff there was no object or the row holds the same content |
| CompositeStore.RenameShows | internal/application/file/service.go:71-85 | renaming what a lookup returned keeps the content |
| CompositeStore.RenameThroughListingIff | internal/application/sync/service.go:304-314 | renaming what a project listing returned keeps the content iff the row itself holds what a lookup shows |
| CompositeStore.ListingRenameLosesContent | internal/application/sync/service.go:304-314 | a saved file that is not empty reads as empty after a rename through a listing |
| CompositeStore.FailedDeleteLosesFile | internal/infrastructure/persistence/composite/file_repository.go:132-140 | a saved file cannot be read after a delete that failed at the row |
| CompositeStore.SavedRowsAreBare | internal/infrastructure/persistence/composite/file_repository.go:80-87 | every run leaves each binary row as it was at the start or without content of its own |
| CompositeStore.OnlyEmptySurvivesListing | internal/application/sync/service.go:304-314 | after any run over an empty store a rename through a listing keeps the content iff it is empty |
| CompositeStore.StoreRefinesMap | internal/infrastructure/persistence/composite/file_repository.go:71-143 | every run of saves and deletes looks like the plain map, whichever S3 deletions fail; with nothing unreadable at the start, nothing becomes so and deletes find exactly the ids of the map |
| FaultyRuns.EventActsOnSlots | internal/infrastructure/persistence/composite/file_repository.go:71-143 | every call, also one that fails part-way, acts on each row and the object it names alone |
| FaultyRuns.FaultyRunActsOnSlots | internal/infrastructure/persistence/composite/file_repository.go:71-143 | over every run of successful and failed calls, what readers see follows from the rows and the objects they named at the start; an object no row names never shows again |
| FaultyRuns.StrandedStep | internal/infrastructure/persistence/composite/file_repository.go:71-143 | what makes an id unreadable and what mends it, for every call |
| FaultyRuns.StrandedIff | internal/infrastructure/persistence/composite/file_repository.go:71-143 | over every run: an id has an unreadable row at the end iff some delete dropped the object of its bare row and failed, and since then no save or delete of the id succeeded and no upload replaced the object |
| FaultyRuns.OrphanStep | internal/infrastructure/persistence/composite/file_repository.go:71-143 | for every call, also one that fails part-way: exactly when an object is left that no row names |
| FaultyRuns.RenameLeavesObject | internal/application/file/service.go:71-85 | renaming a binary file leaves the object of its old name behind, and deleting the file later does not remove it |
| CompositeRepository.FileRepository.SaveTypstFile | internal/infrastructure/persistence/composite/file_repository.go:54-59 | one row, or nothing |
| CompositeRepository.FileRepository.SaveBinaryFile | internal/infrastructure/persistence/composite/file_repository.go:71-90 | what each failure point leaves in the two backends |
| CompositeRepository.FileRepository.FindTypstFileByID | internal/infrastructure/persistence/composite/file_repository.go:62-68 | the Typst row, if any |
| CompositeRepository.FileRepository.FindBinaryFileByID | internal/infrastructure/persistence/composite/file_repository.go:93-120 | succeeds iff the row is found and its object can be read to the end, or, when the object cannot be opened, the row has content; an object cut off is an error |
| CompositeRepository.FileRepository.DeleteFile | internal/infrastructure/persistence/composite/file_repository.go:132-143 | the object goes first and its failure is ignored; both tables after each failure point, as one event of such a run |
| CompositeRepository.FileService.FindByID | internal/application/file/service.go:42-50 | when it succeeds, whatever the transfer does; without failures a lookup in the map |
| CompositeRepository.FileService.Save | internal/application/file/service.go:53-68 | dispatches on the variant; wherever it fails it is one event of such a run |
| CompositeRepository.FileService.RenameFile | internal/application/file/service.go:71-85 | exactly when it succeeds; a success keeps the content iff the object could be opened or the row holds the same; a failure, wherever it comes, then changes nothing a lookup shows |
| Projects.DroppedMembers | internal/domain/project/project.go:50-52 | exactly the occurrences of the user go |
| Projects.DroppedSplits | internal/domain/project/project.go:50-52 | those who stay keep their order |
| Projects.ChangedMembers | internal/domain/project/project.go:29-54 | exactly when a change is refused, and the set of members after an accepted one |
| Projects.BelongsIff | internal/domain/project/project.go:29-54 | over every run: a user belongs iff the last accepted change about the user was an addition, or there was none and the user belonged at the start |
| Projects.RemoveEmptiesIff | internal/domain/project/project.go:40-54 | for any list the factory accepts: a removal leaves nobody iff the list repeats that user alone |
| Projects.RunKeepsGood | internal/domain/project/project.go:29-54 | from one non-nil member every run keeps the list non-empty, nil-free and duplicate-free |
| Projects.Project.AddUser | internal/domain/project/project.go:29-38 | refuses exactly nil; otherwise the set of members gains exactly this user, at the end of the list if new |
| Projects.Project.RemoveUser | internal/domain/project/project.go:40-54 | refuses nil, strangers and the last entry; otherwise the set of members loses exactly this user |
| Projects.NewProject | internal/domain/project/factory.go:10-33 | accepts exactly the lists without nil that are not empty, with an id, a name and a time |
| Projects.ProjectRepository.RemoveOldMembers | internal/infrastructure/persistence/postgres/project_repository.go:65-90 | exactly the rows of the project whose user is not listed go |
| Projects.ProjectRepository.InsertMembers | internal/infrastructure/persistence/postgres/project_repository.go:92-104 | every listed user up to the first refusal gets a row |
| Projects.ProjectRepository.SyncMembers | internal/infrastructure/persistence/postgres/project_repository.go:58-63 | the table holds exactly the listed users for the project and is unchanged elsewhere; a refusal leaves what was done until then |
| Projects.ProjectRepository.Save | internal/infrastructure/persistence/postgres/project_repository.go:26-56 | project row and list, or on any failure nothing |
| Projects.ProjectRepository.FindByID | internal/infrastructure/persistence/postgres/project_repository.go:107-156 | the project row and its users, each once, in any row order; fails iff the query fails, there is no row or NewProject refuses |
| Projects.TableRunKeeps | internal/application/project/service.go:53-123 | over every run of creations and saved changes of any projects no project loses its last member and nil never becomes one |
| Projects.SavedListReadsBack | internal/infrastructure/persistence/postgres/project_repository.go:26-156 | a saved good list reads back as the same users, and a change does the same to either |
| Projects.SavedChangeIsOneRow | internal/infrastructure/persistence/postgres/project_repository.go:26-156 | a change loaded, made and saved adds or removes exactly one row of the whole table |
| Sessions.SessionRepository.Save | internal/infrastructure/persistence/memory/session_repository.go:24-29 | one entry under its token |
| Sessions.SessionRepository.FindByToken | internal/infrastructure/persistence/memory/session_repository.go:31-39 | the entry under the token, if any |
| Sessions.SessionRepository.Delete | internal/infrastructure/persistence/memory/session_repository.go:41-46 | the token goes |
| Sessions.SessionRepository.DeleteByUserID | internal/infrastructure/persistence/memory/session_repository.go:48-57 | exactly the sessions of the user go, in any order |
| Sessions.AuthService.Create | internal/application/session/service.go:31-52 | a session for thirty days under the drawn token |
| Sessions.AuthService.Login | internal/application/auth/service.go:82-107 | succeeds iff the user is found, the password right, the access token signed and a session token drawn; then stores thirty days for that user, and otherwise changes nothing |
| Sessions.AuthService.Refresh | internal/application/auth/service.go:109-141 | the new session before the old one goes; an expired one goes at once; other failures change nothing |
| Sessions.AuthService.Logout | internal/application/auth/service.go:143-148 | the token goes |
| Sessions.LoginSucceedsIff | internal/application/auth/service.go:82-107 | the same on values, with the failure that tells a wrong password and an unknown user alike |
| Sessions.RefreshSucceedsIff | internal/application/auth/service.go:109-141 | exactly when a refresh succeeds, the thirty days it then hands out to the same user, and which failure is which |
| Sessions.EverySessionDescends | internal/application/auth/service.go:82-148 | over every run: each stored session descends, through refreshes in time, from a login of its user with the right password |
| Sessions.SessionGoesIff | internal/application/auth/service.go:82-148 | with fresh tokens a session goes iff it is logged out, redeemed or presented after its time |
| Sessions.RefreshKeepsCounts | internal/application/auth/service.go:109-141 | a refresh with a fresh token trades one session of the user for another and keeps the number of sessions of every user |
| Sessions.FailedRefreshKeeps | internal/application/auth/service.go:109-141 | a failed refresh changes nothing, unless the token had expired and goes |
| Sessions.RedeemableForThirtyDays | internal/application/auth/service.go:98-118 | what a login hands out can be refreshed until thirty days have passed and no longer |
| Sessions.StaleDrawLosesSession | internal/application/auth/service.go:130-135 | drawing the very token that is refreshed would lose the session |
| Sessions.StepKeeps | internal/application/auth/service.go:82-148 | no step brings a redeemed token back |
| Sessions.RedeemedOnce | internal/application/auth/service.go:109-141 | in every run with fresh tokens each refresh token is redeemed at most once, and presenting it again fails |

## Left out

- FileStore.FileRepository.SaveTypstFile: requires that the id is not stored as a binary file; the source does not look, and a file under both variants is outside every caller here.
- FileStore.FileRepository.SaveBinaryFile: requires that the id is not stored as a Typst file, for the same reason.
- RoomObjects.Client.PumpTurn: is one turn of the write pump with the outcome of its select given; the unbounded loop around it is `Mailboxes.HistoryIsFifo`.
- EditProtocol.NoAcceptedEditMissed: keeps the set of stored files fixed; creating, renaming and deleting files during a run is not part of it.
- Rooms.ReplicasAgree: assumes each dispatch atomic; a snapshot taken in Join but sent after a later announcement, and SetPresence before Broadcast, can leave a replica behind.
- The CRDT library github.com/reearth/ygo and its byte formats, delete sets and text content are not part of this model; whether it may encode an empty delta as zero bytes is a parameter. Metadata deltas are kept symbolic.
- The UUID parser of github.com/google/uuid is not part of the repository; its published text forms are modelled.
- What a browser client does with a plan is taken from the synchronization guide under `docs/`: it merges what it downloads or is sent.
- The two file structs are one class with a payload, since both variants share every operation modelled; the interface between them is a flag.
- The lock-level machine keeps who is in a room and who is present, not what messages carry.
- Rooms key their clients by the fresh connection id instead of by pointer.
- Projects.ProjectRepository.FindByID: takes the success of its queries as one argument and leaves timestamps out.
- SyncLaws.DeltasCommuteIff: asks that the keys of both maps agree with the server's, as `Aligned` says; with keys that disagree even one delta can have several outcomes.
- Timestamps (`updatedAt`) of files, entries and projects, and nil entry pointers in lists of entries.
- HTTP handlers, upgrades, JSON, cookies, routing, configuration, migrations, logging and contexts that expire.
- SQL and S3 as such: a table is a map or relation, a bucket is a map, and each call has a success flag. Uploads are taken to be all or nothing.
- Password hashing, access tokens, randomness and the clock are arguments; the user found for a session is taken to be the session's own.
- Two calls of Refresh at the same time, two merges of one file at the same time, and sessions in PostgreSQL.
- The PostgreSQL file listing hands out copies while the in-memory listing hands out the stored objects; the service is modelled over the in-memory table.
- Invites, registration, the entry and metadata application services and project listings would only add simple members.
