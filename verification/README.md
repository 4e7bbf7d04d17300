# A verified model of the TWEP core

TWEP runs WebAssembly applications that a TEEP agent fetches into a trusted application (TA) under OP-TEE. This project
models the parts of it in which state outlives a call or crosses a language border, and proves what they promise:

- **Protected state** of the TA: the two acceptance slots (generation, component sequences, last consumed digest), the two
  catalog slots and the two application slots, with a fault possible at every step of every write.
- **The host-I/O continuation protocol**: sessions that suspend on an HTTP post or an evidence request, keep a transcript
  under a quota shared by all sessions, and resume by running the agent again from its entry point over recorded answers.
- **Three CBOR codecs** (C, Rust, Go) that meet on the same bytes: the strict record readers, the lax readers and skippers,
  the deterministic-CBOR validator of the agent, and the host's encoder and decoder.
- **The `twep.sig` section** of a Wasm module: the Go signer, the host library's parser and the TA's stricter parser.
- **The agent's bump allocator** and its test whether a binary32 number is also a binary16 number.

CBOR references are to RFC 8949, Wasm references to the WebAssembly Core Specification (sections 5.2.2 and 5.5.3), float
formats to IEEE 754.

## How it is laid out

| files | contents |
|---|---|
| `Bytes`, `CborHead` | bytes, big-endian numbers, byte orders, CBOR heads |
| `StrictCbor`, `AcceptanceRecord`, `AcceptanceUpdate`, `CatalogRecord`, `AppRecord` | the stored records and their codecs |
| `Tee`, `AcceptanceStore`, `CatalogStore`, `AppStore`, `ProtectedState` | storage with faults, the three commits, whole runs |
| `LoadAnswers`, `CommitAnswers` | exactly what loading and committing answer |
| `Atomicity` | what is active after a run, and what a plain acceptance does to it |
| `SecureStorage` | the same operations as a class over mutable objects |
| `Scenarios` | concrete runs that show the excluded cases to occur |
| `HostIoResult`, `HostIoCursor` | the host's answer and the two parsers that read it |
| `Continuation`, `Quota`, `Protocol`, `Replay` | the protocol as a state machine and its theorems |
| `Transcripts`, `HostcallAnswers`, `Endings`, `Isolation` | what a transcript holds, what host calls answer, how requests end, that sessions do not meet |
| `SessionStorage` | the storage theorems over every run of the sessions |
| `Runtime` | the protocol as a class over mutable sessions and counters |
| `CborItem`, `SkipForms`, `CborCursor` | CBOR values, their encoding, the three skippers and what they get over |
| `CatalogValidator`, `CatalogCursor`, `CatalogSanitizer`, `FloatWidth` | the agent's validator, its in-place rewriting, floats |
| `Determinism` | equal data has one accepted form |
| `GoCodec`, `GoCursor`, `LaxDecode`, `LaxForms`, `GoInterop` | the host codec and what the devices make of it |
| `HostResponse`, `ErrorResponse` | the two responses of the runtime and the host's own |
| `WasmModule`, `WasmSignature`, `SignatureParsing`, `WasmCursor` | LEB128, sections, signing, and what the two parsers accept |
| `Arithmetic`, `Allocator` | multiples; the allocator under any interleaving |

A reader is a function from the unread bytes to a value and the bytes still unread. Where the source moves an offset or
fills a buffer, a method does the same with loops and is proved equal to that function; the theorems are about the
functions. Storage operations take the fault that strikes them as an argument: `CreateFails`, `CutAfterCreate`,
`WriteFails`, `CutAfterClose` and `ReopenFails` are the points at which the source's writes can stop. SHA-256, UTF-8
checking, the agent's own behaviour and the answers to its local calls are function parameters.

The whole-run theorems name what they assume of a run:

- `Survives`: no power cut falls between creating and writing the very first acceptance slot. `LoadsIffSurvives` shows that
  this is exactly when the state loads, and `FirstCommitCut` that the cut can happen.
- `CatalogFresh` and `AppFresh`: the run starts with no catalog object, or no application object; any id may have been
  accepted before, and objects of the other kind may be there.
- `CatalogSeparated` and `AppSeparated`: no plain acceptance names the catalog's id, or an application id. These can be
  checked before the run. The exact conditions are in `CatalogAtomicityIff` and `AppAtomicityIff`: the active record is
  the last published one throughout the run if and only if no acceptance disturbs it, by naming a published id or a staged
  record. `UnpublishedCatalogEmerges`, `AcceptanceHidesCatalog`, `UnpublishedAppEmerges` and `NeverPublishedBecomesActive`
  are runs in which one does.
- `StartsSpare`: the same of sessions; no agent of a request that is started ever asks for such an acceptance.
- `Tame`: along the path the run really takes, the agent makes no commit call, no call beyond the host-call limits comes up
  while an answer of its kind is next, every answer fits the buffer offered for it, and told to suspend at the call it waits
  at, the agent ends. `OversizedCallsDiverge` shows what happens otherwise.

## Model

| member | source | states |
|---|---|---|
| `StrictCbor.ReadUintIff` | optee/twep-wr-ta/ta/acceptance_state.c:81-120 | A number is read exactly when the bytes begin with its shortest head, and the rest is what follows it |
| `StrictCbor.ReadBytesIff` | optee/twep-wr-ta/ta/acceptance_state.c:122-134 | A string is read exactly when the bytes begin with its shortest head and its contents |
| `StrictCbor.ReadExpectedTextIff` | optee/twep-wr-ta/ta/acceptance_state.c:136-145 | A key is recognised exactly when the bytes begin with the encoding of that text |
| `StrictCbor.ReadUintAt` | optee/twep-wr-ta/ta/acceptance_state.c:81-120 | The cursor loop reads what the specification reads and refuses every longer form |
| `StrictCbor.ReadBytesAt` | optee/twep-wr-ta/ta/acceptance_state.c:122-134 | The cursor form of the string reader, with its bounds check |
| `StrictCbor.ReadExpectedTextAt` | optee/twep-wr-ta/ta/acceptance_state.c:136-145 | The cursor form of the key reader |
| `StrictCbor.WriteTypeLen` | optee/twep-wr-ta/ta/acceptance_state.c:359-373 | Appends the shortest head, argument bytes most significant first |
| `AcceptanceRecord.ParseComponentsIff` | optee/twep-wr-ta/ta/acceptance_state.c:157-183 | A component map is read exactly from the encoding of at most 32 components with strictly increasing ids |
| `AcceptanceRecord.ParseSlotIff` | optee/twep-wr-ta/ta/acceptance_state.c:185-211 | A slot is valid with a given record exactly when the record is well formed and the bytes are its one encoding |
| `AcceptanceRecord.ParseComponentsAt` | optee/twep-wr-ta/ta/acceptance_state.c:157-183 | The loop over ids and sequences computes the specified list or refuses |
| `AcceptanceRecord.ParseSlotBytes` | optee/twep-wr-ta/ta/acceptance_state.c:185-211 | The whole slot parser computes valid, unsupported or malformed as specified |
| `AcceptanceUpdate.UpsertMap` | optee/twep-wr-ta/ta/acceptance_state.c:391-476 | The updated component list is the old map with one key inserted or replaced |
| `AcceptanceUpdate.UpsertOrdered` | optee/twep-wr-ta/ta/acceptance_state.c:391-476 | The update keeps ids strictly increasing |
| `AcceptanceUpdate.UpdateRoundTrip` | optee/twep-wr-ta/ta/acceptance_state.c:391-476 | Whenever the update succeeds its bytes parse to generation+1, the given digest and the updated map, within 32 components and 4096 bytes |
| `AcceptanceUpdate.FindInsertion` | optee/twep-wr-ta/ta/acceptance_state.c:409-425 | The search stops at the equal id, or at the first greater one |
| `AcceptanceUpdate.ComponentsSize` | optee/twep-wr-ta/ta/acceptance_state.c:437-443 | The size loop counts exactly the bytes of the updated components |
| `AcceptanceUpdate.WriteComponents` | optee/twep-wr-ta/ta/acceptance_state.c:454-471 | The write loop emits the updated components in order |
| `AcceptanceUpdate.EncodeUpdatedRecord` | optee/twep-wr-ta/ta/acceptance_state.c:391-476 | The whole update computes its specification, and the bad-state branch is never taken |
| `AcceptanceStore.LoadedIsSorted` | optee/twep-wr-ta/ta/acceptance_state.c:263-313 | Whatever loads, from a slot or the legacy object, has sorted components within the limit |
| `AcceptanceStore.PreparedReadsBack` | optee/twep-wr-ta/ta/acceptance_state.c:554-600 | What a commit is about to write parses back as the committed state, and raises the component's sequence |
| `AcceptanceStore.LoadFrame` | optee/twep-wr-ta/ta/acceptance_state.c:263-313 | Only the two slots and the legacy object decide what is current |
| `AcceptanceStore.CrashConsistency` | optee/twep-wr-ta/ta/acceptance_state.c:478-600 | Under every fault the loaded state is exactly the old or exactly the new one, except for a cut between creating and writing the first slot, which is corrupt |
| `LoadAnswers.ViewIff` | optee/twep-wr-ta/ta/acceptance_state.c:185-254 | A slot counts exactly when it holds the one encoding of a well-formed record, is newer exactly when it holds that of another schema version, and is absent exactly when there is no object |
| `LoadAnswers.LegacyIff` | optee/twep-wr-ta/ta/acceptance_state.c:213-225 | Without slots the state is that of the legacy object exactly when it is the encoding of a sorted list, empty without one, and corrupt otherwise |
| `LoadAnswers.LoadCurrentIff` | optee/twep-wr-ta/ta/acceptance_state.c:263-313 | The slot in force is exactly the good one with the highest generation; another schema is not supported, two different records of one generation are a security error, and slots of which none is good are corrupt |
| `LoadAnswers.ComponentSequenceIff` | optee/twep-wr-ta/ta/acceptance_state.c:528-552 | The generation and accepted sequence of a component, or not found, or the error of the load |
| `CommitAnswers.CommitAnswerIff` | optee/twep-wr-ta/ta/acceptance_state.c:554-600 | A commit succeeds exactly when it is well posed, expects the loaded generation, brings an unconsumed digest and a higher sequence, and fits; it returns the generation that loads afterwards, and refused it leaves storage alone |
| `CommitAnswers.ConsumedIsRefused` | optee/twep-wr-ta/ta/acceptance_state.c:578-580 | A response whose digest was the last consumed is refused as a conflict and nothing changes |
| `CommitAnswers.CommitRefusals` | optee/twep-wr-ta/ta/acceptance_state.c:554-600 | Which error each refusal has: parameters, the load, another generation, overflow, a consumed digest or a sequence that does not rise, excess data |
| `CommitAnswers.NoResponseTwiceInARow` | optee/twep-wr-ta/ta/acceptance_state.c:554-600 | In any run two commands that take effect, with none between them that does, consume different responses |
| `CatalogRecord.ParseCatalogIff` | optee/twep-wr-ta/ta/acceptance_state.c:619-665 | A catalog record is valid exactly when its bytes are the one encoding of a well-formed record with a matching hash |
| `CatalogRecord.CatalogFits` | optee/twep-wr-ta/ta/acceptance_state.c:777-814 | Every well-formed record fits the record limit |
| `CatalogRecord.ParseCatalogBytes` | optee/twep-wr-ta/ta/acceptance_state.c:619-665 | The cursor form computes the specified verdict |
| `CatalogRecord.EncodeCatalogBytes` | optee/twep-wr-ta/ta/acceptance_state.c:777-814 | The writer fills exactly the size it computed and never fails on a well-formed record |
| `CatalogStore.ActiveCatalogIsPublished` | optee/twep-wr-ta/ta/acceptance_state.c:719-775 | Under the invariant the active catalog is the published one or none |
| `CatalogStore.StagingIsInvisible` | optee/twep-wr-ta/ta/acceptance_state.c:816-850 | Staging, cut anywhere, leaves the published catalog as it was |
| `CatalogStore.PublishingCatalog` | optee/twep-wr-ta/ta/acceptance_state.c:852-949 | Publishing the acceptance slot makes exactly the staged catalog the published one |
| `LoadAnswers.ViewCatalogIff` | optee/twep-wr-ta/ta/acceptance_state.c:619-705 | A slot holds a catalog exactly when it holds the one encoding of a well-formed record under the hash |
| `LoadAnswers.ActiveCatalogIff` | optee/twep-wr-ta/ta/acceptance_state.c:719-775 | Which slot is active, exactly: the one with the accepted sequence and the higher generation; and exactly when the answer is not supported, not found, corrupt or a security error |
| `CommitAnswers.CatalogAnswerIff` | optee/twep-wr-ta/ta/acceptance_state.c:852-949 | A catalog commit touches storage only if the payload has the claimed hash and the accepted catalog is older and loads; it succeeds exactly when its acceptance is admitted too, and returns the generation that loads |
| `CommitAnswers.CommittedCatalogLoads` | optee/twep-wr-ta/ta/acceptance_state.c:719-949 | After a catalog commit that succeeded, the active catalog is the committed one, staged for the generation returned |
| `CommitAnswers.FaultAnswers` | optee/twep-wr-ta/ta/acceptance_state.c:478-513 | A staging write that fails is reported as what it was, and the state still loads as before |
| `CommitAnswers.CatalogRefusals` | optee/twep-wr-ta/ta/acceptance_state.c:852-949 | Which error each refusal of a catalog has; a payload with another hash is a security error |
| `AppRecord.IsAppIdIff` | optee/twep-wr-ta/ta/protected_app.c:86-114 | The byte test accepts exactly the canonical encodings of application ids with a non-empty command without NUL of at most 255 bytes |
| `AppRecord.ComponentIdIsValid` | optee/twep-wr-ta/ta/protected_app.c:86-114 | The scan computes that test |
| `AppRecord.AppRoundTrip` | optee/twep-wr-ta/ta/protected_app.c:123-153 | A well-formed application record parses back from its encoding |
| `AppRecord.BuildRecord` | optee/twep-wr-ta/ta/protected_app.c:319-334 | The zeroed buffer, filled field by field, ends up holding exactly the record's encoding |
| `AppStore.ActiveAppIsPublished` | optee/twep-wr-ta/ta/protected_app.c:200-250 | Under the invariant the active application is the last published one; an unpublished staged record is never chosen |
| `AppStore.AppStagingIsInvisible` | optee/twep-wr-ta/ta/protected_app.c:252-271 | Staging an application, cut anywhere, keeps the invariant |
| `AppStore.PublishingApp` | optee/twep-wr-ta/ta/protected_app.c:273-353 | Publishing makes exactly the staged application the published one, although both slots are shared by all ids |
| `LoadAnswers.ParseAppIff` | optee/twep-wr-ta/ta/protected_app.c:123-153 | Bytes parse to an application record exactly when they are its encoding, the four reserved bytes aside |
| `LoadAnswers.ParseAppRefusals` | optee/twep-wr-ta/ta/protected_app.c:123-153 | Bytes are refused as insecure exactly when their header fits but the id or the hash is wrong, and as badly formed exactly when it does not |
| `LoadAnswers.ViewAppIff` | optee/twep-wr-ta/ta/protected_app.c:155-191 | A slot holds an application exactly when its object parses to one; an unusable slot shows the generation in its header, if it has one |
| `LoadAnswers.ActiveAppIff` | optee/twep-wr-ta/ta/protected_app.c:200-250 | Which slot is active, exactly: the eligible one with the higher generation, unless both show one generation and differ; and exactly when the answer is not found, corrupt or a security error |
| `CommitAnswers.AppAnswerIff` | optee/twep-wr-ta/ta/protected_app.c:273-353 | An application commit touches storage only if the module has the claimed hash and a higher sequence; it succeeds exactly when its acceptance is admitted too, and returns the generation that loads |
| `CommitAnswers.CommittedAppLoads` | optee/twep-wr-ta/ta/protected_app.c:200-353 | After an application commit that succeeded, the active application is the committed one, at the generation returned |
| `CommitAnswers.AppRefusals` | optee/twep-wr-ta/ta/protected_app.c:273-353 | Which error each refusal of an application has |
| `ProtectedState.StepConsistency` | optee/twep-wr-ta/ta/acceptance_state.c:554-600 | Every command of every kind leaves the loaded state as it was or exactly one commit further |
| `ProtectedState.MonotoneHistory` | optee/twep-wr-ta/ta/acceptance_state.c:391-600 | Over every run the generation rises by one per effective command and by nothing else, and no sequence falls |
| `ProtectedState.CompareAndCommit` | optee/twep-wr-ta/ta/acceptance_state.c:554-600 | Of two effective commands the later one expected a strictly higher generation, so at most one per expected generation takes effect |
| `Atomicity.CatalogStep` | optee/twep-wr-ta/ta/acceptance_state.c:719-949 | Any one command keeps the slots consistent with the catalog last published, unless it is an acceptance that disturbs it, and then the published catalog is no longer what is active |
| `Atomicity.AppStep` | optee/twep-wr-ta/ta/protected_app.c:200-353 | Any one command keeps the slots consistent with the application last published, unless it is an acceptance that disturbs it, and then the published application is no longer what is active |
| `Atomicity.CatalogAtomicityIff` | optee/twep-wr-ta/ta/acceptance_state.c:719-949 | From a store without catalog objects, the active catalog is the one last published after every command of a run exactly when no plain acceptance on the way disturbs it |
| `Atomicity.AppAtomicityIff` | optee/twep-wr-ta/ta/protected_app.c:200-353 | From a store without application objects, the active application is the one last published after every command of a run exactly when no plain acceptance on the way disturbs it |
| `Atomicity.CatalogAtomicity` | optee/twep-wr-ta/ta/acceptance_state.c:719-949 | If no plain acceptance names the catalog id, the active catalog after any run is that of the last catalog commit at which the generation rose, or not found; security and corrupt never occur |
| `Atomicity.AppAtomicity` | optee/twep-wr-ta/ta/protected_app.c:200-353 | If no plain acceptance names an application id, the active application after any run is the last published record; before the first publication there is none |
| `Atomicity.PlainKeepsCatalogIff` | optee/twep-wr-ta/ta/acceptance_state.c:719-775 | An acceptance that takes effect leaves the published catalog active exactly when it is for another id |
| `Atomicity.PlainShowsCatalogIff` | optee/twep-wr-ta/ta/acceptance_state.c:719-775 | With no catalog published, an acceptance that takes effect makes one active exactly when it is for the catalog id and the first slot holds a record of that sequence, which is then the active one |
| `Atomicity.PlainKeepsAppIff` | optee/twep-wr-ta/ta/protected_app.c:200-250 | An acceptance that takes effect leaves the published application active exactly when it is for another id and no slot holds a newer staged record with the accepted id and sequence |
| `Atomicity.PlainShowsAppIff` | optee/twep-wr-ta/ta/protected_app.c:200-250 | With no application published, an acceptance that takes effect makes one active exactly when the first slot holds a staged record with that id and sequence, within the new generation, which is then the active one |
| `ProtectedState.LoadsIffSurvives` | optee/twep-wr-ta/ta/acceptance_state.c:263-313 | The state after a run loads exactly when the run was not cut in the middle of the first publication; otherwise it is corrupt and stays so |
| `Atomicity.CutRunShowsNothing` | optee/twep-wr-ta/ta/acceptance_state.c:719-775 | After such a cut no catalog and no application is active |
| `Scenarios.FirstCommitCut` | optee/twep-wr-ta/ta/acceptance_state.c:478-513 | A concrete first commit on a new device, cut there, leaves a state that does not load |
| `Scenarios.StagedSurfaces` | optee/twep-wr-ta/ta/protected_app.c:200-250 | From any consistent state with a published application, a plain acceptance of a staged one's id and sequence makes the staged one active |
| `Scenarios.NeverPublishedBecomesActive` | optee/twep-wr-ta/ta/protected_app.c:200-250 | A concrete run from a new device at whose end a never published application is the active one |
| `Scenarios.UnpublishedAppEmerges` | optee/twep-wr-ta/ta/protected_app.c:200-250 | On a new device, an application whose publication failed becomes active by a plain acceptance of its id and sequence |
| `Scenarios.UnpublishedCatalogEmerges` | optee/twep-wr-ta/ta/acceptance_state.c:719-775 | On a new device, a catalog whose publication failed becomes active by a plain acceptance of its id and sequence |
| `Scenarios.AcceptanceHidesCatalog` | optee/twep-wr-ta/ta/acceptance_state.c:719-775 | A concrete published catalog stops being active after a plain acceptance of its id with a higher sequence |
| `SecureStorage.Storage.WriteSlot` | optee/twep-wr-ta/ta/acceptance_state.c:478-513 | The object written is absent, empty, old or complete as its fault says, and no other object changes |
| `SecureStorage.Storage.LoadCurrentState` | optee/twep-wr-ta/ta/acceptance_state.c:263-313 | The slot comparison computes the specified current state |
| `SecureStorage.Storage.FindComponentSequence` | optee/twep-wr-ta/ta/acceptance_state.c:528-552 | The lookup finds the accepted sequence of an id, or that there is none |
| `SecureStorage.Storage.AcceptanceCommit` | optee/twep-wr-ta/ta/acceptance_state.c:554-600 | Storage and result after the commit are those of the specification |
| `SecureStorage.Storage.LoadActiveCatalogState` | optee/twep-wr-ta/ta/acceptance_state.c:719-775 | The slot selection computes the specified active catalog |
| `SecureStorage.Storage.CheckCatalogCommit` | optee/twep-wr-ta/ta/acceptance_state.c:873-905 | The checks before staging yield the specified error or target slot |
| `SecureStorage.Storage.CatalogCommit` | optee/twep-wr-ta/ta/acceptance_state.c:852-949 | Storage and result after staging, read-back and publication are those of the specification |
| `SecureStorage.Storage.LoadActiveAppState` | optee/twep-wr-ta/ta/protected_app.c:200-250 | The selection loop over both slots computes the specified active application |
| `SecureStorage.Storage.CheckAppCommit` | optee/twep-wr-ta/ta/protected_app.c:290-318 | The checks before staging yield the specified error or target slot |
| `SecureStorage.Storage.AppCommit` | optee/twep-wr-ta/ta/protected_app.c:273-353 | Storage and result after staging, read-back and publication are those of the specification |
| `HostIoResult.ResultOkIff` | optee/twep-wr-ta/ta/ta_host_io_continuation.c:244-327 | An answer is accepted exactly when it is one complete map, every known key is well typed, and the last io_id, kind, status, sequence and both digests are those pending |
| `HostIoResult.ParsePayloadIff` | optee/twep-wr-ta/ta/ta_host_io_continuation.c:460-513 | An answer yields a payload exactly when it is one complete, well-typed map whose last kind is a known one; the payload is the last value of that kind's field, and anything else is badly formed |
| `HostIoResult.ReplayKindIsPendingKind` | optee/twep-wr-ta/ta/ta_host_io_continuation.c:460-513 | The kind the second parser records from an accepted answer is the pending kind |
| `HostIoCursor.HostIoResultOk` | optee/twep-wr-ta/ta/ta_host_io_continuation.c:244-327 | The flag loop computes that acceptance |
| `HostIoCursor.ParseHostIoResultPayload` | optee/twep-wr-ta/ta/ta_host_io_continuation.c:460-513 | The payload loop computes the recorded kind and payload |
| `Quota.ClearKeeps` | optee/twep-wr-ta/ta/ta_host_io_continuation.c:5-31 | Clearing subtracts exactly what the session held, so neither underflow branch is taken |
| `Quota.AggregateNeverDecides` | optee/twep-wr-ta/ta/ta_host_io_continuation.c:33-108 | The 64 KiB aggregate check never refuses what the other two limits admit |
| `Quota.SaveGood` | optee/twep-wr-ta/ta/ta_host_io_continuation.c:33-108 | Saving a transcript keeps count, total and log in agreement |
| `Quota.AttemptGood` | optee/twep-wr-ta/ta/ta_teep_hostcalls.c:748-998 | A commit attempt uses up the transcript saved last, under its hash |
| `Quota.EveryRunGood` | optee/twep-wr-ta/ta/ta_production_runtime.c:431-473 | Every state reachable by any interleaving of open, execute, resume and close satisfies the quota and single-use invariants |
| `Protocol.TranscriptQuota` | optee/twep-wr-ta/ta/ta_host_io_continuation.c:5-108 | At every command boundary the shared count is the number of holders, at most 2, and the shared total is the sum of their bodies, each at most 32 KiB |
| `Protocol.TranscriptsAreSingleUse` | optee/twep-wr-ta/ta/ta_teep_hostcalls.c:748-998 | In no run do a session's storage commits outnumber its saved transcripts, and each used the latest one |
| `Protocol.StorageNeedsTranscript` | optee/twep-wr-ta/ta/ta_teep_hostcalls.c:748-998 | A commit call changes storage only under a pending transcript whose body hash it names, which it uses up |
| `Protocol.StorageIsAccounted` | optee/twep-wr-ta/ta/ta_production_runtime.c:462-473 | No command changes protected storage except by logged attempts of its own session |
| `Protocol.CommitIsFrozen` | optee/twep-wr-ta/ta/ta_teep_hostcalls.c:748-998 | With a commit recorded in the live request, every commit call keeps the record; a plain acceptance leaves the component slots alone, any other call all of storage |
| `Protocol.ExecIsFrozen` | optee/twep-wr-ta/ta/ta_teep_runtime.c:46-312 | The same of the rest of a run of any agent, from any point of it |
| `Protocol.RecordedCommitIsFinal` | optee/twep-wr-ta/ta/ta_teep_runtime.c:314-490 | For every agent, a further resume of such a request leaves every catalog and application slot alone and ends the request or keeps the record |
| `Protocol.RecordedCommitStaysFinal` | optee/twep-wr-ta/ta/ta_teep_runtime.c:314-490 | The same over any number of resumes |
| `Protocol.MismatchedResumeIsInert` | optee/twep-wr-ta/ta/ta_host_io_continuation.c:516-548 | A resume that differs in request id or in any checked field of the answer fails and changes no session, counter or object |
| `Transcripts.SavedTranscript` | optee/twep-wr-ta/ta/ta_host_io_continuation.c:33-108 | A request is saved exactly when the quota has room, its names fit and memory suffices, and then with its own names and kind, the hash of its input, and its body with the hash of that body |
| `Transcripts.SuspendAnswers` | optee/twep-wr-ta/ta/ta_host_io_continuation.c:118-170 | A suspension succeeds exactly when its request is saved and the response fits; otherwise no transcript is held and the quota is what it was without one |
| `Transcripts.SuspendedCall` | optee/twep-wr-ta/ta/ta_teep_runtime.c:46-312 | A run that suspends leaves the transcript of the very call it suspended at |
| `Transcripts.TranscriptsAreGenuine` | optee/twep-wr-ta/ta/ta_host_io_continuation.c:33-108 | In every state any run reaches, every transcript held names the hash of the body it holds |
| `Transcripts.StorageNeedsSentBody` | optee/twep-wr-ta/ta/ta_teep_hostcalls.c:748-998 | A commit call changes storage only in a session that sent a body whose hash is the digest the commit consumes, and uses that transcript up |
| `HostcallAnswers.RefusedCalls` | optee/twep-wr-ta/ta/ta_teep_hostcalls.c:748-998 | Bad arguments answer 1 and an unverified request 8 before storage is looked at; only an application call keeps the transcript |
| `HostcallAnswers.GateAnswers` | optee/twep-wr-ta/ta/ta_teep_hostcalls.c:748-998 | Without a transcript the answer is 9 and nothing happens, under another digest 9 and the transcript is gone; under its own the call reaches storage and answers 0 exactly if that succeeds and is noted |
| `HostcallAnswers.SuccessIsRecorded` | optee/twep-wr-ta/ta/ta_teep_hostcalls.c:748-998 | A first call that answers 0 returns the generation that loads, its sequence is the accepted one, and the live request records exactly this call |
| `HostcallAnswers.ReplayAnswerIff` | optee/twep-wr-ta/ta/ta_teep_hostcalls.c:819-857 | With a commit recorded, a call answers 0 with the recorded generation exactly when it repeats that commit field by field, payload hash included, and its sequence is still accepted; otherwise 9; nothing changes |
| `HostcallAnswers.RepeatedCallRepeatsAnswer` | optee/twep-wr-ta/ta/ta_teep_hostcalls.c:819-857 | A commit that answered 0, made again, answers 0 with the same generation and leaves everything alone |
| `HostcallAnswers.CommitIsIdempotent` | optee/twep-wr-ta/ta/ta_teep_hostcalls.c:819-857 | A run about to make such a commit is the same run, to its end, from before the commit as from after it |
| `HostcallAnswers.AgentSeesTheAnswer` | optee/twep-wr-ta/ta/ta_teep_hostcalls.c:748-998 | An agent that reports the answer of one commit call reports what the call answered |
| `HostcallAnswers.IoAnswerIff` | optee/twep-wr-ta/ta/ta_teep_hostcalls.c:470-590 | A host I/O call is handed the next recorded answer exactly when that is of its kind and fits; with none next it suspends exactly within its limits |
| `HostcallAnswers.RetryIsAnswered` | optee/twep-wr-ta/ta/ta_teep_hostcalls.c:470-590 | A call told that its buffer is too small gets the answer when made again with the room it was told of |
| `HostcallAnswers.StatusMeaning` | optee/twep-wr-ta/ta/ta_teep_hostcalls.c:673-695 | Each number an agent sees stands for exactly these errors |
| `HostcallAnswers.ConflictAnswersNine` | optee/twep-wr-ta/ta/ta_teep_hostcalls.c:748-998 | Under its own transcript, a call that expects another generation, does not raise its component or accepts a consumed response answers 9 and leaves storage alone |
| `SessionStorage.SessionsLead` | optee/twep-wr-ta/ta/ta_production_runtime.c:462-473 | Whatever the sessions do, protected storage is where the commands they really stored lead, in that order and without a power cut |
| `SessionStorage.SessionsAreMonotone` | optee/twep-wr-ta/ta/acceptance_state.c:391-600 | Over every interleaving of sessions the state keeps loading, the generation rises by exactly one per stored command that takes effect, and no sequence falls |
| `SessionStorage.SessionsSpare` | optee/twep-wr-ta/ta/ta_production_runtime.c:462-473 | If no agent of a started request ever asks for an acceptance of a barred id, no acceptance stored in the run names one, through any suspensions and resumes |
| `SessionStorage.SessionsCatalogAtomicity` | optee/twep-wr-ta/ta/acceptance_state.c:719-949 | Over every interleaving of sessions whose agents make no plain acceptance of the catalog id, the active catalog is the one last published by any of them, or not found |
| `SessionStorage.SessionsAppAtomicity` | optee/twep-wr-ta/ta/protected_app.c:200-353 | Over every interleaving of sessions whose agents make no plain acceptance of an application id, the active application is the one last published by any of them, or there is none |
| `SessionStorage.SessionsAtomicityIff` | optee/twep-wr-ta/ta/acceptance_state.c:719-949 | For any agents, what the sessions show is the last published throughout exactly as long as no stored acceptance disturbs it |
| `Replay.RerunIsDirect` | optee/twep-wr-ta/ta/ta_teep_hostcalls.c:470-600 | A rerun over the recorded history that is tame along its own path gets exactly as far as the uninterrupted run, and changes nothing |
| `Replay.ReplayRefinesDirect` | optee/twep-wr-ta/ta/ta_teep_runtime.c:314-490 | A start and up to eight resumes reach the same next host call or output as one uninterrupted run given the same answers |
| `Replay.HistoryGrows` | optee/twep-wr-ta/ta/ta_host_io_continuation.c:437-458 | For any agent, after a start and any number of awaited resumes the live request holds exactly their answers, in order |
| `Replay.NinthResumeFails` | optee/twep-wr-ta/ta/ta_host_io_continuation.c:437-458 | For any agent, a ninth awaited resume fails and clears everything the session had pending |
| `Replay.OversizedCallsDiverge` | optee/twep-wr-ta/ta/ta_teep_hostcalls.c:470-531 | An agent whose refused call comes up while an answer of its kind is next ends differently in the rerun and in the uninterrupted run |
| `Endings.AwaitedResumeEnds` | optee/twep-wr-ta/ta/ta_teep_runtime.c:314-490 | Whatever the agent does, an awaited resume asks for host I/O again with the answer recorded, or leaves the session without transcript and request |
| `Endings.ResolveOutcome` | optee/twep-wr-ta/ta/ta_teep_runtime.c:46-312 | A run ends in its output exactly if it succeeded and that fits, in the call it waits at exactly if it did not succeed and the transcript could be saved, and fails otherwise |
| `Endings.OutputAsksIff` | optee/twep-wr-ta/ta/ta_app_runtime.c:395-419 | An output of the agent's own asks for host I/O exactly when it is one complete map with that key |
| `Endings.StartOutcome` | optee/twep-wr-ta/ta/ta_production_runtime.c:192-271 | A start ends as its run does, but a request for host I/O needs names that fit, a copy of the request and an output buffer |
| `Endings.ResumeOutcome` | optee/twep-wr-ta/ta/ta_teep_runtime.c:314-490 | An awaited resume ends as the run over one more answer does, if that answer is readable, one of at most eight, and copied |
| `Endings.OtherResumesAreInert` | optee/twep-wr-ta/ta/ta_teep_runtime.c:314-377 | A resume that is not awaited, or has no workspace, changes nothing |
| `Endings.StartEnds` | optee/twep-wr-ta/ta/ta_production_runtime.c:192-271 | A start that fails clears the session; one that asks for host I/O leaves the request with no answers and no commit |
| `Endings.EndedRequestIsOver` | optee/twep-wr-ta/ta/ta_teep_runtime.c:314-490 | Once a resumed request has produced output or failed, no further resume is awaited and any that is tried changes nothing |
| `Isolation.CommandsAreLocal` | optee/twep-wr-ta/ta/ta_production_runtime.c:445-473 | A command leaves every other session as it was; opening adds an empty session, closing leaves a closed one, and a command to a session that is not open does nothing |
| `Isolation.RunsAreLocal` | optee/twep-wr-ta/ta/ta_production_runtime.c:462-473 | Over any run, a session no command names is as it was |
| `Isolation.CommandsDriveTheRequest` | optee/twep-wr-ta/ta/ta_production_runtime.c:462-473 | A start command and one continue command per answer take a request exactly the way of its start and resumes |
| `Isolation.ClosingAndProbing` | optee/twep-wr-ta/ta/ta_production_runtime.c:445-460 | Closing gives back exactly the session's share of the quota and leaves storage alone |
| `Runtime.Runtime.OpenSession` | optee/twep-wr-ta/ta/ta_production_runtime.c:431-443 | A new empty session is appended |
| `Runtime.Runtime.PendingHostIoClear` | optee/twep-wr-ta/ta/ta_host_io_continuation.c:5-31 | Session and counters change as specified, by exactly what the session held: neither underflow guard fails |
| `Runtime.Runtime.SavePendingHostIoRequest` | optee/twep-wr-ta/ta/ta_host_io_continuation.c:33-108 | The quota tests, the copy and the counters are those of the specification |
| `Runtime.Runtime.BuildNeedHostIo` | optee/twep-wr-ta/ta/ta_host_io_continuation.c:118-170 | Saving and then failing to fit the response clears the transcript again |
| `Runtime.Runtime.LiveAbort` | optee/twep-wr-ta/ta/ta_teep_hostcalls.c:48-53 | Pending transcript and live request are cleared, the counters exactly adjusted |
| `Runtime.Runtime.CloseSession` | optee/twep-wr-ta/ta/ta_production_runtime.c:445-460 | Closing clears the session before it is forgotten |
| `Runtime.Runtime.GatedCommit` | optee/twep-wr-ta/ta/ta_teep_hostcalls.c:748-998 | The transcript gate, the commit, the record and the use of the transcript are those of the specification |
| `Runtime.Runtime.ReplayedCommit` | optee/twep-wr-ta/ta/ta_teep_hostcalls.c:819-858 | The replay branch compares every argument and the accepted sequence |
| `Runtime.Runtime.HostCommit` | optee/twep-wr-ta/ta/ta_teep_hostcalls.c:748-998 | The three commit host calls yield the specified status, generation and state |
| `Runtime.Runtime.RunAgent` | optee/twep-wr-ta/ta/ta_teep_runtime.c:46-312 | One run of the agent yields the specified state and end |
| `Runtime.Runtime.ResolveAgent` | optee/twep-wr-ta/ta/ta_teep_runtime.c:46-312 | A run that asked for host I/O without succeeding suspends |
| `Runtime.Runtime.ExecuteRequest` | optee/twep-wr-ta/ta/ta_production_runtime.c:192-271 | An execute command yields the specified outcome and saves or aborts the live request, or returns untouched when its workspace cannot be allocated |
| `Runtime.Runtime.ResumeRequest` | optee/twep-wr-ta/ta/ta_teep_runtime.c:314-490 | A resume matches, appends, reruns and cleans up as specified |
| `CborItem.SkipPassesItem` | optee/twep-wr-ta/ta/ta_runtime_cbor.c:43-93 | Each skipper passes over exactly the encoding of every value within its own limits |
| `CborItem.SkippersAgree` | lib/twep-wr/src/runtime.c:535-569 | Two skippers that both get over the same bytes stop at the same place |
| `SkipForms.SkipIff` | optee/twep-wr-ta/ta/ta_runtime_cbor.c:43-93 | A skipper gets over bytes exactly when they are a form of an item within its profile (head widths, tags, simple values, depth), and stops at the end of that form |
| `CborItem.Skip` | wasm/teep-agent/src/cbor.rs:58-91 | Every successful skip consumes at least one byte |
| `CborCursor.ReadHeadAt` | lib/twep-wr/src/runtime.c:459-496 | The byte-by-byte head reader reads heads of up to four argument bytes and refuses the rest |
| `CborCursor.ReadLenAt` | optee/twep-wr-ta/ta/ta_runtime_cbor.c:5-41 | The loop reader reads heads of every width of the wanted major type |
| `CborCursor.SkipValueAt` | lib/twep-wr/src/runtime.c:535-569 | The recursive skipper terminates and stops where specified |
| `CborCursor.SkipAgentAt` | wasm/teep-agent/src/cbor.rs:58-91 | The agent's skipper terminates and stops where specified, tags included |
| `CborCursor.SkipItemAt` | optee/twep-wr-ta/ta/ta_runtime_cbor.c:43-93 | The TA's skipper terminates and stops where specified, to depth 8 |
| `CatalogValidator.ParseItemSound` | wasm/teep-agent/src/catalog_validator.rs:199-246 | Accepted bytes are the encoding of a well-formed value within the nesting limit |
| `CatalogValidator.ParseItemComplete` | wasm/teep-agent/src/catalog_validator.rs:199-246 | The encoding of every such value is accepted and read back as that value |
| `CatalogValidator.CanonicalIff` | wasm/teep-agent/src/catalog_validator.rs:194-246 | An input is accepted exactly when it is the encoding of some admissible value nested at most 16 levels |
| `CatalogValidator.EncodingIsPrefixFree` | wasm/teep-agent/src/catalog_validator.rs:194-246 | Bytes that begin with two accepted encodings begin with one: same item, same rest |
| `Determinism.EntriesAreUnique` | wasm/teep-agent/src/catalog_validator.rs:225-242 | Two entry lists in key order that stand for the same unordered map are the same list |
| `Determinism.DataIsUnique` | wasm/teep-agent/src/catalog_validator.rs:199-246 | Two well-formed items that stand for the same data, maps unordered and short floats by their number, are the same item |
| `Determinism.DeterministicIsUnique` | wasm/teep-agent/src/catalog_validator.rs:194-246 | Two accepted inputs that stand for the same data are the same bytes |
| `CatalogValidator.KeysAreDistinct` | wasm/teep-agent/src/catalog_validator.rs:225-242 | The keys of an accepted map differ pairwise |
| `CatalogValidator.SingleAcceptedIff` | wasm/teep-agent/src/catalog_validator.rs:265-271 | A binary32 number is accepted exactly when no binary16 number equals it |
| `CatalogValidator.AcceptedNumbersAreUnique` | wasm/teep-agent/src/catalog_validator.rs:248-283 | Each number has at most one accepted binary16 or binary32 form |
| `CatalogCursor.CanonicalHeadAt` | wasm/teep-agent/src/catalog_validator.rs:307-354 | The head reader accepts exactly the shortest heads within usize |
| `CatalogCursor.ParseSimpleAt` | wasm/teep-agent/src/catalog_validator.rs:248-283 | The offset form of the simple and float cases |
| `CatalogCursor.ParseItemAt` | wasm/teep-agent/src/catalog_validator.rs:199-246 | The recursive offset form accepts what the specification accepts and stops at the same place |
| `CatalogCursor.ParseEntriesAt` | wasm/teep-agent/src/catalog_validator.rs:225-242 | The entry loop compares each key with the place of the one before |
| `CatalogCursor.IsCanonicalCbor` | wasm/teep-agent/src/catalog_validator.rs:194-197 | The test holds exactly for the encodings of admissible values |
| `CatalogSanitizer.ItemRewrites` | wasm/teep-agent/src/catalog_validator.rs:65-112 | On any well-formed value the rewriting yields the encoding of the value with unassigned simple values nulled |
| `CatalogSanitizer.SanitizeRefuses` | wasm/teep-agent/src/catalog_validator.rs:65-112 | The rewriting goes over complete heads only: shortest ones within usize, and of major type 7 any but the reserved |
| `CatalogSanitizer.CanonicalIsRewritten` | wasm/teep-agent/src/catalog_validator.rs:51-63 | A canonical input is rewritten to its last byte, without changing its length or any other item |
| `CatalogSanitizer.SanitizeAt` | wasm/teep-agent/src/catalog_validator.rs:65-112 | In place: the item is rewritten as specified and every byte outside it is untouched |
| `CatalogSanitizer.SanitizeManyAt` | wasm/teep-agent/src/catalog_validator.rs:96-108 | The element and entry loops, in place |
| `FloatWidth.ExactHalfIff` | wasm/teep-agent/src/catalog_validator.rs:285-305 | The bit test holds exactly when some binary16 number is the same number, subnormals, signed zeros and infinities included |
| `FloatWidth.Number16Injective` | wasm/teep-agent/src/catalog_validator.rs:258-264 | Two binary16 patterns of the same number are equal |
| `FloatWidth.Number32Injective` | wasm/teep-agent/src/catalog_validator.rs:265-271 | Two binary32 patterns of the same number are equal |
| `GoCodec.DecodeInvertsEncode` | internal/cborcodec/types.go:324-543 | Every encoded value followed by anything decodes to itself, non-negative signed integers as unsigned, leaving exactly what followed |
| `GoCodec.LastOfEqualKeysWins` | internal/cborcodec/types.go:465-482 | A map that repeats a key decodes with the later value |
| `GoCodec.NegativeOf` | internal/cborcodec/types.go:445-446 | The signed result is -1-n modulo 2^64 |
| `GoCodec.SortedUnique` | internal/cborcodec/types.go:353-363 | Only one ascending sequence has a given set of keys, so the order of collection is forgotten |
| `GoCodec.SortKeys` | internal/cborcodec/types.go:353-363 | Every key set has an ascending sequence with exactly its elements |
| `GoCursor.WriteTypeLen` | internal/cborcodec/types.go:387-411 | Appends the shortest head |
| `GoCursor.CollectKeys` | internal/cborcodec/types.go:354-357 | Whatever order the runtime picks, every key is collected once |
| `GoCursor.SortByLength` | internal/cborcodec/types.go:358-363 | The result is ordered by length, then bytewise, and a permutation of the input |
| `GoCursor.WriteValue` | internal/cborcodec/types.go:324-377 | Succeeds exactly when every nested type is known, and then appends the encoding of the value whatever the map iteration order |
| `GoCursor.ValueAt` | internal/cborcodec/types.go:430-543 | The decoder computes the specified value and offset, the last of equal keys winning |
| `GoInterop.SkipPassesGoOutput` | lib/twep-wr/src/runtime.c:535-569 | Each skipper passes over exactly the bytes of any host-written value within its head width and depth |
| `GoInterop.GoKeysAscend` | internal/cborcodec/types.go:353-372 | The host's key order is the agent's encoded-key order |
| `GoInterop.GoOutputIsCanonical` | wasm/teep-agent/src/catalog_validator.rs:194-246 | The agent accepts as canonical every host-written value whose sizes, text and nesting it can take |
| `HostResponse.LengthIsExact` | lib/twep-wr/src/response_cbor.c:22-28 | The precomputed length is the length of the response |
| `HostResponse.MakeResponse` | lib/twep-wr/src/response_cbor.c:13-76 | Refuses exactly outputs above 32-bit length; otherwise the buffer is filled to its last byte with the response |
| `HostResponse.HostReadsResponse` | internal/cborcodec/types.go:253-282 | The host recovers the request id, status ok, exit code 0, standard output and application output |
| `LaxDecode.ItemDecodes` | internal/cborcodec/types.go:430-543 | The decoder reads every item with text keys, whatever the order of its entries, the last of equal keys winning |
| `LaxForms.DecodeIff` | internal/cborcodec/types.go:430-543 | The decoder reads a value exactly when the bytes are a form, with heads of any width, of an item without tags and floats, with false, true and null as only simple values and text keys; the value is that item's |
| `LaxForms.DecodeValueIff` | internal/cborcodec/types.go:413-428 | A whole input decodes exactly when it is one such form and nothing follows |
| `ErrorResponse.ErrorLengthIsOneShort` | lib/twep-wr/src/response_cbor.c:113-160 | For every request id, status, command and module the bytes written are one more than the length computed for them |
| `ErrorResponse.MakeErrorResponse` | lib/twep-wr/src/response_cbor.c:78-165 | The writer emits the specified error response, one byte longer than the length it allocates |
| `ErrorResponse.HostReadsErrorResponse` | internal/cborcodec/types.go:253-282 | The host recovers the request id, status error, exit code 1, the code and message of the status, and its details |
| `HostResponse.ResponseRoundTrip` | internal/cborcodec/types.go:221-282 | A host response survives its own round trip exactly when its version is 1 or unset and its status is not empty |
| `HostResponse.DecodeResponseIff` | internal/cborcodec/types.go:253-282 | A response is accepted exactly when it is a map whose version is the number one and whose status is a non-empty text |
| `HostResponse.EncodeResponseIff` | internal/cborcodec/types.go:221-251 | A response can be written exactly when its result and its error details are of known types throughout |
| `HostResponse.WrittenKeys` | internal/cborcodec/types.go:221-251 | The optional keys are written exactly if the response has them |
| `WasmModule.LebRoundTrip` | internal/wasmsign/wasmsign.go:285-312 | Every 32-bit number is read back from its LEB128 form by both readers |
| `WasmModule.FindAppend` | internal/wasmsign/wasmsign.go:110-145 | After unsigned sections the scan goes on as if it had started there |
| `WasmModule.PrefixIsUnsigned` | internal/wasmsign/wasmsign.go:110-145 | What stands before a signature section scans as unsigned |
| `WasmModule.FoundIsLast` | lib/twep-wr/src/wasm_signature.c:113-147 | A signature that is found is the whole rest of the module: one section of that name with nothing after it |
| `WasmModule.StripIsIdempotent` | internal/wasmsign/wasmsign.go:110-145 | Stripping twice is stripping once |
| `WasmModule.StrictImpliesLax` | optee/twep-wr-ta/ta/ta_wasm_signature.c:118-162 | Whatever the TA's scan finds, the host library's scan finds too |
| `WasmModule.StaysMalformed` | optee/twep-wr-ta/ta/ta_wasm_signature.c:118-162 | Complete sections the strict scan refuses are refused whatever follows |
| `WasmSignature.VerifiersAgree` | lib/twep-wr/src/wasm_signature.c:77-147 | When both parsers accept a module they select the same signed prefix, the same signature and the agent's role |
| `WasmSignature.HostAcceptsIff` | lib/twep-wr/src/wasm_signature.c:77-147 | A module the TA accepts is accepted by the host library exactly when the host's skipper, which knows no eight-byte heads, gets over its whole signature payload |
| `WasmSignature.EntriesAgree` | optee/twep-wr-ta/ta/ta_wasm_signature.c:73-116 | What the TA has seen once, the host library holds, entry by entry and skip by skip |
| `WasmSignature.PayloadRoundTrip` | internal/wasmsign/wasmsign.go:188-200 | Both parsers read back what the signer put into the payload and refuse an empty kid; the TA refuses every role but the agent's |
| `WasmSignature.CutSectionIsLost` | internal/wasmsign/wasmsign.go:76-80 | A section whose size does not fit its field is found by no scan at the place where it starts |
| `WasmSignature.StripInvertsSignIff` | internal/wasmsign/wasmsign.go:47-81 | Stripping a signed module gives what stripping the module itself gives, exactly when the section's size fits 32 bits |
| `WasmSignature.ParseInvertsSignIff` | lib/twep-wr/src/wasm_signature.c:113-147 | The host library reads back the stripped module, role, kid and signature, exactly when the size fits and the kid is not empty |
| `WasmSignature.CheckInvertsSignIff` | optee/twep-wr-ta/ta/ta_wasm_signature.c:118-162 | The TA accepts a signed module, with that prefix and signature, exactly when it is signed for the agent, the size fits, the kid is not empty and its strict scan gets over the unsigned module |
| `SignatureParsing.ParsePayloadIff` | lib/twep-wr/src/wasm_signature.c:77-111 | The host library accepts exactly one complete map with text keys, each known key well typed wherever it occurs, with ESP256 as last algorithm, a non-empty last kid and a last signature of 64 bytes, and returns those last values |
| `SignatureParsing.CheckPayloadIff` | optee/twep-wr-ta/ta/ta_wasm_signature.c:73-116 | The TA accepts exactly one complete map of at most 16 pairs in which each of the four keys occurs once with an acceptable value, and returns the signature |
| `SignatureParsing.FindIff` | internal/wasmsign/wasmsign.go:110-145 | A scan finds a signature exactly when the bytes are complete sections of which the last, and no other, is one; none exactly when no section is one; everything else is malformed |
| `SignatureParsing.SignAnswerIff` | internal/wasmsign/wasmsign.go:47-145 | Stripping succeeds exactly for a header followed by well-formed sections, signing exactly for the two roles and modules that can be stripped |
| `SignatureParsing.StrictLebIff` | optee/twep-wr-ta/ta/ta_wasm_signature.c:30-51 | The strict reader refuses exactly the numbers the lax one cuts to 32 bits |
| `SignatureParsing.CutNumber` | lib/twep-wr/src/wasm_signature.c:42-63 | Five bytes that spell 2^32 read as zero for the host library and not at all for the TA |
| `SignatureParsing.NoHeaderNoModule` | lib/twep-wr/src/wasm_signature.c:113-118 | Without the magic number nothing is stripped, signed or accepted |
| `SignatureParsing.ModuleAcceptedIff` | lib/twep-wr/src/wasm_signature.c:113-147 | Either verifier accepts a module exactly when its scan finds a signature whose payload it accepts, and returns what stands before that last section |
| `WasmCursor.ReadVaruint32` | internal/wasmsign/wasmsign.go:285-301 | The shift loop yields the spelled number modulo 2^32 |
| `WasmCursor.ReadVaruint32Strict` | optee/twep-wr-ta/ta/ta_wasm_signature.c:30-51 | The test on the fifth byte refuses exactly the numbers of 2^32 and above |
| `WasmCursor.AppendVaruint32` | internal/wasmsign/wasmsign.go:303-312 | Appends the LEB128 form |
| `WasmCursor.StripSignature` | internal/wasmsign/wasmsign.go:110-145 | The scan loop computes the stripped module or refuses |
| `WasmCursor.ParseSignaturePayload` | lib/twep-wr/src/wasm_signature.c:77-111 | The host library's entry loop, a repeated key overwriting |
| `WasmCursor.ParseWasmSignature` | lib/twep-wr/src/wasm_signature.c:113-147 | The host library's section loop computes prefix and fields or refuses |
| `WasmCursor.CheckSignaturePayload` | optee/twep-wr-ta/ta/ta_wasm_signature.c:73-116 | The TA's entry loop, refusing repeated keys and more than 16 pairs |
| `WasmCursor.FindSignature` | optee/twep-wr-ta/ta/ta_wasm_signature.c:118-162 | The TA's section loop computes prefix and signature or refuses |
| `WasmCursor.SignModule` | internal/wasmsign/wasmsign.go:47-81 | The signer appends the specified section to the stripped module |
| `Allocator.EveryRunIsSequential` | wasm/teep-agent/src/lib.rs:48-67 | Under any interleaving and any stale loads the outcomes are those of a sequential allocator in log order; a call is refused only if it does not fit then |
| `Allocator.RegionsAreSafe` | wasm/teep-agent/src/lib.rs:48-67 | Granted regions are inside the heap, aligned in offset, and pairwise disjoint |
| `Allocator.AddressAlignedIff` | wasm/teep-agent/src/lib.rs:42-67 | The address of any grant of any run is aligned exactly when the heap's base is a multiple of the alignment |
| `Allocator.MisalignedGrant` | wasm/teep-agent/src/lib.rs:42-67 | With the heap at address 16, a first request for alignment 32 is granted a misaligned address |

## Where the code and its documentation or appearance differ

- A power cut between creating and writing the first acceptance slot leaves an empty object that loads as corrupt, not as
  generation zero; the model follows the code and `CrashConsistency` states the exception exactly.
- Before the first application is published, a leftover staged object makes the load report a corrupt object rather than a
  missing one; `AppAtomicity` states both cases.
- The length computed for an application's error response leaves out the head of its error map, so the response written is
  one byte longer than the buffer; `ErrorLengthIsOneShort` states it for every input.
- A plain acceptance of a staged application's or catalog's id and sequence makes it active without its own publication.
- The signer cuts the size of its section, and the length of a kid, to 32 bits.
- The host readers of section sizes cut a number of five bytes to 32 bits; the TA refuses it (`CutNumber`).
- The four reserved bytes of an application record are written as zero and never looked at (`ParseAppIff`).
- The host decoder accepts heads of any width and repeated keys, so decoding inverts encoding but not the other way round.
- The allocator aligns offsets; its heap is declared with alignment 16, so larger alignments depend on where it is placed.

## Left out

- SHA-256, ECDSA, COSE keys and the DER form of signatures: the hash is a parameter and the 64 signature bytes are given.
- The WAMR engine, module cache and instruction accounting: the agent is a function of the answers it has had, and one
  budget bounds its actions.
- The application run that follows a resolved request, and the wrapping of its output: a request ends with what its agent hands over.
- The agent's random and time calls: an agent that uses them is not deterministic, which the replay theorem needs.
- ReplayRefinesDirect: for runs that make no commit call on their path; protected reads after a commit inside the same
  request answer "not found" in the code, so an uninterrupted run is not what a rerun repeats. Other sessions leave room in
  the transcript quota, and allocations succeed.
- NinthResumeFails: assumes the workspace could be allocated; without it the code fails earlier and keeps the session.
- CatalogAtomicity: assumes no plain acceptance of the catalog id; CatalogAtomicityIff has the exact condition.
- AppAtomicity: assumes no plain acceptance of an application id; AppAtomicityIff has the exact condition.
- SessionsCatalogAtomicity: the same, of the agents; SessionsAtomicityIff has the exact condition.
- SessionsAppAtomicity: the same, of the agents; SessionsAtomicityIff has the exact condition.
- Transient read errors on intact storage objects, logging, memory wiping and allocation failure other than the flags in
  `Luck`.
- The contents of the verified-evidence-result object: only the failure to store it is modelled.
- Output buffers of the C and Go writers are sequences that grow, except where the source precomputes a length and fills a
  buffer (`AppRecord.BuildRecord`, `HostResponse.MakeResponse`), which are arrays.
- ValueAt: does not model the host decoder's preallocation by the announced count, which can exhaust memory before any
  element is read.
- MakeErrorResponse: returns the length it would allocate beside the bytes; the memory behind the buffer is not modelled.
- Narrowing from binary64 to binary32 in the validator is a parameter, as is UTF-8 checking.
- The catalog schema checks after canonical form (required fields, command names, resource limits): each is a lookup with a
  type test.
- The mask in the allocator is written as rounding up to a multiple, which is the same for powers of two.
- Request decoding, application output decoding and argument inference in the host codec: the same decoder with other field names.
- The Go signature verifier's payload decoding, which calls a CBOR library that is not part of this model.
- Command-line tools, sockets, smoke drivers, scripts and credential management.
