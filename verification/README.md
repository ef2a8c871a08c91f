# Verified models of the Bitmunk core

Bitmunk is a peer-to-peer marketplace for digital media. This project models the parts of it whose
correctness is not evident from any one function, and proves what they promise:

- **Seller-listing synchronisation** (`Tables`, `Catalog`, `ListingSync`, `SyncTheorems`, `LostReplies`,
  `SyncLimits`, `Convergence`, `Agreement`, `SyncWitnesses`, `CatalogStore`, `ListingUpdater`, `SchemeIds`). A
  seller's catalogue of wares and payee schemes is mirrored at a remote server by numbered updates. Local edits run
  concurrently with marking, sending, acknowledging with failures, crash replay and full reset. `ListingSync`
  is the protocol as a transition system over values; `CatalogStore` and `ListingUpdater` are the tables and the
  updater as classes that change in place, proved to take steps of that system, or to lose a reply.
- **Payee resolution** (`Payees`, `PayeeRounding`): the three-pass computation of what every payee gets.
- **Streaming media** (`Streams`, `Id3Format`, `Id3Writer`, `Id3Reader`, `MpegFrames`, `TimeSlicing`,
  `Steganographer`): the ID3v2.3.0 writer, stripper and reader, the MPEG frame finder and time slicer, and the
  watermark steganographer, all for arbitrary chunks.
- **The public-key cache** (`PublicKeyCache`), against a function of its history.

`dafny verify dfyconfig.toml` checks the whole project. Nothing here executes the original program.

## Hypotheses

Synchronisation:

- One message is outstanding at a time. The design says so (cpp/customcatalog/ListingUpdater.cpp:105-106), but
  the updater's own state does not enforce it: `mState = Idle` is set in the branch where the operation was
  started (329-333, 363-367).
- A reply lost inside a session belongs to an update that did not advance the update ID; any other loss ends the
  session. Without this the runs are not safe; `LostReplies.LostReplyIff` says exactly when they still are.
- The remote end keys listings by file, accepts an update exactly when its update ID is current, applies it as a
  whole except for the items it reports as failed, and then holds the new ID. The failed items are items of the
  update. A registration yields an empty server with update ID 0. A server may expire at any time.
- Ware IDs are unique per row and media library IDs are never reused. Each SQL transaction is atomic, and LIMIT
  returns any eligible rows.

Payees: amounts are exact decimals, modelled as reals. The conservation, idempotence and order laws hold for any
rounding; the rounding laws for every rounding with the stated properties, which seven digits rounded down has.

Streams: Monarch's byte buffer, tag and frame headers, MPEG header decoder and the driver of mutation algorithms
are not part of this repository. The buffer and the ID3 headers are small contracts after sections 3.1 and 3.3 of
the ID3v2.3.0 informal standard. The MPEG header decoder is any function of at most four bytes; a valid frame
(section 2.4.1.3 of ISO/IEC 11172-3) starts with frame sync and is as long as its header says. The answers of a
concrete watermark may differ from call to call. The drivers call again after a step, add a chunk when data is
needed, and stop on completion. A call of the tag reader that uses up nothing is repeated, with more bytes if there
are any.

## Where the code falls short

Each is stated for all inputs, with the exact condition, or with a run or an input where it happens, or both:

- A rejection inside a session is processed as a success with an empty result (`LostReplies.LostReplyIff`,
  `RejectionInStepIff`; a run in `SyncWitnesses.LostReplyRun`).
- A deleted ware with a recorded problem is never purged, so that there is always something to send
  (`Convergence.ConvergesIff`; a run in `SyncWitnesses.StuckRun`). Later edits of its scheme, and the wares that
  wait for them, are never sent (`Convergence.StuckHoldsUp`; a run in `SyncWitnesses.BlockedRun`).
- A row that the server refused is not sent again until it is edited or everything is, so that the two ends need not
  agree in the end even if the server now accepts everything (`Agreement.AgreementIff`; a run in `SyncWitnesses.RefusedRun`).
- A rejected removal is forgotten when the ware's file is gone, and its listing stays
  (`SyncLimits.RejectedRemovalDroppedIff`, `OrphansAppearIff`; a run in `SyncWitnesses.OrphanRun`).
- The reported total of payees need not be the sum of their amounts (`PayeeRounding.TotalIsSumIff`,
  `EightDigitFee`).
- The tag writer takes a full destination for the end of a frame (`Id3Writer.WriteTag`, `NoRoomCutsTag`,
  `WriteWithoutRoom`) and writes the header over what a destination holds (`Id3Writer.TagWriter.AddTag`). Frames
  other than text, XBMC and APIC are written without the data their size announces (`Id3Format.SizeIsDataIff`).
- The tag reader never leaves an extended header (`Id3Reader.ExtendedHeaderHidesFrames`).
- The time slicer compares an offset into the data with an offset into the buffer (`TimeSlicing.GapHandledIff`,
  `GapLost`, `GapLostStream`).
- Immutable byte counts from 2^31 on never run out (`Steganography.TurnComesIff`, `StandsStillIff`).
- The documentation of time sets says that intersecting sets are merged; the code keeps them apart, and the model
  follows the code. The valid times are the same (`TimeSlicing.ValidTimesAreUnion`).

## Model

| member | source | states |
|---|---|---|
| SyncTheorems.Safety | cpp/customcatalog/CustomCatalog.cpp:885-1328 | in every state of every run, a live ware or scheme row with dirty, updating and problem clear has an equal remote entry, and no deleted row has all three clear |
| SyncTheorems.ReferentialIntegrity | cpp/customcatalog/CatalogDatabase.cpp:1640-1699 | in every state of every run each ware row names an existing scheme row, a live ware a live scheme and its file, and no ware row names a scheme the next acknowledgement may purge |
| SyncTheorems.NeverCorrupt | cpp/customcatalog/ListingUpdater.cpp:369-407 | in every run the remote update ID is the local one or its 32-bit successor, and a request of a registered seller always sends something: the reset branch is not reached |
| SyncTheorems.HeartbeatLearnsId | cpp/customcatalog/ListingUpdater.cpp:337-368 | the first message of a session learns the remote update ID, accepted or rejected, and changes neither end |
| SyncTheorems.ReplayIsLastUpdate | cpp/customcatalog/CustomCatalog.cpp:885-950 | when the remote end is one ahead, the update sent is the last one without the rows edited since, and its acknowledgement, with whatever failures, makes the update IDs equal |
| SyncTheorems.OnlyHandlePurges | cpp/customcatalog/CatalogDatabase.cpp:345-359 | no step but the processing of a response removes a row |
| SyncTheorems.WarePurgeSafety | cpp/customcatalog/CustomCatalog.cpp:1166-1178 | a ware row disappears only when an acknowledged update carried its removal and nothing touched the row since that update was put together |
| SyncTheorems.SchemePurgeSafety | cpp/customcatalog/CatalogDatabase.cpp:345-359 | the same for scheme rows, and no ware row of any kind names the purged scheme |
| ListingSync.InitInv | cpp/customcatalog/CatalogDatabase.cpp:55-236 | an empty, unregistered catalogue satisfies the protocol invariant |
| ListingSync.StepKeepsInv | cpp/customcatalog/ListingUpdater.cpp:38-136 | every step keeps the protocol invariant: edits, registration, requests, deliveries with failures, drops, responses, responses whose transaction is rolled back, harmless losses, crashes, expiry of the server |
| ListingSync.RunKeepsInv | cpp/customcatalog/ListingUpdater.cpp:38-136 | the invariant holds in every state of every run |
| ListingSync.EditKeepsInv | cpp/customcatalog/CatalogDatabase.cpp:194-221 | local edits and triggers may come at any time, also while an update is on its way |
| ListingSync.RequestKeepsInv | cpp/customcatalog/ListingUpdater.cpp:294-434 | a request keeps the invariant in Cases A, B and C, and a registered seller sends an update |
| ListingSync.RequestKeepsRows | cpp/customcatalog/CatalogDatabase.cpp:1830-2006 | putting an update together adds and removes no row |
| ListingSync.DeliverKeepsInv | cpp/common/TypeDefinitions.h:874-921 | a delivery keeps the invariant, and inside a session it is never rejected |
| ListingSync.HandleKeepsInv | cpp/customcatalog/CustomCatalog.cpp:1037-1273 | processing a response keeps the invariant |
| ListingSync.AckKeepsInv | cpp/customcatalog/CustomCatalog.cpp:1166-1189 | an acknowledgement leaves no row in flight and the two update IDs equal |
| ListingSync.HeartbeatChangesNothing | cpp/customcatalog/CustomCatalog.cpp:833-883 | an empty update changes no remote entry |
| LostReplies.LostReplyIff | cpp/customcatalog/ListingUpdater.cpp:436-509 | after a reply lost inside a session, every continuation keeps what claims to be in step in step, if and only if the update did not advance the update ID, or advanced it to 0 (32-bit wrap) and no failed, pending, live, problem-free row differs from its remote entry |
| LostReplies.RejectionInStepIff | cpp/customcatalog/ListingUpdater.cpp:454-468 | when the ID advanced, the next update is rejected and processed as a success; right after that the catalogue is in step if and only if no failed, pending, live, problem-free ware or scheme differs from its remote entry |
| LostReplies.RejectedRound | cpp/customcatalog/ListingUpdater.cpp:1000-1004 | a request of an outdated session, its rejection and the response are three steps that store 0 as local and as known ID and acknowledge every pending row |
| LostReplies.LostReplyBreaks | cpp/customcatalog/ListingUpdater.cpp:436-509 | in every other case there is a continuation that breaks safety: right away, or by the next new scheme, which ends up clean and absent at the server |
| LostReplies.LimboStep | cpp/customcatalog/ListingUpdater.cpp:379-407 | when the ID wrapped to 0 and the failures hold, every step stays safe until one restores the protocol invariant |
| SyncWitnesses.LostReplyRun | cpp/customcatalog/ListingUpdater.cpp:436-509 | a run with a lost reply that breaks safety: one scheme, one session, one refused item |
| SyncWitnesses.StuckRun | cpp/customcatalog/CatalogDatabase.cpp:345-359 | a run that ends stuck: a listed ware is removed, its file stays, the server refuses the removal |
| SyncWitnesses.BlockedRun | cpp/customcatalog/CatalogDatabase.cpp:1930-1939 | a run after which an edited scheme is never sent, because a stuck removal names it |
| SyncWitnesses.RefusedRun | cpp/customcatalog/CustomCatalog.cpp:1115-1164 | a run after which nothing is left to send and no rounds bring agreement: the server refused a scheme |
| SyncWitnesses.OrphanRun | cpp/customcatalog/CatalogDatabase.cpp:1701-1729 | a run whose last response leaves a remote listing without a row: the file of a listed ware is deleted and the server refuses the removal |
| SyncLimits.ResetRecovers | cpp/customcatalog/CustomCatalog.cpp:1275-1328 | from any state with intact references, reset and registration establish the invariant |
| SyncLimits.StepKeepsOrphanFree | cpp/customcatalog/CatalogDatabase.cpp:1701-1729 | no step leaves a remote entry without a local row, unless it drops a rejected removal that nobody touched, whose file is gone and which is still listed |
| SyncLimits.OrphansAppearIff | cpp/customcatalog/CatalogDatabase.cpp:1701-1729 | in every run a step creates an orphan if and only if it is a response that drops such a removal |
| SyncLimits.RunProblemsHaveFiles | cpp/customcatalog/CatalogDatabase.cpp:1701-1729 | in every state of every run a ware with a recorded problem has its file |
| SyncLimits.RunOrphanFree | cpp/customcatalog/CustomCatalog.cpp:1037-1273 | over runs without such a response, every remote listing and scheme has a local row |
| SyncLimits.RejectedRemovalDroppedIff | cpp/customcatalog/CatalogDatabase.cpp:1701-1729 | the row of a rejected, untouched removal is dropped if and only if its file has left the media library |
| Convergence.RoundLowersRank | cpp/customcatalog/CatalogDatabase.cpp:1885-2003 | an undisturbed round strictly lowers the sum over all rows of 2 for dirty and 1 for updating (plus 1 before the first heartbeat), until everything is done |
| Convergence.FreshWork | cpp/customcatalog/CatalogDatabase.cpp:1885-2003 | freshly marking and acknowledging lowers that sum whenever there is anything to send |
| Convergence.RoundsKeep | cpp/customcatalog/CustomCatalog.cpp:1166-1189 | any number of undisturbed rounds keeps the invariant, neither creates nor cures a stuck removal, and leaves no orphan |
| Convergence.RoundsFinish | cpp/customcatalog/CatalogDatabase.cpp:1885-2003 | without a stuck removal, after as many rounds as the rank says there is nothing left to send and the next update is a heartbeat, whatever rows the LIMIT queries return |
| Convergence.SomeChoices | cpp/customcatalog/CatalogDatabase.cpp:1921-2003 | from any state there are answers of the LIMIT queries for any number of rounds, so the convergence results are about runs that exist |
| Convergence.ConvergesIff | cpp/customcatalog/CatalogDatabase.cpp:1885-2003 | from every idle state of every run with a live server, enough undisturbed rounds end with a heartbeat as the next update if and only if no deleted ware has a recorded problem |
| Convergence.StuckHoldsUp | cpp/customcatalog/CatalogDatabase.cpp:1930-1939 | a deleted ware with a recorded problem holds up a dirty scheme it names, and every live ware that waits for that scheme: after any number of rounds they are still unsent and the remote end holds what it held |
| Convergence.RoundRemote | cpp/customcatalog/CustomCatalog.cpp:952-1035 | a round changes the remote end by exactly the pending rows of the marked catalogue |
| Agreement.AgreementIff | cpp/customcatalog/CustomCatalog.cpp:1166-1189 | from every idle state of every run with a live server and no stuck removal, enough undisturbed rounds end with remote listings and schemes equal to the live local rows, if and only if at the start every row neither dirty nor updating matched the remote end, live or deleted, and every remote entry had a row |
| Agreement.RoundAgreeableIff | cpp/customcatalog/CustomCatalog.cpp:1166-1189 | a round neither makes nor mends such a disagreement |
| Agreement.SentAgreesIff | cpp/customcatalog/CustomCatalog.cpp:1166-1189 | for one table: sending what is pending and acknowledging it neither makes nor mends one |
| Agreement.DoneAgreesIff | cpp/customcatalog/CustomCatalog.cpp:952-1035 | with nothing left to send, the remote end holds the live rows if and only if all rows match and there is no orphan |
| Agreement.ProblemFreeAgrees | cpp/customcatalog/CustomCatalog.cpp:1115-1164 | without recorded problems and orphans the condition holds, and no removal is stuck |
| Agreement.RegistrationAgrees | cpp/customcatalog/ListingUpdater.cpp:511-554 | after a registration the condition holds, whatever problems are on record |
| Agreement.EndsInAgreement | cpp/customcatalog/CustomCatalog.cpp:1166-1189 | so without recorded problems and dropped removals the rounds end in agreement |
| Agreement.StepKeepsLive | cpp/customcatalog/ListingUpdater.cpp:38-136 | nothing but a local edit changes what the live ware and scheme rows say: no marking, response, reset, registration, crash or loss does |
| Agreement.RefusalRecovers | cpp/customcatalog/ListingUpdater.cpp:485-500 | in any run without a stuck removal, after a refusal by a server that is gone, its reset and a new registration, enough undisturbed rounds leave the new server with exactly the listings and schemes that were live at the refusal |
| Catalog.EditsOnlyDirtyWares | cpp/customcatalog/CatalogDatabase.cpp:1578-1699 | every edit and trigger sets dirty on exactly the ware rows it touches, changes no other row and moves no updating flag |
| Catalog.EditsOnlyDirtySchemes | cpp/customcatalog/CatalogDatabase.cpp:553-698 | the same for scheme rows |
| Catalog.EditKeepsReferences | cpp/customcatalog/CatalogDatabase.cpp:1094-1148 | no edit leaves a dangling ware: a scheme in use is not removed, a removed file takes its ware with it, a new ware needs a live scheme and its file |
| Catalog.EditKeepsDbInv | cpp/customcatalog/CustomCatalog.cpp:320-433 | every edit keeps the catalogue invariant |
| Catalog.MarkMovesFlags | cpp/customcatalog/CatalogDatabase.cpp:1885-2003 | marking only moves dirty and updating, never to both clear, and never puts a scheme named by a deleted ware on its way |
| Catalog.MarkKeepsReferences | cpp/customcatalog/CatalogDatabase.cpp:1930-1939 | marking keeps the references and never marks the removal of a scheme that a ware row still names |
| Catalog.MarkKeepsDbInv | cpp/customcatalog/CatalogDatabase.cpp:1830-2006 | marking keeps the catalogue invariant |
| Catalog.FreshBatchBounded | cpp/customcatalog/CatalogDatabase.cpp:1921-2003 | a fresh batch has at most 100 schemes and 100 wares, and a live ware in it has a scheme that is neither dirty nor updating |
| Catalog.FreshBatchNonEmpty | cpp/customcatalog/CatalogDatabase.cpp:1921-2003 | a fresh batch is non-empty exactly when some row is dirty or some ware deleted: unmarking starves nothing |
| Catalog.ChoiceIs | cpp/customcatalog/CatalogDatabase.cpp:1921-2003 | the three LIMIT queries choose only eligible rows: up to 100 dirty schemes that no deleted ware names, up to 100 deleted wares, and dirty wares up to 100 less those; each falls short of its limit only by taking all |
| Catalog.FreshBatchIs | cpp/customcatalog/CatalogDatabase.cpp:1921-2003 | after a fresh marking the updating schemes are exactly the chosen ones, and a ware is updating exactly if it is a chosen removal, or a chosen dirty ware, with under 100 removals, that is deleted or whose scheme is neither dirty nor updating; every other row is as before |
| Catalog.SomeChoice | cpp/customcatalog/CatalogDatabase.cpp:1921-2003 | the three LIMIT queries always have an answer, and the remaining ware limit is never negative |
| Catalog.AcknowledgedKeepsReferences | cpp/customcatalog/CatalogDatabase.cpp:345-375 | purging schemes never leaves a ware without its scheme, whatever failed |
| Catalog.AcknowledgedKeepsDbInv | cpp/customcatalog/CustomCatalog.cpp:1037-1273 | a processed response keeps the catalogue invariant |
| Catalog.AcknowledgedViews | cpp/customcatalog/CustomCatalog.cpp:1037-1189 | recording, purging and clearing together act on each row alone, as its flags and its own failure say |
| Catalog.ResetEstablishes | cpp/customcatalog/CustomCatalog.cpp:1275-1328 | a reset makes every row dirty and none updating, and keeps the references |
| Tables.EditedKeeps | cpp/customcatalog/CatalogDatabase.cpp:194-221 | an edit that only dirties rows keeps what is clean equal to the remote end and deleted rows unclean |
| Tables.EditedKeepsWired | cpp/customcatalog/CatalogDatabase.cpp:1731-1808 | after an edit the rows pending are the batch sent without the rows touched since |
| Tables.AppliedKeepsSafe | cpp/common/TypeDefinitions.h:874-921 | applying a batch, except for the failed items, keeps clean rows equal to their remote entries, because batch rows are updating |
| Tables.AppliedLands | cpp/common/TypeDefinitions.h:874-921 | after applying, the remote end holds what the batch says for every item that did not fail |
| Tables.AckedKeepsSafe | cpp/customcatalog/CustomCatalog.cpp:1166-1189 | rows that an acknowledgement makes clean equal their remote entries: they landed, or failed and have a problem recorded |
| Tables.AckedKeepsNoCleanDeleted | cpp/customcatalog/CatalogDatabase.cpp:345-375 | an acknowledgement leaves no deleted row with all flags clear |
| Tables.BlindAckSafeIff | cpp/customcatalog/CustomCatalog.cpp:1166-1189 | an acknowledgement without failures keeps a table in step if and only if every pending, live, problem-free row equals its remote entry already |
| Tables.HeldIffFailuresHeld | cpp/customcatalog/CustomCatalog.cpp:1100-1165 | after an update has landed, that is a condition on the failed rows only |
| Tables.PurgedWasSent | cpp/customcatalog/CatalogDatabase.cpp:345-359 | a purged row was in the removals sent and has not been touched since |
| Tables.AckedKeepsNoOrphan | cpp/customcatalog/CatalogDatabase.cpp:345-359 | an acknowledgement orphans no remote entry except those of failed removals that were not touched and take no problem |
| Tables.LeftBehindIsOrphan | cpp/customcatalog/CatalogDatabase.cpp:345-359 | and it orphans each of those |
| CatalogStore.CatalogDatabase.constructor | cpp/customcatalog/CatalogDatabase.cpp:55-236 | a new catalogue is empty, unregistered, with update ID 0 |
| CatalogStore.CatalogDatabase.IsPayeeSchemeIdValid | cpp/customcatalog/CatalogDatabase.cpp:399-443 | true exactly for an existing scheme that is not deleted |
| CatalogStore.CatalogDatabase.AddPayeeScheme | cpp/customcatalog/CatalogDatabase.cpp:445-613 | adds a live, dirty scheme with the given body and no problem under the least free positive ID; no other row changes |
| CatalogStore.CatalogDatabase.UpdateWare | cpp/customcatalog/CustomCatalog.cpp:320-390 | under a valid scheme, or one made for it, the ware row becomes live and dirty, without problem, and names that scheme, keeping its updating flag; without its file or with an invalid scheme nothing changes at all |
| CatalogStore.CatalogDatabase.WriteWare | cpp/customcatalog/CatalogDatabase.cpp:1640-1699 | inserts or revives the ware row as live and dirty, without problem, under the given scheme, keeping its updating flag; no other row changes |
| CatalogStore.CatalogDatabase.RemoveWare | cpp/customcatalog/CatalogDatabase.cpp:1578-1638 | a live ware becomes deleted and dirty, without problem, and keeps its scheme and updating flag; a missing or deleted one fails and changes nothing |
| CatalogStore.CatalogDatabase.UpdatePayeeScheme | cpp/customcatalog/CustomCatalog.cpp:578-629 | ID 0 adds a scheme; a live scheme gets the new body and becomes dirty, without problem, keeping its updating flag; anything else fails without effect |
| CatalogStore.CatalogDatabase.RemovePayeeScheme | cpp/customcatalog/CustomCatalog.cpp:692-731 | succeeds exactly if no live ware names the scheme; an existing one then becomes deleted and dirty, without problem, and keeps its body and updating flag |
| CatalogStore.CatalogDatabase.FileAdded | cpp/medialibrary/MediaLibraryDatabase.cpp:312-334 | a new file touches no ware and no scheme |
| CatalogStore.CatalogDatabase.FileUpdated | cpp/customcatalog/CatalogDatabase.cpp:194-206 | the file gets its new text, the trigger dirties its live ware, and no other row changes |
| CatalogStore.CatalogDatabase.FileDeleted | cpp/customcatalog/CatalogDatabase.cpp:208-221 | the file goes, the trigger deletes and dirties its ware, and no other row changes |
| CatalogStore.CatalogDatabase.FindUpdating | cpp/customcatalog/CatalogDatabase.cpp:1885-1919 | true exactly if some row is updating |
| CatalogStore.CatalogDatabase.MarkNextListingUpdate | cpp/customcatalog/CatalogDatabase.cpp:1830-2006 | nothing if rows are updating; otherwise, for a choice the LIMIT queries allow, exactly the rows of the fresh batch become updating and not dirty, and every other record is as before |
| CatalogStore.CatalogDatabase.MarkSchemeRows | cpp/customcatalog/CatalogDatabase.cpp:1930-1939 | marks up to 100 dirty schemes that no deleted ware names, and fewer only if there are fewer |
| CatalogStore.CatalogDatabase.MarkDeletedRows | cpp/customcatalog/CatalogDatabase.cpp:1958-1962 | marks up to 100 deleted wares |
| CatalogStore.CatalogDatabase.MarkDirtyRows | cpp/customcatalog/CatalogDatabase.cpp:1963-2001 | marks dirty wares up to what the limit leaves |
| CatalogStore.CatalogDatabase.UnmarkWaitingRows | cpp/customcatalog/CatalogDatabase.cpp:1968-1974 | takes live wares back whose scheme is dirty or updating |
| CatalogStore.CatalogDatabase.PopulateUpdatingWares | cpp/customcatalog/CatalogDatabase.cpp:1731-1808 | succeeds exactly if every pending live ware has its file, and then returns exactly the updating, not dirty wares: live ones with their file and scheme, deleted ones as removals |
| CatalogStore.CatalogDatabase.PopulateUpdatingPayeeSchemes | cpp/customcatalog/CatalogDatabase.cpp:1150-1206 | returns exactly the updating, not dirty schemes: live ones with their body, deleted ones as removals |
| CatalogStore.CatalogDatabase.GetProblemId | cpp/customcatalog/CatalogDatabase.cpp:2008-2056 | an ID whose text is the given one; texts stay unique and no row reads differently |
| CatalogStore.CatalogDatabase.UpdateWareProblemId | cpp/customcatalog/CatalogDatabase.cpp:1701-1729 | records the problem on a ware that is not dirty and whose file exists, and on nothing else |
| CatalogStore.CatalogDatabase.UpdatePayeeSchemeProblemId | cpp/customcatalog/CatalogDatabase.cpp:1208-1224 | records the problem on a scheme that is not dirty |
| CatalogStore.CatalogDatabase.RecordWareProblems | cpp/customcatalog/CustomCatalog.cpp:1100-1141 | afterwards every listed ware that is not dirty and has its file refers to the text of its last entry, and every other ware to the text it did before |
| CatalogStore.CatalogDatabase.RecordSchemeProblems | cpp/customcatalog/CustomCatalog.cpp:1108-1164 | the same for failed schemes that are not dirty |
| CatalogStore.FailuresAreListed | cpp/customcatalog/CustomCatalog.cpp:1100-1164 | of a list of failures an item is failed exactly if it is listed, with the text of its last entry |
| CatalogStore.CatalogDatabase.RemoveUnreferencedProblems | cpp/customcatalog/CatalogDatabase.cpp:2058-2074 | deletes exactly the problems no row refers to; no row reads differently |
| CatalogStore.CatalogDatabase.PurgeDeletedWares | cpp/customcatalog/CatalogDatabase.cpp:345-375 | removes the rows whose removal was acknowledged without problem and clears updating on the rest |
| CatalogStore.CatalogDatabase.PurgeDeletedSchemes | cpp/customcatalog/CatalogDatabase.cpp:345-375 | the same for schemes |
| CatalogStore.CatalogDatabase.ProcessListingUpdateResponse | cpp/customcatalog/CustomCatalog.cpp:1037-1273 | refines the acknowledgement of the protocol; row by row: exactly the updating, deleted, clean rows without problem, old or new, are gone, the others are no longer updating and refer to the text of their last entry if they take one, else to the text they did before |
| CatalogStore.CatalogDatabase.ResetListingUpdateCounter | cpp/customcatalog/CustomCatalog.cpp:1275-1328 | refines the reset of the protocol: every record becomes dirty and not updating and keeps everything else, no problem changes, and the update ID and the registration are gone |
| CatalogStore.SelectLimit | cpp/customcatalog/CatalogDatabase.cpp:1930-1967 | LIMIT n returns n eligible rows, or all if there are fewer |
| Updater.ListingUpdater.PopulateListings | cpp/customcatalog/CustomCatalog.cpp:952-1035 | in a catalogue with intact references it never fails and returns exactly the updating, not dirty rows |
| Updater.ListingUpdater.SendNext | cpp/customcatalog/CustomCatalog.cpp:952-1035 | Case A: marks, and sends exactly the updating, not dirty rows; the ID advances by one, modulo 2^32, only if there are any |
| Updater.ListingUpdater.SendPending | cpp/customcatalog/CustomCatalog.cpp:885-950 | Case B: sends exactly the updating, not dirty rows under the ID the remote end already has, and changes no row |
| Updater.ListingUpdater.StartOver | cpp/customcatalog/ListingUpdater.cpp:394-407 | Case C: everything has to be sent again, and the registration is gone |
| Updater.ListingUpdater.HandleUpdateRequest | cpp/customcatalog/ListingUpdater.cpp:294-434 | an update request is a request step of the protocol; of the fields themselves: no session without registration, an empty update to open a session, Case B if the remote ID is one ahead modulo 2^32, Case A if the IDs are equal, Case C otherwise |
| Updater.ListingUpdater.HandleUpdateResponse | cpp/customcatalog/ListingUpdater.cpp:436-509 | a response is a response step of the protocol, or its rollback if the transaction does not commit; of the fields themselves: which ID is stored, which rows are purged, which get which problem; any other error only makes the updater idle, whether the update or a reply of any kind was lost |
| Updater.ListingUpdater.HandleRegisterResponse | cpp/customcatalog/ListingUpdater.cpp:511-554 | a registration is a registration step of the protocol; an error changes nothing |
| SchemeIds.QueryIsLeastFree | cpp/customcatalog/CatalogDatabase.cpp:453-470 | for every finite set of IDs in use the two-part query returns a row, and it returns an ID exactly if that is the least free positive one |
| SchemeIds.SelectLowestAvailable | cpp/customcatalog/CatalogDatabase.cpp:453-470 | evaluating the query yields the least free positive ID |
| SchemeIds.LeastFreeUnique | cpp/customcatalog/CatalogDatabase.cpp:485-534 | the allocated ID is a function of the IDs in use |
| SchemeIds.AllocationsAscend | cpp/customcatalog/CatalogDatabase.cpp:485-534 | sequential allocations give unused, ascending IDs: gaps are filled from below |
| Payees.ResolvePayeeAmounts | cpp/common/Tools.cpp:184-318 | the three passes over the payees in place compute, for every list, each payee resolved over its own base, and return the cut sum of all amounts |
| Payees.ResolvePercentagePayee | cpp/common/Tools.cpp:136-182 | a resolved payee keeps its amount; otherwise it gets the cut product of base and percentage, or the cut minimum if that is more; no other field and no other payee changes |
| Payees.FirstPass | cpp/common/Tools.cpp:219-274 | fees, licence and cumulative percentages are resolved in order; the others are listed and untouched |
| Payees.LatePass | cpp/common/Tools.cpp:276-307 | all listed payees are resolved over one base, and their amounts and taxable amounts summed |
| Payees.Conservation | cpp/common/Tools.cpp:184-318 | the accumulated total is the sum of all resolved amounts, each payee counted once |
| Payees.TaxBaseIsTaxables | cpp/common/Tools.cpp:219-307 | the base of the taxes is the sum of the resolved amounts that are neither exempt nor taxes |
| Payees.TaxIsOnTaxables | cpp/common/Tools.cpp:293-307 | every unresolved tax is the cut percentage of that sum, so taxes do not cumulate |
| Payees.LicenseAmount | cpp/common/Tools.cpp:246-249 | an unresolved percentage of the licence is the cut product of licence and percentage, or the cut minimum if that is more |
| Payees.CumulativeAmount | cpp/common/Tools.cpp:250-254 | for an unresolved cumulative percentage the base is the sum of the resolved amounts of the fees and of the licence and cumulative percentages before it |
| Payees.OfTotalAmount | cpp/common/Tools.cpp:276-292 | for an unresolved percentage of the total it is the sum of all those resolved amounts |
| Payees.GivenAmount | cpp/common/Tools.cpp:136-182 | a flat fee and an amount resolved before stay as they are, and nothing but the amount of a payee changes |
| Payees.Idempotent | cpp/common/Tools.cpp:184-318 | resolving a resolved list again, under any licence amount, changes no payee and gives the same total |
| Payees.OrderIndependence | cpp/common/Tools.cpp:219-307 | moving percent-of-total and tax payees anywhere, also among themselves, changes no resolved amount and not the total |
| PayeeRounding.SevenDownCuts | cpp/common/Tools.cpp:197-217 | seven digits rounded down: below by less than one unit, monotone, closed under addition |
| PayeeRounding.MinimumRespected | cpp/common/Tools.cpp:136-182 | a newly resolved percentage is at least its minimum cut to seven digits |
| PayeeRounding.RoundingBound | cpp/common/Tools.cpp:184-318 | the total never exceeds exact resolution, and the shortfall of the amounts obeys E' = (1 + p) * E + 10^-7 per new percentage, in resolution order; the reported total falls short by at most 10^-7 more |
| PayeeRounding.ProgramTotals | cpp/common/Tools.cpp:184-318 | at seven digits rounded down: the bound on the reported total, the minimums, and when the total is the sum of the amounts |
| PayeeRounding.NextGap | cpp/common/Tools.cpp:136-182 | one more percentage worsens the shortfall by at most E' = (1 + p) * E + 10^-7 |
| PayeeRounding.TotalIsSumIff | cpp/common/Tools.cpp:309-318 | the reported total is the sum of the amounts if and only if the amounts the caller gave add up to seven digits |
| PayeeRounding.EightDigitFee | cpp/common/Tools.cpp:309-318 | a flat fee of 0.00000005 is reported as a total of 0 |
| PublicKeyCaches.PublicKeyCache.AddPublicKey | cpp/common/PublicKeyCache.cpp:20-43 | after any history the list is the capacity-many most recently added IDs in order, and the map the last keys of those added since the last clear; adding keeps this |
| PublicKeyCaches.PublicKeyCache.GetPublicKey | cpp/common/PublicKeyCache.cpp:45-82 | a hit returns the cached key and changes nothing, not even the recency order; a miss returns, and keeps, what the source delivers |
| PublicKeyCaches.PublicKeyCache.ClearKeys | cpp/common/PublicKeyCache.cpp:102-109 | clearing empties the map and leaves the list |
| PublicKeyCaches.CachedIff | cpp/common/PublicKeyCache.cpp:20-109 | after any history the cache holds a key for an ID if and only if that key was the last added for it, no clear came later, and fewer other IDs were added since than the cache has room for |
| PublicKeyCaches.RecentOrder | cpp/common/PublicKeyCache.cpp:20-43 | the recency list is ordered by the time of the last addition, latest first |
| PublicKeyCaches.PlaceIs | cpp/common/PublicKeyCache.cpp:20-43 | the place of an ID in the recency list is the number of IDs added since |
| PublicKeyCaches.AddRefines | cpp/common/PublicKeyCache.cpp:20-43 | adding to the list and the map of a history gives the list and the map of the longer history |
| PublicKeyCaches.AddThenCap | cpp/common/PublicKeyCache.cpp:20-43 | adding to the capped list and capping gives the capped list of all additions |
| PublicKeyCaches.CapacityRespected | cpp/common/PublicKeyCache.cpp:20-43 | the map never outgrows the capacity, also across clears |
| PublicKeyCaches.ClearIsForgotten | cpp/common/PublicKeyCache.cpp:102-109 | the IDs a clear leaves in the list never cost a later key its place |
| Id3Format.TagHeaderRoundTrip | cpp/data/Id3v2TagWriter.cpp:117-132 | a written tag header reads back, in front of anything |
| Id3Format.FrameHeaderRoundTrip | cpp/data/Id3v2TagFrameIO.cpp:174-217 | a written frame header reads back, without its description |
| Id3Format.TagHeaderLayout | cpp/data/Id3v2TagWriter.cpp:117-132 | the ten bytes of a written tag header: ID3, version 3.0, the flags, and four bytes below 128 that give the size in base 128 |
| Id3Format.TagHeaderMeans | cpp/data/Id3v2TagReader.cpp:81-100 | what the reader takes for a tag header, and the flags and size it reads from it |
| Id3Format.FrameHeaderLayout | cpp/data/Id3v2TagFrameIO.cpp:174-217 | the ten bytes of a written frame header: the four of the ID, the size in base 256, two of flags |
| Id3Format.FramesHold | cpp/data/Id3v2TagFrameIO.cpp:317-486 | a TPE1 frame holds the performer, TIT2 the title, TRCK the track, TLEN the length, TXXX its description, each after its encoding byte; XBMC the uncompressed size in base 256 and the compressed contract; APIC its five parts and the image |
| Id3Format.SizeIsDataIff | cpp/data/Id3v2TagFrameIO.cpp:119-172 | a frame has as many data bytes as its updated size says if and only if it is a text, XBMC or APIC frame, or of size 0 |
| Id3Format.KnownFramesHaveData | cpp/data/Id3v2TagFrameIO.cpp:364-486 | the frames the program writes are never empty |
| Id3Format.AllFramesSize | cpp/data/Id3v2TagFrameIO.cpp:119-250 | prepared frames take exactly 10 bytes plus their size each |
| Id3Writer.FrameSource.StartFrame | cpp/data/Id3v2TagFrameIO.cpp:174-217 | the header and the data of the frame, as its ID says, are buffered; an image is left to its file |
| Id3Writer.FrameSource.GetFrame | cpp/data/Id3v2TagFrameIO.cpp:219-250 | frame bytes move to the destination in order and none is repeated; 0 is returned exactly at the end or without room |
| Id3Writer.TagStripper.StripTag | cpp/data/Id3v2TagWriter.cpp:52-115 | no step changes what will be left of the stream; completion leaves exactly that |
| Id3Writer.StripStream | cpp/data/Id3v2TagWriter.cpp:52-115 | for every chunking the result is the stream without its leading tag, or nothing if the tag is cut short |
| Id3Writer.StripMeans | cpp/data/Id3v2TagWriter.cpp:52-115 | what is left of a stream: all of it if it has no tag header, else what follows the size stated in base 128 |
| Id3Writer.TagWriter.AddTag | cpp/data/Id3v2TagWriter.cpp:117-167 | one step of the writer, appended to the destination, except that the header goes over the first bytes a destination already holds |
| Id3Writer.StepKeepsTag | cpp/data/Id3v2TagWriter.cpp:117-167 | a step with room moves bytes from what is pending to what is written and loses none |
| Id3Writer.StepLosesBytes | cpp/data/Id3v2TagWriter.cpp:150-163 | no step gains bytes, and reading frame bytes without room loses some for good |
| Id3Writer.WriteTag | cpp/data/Id3v2TagWriter.cpp:117-167 | for every sequence of destination sizes the output is tag and body if and only if no call read frame bytes without room |
| Id3Writer.NoRoomCutsTag | cpp/data/Id3v2TagWriter.cpp:150-163 | a tag with frames is cut whenever the third call finds no room |
| Id3Writer.WriteWithoutRoom | cpp/data/Id3v2TagWriter.cpp:117-167 | for every tag with frames there is a sequence of destination sizes that cuts it |
| Id3Writer.RoomIsEnough | cpp/data/Id3v2TagWriter.cpp:117-167 | with room for one byte at each call nothing is lost |
| Id3Writer.StripUndoesWriteIff | cpp/data/Id3v2TagWriter.cpp:52-167 | stripping undoes writing, for every body, if and only if the header states the size of the frames |
| Id3Writer.WriteThenStrip | cpp/data/Id3v2TagWriter.cpp:52-167 | for every prepared tag, body and pair of chunkings the two passes give the body |
| Id3Reader.TagReader.DetectFormat | cpp/data/Id3v2TagReader.cpp:44-155 | a call moves the state and the sink as the value model of the reader says; without a tag header the stream is turned down, an extended header is passed by its own size, and a tag that is too large is never entered |
| Id3Reader.EveryCallAdvances | cpp/data/Id3v2TagReader.cpp:44-155 | a call uses up bytes of the tag in order, and recognises the format exactly when the size of the tag is reached |
| Id3Reader.ReadStream | cpp/data/Id3v2TagReader.cpp:44-155 | for every chunking of a tag and a body the sink gets the frames in order with exactly their data, and the format is recognised |
| Id3Reader.WrittenTagIsGood | cpp/data/Id3v2TagFrameIO.cpp:119-250 | every prepared tag is of that form, frame by frame |
| Id3Reader.ReadWritten | cpp/data/Id3v2TagReader.cpp:44-155 | writing and then reading gives the same frames, for every chunking: under each ID the sink has the performer, title, track, length, description, contract or image |
| Id3Reader.TurnedDownIff | cpp/data/Id3v2TagReader.cpp:81-100 | a stream is turned down exactly when its first ten bytes are no tag header |
| Id3Reader.ExtendedHeaderHidesFrames | cpp/data/Id3v2TagReader.cpp:101-117 | nothing records that an extended header was passed, so over any calls no frame of such a tag is ever started |
| MpegFrames.FirstSync | cpp/data/MpegAudioFrameParser.cpp:85-117 | the naive scan gives the least offset with 0xff followed by a byte above 0xdf, or none |
| MpegFrames.MpegAudioFrameParser.Reset | cpp/data/MpegAudioFrameParser.cpp:24-34 | no header and no offset is stored |
| MpegFrames.MpegAudioFrameParser.ParseFrame | cpp/data/MpegAudioFrameParser.cpp:36-65 | stores a decoded header and returns what is missing of the frame |
| MpegFrames.MpegAudioFrameParser.FindFrame | cpp/data/MpegAudioFrameParser.cpp:67-123 | the scan that skips two bytes at a time tries exactly the offset of the naive scan; a header is stored if and only if an offset is |
| MpegFrames.FoundIs | cpp/data/MpegAudioFrameParser.cpp:67-123 | nothing is found in under four bytes; else the header at the least offset with byte 255 and a byte above 223, if it decodes, and what is missing is the rest of its frame |
| TimeSlicing.StreamTimeParser.AddTimeSet | cpp/data/StreamTimeParser.cpp:19-41 | adds a set with 0 <= start < end that is not there yet, at the end, unmerged |
| TimeSlicing.StreamTimeParser.IsTimeValid | cpp/data/StreamTimeParser.cpp:113-125 | true exactly if start <= time <= end for some set |
| TimeSlicing.ValidTimesAreUnion | cpp/data/StreamTimeParser.cpp:19-41 | the valid times are the union of all proper sets added, in any order and with repetitions, so merging would change nothing |
| TimeSlicing.MpegAudioTimeParser.MutateData | cpp/data/MpegAudioTimeParser.cpp:24-103 | a call moves state and buffers as the value model of the slicer says; case by case: it waits below four bytes, passes or drops what is due, and otherwise searches: a gap is passed, a frame is passed or dropped by its end time, no frame is an error |
| TimeSlicing.CallStaysOnTrack | cpp/data/MpegAudioTimeParser.cpp:24-103 | between, inside and at the end of gaps and frames a call keeps what will have been put out |
| TimeSlicing.SliceStream | cpp/data/MpegAudioTimeParser.cpp:24-103 | on any concatenation of valid frames, for every chunking and every buffer offset, the output is exactly the frames whose cumulative end time is valid |
| TimeSlicing.SliceItems | cpp/data/MpegAudioTimeParser.cpp:24-103 | with sync-free bytes between the frames, these come out verbatim between the kept frames, for every chunking that cuts no gap or header, if the offset of the buffer is 0 where a gap starts |
| TimeSlicing.KeptLast | cpp/data/MpegAudioTimeParser.cpp:58-90 | what is kept of a stream, item by item: one more gap is kept, one more frame exactly if its cumulative end time is in some set |
| TimeSlicing.GapHandledIff | cpp/data/MpegAudioTimeParser.cpp:58-90 | a search that finds a frame lets exactly the bytes before it pass, or counts the frame if there are none, if and only if there are none or the valid bytes of the buffer start at 0 |
| TimeSlicing.GapLost | cpp/data/MpegAudioTimeParser.cpp:58-90 | a short gap before a frame that is not kept disappears whenever the offset is no smaller than the gap |
| TimeSlicing.GapLostStream | cpp/data/MpegAudioTimeParser.cpp:58-90 | such a stream, of five bytes, read with offset 1 |
| Steganography.Mutate | cpp/bfp/Watermark.cpp:38-75 | in Decode mode exactly the inspected bytes, at most all there are, move to the destination, or all of a full source if none were inspected, else none and more data is needed; in the other modes the watermark says what is taken and put |
| Steganography.Steganographer.Reset | cpp/bfp/Steganographer.cpp:19-29 | no watermark, no immutable bytes, no retry |
| Steganography.Steganographer.MutateData | cpp/bfp/Steganographer.cpp:74-147 | a call moves state and buffers as the value model says and keeps the retry invariant; case by case: known or newly announced immutable bytes pass, the watermark gets its turn, data runs out, or an error |
| Steganography.RetryMeansNoImmutables | cpp/bfp/Steganographer.cpp:74-147 | in every run a pending retry implies a zero immutable count |
| Steganography.DecodeConserves | cpp/bfp/Watermark.cpp:53-71 | in every Decode run destination and remaining source together are exactly the bytes fed |
| Steganography.ImmutablesPass | cpp/bfp/Steganographer.cpp:119-132 | a count n below 2^31 makes exactly the next n bytes pass verbatim, over any calls and chunks, before the watermark is asked again |
| Steganography.AnnouncedAtOnce | cpp/bfp/Steganographer.cpp:86-132 | the call that learns the count already passes bytes |
| Steganography.LargeCountStays | cpp/bfp/Steganographer.cpp:119-132 | a count of 2^31 or more never falls below 2^31 |
| Steganography.TurnComesIff | cpp/bfp/Steganographer.cpp:119-132 | given enough data the immutable bytes are passed if and only if the count is below 2^31 |
| Steganography.StandsStillIff | cpp/bfp/Steganographer.cpp:119-132 | a call on data reports a step but does nothing if and only if the count is a multiple of 2^31 |

## Left out

- Services, validators, module start-up, user interface, file browser, logging: plumbing over libraries that are not part of this repository.
- Net-access tests, port mapping and server URL updates of the updater: network traffic beside the protocol.
- The message loop of the updater and the scheduling of further requests: a request may come whenever the updater is idle.
- Ware descriptions and the payees inside a scheme: opaque texts here, so the trigger that deletes the payees of a purged scheme is not modelled.
- Paging queries over wares and schemes: read-only.
- Retry exhaustion in scheme allocation: the interference-free allocation is modelled.
- `Tools::getTotalPrice` and payee amounts of unknown type: the five amount types are modelled.
- Changes of the cache's capacity and its lock: the capacity is fixed and calls do not overlap.
- Contract parsing in `putFrameData`, compression, JSON and character sets: the sink keeps the bytes it gets, and texts and contracts are given in their written form.
- Read errors of the image file: the image is a byte string, read in arbitrary portions.
- `StreamTimeParser::removeTimeSet`: it does not check that the start lies inside the set.
- `Steganographer::inspectData` and the watermark formats themselves: only the answers of a watermark appear.
- Other media detectors and input streams: they rest on header classes that are not part of this repository.
- Floating-point rounding of times: times are reals.
- Agreement.AgreementIff: is about catalogues without a stuck removal; with one, which rows are sent depends on what the LIMIT queries return, and only what is never sent is stated (`Convergence.StuckHoldsUp`).
- Agreement.RefusalRecovers: is about catalogues without a stuck removal, for the same reason.
- TimeSlicing.SliceItems: chunks that cut a gap or the header after it are not covered; a search that sees no frame sync is an error in the code.
- Id3Reader.ReadStream: requires a tag without extended header, which the code cannot pass (`Id3Reader.ExtendedHeaderHidesFrames`).
- Steganography.Mutate: in Encode and Clean mode the watermark's own writing is an arbitrary function.
