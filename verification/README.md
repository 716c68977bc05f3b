# OpenOnload driver cores

A model of the parts of OpenOnload whose state is hardest to keep straight, and proofs of what
they promise. Each module stands for one component; the specification is a function or a state
machine on values, and a class with the same fields as the original carries the code, each method
proved equal to its function.

- **UdpTunnels**: the tunnel port table of the EF10 driver. Callers add and delete counted ports
  under a spinlock; one worker snapshots the table, drops the lock, programs the firmware, retakes
  the lock and reconciles. Every lock section and every firmware command is an atomic step.
  **TunnelRequests** folds the callers' requests and compares.
- **Filters**, **FilterShape**, **FilterMulticast**, **FilterLayers**, **FilterSweep**,
  **FilterAgreement**, **FilterAnswers**, **FilterRestore**, **FilterCode**: the 8192-row software filter table that
  mirrors write-only firmware. Specifications that compare equal share a key; the hash, the
  recipient kind and the match mask are arbitrary functions of the key. The firmware is a map from
  handle to filter and answers as it likes.
- **ResourceTable**: the lock-free table of resources. Every load, store and compare-and-swap on the
  size, the highwater mark, the table pointer and the slots is one step of any thread, the two
  halves of each word of the second copy among them; only the second store of an allocation reads
  the table pointer in the same step, when it can no longer change. **ResourceAnswers** is about
  what callers are told.
- **EventQueue**, **RxEvents**, **RxDoorbell**, with **Rings** for positions in rings and 32-bit
  counters: the event loop that works from cacheline copies, the receive handler that recovers
  descriptor positions from four bits, and the doorbell that moves in eights.
- **Gcov**: the random-access reader of a serialised coverage file; **GcovRecords** reads the file back.
- **DumpIndex**: the multi-level page index of a dump buffer.
- **Bitfield**: the field macros over 32-bit and 64-bit elements; numbers are sequences of bits.
- **FilterList**: the wrapping filter id allocator.
- **Driverlink**: the registry of client drivers and adapters, and the counts of kernel blocks;
  **DriverlinkClients** folds the calls and compares.
- **SfcMask**: the printers and parsers of processor masks; a mask is the set of its one bits.

Where the code departs from what it promises, the model follows the code and says exactly when the
promise holds:

- a tunnel port 0 is counted but never sent, so its worker goes round for ever
  (`QuietRoundIsLast`, `PortZeroGoesRoundForEver`);
- a port may be called usable between the answer that tells of a reboot and the lock section that
  records it (`EveryInterleavingIsSafe`, `RebootWindowExample`);
- a renewed automatic filter that replaces a marked hint is swept away unless renewed again
  (`MarkRenewSweep`, `RenewalLostExample`);
- a removal that the firmware did not confirm forgets the filter (`RemoveAgreesIff`);
- a multicast insert may fail after the new filter is in (`FailedInsertUntouchedIff`,
  `RefusedUnsubscribe`);
- an automatic filter overridden and given back takes the default form (`OverrideRoundTrip`), and an
  automatic insert below a user filter succeeds, where the comment in efx.h announces -EPERM;
- an automatic insert of a multicast match may take users' filters of higher priority away
  (`InsertAnswers`, `AutomaticTakesUsers`);
- a filter whose mask is listed twice is restored twice (`RestoreAgreesIff`);
- a claim may be checked against the grown size while its table pointer is the inline array
  (`ClaimInBoundsIff`, `OverrunExample`); the safety theorem assumes the guard explicitly;
- an allocation may be refused for lack of room in a table just grown (`GrowRefusedIff`,
  `FullTooSoonExample`);
- a word of the second copy loaded too early and stored too late erases a resource
  (`AtRestHeldIff`, `LostExample`);
- the low half of a stored coverage counter goes through a 16-bit mask (`StoredCounterFaithfulIff`);
- a client that refuses a probe while it holds a block leaves the counts wrong (`TryAddOkIff`);
- the list text of a mask with long pieces is refused or taken for hexadecimal
  (`ListTextIsReadIff`), and the text of the zero mask cannot be read (`ListRoundTrip`).

`dafny verify dfyconfig.toml` checks everything.

## Model

| member | source | states |
|---|---|---|
| `UdpTunnels.Find` | src/driver/linux_net/ef10.c:8715-8728 | the first in-use slot of a port, and no earlier one is in use for it |
| `UdpTunnels.FindUnused` | src/driver/linux_net/ef10.c:8786-8799 | the first slot that is neither counted nor pending |
| `UdpTunnels.Table.Lookup` | src/driver/linux_net/ef10.c:8715-8728 | the lookup loop finds the first in-use slot of the port |
| `UdpTunnels.Table.Add` | src/driver/linux_net/ef10.c:8730-8807 | an add changes the table exactly as `Added` says, which `AddRequested` ties to what was asked: reference, type clash, first unused slot with the type asked for, or no room; work is scheduled only for a new slot |
| `UdpTunnels.Table.Del` | src/driver/linux_net/ef10.c:8830-8887 | a delete changes the table exactly as `Deleted` says: saturated counts stay, the last reference turns `adding` into `removing` and schedules work |
| `UdpTunnels.Table.HasPort` | src/driver/linux_net/ef10.c:8815-8828 | usable means in use and not pending |
| `UdpTunnels.Table.Begin` | src/driver/linux_net/ef10.c:8582-8588 | a worker that finds another one busy leaves; otherwise it takes a snapshot |
| `UdpTunnels.Table.TakeSnapshot` | src/driver/linux_net/ef10.c:8589-8609 | the snapshot loop collects exactly the counted, non-removing, non-zero ports and remembers which slots it sent |
| `UdpTunnels.Table.Reconcile` | src/driver/linux_net/ef10.c:8673-8692 | after success sent slots are no longer `adding`, the others no longer `removing`; goes around again exactly while a flag is left |
| `UdpTunnels.Table.MarkLost` | src/driver/linux_net/ef10.c:8638-8653 | after -EIO every counted slot is `adding` and none is `removing` |
| `UdpTunnels.AddedKeeps` | src/driver/linux_net/ef10.c:8747-8799 | an add keeps the table invariant, every programmed port programmed, and leaves nothing pending that is not scheduled |
| `UdpTunnels.AddedTracks` | src/driver/linux_net/ef10.c:8747-8799 | an add keeps what a worker in flight knows of the table through its snapshot |
| `UdpTunnels.DeletedKeeps` | src/driver/linux_net/ef10.c:8846-8870 | a delete keeps the table invariant and every programmed port programmed |
| `UdpTunnels.DeletedTracks` | src/driver/linux_net/ef10.c:8846-8870 | a delete keeps what a worker in flight knows of the table |
| `UdpTunnels.ReconciledKeeps` | src/driver/linux_net/ef10.c:8673-8692 | once the firmware holds the snapshot, every slot that is not `adding` is in it, whatever was added or deleted meanwhile |
| `UdpTunnels.FinishKeeps` | src/driver/linux_net/ef10.c:8638-8696 | the lock section after the command keeps the invariant, for every answer |
| `UdpTunnels.StepKeeps` | src/driver/linux_net/ef10.c:8559-8887 | every step of every thread keeps the invariant |
| `UdpTunnels.RunKeeps` | src/driver/linux_net/ef10.c:8559-8887 | every run of such steps keeps the invariant |
| `UdpTunnels.EveryInterleavingIsSafe` | src/driver/linux_net/ef10.c:8559-8887 | in every interleaving: at most one worker in flight, at most one in-use slot per port, `adding` implies a count and `removing` none, and a usable port is in the firmware with its type unless a worker has been told of a reboot it has not yet recorded, when the device is detached |
| `UdpTunnels.RebootWindowExample` | src/driver/linux_net/ef10.c:8636-8653 | a run that ends inside that window, with a usable port and an empty firmware |
| `UdpTunnels.WorkerLeavesInSync` | src/driver/linux_net/ef10.c:8673-8696 | a worker that leaves after success leaves the firmware equal to the counted ports and no flag pending |
| `UdpTunnels.NoUpdateIsForgotten` | src/driver/linux_net/ef10.c:8559-8887 | while a flag is pending a worker is queued, running, or the last one gave up on an error |
| `UdpTunnels.QuietRoundIsLast` | src/driver/linux_net/ef10.c:8589-8696 | a successful round without interference, the first of a worker or one begun over, is the last exactly when no in-use slot has port 0 |
| `UdpTunnels.RoundsBeginWithSnapshot` | src/driver/linux_net/ef10.c:8582-8609 | every round, the first and any begun over, works from a snapshot of the table as it is when the round begins; a worker that finds another busy changes nothing |
| `UdpTunnels.PortZeroGoesRoundForEver` | src/driver/linux_net/ef10.c:8673-8696 | along every run in which a slot with port 0 stays in use, whatever the other threads do, a worker whose commands succeed never leaves |
| `UdpTunnels.AddCounts` | src/driver/linux_net/ef10.c:8747-8799 | an accepted add raises the count of its port by one unless saturated, and no other count |
| `UdpTunnels.DelCounts` | src/driver/linux_net/ef10.c:8846-8870 | an accepted delete lowers the count of its port by one unless saturated, and no other count |
| `UdpTunnels.OtherStepsKeepCounts` | src/driver/linux_net/ef10.c:8589-8696 | the worker never changes a count |
| `UdpTunnels.CountsAreConserved` | src/driver/linux_net/ef10.c:8747-8870 | over any run an unsaturated count moves by accepted adds minus accepted deletes |
| `TunnelRequests.AddRequested` | src/driver/linux_net/ef10.c:8747-8799 | an add is accepted exactly if its port is held with that type, or is new and there is room; then the port has exactly the type asked for and one reference more, every other port keeps both, and a refused add changes nothing |
| `TunnelRequests.DelRequested` | src/driver/linux_net/ef10.c:8846-8870 | a delete is accepted exactly if its port is held with that type; it takes one reference unless saturated, the port goes with the last, every other port stays, and a refused delete changes nothing |
| `TunnelRequests.RoomIff` | src/driver/linux_net/ef10.c:8786-8799 | there is room exactly while the ports held and the removals not yet confirmed are fewer than 16 |
| `TunnelRequests.TableIsRequested` | src/driver/linux_net/ef10.c:8715-8887 | along every run the in-use slots are exactly the map from port to type and count folded from the requests, saturation included |
| `TunnelRequests.FirmwareIsRequested` | src/driver/linux_net/ef10.c:8673-8696 | when a worker leaves after success the firmware holds exactly the ports asked for with the types asked for, and exactly those are usable |
| `TunnelRequests.ErrorsAreRecorded` | src/driver/linux_net/ef10.c:8636-8660 | after a reboot every port asked for waits to be added again, none is usable and no removal waits; after a refusal the table is as it was |
| `FilterShape.SearchSingle` | src/driver/linux_net/ef10.c:6070-6114 | for a single-recipient match the search finds the one row that holds it, refuses with exactly the documented error, or takes the first free row of the window |
| `FilterShape.InsertSingle` | src/driver/linux_net/ef10.c:5973-6219 | an insert of a single-recipient match keeps every row in its 199-row probe window and the match in one row; on success exactly its cell changes, on failure no cell and no firmware filter does |
| `FilterShape.InsertSingleRc` | src/driver/linux_net/efx.h:187-200 | with a willing firmware: -EPERM exactly below the found priority (automatic inserts excepted), -EEXIST exactly at it without replace, -EBUSY only with a full window |
| `FilterShape.RemoveSingle` | src/driver/linux_net/ef10.c:6246-6320 | a removal changes exactly the cell of its row: clears the override, resets to an automatic filter, empties it, or leaves it |
| `FilterShape.InsertAtHeld` | src/driver/linux_net/ef10.c:6116-6169 | an insert into the row that holds the match |
| `FilterShape.InsertAtFree` | src/driver/linux_net/ef10.c:6131-6169 | an insert into a free row, rolled back when memory or the firmware refuses |
| `FilterMulticast.SearchMulti` | src/driver/linux_net/ef10.c:6070-6114 | for multicast the search visits the whole window and gathers exactly the rows to replace |
| `FilterMulticast.TidyRows` | src/driver/linux_net/ef10.c:6171-6206 | tidying empties only doomed rows, and all of them when it succeeds |
| `FilterMulticast.InsertOk` | src/driver/linux_net/ef10.c:5973-6219 | every insert keeps the window and the single-row property |
| `FilterMulticast.InsertSetsPriority` | src/driver/linux_net/efx.h:187-200 | a successful non-automatic insert leaves every row of its match at exactly the new priority, and one row only when equal ones are replaced |
| `FilterMulticast.FailedInsertUntouchedIff` | src/driver/linux_net/ef10.c:6161-6219 | a failed insert, whatever its error, leaves every filter, handle and firmware filter as it was exactly when no push was accepted, or the accepted one repeated what was there and the first unsubscribe was refused |
| `FilterMulticast.FailedInsertChangesNothing` | src/driver/linux_net/ef10.c:6161-6219 | so a failed insert changes nothing when the push failed or no unsubscribe is refused |
| `FilterMulticast.RefusedUnsubscribe` | src/driver/linux_net/ef10.c:6184-6210 | an accepted push followed by a refusal of the k-th unsubscribe, for any k, returns that error although the new filter is in, with the doomed rows before the k-th gone and the others left |
| `FilterLayers.InsertRefines` | src/driver/linux_net/ef10.c:6070-6169 | an insert refines the two-layer machine: the user layer is set, or the automatic one goes underneath and replaces a hint; every other match keeps both layers; errors exactly at and below the top layer |
| `FilterLayers.SuccessIsNotBelow` | src/driver/linux_net/ef10.c:6078-6082 | a successful insert was automatic or not below what it found |
| `FilterLayers.RemoveRefines` | src/driver/linux_net/ef10.c:6257-6317 | a removal at automatic priority takes only the automatic layer, any other only the user layer |
| `FilterLayers.FilterIdParts` | src/driver/linux_net/ef10.c:247-262 | an id gives back the row and the match priority it was made of |
| `FilterLayers.InsertReturnsId` | src/driver/linux_net/ef10.c:6208-6210 | the id returned by any successful insert names the row that now holds the match; an automatic one that only renews gives the bare row |
| `FilterLayers.OverrideRoundTrip` | src/driver/linux_net/filter.h:143-147 | inserting over an automatic filter and removing by the id returned gives the automatic filter back with its mark; it is the same specification exactly when it had the default form |
| `FilterSweep.MarkAll` | src/driver/linux_net/ef10.c:7072-7088 | marking sets the mark of exactly the named rows |
| `FilterSweep.RunTracks` | src/driver/linux_net/ef10.c:6117-6159 | any mix of renewals, user inserts and user removals keeps a cell safe from the sweep exactly if it was, or was renewed other than over a marked hint |
| `FilterSweep.SweepCell` | src/driver/linux_net/ef10.c:7447-7466 | the sweep applies an automatic removal to exactly the marked rows |
| `FilterSweep.MarkRenewSweep` | src/driver/linux_net/ef10.c:7447-7466 | after mark, any mix and sweep, a match has an automatic layer exactly if it had one unmarked or was renewed other than over a marked hint, which any renewal is unless a hint was marked; and no user filter is lost |
| `FilterSweep.RenewalSurvives` | src/driver/linux_net/ef10.c:6117-6159 | a single renewal survives the next sweep exactly when it did not replace a hint in a marked row |
| `FilterSweep.RenewalLostExample` | src/driver/linux_net/ef10.c:6117-6159 | a successful renewal over a marked hint that the sweep then removes |
| `FilterAgreement.InsertAgrees` | src/driver/linux_net/ef10.c:5973-6219 | an insert keeps rows and firmware filters matched one to one, with equal match, queue and RSS context |
| `FilterAgreement.RemoveAgreesIff` | src/driver/linux_net/ef10.c:6296-6317 | a removal keeps the match exactly when it does not drop the row of a filter the firmware still has |
| `FilterAgreement.ClearAgrees` | src/driver/linux_net/ef10.c:6380-6405 | a clear keeps the match and the shape of the table (what it clears: `ClearTakes`) |
| `FilterAgreement.SweepAgrees` | src/driver/linux_net/ef10.c:7447-7466 | a sweep keeps the match and the shape of the table |
| `FilterAgreement.RedirectAgrees` | src/driver/linux_net/ef10.c:6408-6499 | a redirect keeps the match and the shape of the table (where it sends: `RedirectSends`) |
| `FilterAgreement.OpAgrees` | src/driver/linux_net/ef10.c:5973-6499 | every operation keeps the match and the shape of the table |
| `FilterAgreement.EveryRunAgrees` | src/driver/linux_net/ef10.c:5973-6499 | along every run of inserts, removals, clears, redirects, marks and sweeps occupied rows and live firmware filters stay matched one to one, in window, one row per single-recipient match |
| `FilterRestore.DropUnsupported` | src/driver/linux_net/ef10.c:6927-6944 | rows whose match the firmware no longer supports are emptied, and no other |
| `FilterRestore.LevelDone` | src/driver/linux_net/ef10.c:6954-7013 | one level pushes exactly its rows, in row order |
| `FilterRestore.RestoreDone` | src/driver/linux_net/ef10.c:6901-7023 | after all levels the rows, the firmware and the pushes are what the pass promises |
| `FilterRestore.RestoreAgrees` | src/driver/linux_net/ef10.c:6901-7023 | one pass from empty firmware re-establishes the match: a row survives exactly if supported, ready and accepted, every fit row is pushed once, in decreasing match-priority index and then row order, and the shape of the table is kept |
| `FilterRestore.AgreesAcrossReset` | src/driver/linux_net/ef10.c:6901-7023 | any run, a reset that empties the firmware, one pass and any further run leave rows and firmware matched one to one and the table in shape |
| `FilterRestore.RestoreAgreesIff` | src/driver/linux_net/ef10.c:6954-7013 | with a willing firmware the match is re-established exactly when no filter's mask is listed twice |
| `FilterRestore.FailedIff` | src/driver/linux_net/ef10.c:6954-7018 | the pass is marked failed exactly if a filter whose mask is supported was lost in it |
| `FilterAnswers.AdmittedIff` | src/driver/linux_net/ef10.c:5997-6068 | an insert is turned away before the search exactly if the filter is ill-formed or names what does not exist, or is automatic or a hint while its kind is blocked; only the latter is -EPERM |
| `FilterAnswers.BlockedInsert` | src/driver/linux_net/ef10.c:6061-6067 | while a kind is blocked every insert of it at automatic priority or below is refused and changes nothing, and the block is no hindrance to a higher one |
| `FilterAnswers.InsertAnswers` | src/driver/linux_net/ef10.c:5973-6219 | a successful insert, single or multicast: the id names the row and the mask; the row has the priority, queue, RSS context and flags asked for, over an automatic filter exactly if there was one, or was only renewed; exactly the other rows of the match that yield are emptied |
| `FilterAnswers.InsertDelivers` | src/driver/linux_net/ef10.c:5765-5862 | and the firmware holds the match with the queue and RSS context asked for |
| `FilterAnswers.InsertMultiRc` | src/driver/linux_net/efx.h:187-200 | a multicast insert, with a willing firmware: -EPERM exactly below a row of its match, -EBUSY exactly when no row of the window is free or yields, success otherwise |
| `FilterAnswers.AutomaticTakesUsers` | src/driver/linux_net/ef10.c:6090-6106 | an automatic multicast insert whose first row is free empties every other row of the match, users of higher priority included |
| `FilterAnswers.RemoveFindsNothing` | src/driver/linux_net/ef10.c:6257-6272 | a removal of a layer that is not there answers -ENOENT and changes nothing |
| `FilterAnswers.RemoveUncovers` | src/driver/linux_net/ef10.c:6274-6296 | taking a user filter off an automatic one leaves, in row and firmware, the automatic filter to queue 0, over the default RSS context exactly if that exists; a refused push leaves all and its error is the answer |
| `FilterAnswers.RemoveUndermines` | src/driver/linux_net/ef10.c:6263-6269 | taking the automatic layer from under a user filter changes neither that filter nor the firmware |
| `FilterAnswers.RemoveEmpties` | src/driver/linux_net/ef10.c:6298-6317 | taking the only layer empties the row on success, -ENOENT, -EIO or a pending reset and leaves it otherwise; the answer is passed on |
| `FilterAnswers.StaleIdIsRefused` | src/driver/linux_net/ef10.c:6257-6261 | an id is refused for a row whose mask is not the one it was issued for |
| `FilterAnswers.ClearGoesTo` | src/driver/linux_net/ef10.c:6380-6405 | a clear takes row by row every user filter of at most the given priority, leaves all other layers, and ends with the error of the first row that has one; later rows are untouched |
| `FilterAnswers.ClearTakes` | src/driver/linux_net/ef10.c:6380-6405 | with a willing firmware a clear answers 0 and of every row and every single-recipient match takes exactly the user layer of at most the given priority |
| `FilterAnswers.RedirectSends` | src/driver/linux_net/ef10.c:6434-6499 | an accepted redirect puts the given queue, stack and RSS context or none into the row and the firmware; match, priority, other flags, mark and all other rows stay |
| `FilterAnswers.RedirectFails` | src/driver/linux_net/ef10.c:6424-6499 | a redirect that fails changes nothing, and with which error, for an empty row, a missing context or port, or a refused push |
| `FilterAnswers.RedirectLayers` | src/driver/linux_net/ef10.c:6434-6499 | of a single-recipient match both layers stay, a user filter goes to the queue, and no other match changes |
| `FilterAnswers.SweepTakes` | src/driver/linux_net/ef10.c:7447-7466 | a sweep takes the automatic layer of every marked row, multicast ones too, and touches nothing else |
| `FilterCode.FilterTable.Push` | src/driver/linux_net/ef10.c:5845-5862 | the push maps -ENOSPC to -EBUSY and stores the handle only on success |
| `FilterCode.FilterTable.FindRow` | src/driver/linux_net/ef10.c:6070-6114 | the search loop equals `Search` |
| `FilterCode.FilterTable.RemoveDoomed` | src/driver/linux_net/ef10.c:6171-6206 | the unsubscribe loop equals `Tidy` |
| `FilterCode.FilterTable.Insert` | src/driver/linux_net/ef10.c:5973-6219 | the insert updates rows and firmware in place exactly as the function that the shape, layer and agreement theorems are about |
| `FilterCode.FilterTable.Remove` | src/driver/linux_net/ef10.c:6246-6320 | the removal updates the row and the firmware in place exactly as the function that the layer and agreement theorems are about |
| `FilterCode.FilterTable.Clear` | src/driver/linux_net/ef10.c:6380-6405 | the clearing loop equals `Clear`, the function that `ClearGoesTo` and `ClearTakes` are about |
| `FilterCode.FilterTable.Redirect` | src/driver/linux_net/ef10.c:6408-6499 | the redirect updates row and firmware in place exactly as `Redirect`, the function that `RedirectSends` and `RedirectFails` are about |
| `FilterCode.FilterTable.MarkOneOld` | src/driver/linux_net/ef10.c:7072-7088 | exactly the named row gets the mark |
| `FilterCode.FilterTable.RemoveOld` | src/driver/linux_net/ef10.c:7447-7466 | the sweeping loop equals `Sweep` |
| `FilterCode.FilterTable.Restore` | src/driver/linux_net/ef10.c:6901-7023 | the nested restoring loops equal `Restore`, with the same pushes in the same order |
| `ResourceTable.StepKeeps` | src/driver/linux_char/efch_manager.c:122-217 | every load, store and compare-and-swap of every thread keeps the invariant, if no claim goes through past the end of its array |
| `ResourceTable.CopyAgainKeeps` | src/driver/linux_char/efch_manager.c:157-158 | the store half of a word of the second copy keeps the invariant: every resource stored between the first copy and the swap is there, on its way, or erased |
| `ResourceTable.WriteKeeps` | src/driver/linux_char/efch_manager.c:206-207 | a store through the table pointer read earlier keeps the invariant |
| `ResourceTable.RewriteKeeps` | src/driver/linux_char/efch_manager.c:209-215 | the second store after a growth keeps the invariant |
| `ResourceTable.ClaimKeeps` | src/driver/linux_char/efch_manager.c:189-201 | a guarded claim, won or lost, keeps the invariant, and with it the highwater mark within the size |
| `ResourceTable.LookupKeeps` | src/driver/linux_char/resource_table.c:31-42 | the accesses of a lookup keep the invariant |
| `ResourceTable.HighwaterStaysInside` | src/driver/linux_char/efch_manager.c:189-201 | the highwater mark stays within the size along every run, guarded or not |
| `ResourceTable.IndicesAreIssuedOnce` | src/driver/linux_char/efch_manager.c:189-201 | along every run, guarded or not, no two allocations get one index, and an issued index keeps its resource |
| `ResourceTable.GrowsOnce` | src/driver/linux_char/efch_manager.c:122-169 | along every run, guarded or not, at most one growth wins, however many threads try |
| `ResourceTable.EveryInterleavingIsSafe` | src/driver/linux_char/efch_manager.c:122-217 | in every interleaving whose successful claims are guarded the highwater mark stays within the size, every store lies inside its array, and a lookup finds nothing yet or the very resource issued that id |
| `ResourceTable.ClaimInBoundsIff` | src/driver/linux_char/efch_manager.c:189-207 | a claim that goes through leads to a store inside its array exactly when it is guarded, and the guard fails exactly when the pointer is the inline array, the size the grown one and the mark past the inline part |
| `ResourceTable.OverrunExample` | src/driver/linux_char/efch_manager.c:189-207 | a run from the empty table to such an unguarded claim, whose store falls just past the inline array |
| `ResourceTable.AtRestHeldIff` | src/driver/linux_char/efch_manager.c:148-160 | at rest an issued index holds its resource in the table that lookups use exactly unless the second copy loaded its word before the allocation stored it and stored the empty word after the allocation had finished |
| `ResourceTable.LostExample` | src/driver/linux_char/efch_manager.c:148-160 | a guarded run from the empty table that ends at rest with an issued index no lookup will find |
| `ResourceTable.AtRestEveryIndexIsHeld` | src/driver/linux_char/efch_manager.c:148-160 | if no inline word changes between its load and its store in the second copy, every issued index holds its resource at rest |
| `ResourceAnswers.AllocationEnds` | src/driver/linux_char/efch_manager.c:122-217 | an allocation ends either refused when it asks to grow, or with an index issued to its resource under which a lookup would find it |
| `ResourceAnswers.GrowRefusedIff` | src/driver/linux_char/efch_manager.c:126-136 | a request to grow is refused exactly if the size is the largest or there is no memory |
| `ResourceAnswers.FullTooSoonExample` | src/driver/linux_char/efch_manager.c:126-131 | a run in which an allocation is refused for lack of room although another thread has just grown the table |
| `ResourceAnswers.LookupReads` | src/driver/linux_char/resource_table.c:31-42 | a lookup of an id below the highwater mark reads its slot in the current table, one of any other id is turned away |
| `ResourceAnswers.LookupFinds` | src/driver/linux_char/resource_table.c:31-46 | after any run that has come to rest a lookup finds the resource issued its id, unless the second copy erased it |
| `ResourceTable.Table.Grow` | src/driver/linux_char/efch_manager.c:122-169 | one growth: the errors, and the same resources by id afterwards |
| `ResourceTable.Table.AllocateId` | src/driver/linux_char/efch_manager.c:172-217 | one allocation: the next id, appended to the resources; the errors change nothing |
| `ResourceTable.Table.LookupId` | src/driver/linux_char/resource_table.c:21-46 | the resource of an issued id, -EINVAL for any other |
| `ResourceTable.Table.Destroy` | src/driver/linux_char/resource_table.c:86-109 | every resource is freed once, in order of id |
| `EventQueue.ConsumeNext` | src/driver/linux_net/ef10.c:5396-5437 | one more event in the slot-at-a-time loop |
| `EventQueue.ConsumeInParts` | src/driver/linux_net/ef10.c:5396-5444 | a poll split in two handles what one poll would |
| `EventQueue.StopsExactlyAtQuota` | src/driver/linux_net/ef10.c:5396-5437 | a poll that starts within its budget stops exactly when the budget is used up, and at no event before (what an event costs: `PollEndsAt`) |
| `EventQueue.PollEndsAt` | src/driver/linux_net/ef10.c:5396-5437 | a poll ends with the first receive, command or driver event at which packets delivered, work reported and one per failure reach the quota; it returns that sum, exactly the quota after a receive event, or the sum over all events |
| `EventQueue.OthersAreFree` | src/driver/linux_net/ef10.c:5406-5437 | transmit, generated and unknown events can be left out without changing what a poll returns or whether it stops |
| `EventQueue.Queue.CopyLine` | src/driver/linux_net/ef10.c:5362-5372 | the copy of the rest of a line, with the adapter writing between any two words, holds a prefix of what was written; the copy is recorded, and an empty first slot was not yet written when it was read |
| `EventQueue.Queue.Turn` | src/driver/linux_net/ef10.c:5355-5388 | one turn handles the next event, drops a stale copy, or is idle; idle only if the last copy was made since the last handled event and the next slot was not written then |
| `EventQueue.Queue.Dispatch` | src/driver/linux_net/ef10.c:5385-5437 | the event is taken out of the ring and charged; the copy stays good for the next |
| `EventQueue.Queue.Process` | src/driver/linux_net/ef10.c:5338-5444 | the loop handles the events in order, none skipped or repeated, and returns what `PollEndsAt` says of the events it handled; a return not for quota comes only after a copy made in this poll, since the last handled event, that found the next slot not written, so everything written before the poll is handled |
| `RxEvents.DescriptorsAre` | src/driver/linux_net/ef10.c:5067-5068 | the four pointer bits give the number of completed descriptors modulo 16, across the wrap of the counter |
| `RxEvents.TracksIff` | src/driver/linux_net/ef10.c:5067-5112 | after any plausible event `removed_count + scatter_n` equals the hardware pointer exactly when it was fewer than 16 ahead |
| `RxEvents.FragmentsAccumulate` | src/driver/linux_net/ef10.c:5105-5112 | the fragments of a scattered packet add up and the last one hands it up whole |
| `RxEvents.BatchStep` | src/driver/linux_net/ef10.c:5086-5104 | a merged completion hands up that many single packets |
| `RxEvents.AbortHandled` | src/driver/linux_net/ef10.c:4910-4928 | an aborted packet is discarded with all its fragments |
| `RxEvents.RunIsHandledUp` | src/driver/linux_net/ef10.c:5026-5181 | any sequence of packets, merged completions and aborts is handed up exactly, in order, from any count and across the 32-bit wrap, without a reset |
| `RxEvents.EveryRunTracks` | src/driver/linux_net/ef10.c:5026-5181 | wherever a run has got to, also inside a packet, what is complete has been handed up, the fragments since are counted, and `removed_count + scatter_n` is the adapter's pointer |
| `RxEvents.EveryDescriptorOnce` | src/driver/linux_net/ef10.c:5171-5181 | the descriptors that the handler hands up along a run, which may end inside a packet, are the ring slots in order, each once |
| `RxEvents.EveryPacketReported` | src/driver/linux_net/ef10.c:5115-5181 | along a run the numbers reported to the event loop add up to the packets received whole, alone or merged |
| `RxEvents.CountIsDelivered` | src/driver/linux_net/ef10.c:5070-5181 | whatever the event, the number reported is that of the packets handed up to be kept |
| `RxEvents.ResetIff` | src/driver/linux_net/ef10.c:5070-5094 | the datapath is reset exactly for an event that no number of descriptors explains, and then nothing is handed up and no count moves |
| `RxEvents.RxQueue.Abort` | src/driver/linux_net/ef10.c:4910-4928 | the fragments so far are handed up to be discarded and the count moves past them |
| `RxEvents.RxQueue.HandleEvent` | src/driver/linux_net/ef10.c:5067-5181 | the handler, updating the counters in place, hands up and counts exactly what `Handle` says |
| `RxEvents.RxQueue.DeliverAll` | src/driver/linux_net/ef10.c:5171-5177 | the delivery loop hands up one packet per turn and advances the wrapping count by its fragments |
| `RxDoorbell.RoundDownWraps` | src/driver/linux_net/ef10.c:4650-4651 | masking the wrapped counter is wrapping the masked count |
| `RxDoorbell.RxRing.Post` | src/driver/linux_net/rx.c:262-271 | a buffer goes into a slot of the software ring that no outstanding buffer has |
| `RxDoorbell.RxRing.BuildOne` | src/driver/linux_net/ef10.c:4630-4642 | one descriptor is built, never over one that the adapter owns |
| `RxDoorbell.RxRing.BuildUpTo` | src/driver/linux_net/ef10.c:4652-4657 | the building loop ends at the rounded count, each position built once in order |
| `RxDoorbell.RxRing.Write` | src/driver/linux_net/ef10.c:4644-4664 | after a doorbell the notified count is a multiple of 8, less than 8 behind the added count, and no owned descriptor has changed |
| `RxDoorbell.RxRing.WriteIfNew` | src/driver/linux_net/ef10.c:4666-4676 | the doorbell is skipped exactly when there is nothing new |
| `Gcov.SizeofCounterData` | src/driver/linux/gcov.c:811-821 | the length of a serialised counter section |
| `Gcov.SizeofFuncData` | src/driver/linux/gcov.c:823-835 | the length of a serialised function |
| `Gcov.SizeofFile` | src/driver/linux/gcov.c:837-848 | the length of the serialised file |
| `Gcov.StoreCounter` | src/driver/linux/gcov.c:875-894 | the bytes of the counter that the two offset loops select |
| `Gcov.StoreCounterData` | src/driver/linux/gcov.c:901-949 | for every offset and count stores exactly that slice of the counter section, or -EFAULT |
| `Gcov.StoreFuncData` | src/driver/linux/gcov.c:954-1026 | for every offset and count stores exactly that slice of the function, or -EFAULT |
| `Gcov.StoreFile` | src/driver/linux/gcov.c:1032-1096 | for every offset and count stores exactly that slice of the serialised file and touches nothing else, or -EFAULT |
| `Gcov.ChunksReassemble` | src/driver/linux/gcov.c:1032-1096 | reads in any chunk sizes concatenate to one slice |
| `Gcov.ChunksGiveFile` | src/driver/linux/gcov.c:1032-1096 | reads in any chunk sizes that reach the end give the whole file |
| `Gcov.EveryCounterOnce` | src/driver/linux/gcov.c:875-894 | over all functions the sections of a type store its counters one after the other, each once |
| `Gcov.StoredCounterFaithfulIff` | src/driver/linux/gcov.c:865-870 | a stored counter reads back exactly when its bits 16 to 31 are clear |
| `Gcov.NestedPiece` | src/driver/linux/gcov.c:1000-1011 | a slice of a part is the next piece of the slice of the whole |
| `GcovRecords.FileReadsBack` | src/driver/linux/gcov.c:811-1096 | a reader of tagged records finds the magic number, version and stamp, and then every function with ident and checksum followed, for every active type, by exactly its own counters as the two words stored of each |
| `DumpIndex.Up` | src/driver/linux_net/dump.c:41-43 | the fewest index pages with an entry for each of so many pages |
| `DumpIndex.DepthIsFirstSmall` | src/driver/linux_net/dump.c:277-286 | the depth is the first level of at most one page |
| `DumpIndex.Plan` | src/driver/linux_net/dump.c:277-286 | level shrinking ends, and the totals are the sum of all levels plus the root |
| `DumpIndex.FollowStep` | src/driver/linux_net/dump.c:316-334 | one level down along a digit leads to the page the digits so far name |
| `DumpIndex.RootReachesEveryPage` | src/driver/linux_net/dump.c:316-334 | the base-512 digits of any data page lead from the root to its address |
| `DumpIndex.WriteEntry` | src/driver/linux_net/dump.c:322-329 | one entry is written, in bounds and not written before |
| `DumpIndex.Populate` | src/driver/linux_net/dump.c:316-334 | every entry is written exactly once, with the address of its page |
| `DumpIndex.DumpBuffer.Alloc` | src/driver/linux_net/dump.c:264-345 | the built index: sizes, root, every page reached, or -ENOMEM |
| `Bitfield.ExtractIs` | src/driver/linux_net/bitfield.h:151-194 | extracting a field gives its bits and nothing else, across element boundaries |
| `Bitfield.InsertBit` | src/driver/linux_net/bitfield.h:270-285 | a fitting value contributes exactly its bits to an element, in 32-bit and in 64-bit arithmetic |
| `Bitfield.PopulateBits` | src/driver/linux_net/bitfield.h:303-356 | a populated structure has exactly the bits that some field sets |
| `Bitfield.PopulateThenExtract` | src/driver/linux_net/bitfield.h:151-356 | populating disjoint fields with fitting values and extracting any of them gives its value |
| `Bitfield.FormsBuildTheSame` | src/driver/linux_net/bitfield.h:333-356 | the 32-bit and 64-bit forms build the same bits |
| `Bitfield.FormsReadTheSame` | src/driver/linux_net/bitfield.h:172-194 | the 32-bit and 64-bit forms read the same value out of the same bits, for widths up to 32 |
| `Bitfield.SetReplaces` | src/driver/linux_net/bitfield.h:484-533 | setting a field makes its bits the value and changes no other bit |
| `Bitfield.SetThenExtract` | src/driver/linux_net/bitfield.h:484-533 | a field that was set reads back, and every disjoint field reads as before |
| `Bitfield.DummyInsertsNothing` | src/driver/linux_net/bitfield.h:270-285 | the dummy field inserts nothing whatever its value |
| `Bitfield.Structure.PopulateAll` | src/driver/linux_net/bitfield.h:333-356 | the structure afterwards is the populated one, every element overwritten |
| `Bitfield.Structure.SetField` | src/driver/linux_net/bitfield.h:490-533 | the structure afterwards is `Set` of the old one, element by element through mask and insert |
| `Bitfield.Structure.GetField` | src/driver/linux_net/bitfield.h:151-194 | the or of the shifted elements, masked, is `Extract` of the structure |
| `FilterList.SearchMeets` | src/driver/linux_char/filter_list.c:169-185 | the cyclic search ends, returns the first free id it meets, and fails only after meeting every id |
| `FilterList.GeneratedIsFirstFree` | src/driver/linux_char/filter_list.c:159-187 | a generated id is in range, not in the list and the first such; -ENOENT exactly when every id is in use |
| `FilterList.EveryHistoryIsValid` | src/driver/linux_char/filter_list.c:159-187 | through any history of additions and deletions, and any number of wraps, the ids are distinct and in range and the next one is new |
| `FilterList.IncreasingUntilWrap` | src/driver/linux_char/filter_list.c:159-187 | before the first wrap no id is handed out twice, even after deletions |
| `FilterList.EveryHistoryIsHeld` | src/driver/linux_char/filter_list.c:280-446 | through any history the list, as a multiset, is the ids handed out and the blocks added less one entry for every deletion that named one |
| `FilterList.List.GenId` | src/driver/linux_char/filter_list.c:159-187 | the search loop, with the counter and the wrap flag updated in place, answers the first free id or -ENOENT |
| `FilterList.List.AddFilter` | src/driver/linux_char/filter_list.c:280-286 | the id answered is appended to the list, or the error changes nothing but the counter |
| `FilterList.List.AddBlockKernel` | src/driver/linux_char/filter_list.c:126-148 | an entry without an id of its own |
| `FilterList.List.Delete` | src/driver/linux_char/filter_list.c:424-446 | the first entry with the id goes, and exactly one, or -EINVAL |
| `Driverlink.InsertKeepsOrder` | src/driver/linux_net/driverlink.c:184-200 | inserting at the end of the priority level keeps the list sorted by priority, then by order of probing |
| `Driverlink.TryAddOkIff` | src/driver/linux_net/driverlink.c:137-215 | a probe keeps counts, order and uniqueness exactly unless it was refused while the client held a block (what it adds: `TryAddAdds`) |
| `Driverlink.DroppedOk` | src/driver/linux_net/driverlink.c:91-135 | removing a client takes its blocks off the counts, unblocks exactly at zero, and keeps the order |
| `Driverlink.RegisterDriverOk` | src/driver/linux_net/driverlink.c:238-272 | registering a driver tries it exactly once on every adapter it supports |
| `Driverlink.RegisterNicOk` | src/driver/linux_net/driverlink.c:289-298 | registering an adapter tries every driver that supports it exactly once |
| `Driverlink.UnregisterDriverOk` | src/driver/linux_net/driverlink.c:217-233 | unregistering a driver leaves no client of it anywhere |
| `Driverlink.UnregisterNicOk` | src/driver/linux_net/driverlink.c:275-287 | unregistering an adapter keeps the rest in order |
| `Driverlink.RemovedInReverse` | src/driver/linux_net/driverlink.c:275-287 | its clients are removed in the reverse of the list order |
| `Driverlink.BlockOk` | src/driver/linux_net/driverlink.c:782-804 | a block keeps the adapter's count equal to the sum of its clients' |
| `Driverlink.UnblockOk` | src/driver/linux_net/driverlink.c:806-824 | an unblock, also of a block that is not held, keeps the counts equal to the sums |
| `Driverlink.EveryRunKeeps` | src/driver/linux_net/driverlink.c:91-298 | in any order of registrations, removals, blocks and unblocks: every pair registered together was tried exactly once, lists are stably sorted, counts are sums, blocked exactly while positive |
| `DriverlinkClients.TryAddAdds` | src/driver/linux_net/driverlink.c:137-215 | a probe accepted on a supported adapter adds exactly its client, with the blocks it took, to the list and those blocks to the counts; any other leaves the list alone |
| `DriverlinkClients.BlockIs` | src/driver/linux_net/driverlink.c:782-804 | a block call gives the client one block more exactly unless the adapter is asked and refuses, and changes no other client |
| `DriverlinkClients.UnblockIs` | src/driver/linux_net/driverlink.c:806-824 | an unblock call takes one block from the client exactly unless it holds none, and changes no other client |
| `DriverlinkClients.UnregisterDriverKeeps` | src/driver/linux_net/driverlink.c:217-233 | unregistering a driver removes exactly its clients; adapters and other clients stay |
| `DriverlinkClients.UnregisterNicKeeps` | src/driver/linux_net/driverlink.c:275-287 | unregistering an adapter removes it and exactly its clients; the other adapters and their clients stay |
| `DriverlinkClients.EveryRunIsBooked` | src/driver/linux_net/driverlink.c:91-298 | after every run the drivers, the adapters and, per driver and adapter, the client and its blocks are exactly those folded from the calls: accepted, not since removed, taken and not given back |
| `Driverlink.Registry.TryAddDevice` | src/driver/linux_net/driverlink.c:137-215 | the object afterwards is the old one with the probe recorded and the client, if accepted, at the end of its priority level with the blocks it took |
| `Driverlink.Registry.RegisterDriver` | src/driver/linux_net/driverlink.c:238-272 | the object afterwards is `DriverRegistered` of the old one, in order unless a client refused while it held a block; a driver that makes no promise or wants a newer interface is refused and changes nothing |
| `Driverlink.Registry.RegisterNic` | src/driver/linux_net/driverlink.c:289-298 | the object afterwards is `NicRegistered` of the old one, in order unless a client refused while it held a block |
| `Driverlink.Registry.DelDevice` | src/driver/linux_net/driverlink.c:91-135 | the client leaves the list and, one block type after the other, its blocks leave the counts |
| `Driverlink.Registry.UnregisterDriver` | src/driver/linux_net/driverlink.c:217-233 | the object afterwards is `DriverUnregistered` of the old one and is in order |
| `Driverlink.Registry.UnregisterNic` | src/driver/linux_net/driverlink.c:275-287 | the loop removes the clients from the last to the first, then the adapter; the rest is in order |
| `Driverlink.Registry.FilterBlockKernel` | src/driver/linux_net/driverlink.c:782-804 | the client holds one block more unless the adapter refused the first one, and then nothing changed; in order |
| `Driverlink.Registry.FilterUnblockKernel` | src/driver/linux_net/driverlink.c:806-824 | the client holds one block less, or nothing changed if it held none; in order |
| `SfcMask.RunsAreMaximal` | scripts/sfcmask.py:105-125 | the printed ranges are the maximal runs of one bits, in order, and together the mask |
| `SfcMask.DecRoundTrip` | scripts/sfcmask.py:115-117 | a printed number reads back |
| `SfcMask.ListRoundTrip` | scripts/sfcmask.py:92-125 | a mask printed as a list reads back for every mask but zero, whose text is refused |
| `SfcMask.HexRoundTrip` | scripts/sfcmask.py:83-138 | a mask printed as hexadecimal words reads back, for every mask |
| `SfcMask.HexTextIsRead` | scripts/sfcmask.py:141-151 | `to_int` takes every hexadecimal text for what it is |
| `SfcMask.ListTextIsReadIff` | scripts/sfcmask.py:141-151 | `to_int` reads a list text correctly exactly when the mask is not zero and every piece has at most seven characters |
| `SfcMask.SmallIsShort` | scripts/sfcmask.py:58-66 | every mask below 2^1000 has pieces of at most seven characters |
| `SfcMask.IntToCommaSepList` | scripts/sfcmask.py:105-125 | the loop prints exactly the runs |
| `SfcMask.CommaSepListToInt` | scripts/sfcmask.py:92-102 | the loop reads the union of the pieces, or fails |
| `SfcMask.IntToCommaSepHex` | scripts/sfcmask.py:128-134 | the loop prints the words, the highest first |
| `SfcMask.CommaSepHexToInt` | scripts/sfcmask.py:83-89 | the loop reads words of 32 bits |

## Left out

- Firmware message layouts, register writes, DMA, barriers, interrupts and locks as kernel objects: atomic steps, a firmware value and arbitrary answers stand for them.
- The tunnel worker's unloading path, adapters without tunnel support, and the reset that a successful tunnel update may announce.
- Attaching the device while a worker holds an unrecorded reboot answer: excluded as the driver only re-attaches after the reset.
- `stack_id` and `vport_id` agreement between a replaced row and the firmware.
- The per-VLAN id bookkeeping and the promiscuous fallback around mark, renew and sweep.
- A second restore pass after one that partly failed.
- FilterAgreement.EveryRunAgrees: assumes that a failed firmware command had no effect and that handles are not handed out twice; `RemoveAgreesIff` says what happens otherwise.
- ResourceTable.EveryInterleavingIsSafe: runs in which a claim that fails the guard goes through are excluded; debug assertions and the memory behind the inline array are not part of this model.
- EventQueue.Queue.Process: the adapter writes at most `limit` events in all, any number; the loop of the driver ends only when the adapter pauses.
- The receive event's checksum and class flags, its early return during a pending reset, statistics and warnings.
- RxDoorbell.RxRing.Post: recycled buffers that push the added count past the ring are not modelled; at most a ring of buffers is outstanding.
- GcovRecords.FileReadsBack: for numbers that fit their fields; a counter count of 2^31 or more wraps its length word.
- The coverage reader's proc tree, older compiler branches and big-endian hosts.
- The dump buffer's page contents other than the index, and its freeing.
- Bitfield.PopulateThenExtract: for widths up to that of an element, as wider extractions shift by the width of the word or more.
- Driverlink: the own device list of a driver (it is in the order of the adapters), the value returned by a block call when the adapter is already blocked, durations and names.
- SfcMask.CommaSepListToInt: refuses the plus signs, blanks and underscores that Python's `int` accepts in a number.
- SfcMask.CommaSepHexToInt: refuses the same, and a minus sign, whose result would be a negative mask.
- SfcMask: integer lists, and the `minlen` form of the hexadecimal printer.
- FilterList: the allocation and the insertion of the filter itself, before its id is generated.
- debugfs, statistics, SR-IOV, PTP, licensing, memory registration, mmap, virtual interfaces and processor affinity tools: foreign calls or easier members.
