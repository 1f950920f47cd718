# Verified models of the photo library's core

This project models, in Dafny, the parts of the photo library whose correctness is hardest to see from
the code, and proves what they promise for every input and every interleaving.

Concurrent code is a machine: a state, a total function that takes one atomic step of one thread, and
`Exec`, which takes the steps of any schedule. Everything the code does not decide (the outcome of a file
operation, a spurious exchange failure, elapsed time, which of several oldest entries is evicted) is a
parameter of the step, so a statement about every schedule covers every outcome. Beside the machines stand
classes and methods with the code's own loops and in-place updates, proved against the machines' functions:
a call that nothing disturbs takes the steps that the machine takes, and a compare-and-exchange loop of the
preview cache, disturbed or not, ends with the machine's step.

| module | models |
|---|---|
| `PreviewCache`, `PreviewCacheProofs`, `PreviewCacheRuns`, `PreviewCacheOutcomes` | the preview cache: reservations, staging targets, commits, discards and installation |
| `Inventory`, `InventoryTurns`, `InventoryPages`, `InventoryRetries`, `InventoryResume`, `InventoryFrontiers`, `LocalMetadataInventory` | the paged metadata inventory of a directory tree, requests that go on after errors, and resumption from a durable frontier |
| `ChangeSource`, `ChangeSourceProofs`, `ChangeSourceRuns`, `ChangeSourceContents`, `ChangeSourceReports`, `LibraryChangeSource` | live change notifications with evidence gaps |
| `Hamming`, `BandIndex` | the four-band index over perceptual hashes |
| `Usn`, `UsnRecords` | following file references to paths through journal records |
| `AnalysisGate` | ticketed admission to background analysis |
| `MaintenanceControl` | interrupting catalog maintenance |
| `IdentityJournal`, `IdentityJournalRuns`, `IdentityRetention`, `IdentitySession` | the registry of journal roots |
| `Vocabulary` | opening a concept vocabulary and reading it in pages |
| `MultiSz` | the bounded reader of a service's privileges |
| `Options`, `MapSums` | result types; sums over finite maps |

## What turned out not to hold

- Preview cache: all counted files together can exceed the budget when deletions fail. In every run, and for
  every subset of staged previews that commits, they settle within the budget (or what was counted at the
  start) and the bytes whose deletion failed (`CountedFilesSettleWithinBudget`). That excess is exact:
  `ExcessIsTheLeak` shows by a run for every size that no smaller one will do (`RetainedFileExceedsBudget`).
- Preview cache: the counter holds every admitted reservation exactly if budget and replaced file together
  fit 64 bits and the budget is not the largest 64-bit number (`AdmissionFitsIff`). All runs of all stores opened
  within a budget keep an exact account exactly if twice the budget fits (`AccountFitsIff`).
- Inventory: a scope that is a single entry other than a directory, read with a page limit of one, fails with an
  invalid frontier, and the entry is lost to later pages (`NextPageDelivers`, `LonePage`, `LoneEntryIsLost`).
- Inventory: a cancelled page loses what it had read. It loses nothing exactly if the flag was seen before its
  first entry was read (`NothingIsLostIff`), and every entry can be lost that way (`CancelledEntryIsLost`).
- Inventory: a page that meets a directory too deep to open fails, and later pages miss what it had read and everything
  below that directory (`DepthErrorLoses`); completion is reported all the same. 1025 directories one inside the other
  are reported as a complete inventory without an entry (`NestIsReportedEmpty`). Over requests that go on after errors, a
  completed inventory is whole, however it is asked for, exactly if the scope keeps within the depth limit
  (`CompletionIsWholeIff`); whoever stops at the first error is never misled (`StoppedRunIsWhole`).
- Change source: a single path is not always known to be no directory. A directory whose old name is unknown is
  reported by itself (`MovedDirectoryIsReportedAlone`). `ScopeIff` says exactly when a path is reported by itself;
  for the unpaired renames among them `UnpairedRenamesAreUnderAGap` shows what makes that safe.
- Registry: two overlapping registrations of different generations of one root can both be registered.
  Operations issued together keep one generation per root under every schedule exactly if no two acceptable
  registrations among them disagree about a generation (`OneGenerationIff`); registrations that do not overlap
  always keep it (`SerialKeepOneGeneration`, `ApartKeepOneGeneration`).
- Resolution: an error can leave references in the visiting set, as it does for a file that is its own parent
  (`SelfParentIsLeftBehind`). `RestoredIff` says exactly when the set is restored.

## Model

| member | source | states |
|---|---|---|
| PreviewCacheRuns.EveryRunIsSafe | rust/src/adapters/preview_cache.rs:143-376 | in every interleaving of publications, commits and discards: used bytes equal installed, retained, stranded and reserved files; staging targets are exactly the paths owned by one publication each; and whichever subset of the staged previews commits while the rest is discarded, the artifacts settle within what the budget, or what was counted at the start, leaves beside the files left over from before |
| PreviewCacheRuns.CountedFilesSettleWithinBudget | rust/src/adapters/preview_cache.rs:604-695 | in every run and for every subset, all counted files settle within the budget or the bytes counted at the start, and the bytes whose deletion failed on the way |
| PreviewCacheRuns.ExcessIsTheLeak | rust/src/adapters/preview_cache.rs:320-344 | every run that leaks so many bytes settles within the bound and an excess if the excess covers those bytes, and only if, where twice the leak fits the counter |
| PreviewCacheRuns.CountedFilesStayWithinBudget | rust/src/adapters/preview_cache.rs:670-695 | a store opened within budget has everything it counts within budget in every later state, up to failed deletions |
| PreviewCacheRuns.ApplySafe | rust/src/adapters/preview_cache.rs:555-711 | each atomic step of any publication keeps exclusivity, conservation, fresh sizes, the install lock and the bound over all subsets |
| PreviewCacheRuns.ArtifactsStayWithinBudget | rust/src/adapters/preview_cache.rs:604-649 | a store whose artifacts are within budget at the start has its artifacts within budget in every later state, whatever fails |
| PreviewCacheRuns.BudgetIsFixed | rust/src/adapters/preview_cache.rs:92-125 | no run changes the budget |
| PreviewCacheRuns.ReleaseIsExact | rust/src/adapters/preview_cache.rs:697-711 | in every reachable state a release removes exactly its bytes from the counter: the saturating subtraction never clamps |
| PreviewCacheRuns.IdleCountsTheDisk | rust/src/adapters/preview_cache.rs:310-376 | once all publications are over no target is staged and the counter is the size of the counted files |
| PreviewCacheRuns.UsedIsBounded | rust/src/adapters/preview_cache.rs:670-711 | from any start and in any interleaving the counter never exceeds its start or the budget plus the largest replaced file |
| PreviewCacheRuns.SettlesBelowIff | rust/src/adapters/preview_cache.rs:143-269 | of all subsets of a store's staged previews those that grow their artifact settle highest: a bound holds for all subsets exactly if it holds for them |
| PreviewCacheRuns.RetainedFileExceedsBudget | rust/src/adapters/preview_cache/installation.rs:146-180 | for every size, a run of one refresh of a full cache whose previous file cannot be deleted ends with twice the budget counted |
| PreviewCacheRuns.AdmissionFitsIff | rust/src/adapters/preview_cache.rs:670-695 | admission never lets the counter overflow exactly if budget and replaced size together fit 64 bits and the budget is below the largest 64-bit number |
| PreviewCacheRuns.AccountFitsIff | rust/src/adapters/preview_cache.rs:670-711 | every run of every store opened within a budget keeps its account exact if and only if twice the budget fits the 64-bit counter |
| PreviewCacheRuns.RejectionIsRemembered | rust/src/adapters/preview_cache.rs:676-680 | a refused reservation leaves a record of at least the missing bytes through every later step until the record is taken |
| PreviewCacheRuns.EveryExitFreesTheTarget | rust/src/adapters/preview_cache.rs:347-376 | whatever fails, a publication that runs on ends and frees exactly its own target |
| PreviewCacheRuns.CommitSettles | rust/src/adapters/preview_cache.rs:143-283 | in a safe store a commit that meets no failure makes the staged preview the artifact and gives the replaced bytes back, or, if a usable artifact or the budget stops it, gives its own bytes back; a discard likewise |
| PreviewCacheRuns.NoDeadlock | rust/src/adapters/preview_cache.rs:292-318 | in every reachable state some unfinished publication has a step that brings it closer to its end |
| PreviewCacheProofs.AdmitKeepsBudget | rust/src/adapters/preview_cache.rs:670-695 | what a reservation checks suffices for every subset of outstanding previews, the new one included |
| PreviewCacheProofs.InstallKeepsBudget | rust/src/adapters/preview_cache.rs:218-267 | turning a staged preview into the artifact keeps every remaining subset within the bound |
| PreviewCacheProofs.LossKeepsBudget | rust/src/adapters/preview_cache/installation.rs:146-180 | losing the artifact in a failed restore keeps every subset within the bound |
| PreviewCacheProofs.ShrinkKeepsBudget | rust/src/adapters/preview_cache.rs:271-283 | discarding previews keeps every remaining subset within the bound |
| PreviewCacheProofs.OverlayBound | rust/src/adapters/preview_cache.rs:670-695 | a subset settles to at most the artifacts plus its own previews |
| PreviewCacheProofs.PublishSafe | rust/src/adapters/preview_cache.rs:555-650 | acquisition, encoding, reservation and refusal keep all of the invariant |
| PreviewCacheProofs.SettleSafe | rust/src/adapters/preview_cache.rs:143-217 | entering a commit or a discard, reuse of an existing artifact and the commit-time refusal keep all of the invariant |
| PreviewCacheProofs.InstallSafe | rust/src/adapters/preview_cache/installation.rs:34-180 | every outcome of an installation keeps all of the invariant |
| PreviewCacheProofs.LeaveSafe | rust/src/adapters/preview_cache.rs:310-376 | deletion, release and the two guards keep all of the invariant |
| PreviewCacheProofs.ChargeCovered | rust/src/adapters/preview_cache.rs:320-344 | what a publication still has reserved is covered by the counter |
| PreviewCacheOutcomes.RefusedIffTooLarge | rust/src/adapters/preview_cache.rs:670-695 | each step of a reservation, in every store: it is refused exactly if the used bytes less the replaced ones and its own exceed the budget, so a preview that fits never is; it is counted exactly if the value it has seen is still the current one |
| PreviewCacheOutcomes.CountersChangeBy | rust/src/adapters/preview_cache.rs:670-719 | no step changes the counter but an exchange that finds the value it has seen, and none the record of missing bytes but a refusal and its taking |
| PreviewCacheOutcomes.FittingPreviewIsStaged | rust/src/adapters/preview_cache.rs:555-643 | a new publication with a free target and a preview that fits ends up staged, with its bytes counted and nothing else changed |
| PreviewCacheOutcomes.TooLargePreviewIsRefused | rust/src/adapters/preview_cache.rs:604-618 | one that does not fit leaves nothing but a record of the missing bytes |
| PreviewCacheOutcomes.LeftoversGrowByFailedDeletions | rust/src/adapters/preview_cache.rs:320-344 | files are left over by a deletion that fails, with their bytes, and by no other step |
| PreviewCacheOutcomes.LeakedIsFailedDeletions | rust/src/adapters/preview_cache.rs:320-344 | what a run leaks is the total of the deletions that failed in it |
| PreviewCacheOutcomes.ArtifactsChangeIff | rust/src/adapters/preview_cache/installation.rs:34-180 | an artifact changes exactly when its publication installs a preview, and goes exactly when a replacement fails halfway |
| PreviewCacheOutcomes.LateArtifactIsReplaced | rust/src/adapters/preview_cache.rs:218-232 | an artifact that appears between the size being read and the installation is replaced, and its own bytes are given back |
| PreviewCacheOutcomes.DiscardSettles | rust/src/adapters/preview_cache.rs:271-283 | in a safe store a discard that meets no failure deletes its file and gives its bytes back, leaving artifacts and leftovers as they were |
| PreviewCacheOutcomes.UnusableIsReplaced | rust/src/adapters/preview_cache.rs:167-267 | an artifact that is not usable does not stop a commit |
| PreviewCache.LocalPreviewStore.constructor | rust/src/adapters/preview_cache.rs:102-125 | a store starts with its budget, the counted bytes and no rejection |
| PreviewCache.LocalPreviewStore.ReserveStaged | rust/src/adapters/preview_cache.rs:670-695 | against any values other threads leave, a reservation is admitted exactly if it fits the last of them, in plain arithmetic, and then adds its bytes to that value; a refused one leaves the counter and records the shortfall; either way that is the machine's step from the value the others left |
| PreviewCache.LocalPreviewStore.Release | rust/src/adapters/preview_cache.rs:697-711 | against any values other threads leave, the bytes come off the last of them, as in the machine's step |
| Inventory.ListingHasNoRepeats | rust/src/adapters/local_metadata_inventory.rs:310-408 | the recursive listing of a tree names no path twice |
| InventoryPages.ScopeHasNoRepeats | rust/src/adapters/local_metadata_inventory.rs:77-119 | neither does the listing of any scope, subtrees included |
| Inventory.LibraryIsStable | rust/src/adapters/local_files/directory_enumeration.rs:138-173 | in a well-formed tree every listed path leads back to its own entry |
| Inventory.LookupChild | rust/src/adapters/local_files/directory_enumeration.rs:138-173 | looking up a child's path gives that child, and directories are sorted |
| InventoryTurns.TurnKeeps | rust/src/adapters/local_metadata_inventory.rs:332-388 | each turn of the page loop emits exactly the next entry of the listing, or moves on without losing one, or ends with nothing left, and is one turn closer to the end |
| InventoryTurns.TurnFits | rust/src/adapters/local_metadata_inventory.rs:219-261 | a turn fails only if the tree is too deep, and otherwise keeps both being and not being too deep |
| InventoryPages.PageLoopTakes | rust/src/adapters/local_metadata_inventory.rs:331-388 | a page takes a prefix of the remaining listing and leaves the rest; if it is not full nothing remains |
| InventoryPages.PageLoopBoundary | rust/src/adapters/local_metadata_inventory.rs:331-388 | after a full page the walk stands right behind the last entry it gave |
| InventoryPages.PageLoopErrors | rust/src/adapters/local_metadata_inventory.rs:331-388 | the loop fails only by cancellation or depth |
| InventoryPages.PageLoopFits | rust/src/adapters/local_metadata_inventory.rs:219-261 | the depth error means the tree is too deep; a page keeps both being and not being too deep |
| InventoryPages.CancelledPageLoses | rust/src/adapters/local_metadata_inventory.rs:332-338 | a cancelled page has consumed exactly what the turns before the cancellation emitted, fewer entries than a page holds, and they are gone from the walk |
| InventoryPages.NothingIsLostIff | rust/src/adapters/local_metadata_inventory.rs:332-338 | nothing is lost exactly if the flag was seen within as many turns as it takes to open the pending directory and to close the exhausted ones on top, none if an entry is pending |
| InventoryPages.CancelledEntryIsLost | rust/src/adapters/local_metadata_inventory.rs:332-338 | from every walk with an entry left, a cancellation right after that entry was read loses exactly it |
| InventoryPages.NextPageDelivers | rust/src/adapters/local_metadata_inventory.rs:310-408 | for admitted depth a page is exactly the next entries, complete exactly if they run out first; it fails exactly for a lone entry and limit one |
| InventoryPages.LonePage | rust/src/adapters/local_metadata_inventory.rs:263-306 | that failure consumes the entry |
| InventoryPages.LoneEntryIsLost | rust/src/adapters/local_metadata_inventory.rs:263-306 | asking again then gives a complete and empty inventory |
| InventoryPages.TooDeepPageIsNotLast | rust/src/adapters/local_metadata_inventory.rs:310-408 | while a directory too deep to open lies ahead, a page that succeeds is not the last and leaves it ahead |
| InventoryRetries.DepthErrorLoses | rust/src/adapters/local_metadata_inventory.rs:339-349 | a page that fails for depth has lost exactly what it had read, fewer entries than a page holds, and everything below the directory it could not open; the rest still lies ahead |
| InventoryRetries.RequestTakes | rust/src/adapters/local_metadata_inventory.rs:310-408 | a request gives a page or fails for depth; either way no more is given than is taken off the walk, and unless it was the last page the walk can be asked again |
| InventoryRetries.CompletionIsWholeIff | rust/src/adapters/local_metadata_inventory.rs:77-408 | for every tree and scope, over all requests that go on after errors: whenever completion is reported the whole listing of the scope was given, if and only if the scope is no deeper than can be open at once |
| InventoryRetries.WithinDepthIsWhole | rust/src/adapters/local_metadata_inventory.rs:310-408 | within the depth limit, requests that are told of completion have given all that remained |
| InventoryRetries.LosingRequests | rust/src/adapters/local_metadata_inventory.rs:339-349 | beyond it some requests are told of completion and have given fewer entries than remained |
| InventoryRetries.AskUntilComplete | rust/src/adapters/local_metadata_inventory.rs:310-408 | from every walk, whoever keeps asking is told of completion in the end, whatever fails for depth on the way |
| InventoryRetries.StoppedRunIsWhole | rust/src/adapters/local_metadata_inventory.rs:77-408 | for every tree, scope and sequence of limits, a run that stops at the first error and is told of completion has listed the whole scope |
| InventoryRetries.NarrowIsReportedEmpty | rust/src/adapters/local_metadata_inventory.rs:339-349 | over every walk that is too deep, has room on one page and finds one entry to a directory, that page fails and the next is complete and empty |
| InventoryRetries.NestIsReportedEmpty | rust/src/adapters/local_metadata_inventory.rs:219-222 | a library of nested directories, one or more too many, for which the first page fails and the next reports a complete and empty inventory |
| InventoryPages.PagesSpellTheListing | rust/src/adapters/local_metadata_inventory.rs:310-408 | for any page limits the pages spell what remains of the listing from its start; all but the last are full and incomplete, and the last is complete exactly if the limits exceed the listing |
| InventoryPages.NewWalk | rust/src/adapters/local_metadata_inventory.rs:77-119 | a new inventory has the whole listing of its scope ahead of it, also for missing and lone scopes |
| InventoryPages.InventoryListsTheScope | rust/src/adapters/local_metadata_inventory.rs:77-408 | from construction on, for every tree, scope and sequence of limits, the pages are the recursive listing of the scope, and no path comes twice |
| InventoryFrontiers.CompletedPageSays | rust/src/adapters/local_metadata_inventory.rs:263-276 | from construction on and whatever fails in between, a page that reports completion has the one completed frontier entry of its scope, with the identity of the directory there, and its last path as the cursor |
| InventoryFrontiers.ResumeIff | rust/src/adapters/local_metadata_inventory.rs:142-217 | a resumption is accepted if and only if ordinals are in order, nothing is completed, every open directory is still there and still the same, at most one directory is pending and that last, the counts are within what was staged and the cursor is the one the frontier stands for; it then stands where the frontier says |
| InventoryFrontiers.FirstResumeIff | rust/src/adapters/local_metadata_inventory.rs:130-141 | before the first page it is accepted exactly if nothing was staged, and page zero is refused |
| InventoryFrontiers.SeekStopsBeyond | rust/src/adapters/local_files/directory_enumeration.rs:130-134 | seeking stops at the first path beyond the cursor, whether the cursor is listed or not |
| InventoryResume.SeekLandsBehind | rust/src/adapters/local_files/directory_enumeration.rs:130-134 | seeking after a listed path lands right behind it |
| InventoryResume.ResumeRestores | rust/src/adapters/local_metadata_inventory.rs:122-217 | at a page boundary all checks of a resumption pass and the walk is rebuilt, up to a scope identity that is reread before use |
| InventoryResume.RestoreFrame | rust/src/adapters/local_metadata_inventory.rs:173-188 | each durable frontier entry restores its own frame at its own position |
| InventoryResume.RebuiltPage | rust/src/adapters/local_metadata_inventory.rs:310-408 | the rebuilt walk gives the same next page |
| InventoryResume.RebuiltPages | rust/src/adapters/local_metadata_inventory.rs:310-408 | and the same pages for all limits that follow |
| InventoryResume.PageLeavesBoundary | rust/src/adapters/local_metadata_inventory.rs:263-306 | every incomplete page is non-empty, its cursor is its last path, its frontier describes the walk, and active counts stay within the staged count |
| InventoryResume.ResumedRunIsTheSameRun | rust/src/adapters/local_metadata_inventory.rs:122-408 | interrupting after any number of pages and resuming from the last page's data gives the same pages as the uninterrupted walk, and again the walk of a run |
| InventoryResume.SessionsAreOneRun | rust/src/adapters/local_metadata_inventory.rs:122-408 | however often a run is interrupted and resumed, its pages are those of the uninterrupted run |
| InventoryResume.SessionsListTheScope | rust/src/adapters/local_metadata_inventory.rs:77-408 | from construction on, the pages of all sessions together are the recursive listing of the scope, no path twice |
| LocalMetadataInventory.MetadataInventory.constructor | rust/src/adapters/local_metadata_inventory.rs:77-119 | an inventory starts empty at its scope |
| LocalMetadataInventory.MetadataInventory.Start | rust/src/adapters/local_metadata_inventory.rs:77-119 | construction agrees with the walk the listing theorems are about, errors included |
| LocalMetadataInventory.MetadataInventory.Open | rust/src/adapters/local_metadata_inventory.rs:219-261 | opening pushes one checked frame or changes nothing |
| LocalMetadataInventory.MetadataInventory.ReadNext | rust/src/adapters/local_metadata_inventory.rs:350-387 | reading the top frame emits the entry the walk emits |
| LocalMetadataInventory.MetadataInventory.TakeTurn | rust/src/adapters/local_metadata_inventory.rs:339-387 | the loop body agrees with one turn of the walk |
| LocalMetadataInventory.MetadataInventory.Fill | rust/src/adapters/local_metadata_inventory.rs:331-388 | the loop terminates and agrees with the page of the walk |
| LocalMetadataInventory.MetadataInventory.NextPage | rust/src/adapters/local_metadata_inventory.rs:310-408 | page and new state are those of the walk |
| LocalMetadataInventory.MetadataInventory.Frontier | rust/src/adapters/local_metadata_inventory.rs:263-306 | the frontier lists the open directories and the pending one |
| LocalMetadataInventory.MetadataInventory.Restart | rust/src/adapters/local_metadata_inventory.rs:122-217 | resumption agrees with the walk the resumption theorems are about, errors included |
| LocalMetadataInventory.MetadataInventory.RestoreEntry | rust/src/adapters/local_metadata_inventory.rs:163-201 | one durable entry is restored or refused as in the walk |
| LocalMetadataInventory.MetadataInventory.FindCursor | rust/src/adapters/local_metadata_inventory.rs:202-212 | the cursor to compare is that of the deepest frame that has one, else the pending directory |
| ChangeSourceRuns.EveryRunIsSound | rust/src/adapters/windows_library_change_source.rs:214-708 | all guarantees below hold together in every state of every interleaving of callbacks, drains and the stop |
| ChangeSourceRuns.NothingIsLostSilently | rust/src/adapters/windows_library_change_source.rs:288-700 | until the stop, each path of each accepted notice other than an access is delivered, queued, the pending rename half, covered by a gap raised at or after it, or in the hands of a thread about to do one of these |
| ChangeSourceRuns.NothingIsLostAtRest | rust/src/adapters/windows_library_change_source.rs:288-700 | between callbacks and drains the last case is gone |
| ChangeSourceRuns.EverySendIsAccountedFor | rust/src/adapters/windows_library_change_source.rs:225-252 | sends attempted while accepting equal delivered, queued and dropped ones, the channel stays bounded, and each drained flag is one gap observation |
| ChangeSourceRuns.SequencesAreDistinct | rust/src/adapters/windows_library_change_source.rs:702-708 | before saturation all sequence numbers differ and ordinary observations arrive in increasing order |
| ChangeSourceRuns.DrainReportsFirstWorst | rust/src/adapters/windows_library_change_source.rs:662-700 | a drain reports the first of the most severe issues since the last report and starts afresh |
| ChangeSourceContents.DeliveriesAreTruthful | rust/src/adapters/windows_library_change_source.rs:288-558 | in every run each delivered observation other than a gap names the relative path of an accepted notice under the kind that its notice and its file call for, or is a rename from the old name to the new one, the halves in the order of their notices |
| ChangeSourceContents.ScopeIff | rust/src/adapters/windows_library_change_source.rs:382-558 | a delivered path is reported by itself if and only if a file was removed, a created or changed path is known not to be a directory, or it is half of a rename without the other half; a rename, if and only if the new path is known not to be a directory |
| ChangeSourceContents.MovedDirectoryIsReportedAlone | rust/src/adapters/windows_library_change_source.rs:382-415 | a run in which a directory is reported by itself, under a gap |
| ChangeSourceContents.UnpairedRenamesAreUnderAGap | rust/src/adapters/windows_library_change_source.rs:360-415 | in every reachable state each queued or delivered report of an unpaired rename stands under a gap raised at or after its notice |
| ChangeSourceContents.EveryRunIsTruthful | rust/src/adapters/windows_library_change_source.rs:360-461 | the same for everything queued, held or about to be sent |
| ChangeSourceContents.ProgramTells | rust/src/adapters/windows_library_change_source.rs:288-558 | what a notice makes the callback do is true of the notice |
| ChangeSourceReports.NoticeComesTo | rust/src/adapters/windows_library_change_source.rs:288-558 | every notice, handled to the end by a source with room, sends exactly the expected observations in order, marks exactly the expected issues and holds exactly the half to be kept, as a reference definition over notices says |
| ChangeSourceReports.HalvesBecomeARename | rust/src/adapters/windows_library_change_source.rs:382-461 | the new name within the grace time of the old one becomes one rename with both paths, and flag and issue stay as they were |
| ChangeSourceReports.BothNamesAreARename | rust/src/adapters/windows_library_change_source.rs:417-461 | so do both names in one notice |
| ChangeSourceReports.KnownPathsAreSent | rust/src/adapters/windows_library_change_source.rs:463-558 | known paths that are created, removed or changed are all sent, in order and under the kind that suits them, and no gap is marked |
| ChangeSourceReports.GapIffIncomplete | rust/src/adapters/windows_library_change_source.rs:288-558 | a notice raises the gap flag if and only if something of it is missing |
| ChangeSourceReports.StoppedForGood | rust/src/adapters/windows_library_change_source.rs:596-602 | after the stop no notice is accepted and nothing is sent, in any schedule |
| ChangeSourceProofs.ProgramOwes | rust/src/adapters/windows_library_change_source.rs:288-558 | what a notice makes the callback do names all paths the notice owes |
| ChangeSourceProofs.ProgramHolds | rust/src/adapters/windows_library_change_source.rs:360-380 | a rename half is held only as the last operation, right after a flush |
| ChangeSourceProofs.PerformKeeps | rust/src/adapters/windows_library_change_source.rs:382-660 | no operation of the callback loses a path |
| ChangeSourceProofs.ContinuedKeeps | rust/src/adapters/windows_library_change_source.rs:214-261 | no step of a drain loses a path |
| ChangeSourceProofs.ApplyKeeps | rust/src/adapters/windows_library_change_source.rs:214-602 | no step of any thread loses a path |
| ChangeSourceRuns.CountedApply | rust/src/adapters/windows_library_change_source.rs:566-594 | each step keeps the delivery and refusal accounts balanced |
| ChangeSourceRuns.FlaggedApply | rust/src/adapters/windows_library_change_source.rs:662-700 | the gap flag is up exactly while an issue is recorded, and it is the first worst |
| ChangeSourceRuns.NumberedApply | rust/src/adapters/windows_library_change_source.rs:702-708 | each step keeps numbers distinct and the queue in order |
| ChangeSourceRuns.ReportedApply | rust/src/adapters/windows_library_change_source.rs:610-622 | each step keeps what was seen equal to what left the queue plus one report for each drained flag |
| LibraryChangeSource.CallbackState.constructor | rust/src/adapters/windows_library_change_source.rs:117-131 | a source starts accepting, empty and without a gap, in the state the machine starts in |
| LibraryChangeSource.CallbackState.MarkEvidenceGap | rust/src/adapters/windows_library_change_source.rs:662-677 | the flag goes up and the more severe issue stays, the earlier one on a tie |
| LibraryChangeSource.CallbackState.TakeEvidenceGap | rust/src/adapters/windows_library_change_source.rs:688-700 | flag and issue are taken together |
| LibraryChangeSource.CallbackState.NextSequence | rust/src/adapters/windows_library_change_source.rs:702-708 | the counter advances and saturates |
| LibraryChangeSource.CallbackState.Emit | rust/src/adapters/windows_library_change_source.rs:566-594 | the machine's send and the mark it entails: an observation is queued, or counted as dropped under a raised gap, or ignored after the stop |
| LibraryChangeSource.CallbackState.FlushRename | rust/src/adapters/windows_library_change_source.rs:624-660 | a pending rename half disappears only under a raised gap |
| LibraryChangeSource.CallbackState.Receive | rust/src/adapters/windows_library_change_source.rs:239-252 | the machine's receiving steps: the batch takes the oldest observations until it is full or the queue is empty |
| LibraryChangeSource.CallbackState.Drain | rust/src/adapters/windows_library_change_source.rs:214-261 | the machine's drain to its end, with the batch it reports: gap report first if one is due, then the oldest observations; counters are handed over and reset |
| Hamming.SomeBandIsClose | rust/examples/similarity_engine_probe/index.rs:27-29 | hashes within a tolerance agree within a quarter of it on some band |
| Hamming.DistanceByBands | rust/examples/similarity_engine_probe/quality.rs:11-16 | the byte-wise distance is the sum of the four band distances |
| Hamming.NeighborsAreTheBall | rust/examples/similarity_engine_probe/index.rs:31-44 | for radius up to two the neighbours are exactly the values within that many bits, each once |
| BandIndex.CandidatesAreComplete | rust/examples/similarity_engine_probe/index.rs:70-91 | filtering the candidates by distance gives exactly the hashes within the tolerance, none twice, for every list of hashes and every query |
| BandIndex.LengthsAreClose | rust/examples/similarity_engine_probe/index.rs:74-76 | the postings read in a slot count each close hash once |
| BandIndex.NeighborsOf | rust/examples/similarity_engine_probe/index.rs:31-44 | the nested loops build the neighbours |
| BandIndex.Index.constructor | rust/examples/similarity_engine_probe/index.rs:53-68 | the postings of every band value are exactly the ids of its hashes, in order |
| BandIndex.Index.Visit | rust/examples/similarity_engine_probe/index.rs:77-82 | marks and touched ids stay in step and grow by the posting list |
| BandIndex.Index.Probe | rust/examples/similarity_engine_probe/index.rs:73-84 | reading the postings of some values touches exactly the hashes with such a band |
| BandIndex.Index.ProbeSlot | rust/examples/similarity_engine_probe/index.rs:73-84 | one slot adds exactly the hashes close to the query in it |
| BandIndex.Index.Candidates | rust/examples/similarity_engine_probe/index.rs:70-91 | candidates are exactly the hashes close in some slot, each once; the examined count is the number of close pairs; the scratch state is as before, so the index serves any sequence of queries |
| BandIndex.Index.Restore | rust/examples/similarity_engine_probe/index.rs:86-89 | taking the touched ids clears exactly their marks |
| Usn.ReferenceHistories | rust/src/windows_usn.rs:40-49 | every reference has exactly the positions of its records, in order |
| Usn.HistoryRefinesScan | rust/src/windows_usn.rs:95-115 | choosing through the history is a scan over all records: the last before the bound, else the first deletion or rename at or after it, else none |
| Usn.ChosenByUsn | rust/src/windows_usn.rs:95-115 | with increasing update numbers that is the greatest below the bound, else the least ending one |
| Usn.Resolve | rust/src/windows_usn.rs:58-93 | the recursion terminates, and its result and the visiting set it leaves are functions of the descent and the callbacks, on success and on every error |
| Usn.ResolutionFollowsTheChain | rust/src/windows_usn.rs:58-93 | a cycle or depth error exactly if no finished chain of distinct unvisited references within the limit exists; otherwise the path folds the names along the one chain; success restores the visiting set |
| UsnRecords.ResolutionFollowsTheRecords | rust/src/windows_usn.rs:58-115 | over the records alone: a resolution gives a path or a callback's error if and only if a trail leads there on which each place has the record that a scan chooses for its reference and bound, the next place is that record's parent looked up before that record, nothing repeats, and the names of those records are appended to the last reference opened |
| UsnRecords.TrailIsRecorded | rust/src/windows_usn.rs:74-86 | the trail of every resolution, failed ones included, is such a trail |
| UsnRecords.EndsNameIff | rust/src/windows_usn.rs:107-112 | the two reasons that end a name |
| Usn.RestoredIff | rust/src/windows_usn.rs:71-92 | the visiting set is restored exactly if the reference was being visited already, or there is room for it and it has no parent record or an admissible chain, on which no callback fails, leads out of its parent |
| Usn.SelfParentIsLeftBehind | rust/src/windows_usn.rs:71-92 | resolving a file that is its own parent fails and leaves its reference behind |
| Usn.StuckIffNoChain | rust/src/windows_usn.rs:71-73 | the descent revisits or exceeds the limit exactly if there is no such chain |
| Usn.ChainIsTheDescent | rust/src/windows_usn.rs:77-86 | there is at most one such chain |
| Usn.DescentAscends | rust/src/windows_usn.rs:74-86 | the descent follows parents, and only its last place can repeat a reference |
| AnalysisGate.EveryRunIsFair | rust/src/application/background_analysis.rs:38-84 | in every run at most eight wait, tickets wait and are granted in increasing order, no granted ticket has an earlier one still waiting, and at most one caller holds the lease |
| AnalysisGate.BoundedWaiting | rust/src/application/background_analysis.rs:38-84 | while a ticket waits, no more leases are granted than tickets were ahead of it |
| AnalysisGate.ArrivalIsServed | rust/src/application/background_analysis.rs:39-69 | an arrival is turned away exactly if it was cancelled before, the queue is full or tickets are exhausted; else it leaves again if cancelled, gets the lease at once if nobody waits or holds it, and otherwise waits last; nobody else is affected |
| AnalysisGate.FrontIsAdmitted | rust/src/application/background_analysis.rs:59-63 | at an idle gate the caller at the head exists and gets the lease when it next looks |
| AnalysisGate.CancelRemovesOwn | rust/src/application/background_analysis.rs:54-58 | cancelling removes the caller's own ticket and keeps the rest in order |
| AnalysisGate.ApplyKeeps | rust/src/application/background_analysis.rs:38-84 | each region under the mutex keeps every ticket in exactly one place, the order, the ownership and the lease |
| AnalysisGate.BackgroundAnalysisGate.constructor | rust/src/application/background_analysis.rs:14-25 | a gate starts idle and empty |
| AnalysisGate.BackgroundAnalysisGate.Enter | rust/src/application/background_analysis.rs:45-53 | refused exactly if the queue is full or tickets are exhausted, the full queue first; otherwise queued last under the next ticket |
| AnalysisGate.BackgroundAnalysisGate.Acquire | rust/src/application/background_analysis.rs:38-69 | up to its first wait it is the machine's arrival |
| AnalysisGate.BackgroundAnalysisGate.TakeTurn | rust/src/application/background_analysis.rs:53-69 | one turn of the waiting loop is the machine's |
| AnalysisGate.BackgroundAnalysisGate.Retain | rust/src/application/background_analysis.rs:55 | the queue without the ticket |
| AnalysisGate.BackgroundAnalysisGate.DropLease | rust/src/application/background_analysis.rs:74-84 | dropping a lease is the machine's |
| MaintenanceControl.NoLostInterrupt | rust/src/ports.rs:133-185 | over a flag set before or not, however any number of cancellations, preemptions, installations and clearings interleave, once all have returned a callback that is still installed was called if anything was interrupted; none is called otherwise, and only installed ones are |
| MaintenanceControl.StoredFlagIsEnough | rust/src/ports.rs:151-168 | a callback that is installed after the owner has stored the shared flag is called, however far the cancellation has come |
| MaintenanceControl.SomeThreadMoves | rust/src/ports.rs:141-185 | unless all have returned, some thread has a step that brings it closer to its end |
| MaintenanceControl.NoneLostStep | rust/src/ports.rs:141-185 | each step keeps an owed call owed until it is made |
| MaintenanceControl.CatalogMaintenanceControl.constructor | rust/src/ports.rs:125-131 | the owner's flag as it is, not preempted, no callback |
| MaintenanceControl.CatalogMaintenanceControl.Cancel | rust/src/ports.rs:141-144 | an undisturbed cancellation is the machine's thread run to its end |
| MaintenanceControl.CatalogMaintenanceControl.Preempt | rust/src/ports.rs:146-149 | likewise for a preemption |
| MaintenanceControl.CatalogMaintenanceControl.Interrupt | rust/src/ports.rs:176-185 | exactly the installed callback is called |
| MaintenanceControl.CatalogMaintenanceControl.InstallInterrupt | rust/src/ports.rs:151-168 | likewise for an installation |
| MaintenanceControl.CatalogMaintenanceControl.ClearInterrupt | rust/src/ports.rs:170-174 | likewise for a clearing |
| IdentityJournalRuns.RegistryStaysBounded | rust/src/adapters/windows_identity_journal.rs:91-183 | in every interleaving at most eight roots and 64 probes are held |
| IdentityJournalRuns.ClosedForGood | rust/src/adapters/windows_identity_journal.rs:253-261 | once a close has returned the registry is empty for ever and no registration succeeds, begun before or after |
| IdentityJournalRuns.OneGenerationIff | rust/src/adapters/windows_identity_journal.rs:125-181 | operations issued together keep one generation per root under every schedule exactly if no two acceptable registrations disagree about one |
| IdentityJournalRuns.AgreeingKeepOneGeneration | rust/src/adapters/windows_identity_journal.rs:125-181 | from any state with one generation per root, registrations of which no two disagree about a generation keep it so in every schedule |
| IdentityJournalRuns.ApartKeepOneGeneration | rust/src/adapters/windows_identity_journal.rs:125-181 | a run in which no two registrations of different generations of one root are between their phases at once has one generation per root in every state |
| IdentityJournalRuns.SerialKeepOneGeneration | rust/src/adapters/windows_identity_journal.rs:91-183 | registrations that do not overlap keep one generation per root, whatever they ask for |
| IdentityJournalRuns.OverlapBreaksOneGeneration | rust/src/adapters/windows_identity_journal.rs:125-181 | a schedule in which two disagreeing registrations both end up registered |
| IdentityJournalRuns.EmptiedForever | rust/src/adapters/windows_identity_journal.rs:162-172 | a closed and emptied registry stays so, and registrations under way fail |
| IdentityJournalRuns.SuccessIsGenuine | rust/src/adapters/windows_identity_journal.rs:135-182 | in every run each entry sits under its own key with the capability of its own claim, and whoever succeeds gets the capability of the claim it made |
| IdentityRetention.EvictRetains | rust/src/adapters/windows_identity_journal.rs:125-151 | in every interleaving the first phase keeps every registration used within 60 seconds that is no other generation of the root, except one used least recently if eight stay and the wanted one is not among them |
| IdentityRetention.ProbeRemembers | rust/src/adapters/windows_identity_journal.rs:107-124 | noting a probe keeps every probe of the last 60 seconds, except an oldest one if 64 stay and the key is not among them |
| IdentityRetention.RegistrationsChangeOnlyBy | rust/src/adapters/windows_identity_journal.rs:91-261 | no step gains a registration but an insertion, where there is place and the key is free, and none loses one but a closing and a first phase as above; other steps at most mark one as used |
| IdentityRetention.LookupHeedsTheClosing | rust/src/adapters/windows_identity_journal.rs:70-83 | a lookup after the closing leaves the registry alone, and one before it marks exactly its own root as used |
| IdentityJournal.NoteProbeFits | rust/src/adapters/windows_identity_journal.rs:107-124 | noting a probe keeps the probe map within its bound |
| IdentityJournal.MakeRoomFits | rust/src/adapters/windows_identity_journal.rs:125-151 | the first phase keeps the bound, adds no key and leaves no other generation of the root |
| IdentitySession.Oldest | rust/src/adapters/windows_identity_journal.rs:116-119 | a key with the least time |
| IdentitySession.Session.constructor | rust/src/adapters/windows_identity_journal.rs:41-48 | a session starts open and empty |
| IdentitySession.Session.NoteProbed | rust/src/adapters/windows_identity_journal.rs:107-124 | the probe is noted at its time, expired ones go, and an oldest one goes if the map is full |
| IdentitySession.Session.MakePlace | rust/src/adapters/windows_identity_journal.rs:125-151 | answers exactly if the key is registered and live; otherwise there is a free place afterwards |
| IdentitySession.Session.Insert | rust/src/adapters/windows_identity_journal.rs:162-182 | closed first, then capacity or a taken key, else registered |
| IdentitySession.Session.RegisterRoot | rust/src/adapters/windows_identity_journal.rs:91-183 | an undisturbed registration succeeds exactly under the stated condition, never lacks capacity, is registered with its claim, leaves no other generation behind, keeps every live registration of other roots except one used least recently if eight stay, and keeps one generation per root; it is the machine's thread run to its end |
| IdentitySession.Session.QueryJournal | rust/src/adapters/windows_identity_journal.rs:185-211 | only the registered caller, root and capability pass, and the entry is marked as used, as in the machine |
| IdentitySession.Session.Close | rust/src/adapters/windows_identity_journal.rs:253-261 | closed and empty, by the machine's two steps |
| IdentitySession.Session.CanProbeBaseline | rust/src/adapters/windows_identity_journal.rs:265-275 | allowed exactly without a recent probe; a recent one is renewed, expired ones go, as in the machine |
| Vocabulary.References | rust/src/adapters/classification_vocabulary.rs:148-166 | a list is taken exactly if it is within both limits and names known things once; the ids are then its identities in ascending order |
| Vocabulary.AddConcept | rust/src/adapters/classification_vocabulary.rs:40-53 | a concept is added exactly if it and its lists fit and its identity is new |
| Vocabulary.Open | rust/src/adapters/classification_vocabulary.rs:29-75 | a document opens exactly if it is well formed; the vocabulary says what the document says and every reference leads to a concept |
| Vocabulary.OpenedIsReadable | rust/src/adapters/classification_vocabulary.rs:54-64 | an opened vocabulary has ascending, closed lists and concepts under their own ids |
| Vocabulary.PartitionPoint | rust/src/adapters/classification_vocabulary.rs:134-136 | bisection finds how many ids are at most the cursor |
| Vocabulary.ReadConcepts | rust/src/adapters/classification_vocabulary.rs:116-145 | refused exactly for a limit outside 1 to 64; else the next ids after the cursor with their concepts, as many as the limit while more remain, and whether they do |
| Vocabulary.IdsAreMeant | rust/src/adapters/classification_vocabulary.rs:124-132 | the ids of a neighbourhood are the identities of the names that the document lists for it, none for an unknown concept |
| Vocabulary.PagesSpellTheIds | rust/src/adapters/classification_vocabulary.rs:116-145 | paging by the last id, for any limits, reads a prefix of the ids in order, each once, and is told of more exactly if something is missing |
| Vocabulary.ReadingIsComplete | rust/src/adapters/classification_vocabulary.rs:116-145 | reading an opened vocabulary until there is no more gives the whole neighbourhood, which is what the document lists for it |
| MultiSz.ReadBrokerPrivileges | windows/installer/service_privileges.cpp:9-32 | outside the buffer exactly if the pointer is; otherwise a list is returned exactly if fewer than sixteen proper strings are encoded in the bytes at the beginning of the text, low byte first |
| MultiSz.SpeltIff | windows/installer/service_privileges.cpp:14-19 | the units of the text are the pairs of bytes of the buffer, low byte first |
| MultiSz.ParseInvertsEncode | windows/installer/service_privileges.cpp:20-30 | reading the encoding of up to fifteen proper strings, whatever follows, gives them back |
| MultiSz.ParsedIsEncoded | windows/installer/service_privileges.cpp:20-30 | whatever is read is encoded at the beginning of the units |
| MultiSz.ParseIff | windows/installer/service_privileges.cpp:20-31 | both directions together, for every buffer and list |
| MultiSz.SixteenAreRefused | windows/installer/service_privileges.cpp:22-24 | sixteen or more proper strings are refused |
| MultiSz.EncodeIsPrefixFree | windows/installer/service_privileges.cpp:20-30 | two lists encoded at the beginning of the same units are equal |
| MultiSz.FindNul | windows/installer/service_privileges.cpp:21 | the first NUL, looking only inside the buffer |
| MultiSz.Scan | windows/installer/service_privileges.cpp:18-31 | the loop reads what the specification reads |

## Left out

- Preview cache: deletion of artifacts from outside, reclamation, commits to invalid paths and finishing a materialization twice; the store's bookkeeping speaks of files it manages itself.
- Preview cache: image decoding and scaling; the size of an encoded preview and whether an existing artifact is usable are choices of a step.
- PreviewCacheRuns.EveryRunIsSafe: assumes that twice the budget, and the budget plus any artifact, fit the 64-bit counter; `AccountFitsIff` shows that a store opened within its budget needs exactly that.
- Inventory: a tree that changes during the walk, enumeration errors of the operating system, and more than 2^64 entries or pages.
- InventoryRetries.CompletionIsWholeIff: the requests are not cancelled and outside the case of a lone entry, whose losses have their own statements; the only-if half is for scopes whose entries the page counter can count one by one.
- Change source: health reporting, a disconnected channel, wall-clock times and file metadata; what metadata says is part of a notice, and whether a rename has expired is a choice.
- Change source: a mutex that the code holds across two operations is not held across them in the machine, which therefore allows more interleavings.
- ChangeSourceReports.NoticeComesTo: a callback that no drain or stop interrupts, with room in the channel for what it sends; what holds under interleaving and overflow is stated over all runs.
- Hash index: the timing comparison around it and other distance measures.
- Usn.Resolve: callbacks are pure functions of their arguments; parsing of journal buffers is not part of this model.
- Background analysis: tickets are taken and looked at in regions under one mutex; how long a waiter sleeps is not modelled.
- Maintenance control: a user-cancelled flag that its owner sets while a control is live without calling `cancel` after it, and callbacks that call back into the control.
- Identity journal: opening a native root, reading the journal and the digest behind a capability; the capability is an opaque value determined by caller and root.
- IdentitySession.Session.RegisterRoot: all regions of an undisturbed call see one time; the interleaved machine takes a time for each.
- Vocabulary: cancellation, naming contexts and the revision digest; how a name becomes an identity is a parameter.
- Privileges: which privileges are required once they are read.
- All files: poisoned locks.
- User interface, bridges, installer I/O, SQLite repositories, classification scoring and the Python tools.
