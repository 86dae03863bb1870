# Rydd, verified

This project models the parts of Rydd that are hardest to get right and proves what they promise.
Nothing here runs the original program; the proofs are about the model.

| file | models |
|---|---|
| `Basics`, `Aggregates`, `Utf8` | options, splitting at a separator, sums over maps, extreme elements of sets, decoding characters |
| `Ledger`, `LedgerHistory`, `LedgerProofs`, `LedgerMeasure`, `LedgerRuns`, `LedgerStale` | the generation-fenced aggregate store: its tables, the log it stands for, and every run of commits, rollbacks and collections |
| `Paths`, `PathMeaning`, `Config`, `Exclusions`, `ExclusionMeaning` | path normalization, what typed paths mean, configuration validation, the exclusion editor and what it makes of each request |
| `Publication` | the write, sync, rename, confirm protocol, with failures and crashes at any step |
| `KernelIO`, `KernelGaps`, `ProcCounters`, `ProcText`, `ByteFields`, `ProcIdentity` | the kernel I/O tracker, when it stops for good, and the exact grammars of the proc files it reads |
| `ReviewInput`, `ReviewWorld`, `HashReview`, `HashReviewDialogue`, `HashReviewMonitor`, `HashReviewRun`, `HashReviewSafety`, `HashReviewMeaning` | the guided hash review: what surrounds it, what may be saved, what a dialogue comes to, the review itself, what follows for its environment, and what a save means in rows and events |
| `ReviewPage`, `PageMeaning` | the dismissal filter and numbered selection, and what they leave entry by entry |
| `Wrapping`, `ShellQuoting`, `JsonKeys` | greedy line wrapping, shell quoting, the JSON key check |
| `Topology`, `TopologyNames`, `TopologyOracle`, `TopologyInspection`, `Generation` | generated directory topologies, how they are named, inspecting them and generating them |

How to read it:

* Code that changes state is a class or a method with the original's loops. Its `ensures` ties it to a
  specification function, and the lemmas are about that function over all inputs and all runs.
* What a specification function itself computes is said once more directly, in fields, flags, digits and
  components, by lemmas that do not name it (`SampleExactly`, `PathExactly`, `NormalizedUnderHome`,
  `AcceptedByHistory`, `SavedRowsAreClear`, `SelectionExactly` and their kin).
* The environment is a parameter. Each call outside (a write, a clock, a store answer, a cancellation
  check, a directory listing) takes its answer from an arbitrary function, so every theorem covers every
  sequence of failures. Unicode classes, SHA-256 and the TOML codec are parameters too.
* Where a promise needs a condition that the code does not enforce, the condition is stated, shown to
  be exact, and a concrete input shows the failure without it:
  * The store does not enforce fresh generations. `AgreesThroughoutIffFresh` shows that the tables
    agree with the log at every point of a run if and only if no started generation has surviving rows;
    `MeasuresNaiveIffHarmless` shows exactly which surviving rows change a measurement, and
    `DirectoryTotalsAlwaysExact` which totals no surviving row can change; `StaleGenerationMiscounts`
    is a run that goes wrong.
  * The dismissal filter conserves the diagnostic total if and only if it hides nothing or the page has
    exactly one "selected" entry (`FilterConservesTotal`, `TwoSelectedEntriesMiscount`).
  * Shell quoting reads back if and only if the bytes hold no NUL (`ReadsBackIffNulFree`,
    `NulDoesNotReadBack`).

## Model

| member | source | states |
|---|---|---|
| Ledger.Store.Commit | experiments/aggregation/store.go:45-92 | A batch is accepted exactly under `Accepts` and then leaves exactly `Apply`; otherwise the answer is exactly the first rule that it breaks, in source order: the header out of range, a file with an empty device or inode or a negative size, a new generation not at batch zero, a stale ordinal, file count overflow, logical size overflow. |
| Ledger.Store.FilesSupported | experiments/aggregation/store.go:49-53 | The first loop accepts exactly the batches whose files all have a device, an inode and sizes of at least zero. |
| Ledger.Store.Fold | experiments/aggregation/store.go:75-87 | The running overflow test succeeds exactly when the whole sum fits, and the upserts leave `UpsertAll`. |
| Ledger.Store.Transaction | experiments/aggregation/store.go:41-44 | Any error, and a failed fence after an accepted batch, leaves both tables as they were. |
| Ledger.Store.Collect | experiments/aggregation/store.go:97-106 | Deletes min(128, all) rows of one generation that is not its directory's current one, and touches nothing else. |
| LedgerProofs.UpsertSummarises | experiments/aggregation/store.go:80-83 | After any sequence of upserts a row holds the number of observations, the first logical size, the largest allocation, and a flag that is set if and only if two observations differ. |
| LedgerProofs.UpsertAllSummarises | experiments/aggregation/store.go:75-87 | Folding a batch leaves each row the summary of its earlier observations followed by the new ones. |
| LedgerProofs.CommitAgreesIffFresh | experiments/aggregation/store.go:60-91 | From tables that agree with the log, an accepted batch keeps agreement if and only if no row survives for a generation it starts. |
| LedgerProofs.CollectAgrees | experiments/aggregation/store.go:94-106 | A collection keeps the agreement of tables and log. |
| LedgerMeasure.MeasureIsNaive | experiments/aggregation/store.go:116-136 | For tables that agree with the log, all six totals equal those computed from the raw current observations: count, logical sum, distinct identities, sum of largest allocations, completeness, conflict. |
| LedgerMeasure.PathsAddUp | experiments/aggregation/store.go:74-91 | The path counts of a directory's current rows add up to its file count, and none exceeds the 63-bit range. |
| LedgerRuns.AgreesThroughoutIffFresh | experiments/aggregation/store.go:41-106 | Over every interleaving of commits, rollbacks and collections, tables and log agree at every point if and only if every started generation was fresh. Agreement includes that the counted ordinals are 0 to next_batch - 1 once each and that no counter overflows. |
| LedgerRuns.RunMeasuresNaive | experiments/aggregation/store.go:45-136 | In every fresh run the measurement equals the naive totals over the committed observations that still count. |
| LedgerRuns.Play | experiments/aggregation/store.go:41-106 | Whatever is called on an empty store object, one call after another, is a possible run, and the tables are then those of the run; a transaction whose fence fails counts for nothing. |
| LedgerRuns.AcceptedByHistory | experiments/aggregation/store.go:45-79 | In every fresh run a batch is accepted if and only if its header is in range, it has at most 128 files, each with a device, an inode and sizes of at least zero, and it either continues its directory's generation in the log with the next ordinal, nothing complete and sums that fit, or starts another generation at zero. |
| LedgerHistory.SumLogicalIs | experiments/aggregation/store.go:75-79 | The running logical sum adds up the logical sizes, each position once. |
| LedgerRuns.ReplayRefused | experiments/aggregation/store.go:68-70 | A counted batch, a passed ordinal, or any batch after completion is refused and changes nothing. |
| LedgerRuns.OrderAndBatchingImmaterial | experiments/aggregation/store.go:75-87 | Two fresh runs that leave each directory the same multiset of observations and the same completion flag measure the same. |
| LedgerRuns.CollectKeepsMeasure | experiments/aggregation/store.go:94-106 | In any state whatever, a collection leaves the measurement unchanged, deletes at most 128 rows, and none that is current. |
| LedgerRuns.CollectionsDrain | experiments/aggregation/store.go:97-106 | While a generation stays obsolete, whatever else happens, n collections leave max(0, rows - 128 n) of its rows. |
| LedgerRuns.StaleGenerationMiscounts | experiments/aggregation/store.go:60-67 | A concrete run in which a reused generation makes the store measure an inode that no current observation has. |
| LedgerStale.UpsertsLayer | experiments/aggregation/store.go:80-83 | Upserting onto a surviving row equals merging that row with what upserting from nothing gives. |
| LedgerStale.RunLayers | experiments/aggregation/store.go:60-106 | In every run each current row is the merge of what survived when its generation was started and what a clean store would hold. |
| LedgerStale.DirectoryTotalsAlwaysExact | experiments/aggregation/store.go:88-125 | File count, logical sum and completeness are exact in every run, fresh or not. |
| LedgerStale.MeasuresNaiveIffHarmless | experiments/aggregation/store.go:60-136 | In every run the measurement equals the naive totals if and only if every surviving identity is observed again, at no smaller allocation, and, unless there is a conflict anyway, with the same sizes. |
| LedgerStale.FreshHasNoResidue | experiments/aggregation/store.go:60-67 | A fresh run has no surviving rows under a current generation. |
| Paths.CleanIsCanonical | internal/config/config.go:96-106 | Cleaning yields an absolute path with the same components and is idempotent. |
| Paths.NormalizeIdempotent | internal/config/config.go:96-106 | A normalized path is absolute, NUL-free and clean, so normalizing again under any home directory leaves it alone. |
| PathMeaning.NormalizedUnderHome | internal/config/config.go:96-106 | "~/" and a rest lead to the components of the home directory and of the rest, resolved together; refused exactly if a NUL is left in one of them. |
| PathMeaning.NormalizedHome | internal/config/config.go:97-98 | "~" leads to the home directory's components, and is refused exactly if that is not absolute or holds a NUL. |
| PathMeaning.NormalizedWithoutHome | internal/config/config.go:99-101 | With an empty or relative home directory only a rest that is absolute by itself is accepted, and only for the empty one. |
| PathMeaning.NormalizedAsIs | internal/config/config.go:102-105 | Any other text leads to its own components, and is refused exactly if it is not absolute or holds a NUL. |
| PathMeaning.NamesUnderHome | internal/config/config.go:99-101 | Plain names after "~/" are entered one after the other from the home directory, and the path lies in it. |
| PathMeaning.ResolveSkips | internal/config/config.go:105 | Empty components and "." mean nothing, wherever they stand. |
| PathMeaning.ResolveCancels | internal/config/config.go:105 | ".." takes back the component before it, wherever they stand. |
| PathMeaning.ResolveAtRoot | internal/config/config.go:105 | ".." at the root means nothing. |
| PathMeaning.ParentCancels | internal/config/config.go:105 | A proper name after a path is one more component, and "/.." after it takes it back. |
| Paths.WithinIsPrefix | internal/config/config.go:108-112 | The test on the relative path holds if and only if the root's components are a prefix of the path's. |
| Config.ConfigObject.Validate | internal/config/config.go:114-174 | Succeeds exactly when `Validated` does and then holds the normalized settings. |
| Config.ConfigObject.NormalizeList | internal/config/config.go:121-129 | The loop normalizes the whole list in place or stops exactly when one path cannot be normalized. |
| Config.ConfigObject.RootsApart | internal/config/config.go:130-141 | The nested loops accept exactly when no two roots overlap and no root lies inside an exclusion. |
| Config.ConfigObject.InRange | internal/config/config.go:142-172 | The chain of guards on the scan settings computes `ScanOk`. |
| Config.ValidatedExactly | internal/config/config.go:114-174 | Validation succeeds with given settings if and only if the version is one, there is a root, both lists are the normalized ones, no root is the same as or below another root or an exclusion, and every scan setting is in its range, which is spelled out. |
| Config.RootsPartition | internal/config/config.go:130-141 | After validation a path lies in at most one root, and that root lies in no exclusion. |
| Config.ValidateIdempotent | internal/config/config.go:114-174 | Validating again, under any home directory, changes nothing. |
| Exclusions.EditLists | internal/config/exclusions.go:166-178 | The loop drops from both lists exactly the positions whose normalized exclusion is the path, and reports whether there was one. |
| Exclusions.EditExclusion | internal/config/exclusions.go:138-212 | The edit up to publication: refused input, not needed, no room, failed validation, too large, or the candidate bytes with the reported list. |
| Exclusions.DroppedLockstep | internal/config/exclusions.go:169-178 | Dropping positions and normalizing commute, so the literal and the normalized list stay in step. |
| Exclusions.CandidateRedecodes | internal/config/exclusions.go:64-99 | Decoding the candidate passes the same validation and bounds, yields exactly the reported list, and leaves roots and budgets alone. |
| Exclusions.AdditionExact | internal/config/exclusions.go:191-212 | An addition goes through exactly when there is room, no root lies in the new exclusion, and the codec and the size bound allow it. |
| Exclusions.RemovalAlwaysValid | internal/config/exclusions.go:199-202 | A removal never fails validation. |
| Exclusions.AddIsIdempotent | internal/config/exclusions.go:179-190 | Adding the same path again, however spelled, is not needed and reports the same list. |
| Exclusions.RemoveDropsEverySpelling | internal/config/exclusions.go:169-178 | A removal drops every literal spelling of the path and nothing else, and a second removal is not needed. |
| Exclusions.RemoveUndoesAdd | internal/config/exclusions.go:138-212 | Removing a path right after adding it restores both lists. |
| ExclusionMeaning.DecodedExactly | internal/config/exclusions.go:64-99 | A configuration is taken up if and only if it has at most one mebibyte, decodes, has at most 128 roots and 128 exclusions, each path at most 4096 bytes and without NUL, and is valid with normalized paths of at most 4096 bytes. |
| ExclusionMeaning.RefusedRequests | internal/config/exclusions.go:142-165 | Another action, an empty, relative, overlong or NUL-holding path, or a configuration that is not taken up, fails. |
| ExclusionMeaning.AddExactly | internal/config/exclusions.go:166-212 | An addition is not needed if the cleaned path is listed, fails if 128 are listed or a root is the path or lies below it, and otherwise puts the path at the end of both lists, unless encoding fails or takes more than one mebibyte. |
| ExclusionMeaning.RemoveExactly | internal/config/exclusions.go:166-212 | A removal is not needed if the cleaned path is not listed, and otherwise leaves in both lists exactly the positions that normalize to another path, in order. |
| ExclusionMeaning.DroppedExactly | internal/config/exclusions.go:169-178 | The positions that stay, for both lists at once. |
| Publication.Publish | internal/config/exclusions.go:215-337 | Nothing means no rename was attempted; otherwise every check before the attempt succeeded, in order and the later ones since the sync, and the steps from the attempt on are the confirming ones in order, all successful for saved, ending in a failure for uncertain. A crash in any disk state on the way leaves the complete old or the complete new bytes; a crash at the end leaves the old ones after nothing, the new ones after saved, and one of them after uncertain. When nothing fails the result is saved. |
| Publication.WriteAll | internal/config/exclusions.go:247-259 | The chunked loop continues after short writes, stops on a failure or without progress, and on success has written exactly the data, with a context check before each write and at least one for every 32 KiB. |
| Publication.Prepare | internal/config/exclusions.go:216-294 | Before the rename the old configuration stays in place, and success means that the complete data is synced and that every step took place in order and succeeded: the first checks, only writes and context checks, the sync, and after it the checks of size, original, lock and stamps. |
| Publication.Begin | internal/config/exclusions.go:216-246 | Goes on only after the original, the lock and the budget were checked, and the temporary file was created and its identity read, in that order. |
| Publication.RecheckFile | internal/config/exclusions.go:266-281 | Goes on only after size, original and lock were checked again, in that order. |
| Publication.RecheckNames | internal/config/exclusions.go:282-294 | Goes on only after the stamps of the held and the named file were read and compared and the context was asked, in that order. |
| Publication.Confirm | internal/config/exclusions.go:295-337 | The rename and the eight steps after it: saved only if all succeed in order, and then the new name is durable. |
| Publication.Conclude | internal/config/exclusions.go:323-337 | The four steps after the directory sync, in order. |
| Publication.SafeRecovers | internal/config/exclusions.go:295-302 | A crash in a safe state leaves the complete old or the complete new bytes. |
| Publication.UnsyncedRenameIsUnsafe | internal/config/exclusions.go:263-265 | Without the sync before the rename a crash may leave bytes that are neither. |
| ProcText.ProcUnsigned | experiments/backgroundresources/kernel_io_linux.go:328-339 | The digit loop and the range test compute `Unsigned`. |
| ProcText.UnsignedExact | experiments/backgroundresources/kernel_io_linux.go:328-339 | A text is accepted as n if and only if it is the canonical decimal of n and n fits in 64 bits. |
| ProcText.ParseProcIO | experiments/backgroundresources/kernel_io_linux.go:375-402 | The loop that consumes the field table computes `ProcIO`. |
| ProcCounters.ParseCounters | experiments/backgroundresources/kernel_io_linux.go:375-402 | A file yields the seven counters that the tracker samples if and only if it is a printed permutation of exactly those counters. |
| ProcText.ProcIOExact | experiments/backgroundresources/kernel_io_linux.go:375-402 | The accepted files are exactly the printed permutations of the seven counter lines, and each yields the printed counters. |
| ProcText.PrintedIsAccepted | experiments/backgroundresources/kernel_io_linux.go:375-402 | Every printed permutation parses back to its counters. |
| ProcIdentity.ParseProcIdentity | experiments/backgroundresources/kernel_io_linux.go:341-373 | The parser computes `StatLine`, for any splitting of the text after the command name into fields. |
| ProcIdentity.ParseFields | experiments/backgroundresources/kernel_io_linux.go:353-372 | The part after the command name computes `StatFields`. |
| ProcIdentity.AllNumeric | experiments/backgroundresources/kernel_io_linux.go:359-366 | The loop accepts exactly when every field after the state is an optionally signed 64-bit magnitude. |
| ByteFields.FieldsCover | experiments/backgroundresources/kernel_io_linux.go:353 | White space of one or more bytes separates the fields, and no closing parenthesis is lost between them. |
| ByteFields.FieldsOfText | experiments/backgroundresources/kernel_io_linux.go:353 | Splitting the bytes of a text in UTF-8 is splitting the text, whatever characters count as white space and however many bytes they take. |
| ByteFields.BrokenByte | experiments/backgroundresources/kernel_io_linux.go:353 | A byte that begins no character belongs to its word by itself. |
| ProcIdentity.IdentityExact | experiments/backgroundresources/kernel_io_linux.go:341-373 | With the fields as the library splits them, a line is accepted with an identity if and only if it is a well-formed 52-field line of that identity with a command name of at most 64 bytes. |
| ProcIdentity.PrintedIsRecovered | experiments/backgroundresources/kernel_io_linux.go:341-373 | What the kernel prints, fields with single blanks between them, is read back, for every command name of at most 64 bytes. |
| ProcIdentity.LineIsRecovered | experiments/backgroundresources/kernel_io_linux.go:345-373 | Process, parent and start time are recovered for every command name, parentheses and blanks included. |
| KernelIO.Tracker.constructor | experiments/backgroundresources/kernel_io.go:75-81 | A tracker starts in `Initial`, with a bounded reason and a refusing status. |
| KernelIO.Tracker.Refuse | experiments/backgroundresources/kernel_io.go:116-131 | A refusal counts; a terminal one marks the gap, drops the delta and closes the held source, once, which must still be open; any other refusal leaves the source alone. |
| KernelIO.Tracker.Observe | experiments/backgroundresources/kernel_io.go:111-185 | One sample: the new state and the returned sample are those of the step function, and the held source was used exactly as the step allows: one read, after the checks, or none, and then a close if the refusal is terminal. |
| KernelIO.Tracker.Finish | experiments/backgroundresources/kernel_io.go:153-185 | The same for the part of a sample from the read of the source on: one read, and a close exactly after a terminal refusal. |
| KernelIO.Tracker.Admit | experiments/backgroundresources/kernel_io.go:172-183 | Recording an observation keeps the first one, replaces the last one, and renews the delta unless there was a gap. |
| KernelIO.Tracker.CloseTracker | experiments/backgroundresources/kernel_io.go:215-223 | A source that is still held is closed, once, and let go of; otherwise nothing is touched. |
| KernelIO.RunTracks | experiments/backgroundresources/kernel_io.go:111-185 | In every run observations are ordered in time and in every counter, observed plus refused equals the calls, first and last are recorded, and the delta exists if and only if something was observed and no gap occurred. |
| KernelIO.DeltaTelescopes | experiments/backgroundresources/kernel_io.go:187-192 | Without underflow, the reported delta is in every counter the sum of the observed increases. |
| KernelIO.TerminalIsAbsorbing | experiments/backgroundresources/kernel_io.go:116-131 | After a terminal refusal the gap, the status and the reason stay for good, and no later sample has counters. |
| KernelIO.DetachedStaysDetached | experiments/backgroundresources/kernel_io.go:136-141 | Without a source only the refusal count moves, and the source is never used again. |
| KernelIO.SourceDiscipline | experiments/backgroundresources/kernel_io.go:111-223 | Over any run the source is read some number of times, then released at most once, exactly when the tracker lets go of it, and never touched afterwards. |
| KernelIO.Serve | experiments/backgroundresources/kernel_io.go:111-223 | One call uses the source once held exactly as its step allows, and a source already let go of not at all. |
| KernelIO.Drive | experiments/backgroundresources/kernel_io.go:111-223 | A tracker put through any run of calls ends in the state of the run, and what it did with the object it held is exactly the uses of the run, so the discipline holds of that object: reads, then at most one close. |
| KernelGaps.SampleExactly | experiments/backgroundresources/kernel_io.go:111-185 | One sample in terms of what happens around it: the source is read exactly if the worker is not known to be reaped, the tracker is open and bound, the context is there and not done, and time has not gone back; sampling ends for good, with a gap, no delta and the source closed, exactly if before the read one of the latter fails, or after it, with the worker not reaped, the context is done, time went back, the read failed or a counter decreased. |
| KernelGaps.RefusalExactly | experiments/backgroundresources/kernel_io.go:114-170 | What a refused sample says and when it began and ended, for each cause in the order of the checks. |
| KernelGaps.RegressionExactly | experiments/backgroundresources/kernel_io.go:150-169 | A sample is called regressed exactly for time gone back or a decreased counter, and its reason tells which. |
| KernelGaps.GapsExactly | experiments/backgroundresources/kernel_io.go:111-223 | Over every run there is a gap if and only if some call ended the sampling, and the source is held if and only if none did and the tracker was not closed. |
| KernelGaps.DeltaExactly | experiments/backgroundresources/kernel_io.go:116-183 | A fresh tracker's delta exists if and only if something was observed and no call ended the sampling. |
| KernelGaps.FreshTracker | experiments/backgroundresources/kernel_io.go:75-90 | A fresh tracker has an empty summary with a refusing status and a bounded reason. |
| KernelGaps.ReasonsDocumented | experiments/backgroundresources/kernel_io.go:83-185 | Whatever the source gives as its reason, over every run only documented reasons are shown. |
| KernelGaps.BoundedExactly | experiments/backgroundresources/kernel_io.go:83-90 | A reason from outside is shown as it is exactly if it is one of the listed ones. |
| ReviewInput.ParseReviewNumbers | internal/cli/review.go:242-256 | The loop computes `ParseNumbers`; accepted numbers are one to twenty rows between one and twenty. |
| ReviewInput.ParseNumbersExact | internal/cli/review.go:242-256 | A line is accepted if and only if its fields are the canonical decimals of one to twenty row numbers, which it then stands for in the order typed. |
| ReviewInput.ListedIsRead | internal/cli/review.go:242-256 | Printed row numbers with commas or blanks between them, in any mixture, are read back. |
| HashReview.SelectCopies | internal/cli/review_hashes.go:252-270 | Succeeds if and only if the rows exist, are available, and have work IDs that differ from the keeper's and from each other; the copies are those rows in order. |
| HashReview.SelectedExactly | internal/cli/review_hashes.go:223-225 | The accepted rows are one to nineteen existing ones, neither repeated nor conflicting, with work IDs other than the keeper's and each other's; and they stand for the members in those rows. |
| HashReview.CheckPreview | internal/cli/review_hashes.go:272-282 | Accepts exactly a preview of the frozen store, selection, inventory, size, digest, keeper and ordered copies. |
| HashReviewRun.Session.Write | internal/cli/review.go:189-204 | After a failed write nothing more is attempted: the trace does not grow. |
| HashReviewRun.Session.ReadLine | internal/cli/review.go:258-274 | A command is exactly a completed line of at most 4096 bytes taken from the input between two checks that see no cancellation; an unfinished line, the end of input, a read fault and a cancellation never are. |
| HashReviewRun.Session.Ask | internal/cli/review_hashes.go:326-342 | A typed response means exactly six events: no cancellation, the prompt written, no cancellation, a completed line, and twice more no cancellation; otherwise a write has failed or something has ended the review. |
| HashReviewRun.Session.WritePreview | internal/cli/review_hashes.go:125-134 | The preview is in view exactly when every piece of it was written in order without error, after a check that saw no cancellation. |
| HashReviewRun.Session.FetchChecked | internal/cli/review_hashes.go:118-124 | Only a preview that matches the frozen report and the rows typed for group, keeper and copies goes on. |
| HashReviewRun.Session.SavePrompt | internal/cli/review_hashes.go:138-171 | Under the preview in view; it ends the review only by a save, "quit" or a failure, and "back" takes the preview out of view. |
| HashReviewRun.Session.ReviewHashes | internal/cli/review_hashes.go:22-177 | For every input, every store answer and every pattern of failures and cancellation: every save is warranted by the events before it, whoever asks for one properly gets exactly the preview in view saved at once, nothing is written after a failed write, and the review ends. And when nothing fails, nobody cancels and the store does not change, it saves what the dialogue of the typed lines comes to, or nothing if that is nothing; by `SavesAtMostOnce` that is the only save. |
| HashReviewDialogue.StraightToSave | internal/cli/review_hashes.go:42-171 | A dialogue that names a group, a keeper in it that is neither repeated nor conflicting and such rows for its copies, whose preview says what the report says, and then "save", comes to saving that preview. |
| HashReviewDialogue.FatesGovern | internal/cli/review_hashes.go:42-171 | What a dialogue comes to is nothing where the input ends, and otherwise what it comes to from where the next line leads. |
| HashReviewDialogue.BackLeads | internal/cli/review_hashes.go:76-149 | "back" leaves the keeper prompt for the groups, and the copy and save prompts for the keepers of the same group. |
| HashReviewDialogue.IdleLine | internal/cli/review_hashes.go:55-153 | A line that names nothing that can be chosen at its prompt (no rows or several, a row that is not there, a group with fewer than two usable members, an unusable keeper, rows that are no good as copies) makes no difference to what the dialogue comes to. |
| HashReviewDialogue.NothingMore | internal/cli/review_hashes.go:46-48 | Nothing comes of input that ends, is no completed line of bounded length, or says "quit". |
| HashReviewDialogue.PreviewEnds | internal/cli/review_hashes.go:118-137 | A preview that says something else than the report, or without saving opted into, ends the review with nothing saved. |
| HashReviewDialogue.AvailableMembersAre | internal/cli/review_hashes.go:228-236 | The count is of the members that are neither repeated nor conflicting. |
| HashReviewMonitor.SavedMeans | internal/cli/review_hashes.go:138-171 | What the monitor holds as saved was saved in the trace, and holding nothing means that nothing was. |
| HashReviewMonitor.SoundMeans | internal/cli/review_hashes.go:22-177 | What the monitor lets pass is warranted: the save was opted into; before it nothing ended the review and no write failed; the preview in view is of the group, the available keeper and the distinct available copies typed from the latest report; and the last exchange is a line that says "save". |
| HashReviewMonitor.HonouredMeans | internal/cli/review_hashes.go:138-171 | Every uncancelled line "save" under a preview in view is followed at once by saving exactly that preview. |
| HashReviewSafety.SavesAtMostOnce | internal/cli/review_hashes.go:138-171 | A review saves at most once, and only in save mode. |
| HashReviewSafety.CancelledNeverSaves | internal/cli/review_hashes.go:326-342 | For a context that stays cancelled, every save lies before the cancellation, even before one that no check has seen. |
| HashReviewSafety.FailedNeverSaves | internal/cli/review.go:189-204 | No save follows a failed write. |
| HashReviewSafety.SaveNeedsLine | internal/cli/review.go:258-274 | A save needs a completed line of the real input that says "save", reached through lines none of which ends the review. |
| HashReviewSafety.EndedNeverSaves | internal/cli/review_hashes.go:344-350 | Input that ends, is unfinished, is overlong, faults or says "quit" before it says "save" never saves, whatever the environment answers. |
| HashReviewMeaning.SavedRowsAreClear | internal/cli/review_hashes.go:22-177 | Whatever is saved is what the latest report says about rows of one of its groups: a keeper that is neither repeated nor conflicting and one to nineteen copies that are neither, all with different work IDs. |
| HashReviewMeaning.SavedWasShown | internal/cli/review_hashes.go:22-177 | Before a save a report was loaded, then the rows that the preview is of were typed, group, keeper and copies in this order, the preview was fetched for exactly its work IDs and written to its last piece without error, nothing replaced it, and "save" was typed at a prompt between checks that saw no cancellation. |
| HashReviewMeaning.AskedIsSaved | internal/cli/review_hashes.go:138-171 | "save" typed under a preview in sight, with two checks that see no cancellation, is followed by saving exactly this preview. |
| HashReviewMeaning.CommandOf | internal/cli/review.go:258-274 | A line says its text without the blanks at both ends, exactly if it is complete and takes at most 4096 bytes with its newline. |
| HashReviewMeaning.EveryLineHasOne | internal/cli/review.go:273 | Every text has that form. |
| ReviewPage.FilterPage | internal/cli/dismissal_filter.go:34-85 | The filter computes `Filtered`, or refuses when the answers do not match the page or the counts do not allow it. |
| ReviewPage.VisibleRows | internal/cli/dismissal_filter.go:39-59 | The loop keeps the visible findings with their targets and counts the dismissed ones. |
| ReviewPage.LowerSelected | internal/cli/dismissal_filter.go:68-81 | Lowers every "selected" count, and refuses exactly when there is none or one would become negative. |
| ReviewPage.FilterKeepsRows | internal/cli/dismissal_filter.go:39-59 | On an aligned page exactly the rows not dismissed remain, in page order, each with its target. |
| PageMeaning.FilterableExactly | internal/cli/dismissal_filter.go:36-81 | A page can be filtered if and only if there is an answer for each finding and, unless nothing is to be hidden, a "selected" entry, and each such entry counts at least as many as are hidden. |
| PageMeaning.FilteredExactly | internal/cli/dismissal_filter.go:39-84 | The findings not hidden remain in page order, each "selected" count is lowered by the number of hidden ones, which the one new entry counts, and everything else is as it was. |
| PageMeaning.TargetOfExactly | internal/cli/dismissal_filter.go:42-56 | The target kept for a finding is the last one that names it. |
| ReviewPage.FilterConservesTotal | internal/cli/dismissal_filter.go:68-83 | The diagnostic total is conserved if and only if nothing is hidden or there is exactly one "selected" entry. |
| ReviewPage.TwoSelectedEntriesMiscount | internal/cli/dismissal_filter.go:70-78 | A page with two "selected" entries whose total changes. |
| ReviewPage.SelectPage | internal/cli/review_selection.go:51-111 | Succeeds exactly when the selection is valid and then returns `Selection`. |
| PageMeaning.SelectableExactly | internal/cli/review_selection.go:52-108 | A selection is accepted if and only if one to twenty different row numbers are typed, the page has at most twenty findings, a target for each, and shows what was displayed, root numbers are unique, and every chosen row is bound to its own finding, whose root is there. |
| PageMeaning.SelectionExactly | internal/cli/review_selection.go:64-111 | The selection holds the rows under the typed numbers in page order; "selected" entries count these rows and every other entry counts nothing; its limits, coverage and cursor say that it is a selection. |
| ReviewPage.CopyRows | internal/cli/review_selection.go:90-110 | The loop over the rows computes `CopyUpTo`. |
| ReviewPage.CopyUpToExact | internal/cli/review_selection.go:83-110 | It succeeds exactly when every chosen row is bound to its own finding and refers to a known root, and has then copied exactly the chosen rows in page order. |
| ReviewPage.NumbersValid | internal/cli/review_selection.go:57-63 | Accepts exactly distinct row numbers of the page. |
| ReviewPage.SelectedFromFiltered | internal/cli/review_selection.go:90-111 | A selection from a filtered page is exactly the rows shown under the typed numbers, in page order, none dismissed, findings and targets bound to each other, with each root they refer to once and no other, and diagnostics that count these rows as selected and nothing else. |
| ReviewPage.RootsForExact | internal/cli/review_selection.go:90-110 | Every root that a selected finding refers to is returned exactly once, and no other. |
| ReviewPage.TypingOrderImmaterial | internal/cli/review_selection.go:57-63 | The order in which numbers are typed does not matter. |
| Wrapping.ProseWidth | internal/cli/human.go:48-60 | The loop computes the width: nothing for a mark, two for other non-ASCII, one otherwise. |
| Wrapping.WidthExactly | internal/cli/human.go:48-60 | The width is the number of characters that are no marks and, once more, of those of them beyond ASCII. |
| Wrapping.PlaceWord | internal/cli/human.go:70-79 | The loop body keeps the printed lines and the current line those of the breaking built so far. |
| Wrapping.WriteWrapped | internal/cli/human.go:66-82 | The printed lines are those of the greedy breaking of the words. |
| Wrapping.GreedyFeasible | internal/cli/human.go:66-82 | The greedy breaking keeps the words in order, and every line fits or holds one word. |
| Wrapping.GreedyIsOptimal | internal/cli/human.go:66-82 | No feasible breaking prints fewer lines, for any prefix, continuation and width. |
| Wrapping.StaysAhead | internal/cli/human.go:66-82 | After every word the greedy breaking has no more lines than any feasible one, and at equal count no more words on the last line. |
| Wrapping.WrappedTextReadsBack | internal/cli/human.go:66-82 | Splitting the printed text again yields the prefix's own words and then exactly the words of the text. |
| ShellQuoting.ShellQuote | internal/cli/human.go:16-29 | Both forms of quoting compute `Quoted`. |
| ShellQuoting.PrintableQuoted | internal/cli/human.go:17-19 | Printable text stands between single quotes, unchanged but for its single quotes, each of which becomes `'"'"'`. |
| ShellQuoting.UnprintableQuoted | internal/cli/human.go:22-28 | Any other text stands between `$'` and `'`, each byte as a backslash and three octal digits of its value. |
| ShellQuoting.ReadsBackIffNulFree | internal/cli/human.go:16-29 | The quoted text is exactly one shell word denoting the original bytes, for every byte string without a NUL and for no other. |
| ShellQuoting.NulDoesNotReadBack | internal/cli/human.go:23-28 | The quotation of a single NUL, which does not read back. |
| ShellQuoting.QuotedIsPrintable | internal/cli/human.go:16-29 | The quoted text is valid UTF-8 made of printable characters. |
| Utf8.EncodedReadsBack | internal/cli/human.go:16-29 | Every scalar value in UTF-8 is read back as itself, whatever follows it. |
| Utf8.ReadIsEncoded | internal/cli/human.go:16-29 | What a character is read from is its shortest encoding and nothing else. |
| JsonKeys.Decoder.CheckKeys | internal/cli/hash_report.go:184-227 | The recursive check over the decoder accepts and consumes as `Scan` does. |
| JsonKeys.ScanExact | internal/cli/hash_report.go:184-227 | On the tokens of any value, accepts if and only if no object at any level repeats a key and nothing lies deeper than 16, and then has consumed exactly those tokens. |
| Topology.PathInjective | experiments/backgroundtopology/oracle.go:38-48 | Different ordinals have different paths. |
| TopologyNames.PathExactly | experiments/backgroundtopology/oracle.go:38-48 | The path of file n, and it alone, ends in "f" and n in seven digits, and stands in the root of a wide layout, below exactly n / (files / 64) levels "d01", "d02" and so on of a deep one, or in "branch" and n / 16 in two digits of a healthy one. |
| TopologyNames.ValidExactly | experiments/backgroundtopology/oracle.go:29-37 | Wide layouts have 1 to 1000000 files, deep ones 64 to 1000000 in equal shares, healthy ones 512; and they have 1, 64 and 33 directories. |
| TopologyNames.OrdinalExactly | experiments/backgroundtopology/oracle.go:369-375 | A listed name stands for n exactly if it is "f" followed by digits of that value. |
| Topology.AllowedIsPrescribed | experiments/backgroundtopology/oracle.go:58-89 | The allowed directories are exactly the prescribed places. |
| TopologyNames.PrescribedExactly | experiments/backgroundtopology/oracle.go:58-89 | The prescribed directories are the root and below it nothing, chains of at most 63 level names in order, or one of the branches 00 to 31. |
| Topology.PrescribedCount | experiments/backgroundtopology/oracle.go:90-95 | There are exactly as many of them as the directory count. |
| TopologyOracle.Inspection.Walk | experiments/backgroundtopology/oracle.go:316-420 | The recursive walk computes `WalkFrom`; the directory budget ends it on any disk. |
| TopologyOracle.Inspection.Entry | experiments/backgroundtopology/oracle.go:354-409 | A listed name is walked as a directory or recorded as a prescribed file, or refuses. |
| TopologyOracle.Inspection.Inspect | experiments/backgroundtopology/oracle.go:421-430 | The walk from the root and the two final counts decide `Accepts`. |
| TopologyOracle.WalkSound | experiments/backgroundtopology/oracle.go:316-420 | Whatever a successful walk has recorded is allowed, its own object, reached from a recorded directory, and in every recorded directory nothing else is listed and nothing twice. |
| TopologyOracle.CountsAreExact | experiments/backgroundtopology/oracle.go:424-430 | With full counts the recorded directories and files are all of the prescribed ones. |
| TopologyOracle.WalkSucceeds | experiments/backgroundtopology/oracle.go:316-420 | On a prescribed tree no walk of an untouched directory refuses. |
| TopologyOracle.AcceptsExactly | experiments/backgroundtopology/oracle.go:293-430 | For any rules that cohere, inspection accepts if and only if the tree is the prescribed one. |
| TopologyInspection.RulesCohere | experiments/backgroundtopology/oracle.go:38-95 | The rules of every valid topology cohere. |
| TopologyInspection.InspectionExact | experiments/backgroundtopology/oracle.go:293-430 | Inspection of a valid topology accepts if and only if every prescribed directory and file is there, reached, sound and its own object, and nothing else is listed. |
| Generation.Volume.Mkdir | experiments/backgroundtopology/oracle.go:104-117 | Making a directory fails on a fault, when the path exists or when its parent does not. |
| Generation.Volume.Create | experiments/backgroundtopology/oracle.go:118-121 | Exclusive creation fails on a fault, when the path exists or when its parent does not. |
| Generation.AddFile | experiments/backgroundtopology/oracle.go:108-129 | One round of the loop succeeds exactly without a fault and adds exactly the file, and its directory when it is the first one there. |
| Generation.Generate | experiments/backgroundtopology/oracle.go:97-131 | An invalid topology or an existing root is refused and changes nothing; otherwise generation succeeds if and only if nothing faults, and leaves exactly the prescribed directories and files, each made once, directories before their first file. |
| Generation.OpenedStep | experiments/backgroundtopology/oracle.go:112-113 | A directory is opened by the first file of each level below the root and by no other file. |
| Generation.AcceptsWhatIsGenerated | experiments/backgroundtopology/oracle.go:97-430 | Inspection accepts a disk if and only if it shows exactly what generation makes. |
| Generation.GeneratedIsAccepted | experiments/backgroundtopology/oracle.go:97-430 | Generate and inspect: a volume on which generation has succeeded, with each path its own object, is accepted. |

## Left out

- Ledger.Store.Transaction: does not model SQL, real transactions or query errors; a failed commit is a rollback, as the store demands of its callers.
- LedgerMeasure.MeasureIsNaive: sums across directories are mathematical integers; SQLite's own overflow of `sum()` is not modelled.
- LedgerStale.RunLayers: the path counter of a row that is upserted over and over through reused generations is a mathematical integer; its 63-bit bound is proved for fresh runs only.
- Exclusions.CandidateRedecodes: assumes that the TOML codec decodes what it encodes; default values and unknown fields are part of that parameter.
- Exclusions.EditExclusion: strings are sequences of characters, so the checks for valid UTF-8 hold by construction and invalid arguments are not modelled; acquiring the lock and reading the held file come before the model begins.
- Publication.Publish: identity and lock checks are answers of the environment that cannot succeed when the names denote something else; no outside writer changes the names.
- JsonKeys.Decoder.CheckKeys: cancellation between tokens is not modelled; the decoder's refusal of mismatched delimiters is.
- HashReviewRun.Session.ReviewHashes: printed text other than the pieces of a preview is one write each, time limits are cancellations, and what the store does on a save is one answer; the prompts' examples are not modelled.
- ReviewPage.FilterPage: notes and explanations are not modelled; which findings are dismissed is an arbitrary answer of the store.
- ReviewPage.SelectPage: notes and the copying of nested values are not modelled; a finding is one value.
- KernelIO.Tracker.Observe: the mutex is not modelled; calls happen one after another, as it enforces.
- TopologyOracle.Inspection.Entry: link count, body, allocation and stability checks of a file are one answer, `sound`, and so are the allocation and stability checks of a directory; cancellation is left out.
- TopologyInspection.InspectionExact: device numbers are folded into inode numbers, and the digest over all bodies and the comparison of two inspections are left out.
- Generation.Generate: file bodies are not modelled; a shape that is none of the three cannot be expressed.
- The plan-saving review loop of `internal/cli/review.go`: two nested prompts with the reader, the guarded output and the save line that the hash review has too; what may be chosen there is in `ReviewPage`, and its safety statement would repeat the proof about the hash review without a new kind of argument.
- The CPU-period profile of `experiments/backgroundresources/cpu_period_profile.go`: flat comparisons of fields that would only add easy members.
- Byte sizes and durations for people, terminal width and colour, command dispatch and error codes: easy, or a matter of text.
- Opening and reading proc files, launching and signalling processes: foreign calls.
