# Release-tooling proofs

A Dafny model of the release tooling of Stock Desk: the scripts that keep the deployment latency ledger, patch and
repackage the Windows installer, compare signed files with unsigned ones, supervise the macOS processes, and build and
check the proof that `main` was validated. Each module follows one script or one concern of it; `dafny verify
dfyconfig.toml` checks everything.

| modules | what they model |
|---|---|
| `LatencyLedger`, `LatencyJournal`, `LatencySafety` | the hash-chained ledger, its external seal, and the write-ahead journal, with a power loss after any durable write |
| `OrderStatistics`, `LatencyReport` | comparison segments, one representative per run, nearest-rank percentiles |
| `MarkerScan`, `TauriPatch` | the streaming search for two 27-byte markers, the in-place patch and the check that reverses it |
| `BoundedRewriting`, `MacroExpansion` | the bounded breadth-first expansion of NSIS macros |
| `PeImage`, `AuthenticodeSigning` | the PE header parse, the certificate walk, the Authenticode normal form and what equality of normal forms means |
| `ProcessTree` | the verified process tree over arbitrary sequences of process tables |
| `ArtifactManifest`, `WorkflowProof`, `StoredRecords`, `ValidationEvidence`, `MainProof`, `PolicyTables` | what proof generation emits and what proof verification accepts, for any policy tables and for the repository's |
| `SourceFingerprint`, `MismatchDiagnostics`, `JsonMerge` | the fingerprint stream, the installer comparison, JSON Merge Patch |
| `Prelude`, `Ordering`, `Paths`, `JsonValue` | shared types, sorting, splitting at a separator, JSON values |

State the scripts change step by step is a class here (`Machine`, `MarkerCounter`, `TauriHost`, `Kernel`,
`VerifiedProcessTree`); every loop of a script is a loop here, proved against a specification function or predicate, and
the laws are lemmas about those specifications.

## Main results

- **Crash safety.** `LatencySafety.RunKeeps`, `SealNeverAhead` and `RecoveryCompletes` quantify over every sequence of
  commands and every crash point. Together: the ledger is append-only, the seal never counts records the ledger lacks,
  and a whole journal is always completed. An empty directory satisfies their preconditions (`FreshDirectory`).
- **Seals.** `CollectAcceptance` says exactly which collects go through, in terms of the recovered ledger: a valid sample
  of a run it lacks, shown against that ledger's own seal. So a ledger can be extended again and again against its own
  seal output (`CollectAgain`), and one rolled back together with that seal is refused against a seal kept elsewhere
  (`RollbackRefused`).
- **All or nothing.** `CollectIsAtomic`: a `collect` that crashes has committed once it got past the write that completes
  the journal, and not before, whatever commands run afterwards and crash in turn. A committed sample is in the ledger
  exactly once after the next recovery that survives three writes, and stays (`CommittedExactlyOnce`); an uncommitted one
  stays out until it is collected again.
- **Retries.** `RetriesConverge`: after any number of crashed attempts of one `collect`, with nothing else in between, the
  next attempt that survives ends in the state of an uninterrupted one if and only if no attempt tore the journal. The
  claim that a retry always converges is false of the code: a crash between creating the journal file and completing it
  leaves a file that no later command can read. `TearingWrite` names the one write, `TornBlocks` shows that no later
  command changes the ledger, and `RetryNeverConverges` is a concrete sample, collected into an empty directory, that no
  later command recovers. With other commands in between, a retry that reports success leaves the sample in the ledger
  exactly once too (`InterruptedExactlyOnce`).
- **Percentiles.** `NearestRankSplits`: the reported number is observed, fewer than the stated fraction of the runs lie
  below it, at least that fraction do not exceed it, and no other number has both properties.
- **Authenticode.** `EquivalentIffSigning`: two files pass the comparison if and only if the second is the first with a
  checksum, a certificate pointer and a terminal table of well-formed entries. `SignableIffAligned`: an image the parser
  accepts unsigned has such a signing if and only if its length is a multiple of 8 and below 4 GiB; `OneByteDecides`
  gives a small accepted image, which can be signed, and the same image with one byte more, which cannot. `WideIsSigned`
  is a 64-bit image with section data, and a signed copy of it.
- **Patch.** The reversal check accepts a file if and only if it is the patch of the very preimage its record names
  (`VerifyTransformationPayload`); every file and record the patch produces is accepted (`PatchIsAccepted`).
- **Macro audit.** The expansion returns exactly the spellings that replacing the leftmost macro, again and again, ends
  in, and is refused exactly when some chain of replacements has 16 or more steps or a round exceeds the bound on
  spellings (`SettlesIffShort`). Acyclic chains that long are refused too, not only recursive ones (`LadderRefused`).
  Whether other orders of replacement end in anything else is decided by the results: the expansion returns exactly what
  all orders end in if and only if no result still holds a defined macro (`OrderMattersIffLeft`); an undefined macro in
  front of a defined one is how one can (`UndefinedMacroStops`). Macro-free endings are never missed
  (`AnyOrderIsLeftmost`), so none escapes the audit (`NoOrderEscapes`).
- **Processes.** Over every run from an empty record, only host commands are recorded for the host's pid and only commands
  inside the allowed root for all others (`RunTrusted`), so `Terminate` signals nothing else, whatever the tables say.
- **Main proof.** `MainProof.GenerateProof` proves that whatever generation emits, the verifier accepts, for any policy
  tables. Single records are accepted exactly when their proof job came from the run's own attempt
  (`EmittedIsAccepted`). That holds of every record, before any evidence is checked, when no evidence policy names a
  proof job (`RecordAccepted`), which is so of the repository's tables (`TablesFit`, `RepositoryRecordAccepted`). With
  other tables a record can be refused (`ForeignProofJobRefused`, whose attempts no table of the repository yields), and
  then the evidence check of the same generation rules the case out (`GeneratedIsAccepted`). Conversely, every record the
  verifier accepts is one that generation writes for some run and jobs it may select (`StoredIsRecord`), and every job in
  an emitted record is a job of the response, field by field (`EmittedJobs`).

## Model

| member | source | states |
|---|---|---|
| LatencyLedger.ValidateLedger | scripts/deployment_latency.py:244-297 | accepts exactly the ledgers whose count, ordinals, previous hashes, record hashes, samples, run identities and head are all right |
| LatencyLedger.HeadDeterminesRecords | scripts/deployment_latency.py:263-297 | two chains with the same head hash are the same chain, record by record |
| LatencyLedger.SealDeterminesLedger | scripts/deployment_latency.py:323-328 | two valid ledgers that pass one seal are equal, so an edit, reorder, insertion or tail deletion breaks the seal |
| LatencyLedger.OwnSeal | scripts/deployment_latency.py:300-306 | a valid ledger passes the seal made from it |
| LatencyLedger.ExtendedValid | scripts/deployment_latency.py:355-370 | appending a valid sample of a new run keeps the ledger valid |
| LatencyLedger.AppendSample | scripts/deployment_latency.py:331-370 | refused exactly when the ledger, the seal, the sample or its identity is wrong; otherwise one valid record longer |
| LatencyLedger.SampleHoldsTogether | scripts/deployment_latency.py:147-224 | run, attempt, invalidation, durations and instants of a valid sample bind each other: a duration fits the instants exactly within a millisecond, and nothing else can be altered on its own |
| LatencyLedger.SampleTexts | scripts/deployment_latency.py:147-224 | each text of a valid sample can be replaced by exactly the well-formed ones |
| LatencyLedger.SampleNames | scripts/deployment_latency.py:147-224 | so can its names, by those of the fixed tables; an invalidated sample needs a reason |
| LatencyLedger.SampleBaseline | scripts/deployment_latency.py:203-209 | all four parts of the baseline are required texts within their limits |
| LatencyLedger.TextChecks | scripts/deployment_latency.py:112-119 | run ids are decimal without a leading zero; texts are not blank and fit their limit |
| LatencyJournal.Machine.Write | scripts/deployment_latency.py:580-597 | an atomic replacement happens as a whole or, once the power is gone, not at all |
| LatencyJournal.Machine.ValidateTransaction | scripts/deployment_latency.py:665-686 | accepts exactly a valid next ledger, sealed, one record longer than the previous seal and continuing its head |
| LatencyJournal.Machine.FinishTransaction | scripts/deployment_latency.py:703-744 | leaves the disk state the commit reaches after as many durable writes as the power lasts |
| LatencyJournal.Machine.RecoverTransaction | scripts/deployment_latency.py:747-753 | no journal: nothing to do; unreadable journal: refused; whole journal: the commit is finished |
| LatencyJournal.Machine.CommitLedgerAndSeal | scripts/deployment_latency.py:756-786 | journal created, journal complete, ledger replaced, seal replaced, journal removed, stopping at the power loss |
| LatencyJournal.Machine.AppendAndCommit | scripts/deployment_latency.py:837-855 | reads ledger and expected seal, appends, commits; refused without a write when any of them is wrong |
| LatencyJournal.Machine.RunCollect | scripts/deployment_latency.py:836-855 | a collect recovers first, then appends and commits, with one power budget for both |
| LatencyJournal.Machine.RunAggregate | scripts/deployment_latency.py:827-834 | recovers first, then needs a readable ledger and a seal that matches it |
| LatencyJournal.Machine.RunCreateSeal | scripts/deployment_latency.py:818-826 | writes the genesis seal of an empty valid ledger, and is refused for any other |
| LatencySafety.OneAppend | scripts/deployment_latency.py:678-686 | the one-append check forces the journalled ledger to be the sealed one plus one record |
| LatencySafety.FinishKeeps | scripts/deployment_latency.py:703-744 | from a sound disk the commit never refuses, keeps every invariant at each write and ends with new ledger, new seal, no journal |
| LatencySafety.RecoverKeeps | scripts/deployment_latency.py:747-753 | recovery keeps the invariants at every write and fails only on a torn journal |
| LatencySafety.RecoveryChecks | scripts/deployment_latency.py:714-753 | on any disk, recovery goes on exactly when the transaction is valid and each file holds one of its two sides; otherwise nothing is written |
| LatencySafety.AppendKeeps | scripts/deployment_latency.py:756-786 | so does appending and committing |
| LatencySafety.CourseKeeps | scripts/deployment_latency.py:816-855 | so does every command |
| LatencySafety.FreshDirectory | scripts/deployment_latency.py:836-839 | a directory without ledger, seal and journal satisfies the invariants |
| LatencySafety.RunKeeps | scripts/deployment_latency.py:703-786 | over every run and crash the ledger only grows, stays valid, and stays recoverable |
| LatencySafety.SealNeverAhead | scripts/deployment_latency.py:739-744 | in no reachable state does the seal count a record the ledger lacks; without a whole journal it seals the whole ledger |
| LatencySafety.AggregateAccepts | scripts/deployment_latency.py:827-834 | after any run, the pair on disk passes the report's seal check unless the journal is torn |
| LatencySafety.AggregateChecks | scripts/deployment_latency.py:827-834 | the report is made exactly of a ledger whose own seal is beside it after recovery |
| LatencySafety.CrashedRecoveries | scripts/deployment_latency.py:747-753 | a recovery that crashes leaves the same journal to finish, or has finished it |
| LatencySafety.RecoveryCompletes | scripts/deployment_latency.py:747-753 | any number of crashed recoveries and one that survives end with new ledger, new seal, no journal; without a whole journal nothing changes |
| LatencySafety.CollectEnd | scripts/deployment_latency.py:851-855 | a completed collect leaves the sample appended, the matching seal and no journal |
| LatencySafety.TearingWrite | scripts/deployment_latency.py:616-636 | an attempt tears the journal if and only if it crashes right after the write that creates it |
| LatencySafety.HeadingKept | scripts/deployment_latency.py:836-855 | a further crashed attempt stays on course for the same end, or tears the journal before anything was appended |
| LatencySafety.RetriesConverge | scripts/deployment_latency.py:836-855 | after any crashed attempts of one collect and nothing else, the next surviving one ends like an uninterrupted collect if and only if none tore the journal |
| LatencySafety.TornBlocks | scripts/deployment_latency.py:747-753 | once the journal is torn no command changes the ledger |
| LatencySafety.CollectGoesThrough | scripts/deployment_latency.py:836-855 | a collect goes through exactly when the journal is not torn and, after recovery, the append is acceptable |
| LatencySafety.CollectShowsSeal | scripts/deployment_latency.py:841-853 | no collect goes through unless the expected seal is the recovered ledger's own, or none is given and that ledger is empty |
| LatencySafety.CollectAcceptance | scripts/deployment_latency.py:836-855 | on a pair kept together by runs, a collect goes through exactly for an untorn journal, a valid sample of a new run and that seal |
| LatencySafety.CollectAgain | scripts/deployment_latency.py:836-855 | against its own seal output any ledger can be extended by any valid sample of a new run |
| LatencySafety.RollbackRefused | scripts/deployment_latency.py:323-328 | a ledger rolled back together with its seal is refused against a newer seal kept elsewhere |
| LatencySafety.SealCommand | scripts/deployment_latency.py:818-826 | the seal command succeeds for the empty ledger only, and writes the genesis seal and nothing else |
| LatencySafety.ForeignOutputRefused | scripts/deployment_latency.py:766-772 | a seal output that is not the ledger's own makes every collect refuse without a write |
| LatencySafety.FirstCollectTorn | scripts/deployment_latency.py:616-636 | the first collect of any valid sample goes through, but with a crash after its first write no retry and no later run ever leaves a ledger |
| LatencySafety.RetryNeverConverges | scripts/deployment_latency.py:616-636 | that, for a concrete sample |
| LatencySafety.AcknowledgedForever | scripts/deployment_latency.py:349-354 | a sample whose collect reported success is in every later ledger exactly once |
| LatencySafety.RetriedExactlyOnce | scripts/deployment_latency.py:836-855 | a collect that crashed any number of times and was then retried to its end leaves its sample in every later ledger exactly once |
| LatencySafety.CollectIsAtomic | scripts/deployment_latency.py:616-786 | a crashed collect has committed exactly when it got past the write that completes the journal: then its sample is in every later ledger once or its journal still waits, else the sample stays out until it is collected again |
| LatencySafety.CommittedExactlyOnce | scripts/deployment_latency.py:747-786 | past that write, one later collect or aggregate that survives three writes puts the sample in the ledger exactly once, whatever ran in between and follows |
| LatencySafety.InterruptedExactlyOnce | scripts/deployment_latency.py:836-855 | an interrupted collect, any run, and a retry: if the first attempt committed or the retry reports success, the sample is in every later ledger exactly once |
| OrderStatistics.NearestRankIsOrderStatistic | scripts/deployment_latency.py:373-376 | the value is observed, fewer than `rank` values lie below it and at least `rank` do not exceed it |
| OrderStatistics.RankInRange | scripts/deployment_latency.py:375-376 | the rank always indexes the sorted values |
| OrderStatistics.RankIsCeiling | scripts/deployment_latency.py:375 | the rank is the least whole number that is at least the fraction of the count |
| OrderStatistics.NearestRankSplits | scripts/deployment_latency.py:373-376 | the value is observed, less than the fraction of the values lie below it, at least the fraction do not exceed it, and only this number does so |
| OrderStatistics.NearestRankMonotone | scripts/deployment_latency.py:373-376 | raising values never lowers a percentile |
| OrderStatistics.PercentilesOrdered | scripts/deployment_latency.py:528-531 | P50 is at most P95 |
| LatencyReport.ComparisonSegments | scripts/deployment_latency.py:389-407 | the segments concatenate to the history in order, are uniform inside, differ at each border and are numbered from 1 |
| LatencyReport.SameComparison | scripts/deployment_latency.py:379-386 | two samples are comparable exactly when category, workflow, ref and all four parts of the baseline are equal |
| LatencyReport.SegmentationUnique | scripts/deployment_latency.py:389-407 | a history has no other segmentation |
| LatencyReport.LastSegment | scripts/deployment_latency.py:510-512 | the active segment is the longest uniform suffix of the history |
| LatencyReport.RunDurationRepresentatives | scripts/deployment_latency.py:433-463 | one entry per run in order of first appearance, with every attempt's id and the slowest attempt per metric |
| LatencyReport.AddAttempt | scripts/deployment_latency.py:443-462 | one attempt opens an entry or can only raise its two maxima |
| LatencyReport.RunIdsDistinct | scripts/deployment_latency.py:513 | as many representatives as distinct run ids |
| LatencyReport.RunIdsGrow | scripts/deployment_latency.py:513 | runs keep their order of first appearance: later samples only add runs at the end |
| LatencyReport.GroupByCategory | scripts/deployment_latency.py:498-502 | each category's samples, in ledger order |
| LatencyReport.CategoryReportFor | scripts/deployment_latency.py:509-560 | the report of one category's history |
| LatencyReport.AggregateLedger | scripts/deployment_latency.py:489-567 | refused exactly when the ledger is invalid or not the sealed one; otherwise one report per category, in order |
| LatencyReport.GroupCounts | scripts/deployment_latency.py:415 | the group counts sum to the length of the history |
| LatencyReport.GroupsAccountForCategory | scripts/deployment_latency.py:537-559 | the group counts sum to the category's count |
| LatencyReport.GroupsDescribe | scripts/deployment_latency.py:410-430 | each comparison group reports its own slice of the history: index, identity, count, run ids and sample ids |
| LatencyReport.ReportDescribes | scripts/deployment_latency.py:509-560 | the active part is the longest comparable tail, drift means that something precedes it, and it is complete with five distinct runs |
| LatencyReport.CategoryCounts | scripts/deployment_latency.py:498-507 | the six category counts sum to the ledger's record count |
| LatencyReport.ActiveOfMore | scripts/deployment_latency.py:510-512 | a comparable sample joins the active segment and starts no new one |
| LatencyReport.RetryDominates | scripts/deployment_latency.py:456-462 | a retry keeps the runs and can only raise each run's two durations |
| LatencyReport.RetryNeverImproves | scripts/deployment_latency.py:436-440 | a retry in the active segment never lowers P50 or P95 of either metric and never changes completeness |
| LatencyReport.RetryOnLedger | scripts/deployment_latency.py:489-567 | appending a retry to the ledger: its category's figures do not fall and completeness stays; the other five reports are unchanged |
| LatencyReport.PercentilesAreObserved | scripts/deployment_latency.py:513-531 | figures appear exactly from five distinct runs on; then P50 <= P95, each is an observed duration and splits the runs' slowest durations at one half and at nineteen twentieths |
| MarkerScan.NoOverlap | scripts/nsis_repack_contract.py:100-101 | neither marker can overlap itself or the other |
| MarkerScan.MarkersSpelled | scripts/nsis_repack_contract.py:98-99 | the two constants are the ASCII bytes of the markers |
| MarkerScan.CountInWindow | scripts/nsis_repack_contract.py:829-848 | counts exactly the occurrences that reach beyond the bytes already counted |
| MarkerScan.MarkerCounter.Consume | scripts/nsis_repack_contract.py:1845-1874 | after each block the counts, the tail and the offset are those of everything read so far |
| MarkerScan.ScanFile | scripts/nsis_repack_contract.py:799-850 | for every split into blocks: refused exactly past the limit, else size, digest and both counts of the whole file, and where one marker first occurs |
| MarkerScan.SingleOccurrence | scripts/nsis_repack_contract.py:846-850 | with one occurrence in all, the returned offset is where it is |
| TauriPatch.CopyRange | scripts/nsis_repack_contract.py:862-881 | copies the range, cut at the end of the file, whatever the block size |
| TauriPatch.SpliceOccurrences | scripts/nsis_repack_contract.py:949-970 | replacing one marker by the other moves exactly one occurrence |
| TauriPatch.PatchedCounts | scripts/nsis_repack_contract.py:1048-1053 | the counts and size the record states without a re-scan are true: no UNK, one NSS at the same offset |
| TauriPatch.PatchedCopy | scripts/nsis_repack_contract.py:942-984 | the temporary copy is the original with the marker replaced, and the whole original was read |
| TauriPatch.TauriHost.Patch | scripts/nsis_repack_contract.py:925-1056 | patches exactly the files with one UNK and no NSS within the limit, leaves others untouched, and records true facts |
| TauriPatch.SpliceBack | scripts/nsis_repack_contract.py:1885-1892 | putting the old marker back restores the original byte for byte |
| TauriPatch.Reconstruct | scripts/nsis_repack_contract.py:1837-1892 | the reversal digests and counts the file with the original marker back in place, or finds no marker to reverse |
| TauriPatch.VerifyTransformationPayload | scripts/nsis_repack_contract.py:1816-1903 | accepts a file if and only if it is the patch of exactly the recorded preimage |
| TauriPatch.GenuinePatch | scripts/nsis_repack_contract.py:1827-1903 | what a genuine patch looks like: counts, offset, and a reversal to its preimage |
| TauriPatch.PatchIsAccepted | scripts/nsis_repack_contract.py:1704-1813 | every record and file the patch produces passes normalisation and verification |
| TauriPatch.OnlyPatchRecords | scripts/nsis_repack_contract.py:1704-1813 | a normalised record that some payload satisfies is exactly the record the patch makes of it, bound once by the file list |
| TauriPatch.PayloadRecordCount | scripts/nsis_repack_contract.py:1780-1784 | the bound records are the files with that path and role, as often as listed |
| TauriPatch.AcceptedPayloadUnique | scripts/nsis_repack_contract.py:1816-1903 | one payload per record, one preimage and offset per payload |
| MacroExpansion.Search | scripts/nsis_repack_contract.py:2209-2217 | the leftmost match of the macro pattern, which is unambiguous |
| MacroExpansion.NameChars | scripts/nsis_repack_contract.py:2209 | letters, digits and the underscore make names, and the characters next to them do not |
| MacroExpansion.MacroNames | scripts/nsis_repack_contract.py:2209 | a name may mix all of them, and is neither empty nor broken |
| BoundedRewriting.ExpandRound | scripts/nsis_repack_contract.py:2215-2230 | one round splits the pending texts into finished ones and all one-step rewritings |
| BoundedRewriting.ExpandInstruction | scripts/nsis_repack_contract.py:2211-2240 | returns exactly the terminal texts that single leftmost replacements reach, and is refused exactly when a bound fails |
| BoundedRewriting.LongChainRefused | scripts/nsis_repack_contract.py:2214-2240 | any chain of 16 or more replacements is refused, an endless one in particular |
| BoundedRewriting.SettlesIffShort | scripts/nsis_repack_contract.py:2214-2240 | accepted exactly when every chain of replacements has fewer than 16 steps and every round fits the bound |
| MacroExpansion.LadderRefused | scripts/nsis_repack_contract.py:2214-2240 | a concrete acyclic table with one chain of 16 steps and one spelling, which is refused |
| MacroExpansion.ShorterLadderAccepted | scripts/nsis_repack_contract.py:2214-2240 | the same table with one step less is accepted |
| MacroExpansion.FanAccepted | scripts/nsis_repack_contract.py:2231-2234 | a macro with any definitions that are macro-free is accepted exactly when there are at most 256 |
| MacroExpansion.AnyOrderIsLeftmost | scripts/nsis_repack_contract.py:2216-2230 | what some order of replacements ends in is reached leftmost-first, if it is macro-free or the expansion leaves no defined macro |
| MacroExpansion.OrderMattersIffLeft | scripts/nsis_repack_contract.py:2211-2240 | the expansion ends in exactly what all orders of replacements end in, if and only if none of its results still holds a defined macro |
| MacroExpansion.NoOrderEscapes | scripts/nsis_repack_contract.py:2269-2293 | in an audited instruction nothing that some order ends in is forbidden, if it is macro-free or the expansion leaves no defined macro |
| MacroExpansion.UndefinedMacroStops | scripts/nsis_repack_contract.py:2221-2224 | a text whose leftmost macro is undefined is left as it is, with a defined macro in it that another order would replace |
| MacroExpansion.AuditInstruction | scripts/nsis_repack_contract.py:2269-2293 | accepts if and only if the expansion is bounded and no spelling it ends in, other than the written one, is forbidden |
| PeImage.ParseHeader | scripts/signpath_contract.py:283-321 | computes the parse the other results speak about |
| PeImage.ParseSections | scripts/signpath_contract.py:311-321 | the image ends at the last of header and section data, all inside the file |
| PeImage.HeaderGeometry | scripts/signpath_contract.py:301-312 | checksum and security entry lie in the optional header, apart from each other, from the fixed fields and from the sections |
| PeImage.DirectoriesFollowCount | scripts/signpath_contract.py:295-307 | the security directory is the fifth of the directories, which directly follow their count |
| PeImage.ParseTransfers | scripts/signpath_contract.py:283-321 | the parse depends on no zeroed byte and on nothing past the image end |
| PeImage.WalkCertificates | scripts/signpath_contract.py:342-369 | the walk ends, and accepts exactly what the recursive description of a table accepts |
| PeImage.Normalize | scripts/signpath_contract.py:371-373 | every write is in bounds and only the two regions are zeroed |
| PeImage.AuthenticodeIdentity | scripts/signpath_contract.py:270-378 | accepted exactly for a parsed image with the wanted signature state; raw, normalised and stub contents |
| AuthenticodeSigning.NormalFormIsUnsigned | scripts/signpath_contract.py:371-378 | a normal form is an accepted unsigned image and its own normal form |
| AuthenticodeSigning.StubPinsImage | scripts/signpath_contract.py:377 | equal stubs pin every header field and every image byte outside the two regions |
| AuthenticodeSigning.WalkAccepts | scripts/signpath_contract.py:342-369 | every concatenation of zero-padded, 8-aligned entries is accepted |
| AuthenticodeSigning.WalkYieldsTable | scripts/signpath_contract.py:342-369 | everything accepted is such a concatenation |
| AuthenticodeSigning.SigningAccepted | scripts/signpath_contract.py:331-378 | every signing of an accepted unsigned image is accepted with the same normal form |
| AuthenticodeSigning.SignedIsSigning | scripts/signpath_contract.py:498-501 | equal normal forms: same header, and no difference outside checksum, pointer and terminal table |
| AuthenticodeSigning.EquivalentIffSigning | scripts/signpath_contract.py:490-501 | the comparison succeeds if and only if the second file is a signing of the first |
| AuthenticodeSigning.SignedIsSigningOf | scripts/signpath_contract.py:331-378 | any certificates at all can be attached to an aligned image below 4 GiB, and the result is accepted |
| AuthenticodeSigning.SignableIffAligned | scripts/signpath_contract.py:333-338 | an accepted unsigned image has an accepted signing if and only if its length is a multiple of 8 and below 4 GiB |
| AuthenticodeSigning.UnalignedHasNoSigning | scripts/signpath_contract.py:498-501 | against an image of any other length the comparison refuses every signed file |
| AuthenticodeSigning.OneByteDecides | scripts/signpath_contract.py:333-338 | two concrete accepted images, one byte apart: one can be signed, the other cannot |
| AuthenticodeSigning.WideAccepted | scripts/signpath_contract.py:297-312 | a concrete 64-bit image with section data and a base relocation directory is accepted as unsigned |
| AuthenticodeSigning.WideCutOff | scripts/signpath_contract.py:315-321 | without the last byte of its section it is refused |
| AuthenticodeSigning.WideIsSigned | scripts/signpath_contract.py:331-378 | a copy with another checksum, a certificate pointer and a table is accepted as signed and passes the comparison |
| AuthenticodeSigning.OneRolePath | scripts/signpath_contract.py:432-441 | the one path with the role's file name, refused when there is none or several |
| AuthenticodeSigning.FileNameOf | scripts/signpath_contract.py:436-438 | the name a path is matched by is what follows its last slash |
| AuthenticodeSigning.SamePair | scripts/signpath_contract.py:489-501 | the pair passes if and only if the unsigned file is the expected one and the signed one is a signing of it |
| AuthenticodeSigning.NestedImage | scripts/signpath_contract.py:470-510 | each role has one path, the same in both trees, holding such a pair |
| AuthenticodeSigning.OthersUnchanged | scripts/signpath_contract.py:533-557 | all other files are equal byte for byte |
| AuthenticodeSigning.VerifySigningEquivalence | scripts/signpath_contract.py:444-570 | accepts exactly a nested signing of the extracted tree under an installer with the same stub |
| ProcessTree.Close | scripts/macos_tauri_support.py:99-118 | the worklist computes the least closure of the seed under admissible children, each one deeper than its parent |
| ProcessTree.ConsiderRow | scripts/macos_tauri_support.py:103-118 | a row joins, one deeper than its parent, exactly when it is an unobserved admissible child of the parent at hand; nothing else changes |
| ProcessTree.ClosureUnique | scripts/macos_tauri_support.py:99-118 | members, identities and depths do not depend on the worklist's order |
| ProcessTree.ClosureHasAncestry | scripts/macos_tauri_support.py:113-117 | every member hangs below the seed by a chain of live parents as long as its depth says |
| ProcessTree.ObservedMatches | scripts/macos_tauri_support.py:91-112 | a recorded pid is only observed under its recorded start time and command |
| ProcessTree.ClosureRemembers | scripts/macos_tauri_support.py:119 | recording an observation changes no earlier record |
| ProcessTree.ObservationAnchored | scripts/macos_tauri_support.py:83-119 | the records stay a tree rooted at the host, depth by depth |
| ProcessTree.SeedRefused | scripts/macos_tauri_support.py:83-87 | an observation is refused exactly when nothing is recorded and the root pid runs no host command |
| ProcessTree.ObservationTrusted | scripts/macos_tauri_support.py:83-119 | only host commands are recorded for the host's pid, only commands inside the allowed root for all others |
| ProcessTree.DescendsFromHost | scripts/macos_tauri_support.py:99-119 | every recorded process reaches the host in as many recorded steps as its depth |
| ProcessTree.RunRemembers | scripts/macos_tauri_support.py:80-119 | over every sequence of tables a record is never changed or forgotten |
| ProcessTree.RunTrusted | scripts/macos_tauri_support.py:80-119 | over every sequence of tables from an empty record, the host's pid is only recorded with host commands, any other only with commands inside the allowed root |
| ProcessTree.RunUnique | scripts/macos_tauri_support.py:80-119 | the tables alone determine what is recorded |
| ProcessTree.VerifiedProcessTree.Observe | scripts/macos_tauri_support.py:80-120 | records the closure over the current table and lists it in pid order without the host; refused, with nothing recorded, exactly when the root pid runs no host command while nothing is recorded |
| ProcessTree.ListRows | scripts/macos_tauri_support.py:120 | the rows of the observed pids, once each, in ascending pid order |
| ProcessTree.VerifiedProcessTree.VerifiedSidecarPid | scripts/macos_tauri_support.py:145-170 | true if and only if the pid and its parent are live, recorded at depths 2 and 1, and run one sidecar executable; the parent then hangs under the host |
| ProcessTree.VerifiedProcessTree.Stop | scripts/macos_tauri_support.py:181-212 | SIGTERM, then SIGKILL if still there, each only on a row that matches the record |
| ProcessTree.VerifiedProcessTree.StopAll | scripts/macos_tauri_support.py:178-212 | every record is dealt with, deepest first |
| ProcessTree.VerifiedProcessTree.Terminate | scripts/macos_tauri_support.py:172-213 | for every sequence of tables, signals only go to pids whose current row matches its record and runs a host command or one inside the allowed root; success means none is left |
| ProcessTree.VerifiedProcessTree.VerifyAbsent | scripts/macos_tauri_support.py:215-227 | refused exactly when a recorded process is live |
| ProcessTree.StopKeeps | scripts/macos_tauri_support.py:178-212 | stopping one more process keeps the account of authorised, deepest-first signals |
| ArtifactManifest.ValidatePayloads | scripts/artifact_manifest.py:240-275 | accepts exactly well-formed payload lists without colliding paths, and rebuilds them unchanged |
| ArtifactManifest.StringMap | scripts/artifact_manifest.py:174-192 | accepts exactly non-empty maps of non-empty (digest) strings, unchanged |
| ArtifactManifest.ValidateManifest | scripts/artifact_manifest.py:195-330 | computes the normal form of exactly the acceptable manifests |
| ArtifactManifest.NormalizedIsBody | scripts/artifact_manifest.py:277-323 | the rebuilt fields are the given ones: no field lost, added or moved |
| ArtifactManifest.SortedPayloads | scripts/artifact_manifest.py:291-293 | sorting keeps the payloads acceptable and is settled after the first time |
| Ordering.LessIsLexicographic | scripts/artifact_manifest.py:291-293 | sorting is by code points: the smaller at the first difference comes first, a prefix before what it begins |
| ArtifactManifest.NormalFormSettles | scripts/artifact_manifest.py:325-330 | a normal form is acceptable and its own normal form, digest included |
| ArtifactManifest.ManifestSettles | scripts/artifact_manifest.py:195-330 | validating a validated manifest changes nothing |
| ArtifactManifest.RelativePathIff | scripts/artifact_manifest.py:55-66 | which paths joined from parts are accepted: no empty, `.` or `..` part, no backslash, NUL or drive |
| ArtifactManifest.AcceptedScalars | scripts/artifact_manifest.py:211-221 | an accepted manifest has version two, two object ids, no unknown field and no wrong digest |
| ArtifactManifest.VersionByValue | scripts/artifact_manifest.py:214-215 | the schema version is compared by value, so 2.0 passes for 2 |
| ArtifactManifest.AcceptedProducer | scripts/artifact_manifest.py:223-238 | its producer has the five fields, filled |
| ArtifactManifest.BlankChecks | scripts/artifact_manifest.py:229-233 | a producer text of white space only counts as empty |
| ArtifactManifest.AcceptedMap | scripts/artifact_manifest.py:174-192 | its maps are not empty and hold filled texts, digests where they must |
| ArtifactManifest.AcceptedPayload | scripts/artifact_manifest.py:245-275 | each payload has its four fields, a clean relative path and no other payload's path |
| ArtifactManifest.AcceptedMetadata | scripts/artifact_manifest.py:295-323 | an image digest comes exactly with an OCI payload, Cargo metadata exactly with an unsigned Tauri payload |
| ArtifactManifest.SampleAccepted | scripts/artifact_manifest.py:195-330 | a concrete manifest is accepted exactly when image digest and Cargo metadata suit the kind of its payload |
| WorkflowProof.ValidateJob | scripts/main_validation_proof.py:619-659 | accepts exactly the jobs of this run and commit, and keeps what the proof needs |
| JsonValue.FieldChecks | scripts/main_validation_proof.py:475-505 | what the checks of texts, positive integers and hexadecimal digests let through, at their edges |
| WorkflowProof.CollectJobs | scripts/main_validation_proof.py:788-808 | jobs keyed by name and attempt; refused exactly for an invalid, future or duplicate job |
| WorkflowProof.SelectJobs | scripts/main_validation_proof.py:821-838 | each available job is taken from exactly its producer's attempt, or else the run's |
| WorkflowProof.ChooseJobs | scripts/main_validation_proof.py:810-861 | succeeds exactly when no required job is missing, none is unknown, and each selected one has the required result |
| WorkflowProof.BuildWorkflowProof | scripts/main_validation_proof.py:725-886 | emits the record the responses yield, and is refused exactly when the run, the jobs or their results are wrong and none exists |
| WorkflowProof.EmittedUnique | scripts/main_validation_proof.py:787-886 | responses and attempts determine the record |
| WorkflowProof.SelectedKept | scripts/main_validation_proof.py:821-861 | every selected job has its name, a valid form, its required result and an attempt no later than the run's |
| WorkflowProof.ValidateStoredList | scripts/main_validation_proof.py:1369-1383 | accepts exactly lists of well-formed jobs with the wanted conclusion and no future attempt |
| WorkflowProof.ValidateStoredWorkflow | scripts/main_validation_proof.py:1320-1424 | accepts exactly the records with the right fields, sorted jobs and own proof job |
| WorkflowProof.EmittedIsAccepted | scripts/main_validation_proof.py:863-886 | the verifier accepts an emitted record if and only if its proof job came from the run's own attempt |
| WorkflowProof.ForeignProofJobRefused | scripts/main_validation_proof.py:1421-1424 | responses and attempts, of a policy the repository does not have, whose record is emitted and refused: the run is in attempt 2, its proof job was taken from attempt 1 |
| WorkflowProof.EmittedJobs | scripts/main_validation_proof.py:646-659 | every job in an emitted record is a job of the response, restricted to nine fields, member by member |
| WorkflowProof.EmittedRun | scripts/main_validation_proof.py:757-785 | an emitted record repeats the run of the response, whose commit, tree, branch and repository are the target's; with a proof job it is in progress, else it has succeeded |
| WorkflowProof.EmittedResponse | scripts/main_validation_proof.py:736-746 | the response holds a run and all its jobs, of that run and commit and no later attempt, and nothing else |
| StoredRecords.StoredIsRecord | scripts/main_validation_proof.py:1320-1424 | for a policy whose three kinds of jobs have different names, every accepted record is what generation writes for some run and jobs it may select |
| ValidationEvidence.EvidenceProducerAttempts | scripts/main_validation_proof.py:677-722 | refused exactly when a manifest names no attempt or two of one job disagree; otherwise exactly the named attempts |
| ValidationEvidence.SourcedAttempts | scripts/main_validation_proof.py:693-714 | only jobs some policy names have an attempt, none later than its run's |
| ValidationEvidence.ValidateEvidence | scripts/main_validation_proof.py:908-1006 | accepts exactly the complete sets of valid, bound manifests, and returns their normal forms |
| ValidationEvidence.ManifestValidatorSettles | scripts/artifact_manifest.py:195-330 | the manifest validator is idempotent |
| ValidationEvidence.EvidenceSettles | scripts/main_validation_proof.py:1526-1535 | evidence normalised at generation is accepted at verification and validates to itself |
| MainProof.EmitRecords | scripts/main_validation_proof.py:1227-1238 | a record for each workflow, or some workflow has none |
| MainProof.EmittedRequiredJob | scripts/main_validation_proof.py:889-905 | looking a job up in an emitted record finds exactly the required ones, each in its expected attempt, and never a proof job |
| MainProof.ProducerAgrees | scripts/main_validation_proof.py:935-956 | for records built from the named attempts the producer comparison fails only for a job that is not required |
| MainProof.BoundIsNamed | scripts/main_validation_proof.py:677-722 | conversely, the first producer check refuses no artifact that agrees with its required job |
| MainProof.ProofJobNotNamed | scripts/main_validation_proof.py:943-956 | evidence that passes generation never names a proof job |
| MainProof.RecordAccepted | scripts/main_validation_proof.py:1224-1238 | when no evidence policy names a proof job, every emitted record is accepted on its own |
| PolicyTables.TablesFit | scripts/main_validation_proof.py:168-315 | in the repository's tables every artifact names a required job of its workflow, and none a proof job |
| PolicyTables.RepositoryRecordAccepted | scripts/main_validation_proof.py:1224-1238 | with the repository's tables every record generation emits is accepted on its own |
| PolicyTables.TablesApart | scripts/main_validation_proof.py:168-213 | in each workflow the required, the skipped and the proof jobs have different names |
| PolicyTables.RepositoryRecordsOnly | scripts/main_validation_proof.py:1320-1424 | with the repository's tables the verifier accepts only records generation can write |
| MainProof.GeneratedIsAccepted | scripts/main_validation_proof.py:1511-1535 | records and evidence generated together pass verification together |
| MainProof.GenerateProof | scripts/main_validation_proof.py:1214-1244 | generates whenever there is a proof to generate, and only proofs the verifier accepts |
| MainProof.VerifyProof | scripts/main_validation_proof.py:1511-1535 | accepts exactly complete sets of accepted records with bound evidence in normal form, numbers compared by value |
| JsonValue.SameIffCanonical | scripts/main_validation_proof.py:1532 | the final comparison is equality once all numbers are written alike |
| SourceFingerprint.HashFiles | scripts/source_fingerprint.py:93-114 | feeds the digest the stream of the sorted distinct inputs; refused exactly for a path outside, a missing file or an unrepresentable length |
| SourceFingerprint.BigEndianRoundTrip | scripts/source_fingerprint.py:110-112 | a length below the limit can be read back from its bytes |
| SourceFingerprint.BigEndianDigits | scripts/source_fingerprint.py:110-112 | the highest byte of a length comes first |
| SourceFingerprint.StaysInsideIff | scripts/source_fingerprint.py:99-102 | a path joined from parts is refused exactly when it is absolute or some part is `..` |
| SourceFingerprint.DecodeOfStream | scripts/source_fingerprint.py:108-113 | the stream decodes to the (path, content) list it was made from |
| SourceFingerprint.StreamInjective | scripts/source_fingerprint.py:95-113 | different lists have different streams |
| SourceFingerprint.FingerprintIgnoresOrder | scripts/source_fingerprint.py:97 | order and duplicates of the paths do not matter |
| SourceFingerprint.FingerprintPinsSources | scripts/source_fingerprint.py:93-114 | the streams of two sets of sources are equal if and only if the paths and every byte of them are |
| MismatchDiagnostics.CommonPrefix | scripts/nsis_mismatch_diagnostics.py:99-115 | the longest common prefix; the assertion failure is unreachable |
| MismatchDiagnostics.CommonSuffix | scripts/nsis_mismatch_diagnostics.py:118-138 | the longest common suffix within the bound; the assertion failure is unreachable |
| MismatchDiagnostics.ByteDifference | scripts/nsis_mismatch_diagnostics.py:141-161 | longest prefix, longest suffix that overlaps it in neither file, and the size change |
| MismatchDiagnostics.DifferenceExact | scripts/nsis_mismatch_diagnostics.py:141-161 | the files determine the numbers, which describe no difference exactly for equal files |
| MismatchDiagnostics.TreeInventory | scripts/nsis_mismatch_diagnostics.py:191-233 | refused exactly on a case collision or past a limit; else the records sorted by path |
| MismatchDiagnostics.IndexedInjective | scripts/nsis_mismatch_diagnostics.py:248-263 | comparing the lists and comparing the dictionaries come to the same |
| MismatchDiagnostics.ListDifferences | scripts/nsis_mismatch_diagnostics.py:250-276 | counts every differing path and lists the first 64 |
| MismatchDiagnostics.ListedDiffers | scripts/nsis_mismatch_diagnostics.py:251-262 | each listed path is one at which the trees differ, with the fields that do |
| MismatchDiagnostics.ListingAscends | scripts/nsis_mismatch_diagnostics.py:251-262 | the list is in strict path order |
| MismatchDiagnostics.FieldsLabel | scripts/nsis_mismatch_diagnostics.py:254-260 | which label stands for which difference, each at most once |
| MismatchDiagnostics.TreeComparison | scripts/nsis_mismatch_diagnostics.py:245-278 | equivalent exactly for equal inventories, exactly when the difference count is zero |
| JsonMerge.MergeRfc7396 | scripts/nsis_repack_producer.py:162-179 | returns the MergePatch function of section 2 of RFC 7396, whatever the order of members |
| JsonMerge.OrderDoesNotMatter | scripts/nsis_repack_producer.py:172-178 | every order of the patch's members gives the same result |
| JsonMerge.MergeReplaces | scripts/nsis_repack_producer.py:165-171 | a patch that is no object replaces any target, and a target that is none counts as empty |
| JsonMerge.MergeIdempotent | scripts/nsis_repack_producer.py:162-179 | applying a patch twice equals applying it once |
| JsonMerge.MergeNullFree | scripts/nsis_repack_producer.py:175-176 | a merge never leaves a null member in an object that had none |
| JsonMerge.MergeIntoNothing | scripts/nsis_repack_producer.py:168-171 | against a non-object a null-free patch is its own result |

## Left out

Abstractions and boundaries:

- SHA-256 and canonical JSON: digests are free constructors over what they hash (`Hash`, `Sha256`, `StampOf`) or an arbitrary function (`Host.digest`), and contents stand for their digests in the PE and fingerprint modules; the encoding itself is not modelled.
- Schema strings, exact key sets and value types of the ledger, seal, sample and transformation records: the datatypes have exactly those fields.
- Files are byte sequences and an atomic replacement is one step: temporary names, file descriptors, fsync, links, reparse points, permissions and Windows handles are not modelled.
- Files do not change while they are read: the checks that a host binary or an installer changed during a copy or scan are therefore not reachable here, apart from the comparisons that remain in `PatchedCopy` and `Patch`.
- Timestamps and run URLs are given parsed; seconds are `real`; percentiles are the rationals 1/2 and 19/20, and floating-point rounding is not modelled.
- `str.strip` is modelled as "some character other than space, tab, line feed and carriage return"; Unicode case folding and NFKC are an arbitrary function.
- One writer and one ledger/seal pair: the journal takes no lock, so concurrent writers, one ledger under several seals, and the path fields of a transaction are outside the claims.
- A journal write that fails with an exception instead of a crash, and then removes the file, is not modelled.
- Reading a row of the process table and signalling it is one step; the polling deadline is an arbitrary number of polls; how `ps` output is parsed and what counts as inside the allowed root are parameters.

Weaker or partial members:

- LatencyJournal.Machine.ValidateTransaction: has no path fields, so the checks that a transaction names this ledger and this seal are not modelled; there is one pair.
- LatencyJournal.Machine.CommitLedgerAndSeal: ledger and seal are two slots of the disk, so the refusal when both paths name one file is not modelled.
- LatencyJournal.Machine.RunAggregate: stops at the seal check; the report it then writes to a file of its own is `LatencyReport.AggregateLedger`.
- LatencyReport.CategoryReportFor: leaves out the outcome, cache-status and invalidation tallies and the constant method names of the report.
- AuthenticodeSigning.VerifySigningEquivalence: takes the two extraction trees as maps, so enumeration, case-collision checks and the path-binding comparisons are not modelled, nor is the request's identity list beyond the three expected digests.
- MacroExpansion.AuditInstruction: whether a spelling is forbidden, tokenising and the table of forbidden instructions included, is an arbitrary predicate.
- WorkflowProof.ForeignProofJobRefused: takes a policy with one proof job and the attempts as given; with the repository's tables those attempts cannot arise.
- StoredRecords.StoredIsRecord: for policies whose required, skipped and proof jobs have different names, as in the repository's tables; with a name of two kinds the verifier accepts a job under each, which generation never writes.
- MainProof.GenerateProof: covers workflow records and evidence; the source fingerprint, critical inputs, fixture hashes, artifact roots, NSIS provenance summary and proof digest are not part of this model.
- MainProof.VerifyProof: covers the same two parts, for the current schema only.
- ValidationEvidence.ValidateEvidence: the extra payload checks on the Windows candidate manifest are an arbitrary predicate; the duplicate-payload check is dropped because validated manifests have no duplicate paths.
- ProcessTree.VerifiedProcessTree.VerifiedSidecarPid: whether a command is the exact sidecar executable is a parameter.
- MismatchDiagnostics.TreeInventory: the directory walk, the portability check of a path and the per-file limit are not modelled.
- MismatchDiagnostics.TreeComparison: the tree digests, file counts and total sizes of the report are not part of the result.
- SourceFingerprint.HashFiles: which files are public build inputs, and the symbolic-link check, are not modelled.

Not modelled because they would add only field-by-field checks or foreign calls:

- `sidecar_pid` (the shallowest recorded sidecar), the payload-list reader, manifest building and consumption checks.
- The signing request, decision and receipt records, the repack kit and receipt records, and the toolchain locks.
- Comment stripping, tokenising and path resolution of NSIS scripts: the audit takes tokens and the set of forbidden spellings as given.
- Requirement coverage, CI impact, test inventory, seeds, demos, backups, and every call to git, GitHub, compilers, installers or the UI.
