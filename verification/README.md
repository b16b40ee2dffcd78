# holzkube-manager: verified models of its stateful cores

This project models six parts of holzkube-manager in Dafny and proves what each of them is for.
`dafny verify dfyconfig.toml` checks it.

**Metrics history** (`History*.dfy`). Two rings indexed by absolute time slots, a minute tier averaged from
the fine one, and a binary file. The reference is the unbounded log of samples. A clean restart cannot be
seen in any chart (`RestartIsInvisible`), the file gives back what is still in the window (`FileRoundTrip`),
every chart is said of the recordings alone (`HourChartIsRecordings`, `LongChartIsMeans`), and for samples in
any order the rings are the log (`RingRefinesLog`) and the tiers agree
(`AnyOrderTiersAgree`). Where it fails is stated too: one name longer than the reader's bound empties the
history at the next start (`RunRestartKeepsExactly`, with such a run in `LongNameForgets`), and a minute in
which opposite infinities meet keeps an earlier value (`AnyOrderAgreesExactly`).

**Configuration drift** (`Drift*.dfy`). Readings, own applies, failed applies, confirmations, clean-up and
restarts all rewrite one record a node through a compare-and-swap store. Open drift survives everything but
its three ends (`OpenDriftSurvives`), own changes are never drift (`OwnChangeIsNeverDrift`), foreign ones are
never missed (`ForeignIsDrift`), and what is stored and confirmed is what was checked (`BaselinesStaySound`,
`ConfirmExact`, `NoConfirmTwice`). The decision table is also stated with every window written out
(`LandsExactly`, `ForeignExactly`), and so is what each call leaves behind (`DriftCalls.dfy`).

**Audit archive** (`Audit*.dfy`). A hash chain across daily files that are rotated and compressed in small
steps, any of which may be the last before a crash. The archive always reads as one uninterrupted file
(`ArchiveIsOneLog`), every window of it verifies (`EveryWindowVerifies`), the verifier is exact
(`VerifyContext`) and binding (`Binding`), canonical JSON can be read back (`RoundTrip`), paging is exact
while the archive changes (`PaginationOverRuns`), and redaction depends on nothing but what is permitted
(`DependsOnPermitted`, and by the texts of the entries `Params`). The hash is taken over the previous hash and the record with nothing between them;
that the two can be told apart is proved with a scanner (`HashedTextTells`) rather than assumed from a length.

**Installer repository cache** (`Installer*.dfy`). A protocol of callers that share a mutex: single flight on
cold keys, unsynchronised re-questions of stale ones, a fan-out whose decision must not depend on arrival
order. A name changes at most once (`NameChangesAtMostOnce`), a proven one never, and no follower inherits a
cancelled leader's failure (`FollowerGets`). The client's methods are tied to the protocol step by step,
and what is served and cached is said of the registry's answers (`ColdServes`, `RequestionServes`).

**Canonical schematics** (`Schematic*.dfy`). The id of a schematic is the hash of a document, so the document
must be readable back; `Canonical` is proved to print exactly the document that reads back as the schematic, and that document is given line by line (`DocumentIsLayout`).

**Symlink resolution** (`HostPath.dfy`). A worklist that grows, proved to end and to agree with a recursive
lookup; which texts it resolves as every-link-followed is stated exactly (`ResolvedIsFollowedExactly`).

Code that changes things in place is modelled by classes and methods with loops, each held to a
specification function or to the steps of a state machine; the theorems over runs are about those. Shared
pieces: `Ordering.dfy` (sorted keys of maps), `Splitting.dfy`, `Octets.dfy`, `Decimals.dfy`, `Utf8.dfy`,
`JsonTree.dfy`, `Wrappers.dfy`.

Where the code and its comments disagree, the code is followed:

- `internal/imagefactory/installer.go:399-402` says a stale re-question can run beside a cold resolution of the
  same key. It cannot: a re-question needs a cached entry, entries are never removed, and a cold resolution
  runs only while there is none (`InstallerRuns.SingleFlight`).
- `internal/imagefactory/installer.go:374-378` retires a flight even when the resolution panics, but then
  publishes nothing; a follower is served an empty name without an error, and only then (`InstallerRuns.FollowerGets`).
- `internal/host/filesystems.go:136-141` describes the result as every symlink in the path followed, but takes
  the dots out of the text first. That is harmless exactly for texts that never go up behind a name
  (`HostPath.ResolvedIsFollowedExactly`).
- `internal/history/history.go:274-281` keeps a minute's earlier value when its average is no number, and a
  finite 64-bit sample can become an infinity of 32 bits, so two samples can leave the tiers apart
  (`HistoryAnyOrder.InfinitiesDisagree`).
- `internal/history/persist.go:361-372` refuses names the encoder has written without a bound
  (`HistoryLongNames.RunRestartKeepsExactly`).

Taken from outside as parameters: the clock, the text of a time stamp and its day, the hash function, the
compressor (an inverse pair), the mean of a sequence of values, the conversion of a 64-bit float to a 32-bit
one, the snapshot of a configuration text and whether it holds a private key, which plain YAML scalars resolve
to something other than a string, the answers of the registry, the file system's entries, and every failure
of a store, a file or a request.

## Model

| member | source | states |
|---|---|---|
| HistoryRing.FloorDiv | internal/history/history.go:486-492 | the quotient rounded towards minus infinity: the one integer with b*q <= a < b*(q+1), built from a division that truncates |
| HistoryRing.IndexIsMod | internal/history/history.go:165-172 | the index of a slot is the slot modulo the size for every slot, negative ones included, although the remainder it is computed from truncates |
| HistoryRing.Ring.Put | internal/history/history.go:175-189 | in place on the array: after a put the ring is the sparse log with the slot set, the head moved forward and everything that left the window forgotten; a slot behind the window changes nothing |
| HistoryRing.Ring.At | internal/history/history.go:191-196 | reads the sparse log: the value last put at a slot inside the window, a gap outside it |
| HistoryAnyOrder.RingRefinesLog | internal/history/history.go:150-196 | for samples in any order a ring holds, at every slot of (head-n, head], the last number put there, and a gap everywhere else |
| HistoryAnyOrder.AnyOrderAgreesExactly | internal/history/history.go:175-306 | for samples in any order a minute whose first fine slot lies above the fine ring's lower edge has, as its coarse value, the average of that minute's fine slots exactly when that average is a number or the minute is empty |
| HistoryAnyOrder.AnyOrderAgreesWhereNumber | internal/history/history.go:175-306 | one half of that without any hypothesis on the mean |
| HistoryAnyOrder.AnyOrderTiersAgree | internal/history/history.go:247-306 | for samples whose 32-bit values are finite, in any order, every such minute agrees: the mean of finite values is a number |
| HistoryAnyOrder.InfinitiesDisagree | internal/history/history.go:274-306 | two finite samples of one minute that overflow to opposite infinities leave the coarse slot at the first while the average of the fine slots is no number |
| HistoryStore.MinuteAverage | internal/history/history.go:293-306 | the accumulator loop gives the mean of the values at exactly the slots of the minute that hold a number, in their order, and a gap when there is none |
| HistoryStore.LiveSeries.Sample | internal/history/history.go:275-281 | both rings of a live series, changed in place, are the series the specification gives for one more sample |
| HistoryLog.MinuteIsMean | internal/history/history.go:286-306 | whatever the mean is: the chart value of a minute is the average of the last value of each of its fine slots in the log wherever that is a number, and a gap where the minute is empty |
| HistoryLog.MinuteIsMeanExactly | internal/history/history.go:274-306 | and exactly there: where opposite infinities meet the minute keeps an earlier value instead |
| HistoryLog.MinuteIsMeanOfFinite | internal/history/history.go:286-306 | so for finite values every minute is the average of its fine slots |
| HistoryStore.RecordAll | internal/history/history.go:257-284 | the loop over the values of one recording gives the same series whatever order the map hands them out in; values that are no number are skipped |
| HistoryStore.Store.Record | internal/history/history.go:247-285 | the store after a recording: nothing at all for an empty one, otherwise the subject updated and the store marked as changed |
| HistoryStore.Store.PruneOld | internal/history/history.go:432-447 | the loop drops exactly the subjects not heard from for more than 24 hours, counts them, and marks the store as changed only if there were any |
| HistoryStore.Store.Chart | internal/history/history.go:309-349 | the loop over the slots of a range gives the points of the chart, series without a point left out |
| HistoryStore.Store.Open | internal/history/persist.go:95-126 | a start finds what the file holds for the time it starts at, and an empty history when there is no file or it cannot be read |
| HistoryStore.Store.Flush | internal/history/persist.go:153-179 | a flush writes the file of the store as it is now and clears the mark only if the write succeeded; an unchanged store is not written |
| HistoryStore.Store.FlushIfDue | internal/history/persist.go:140-147 | flushes exactly when something changed and the last flush is thirty minutes ago |
| HistoryRestart.RunKeeps | internal/history/history.go:247-447 | over every run of recordings at non-decreasing times, prunings, flushes that may fail, and clean restarts, memory agrees with the log of all samples in every slot of both windows, and a clean store has a file that gives it back |
| HistoryRestart.RestartIsInvisible | internal/history/persist.go:95-179 | after any such run every chart of every range at any later time shows exactly what a never-restarted, never-pruned log of samples shows |
| HistoryCharts.HourChartIsRecordings | internal/history/history.go:309-349 | after any such run the hour's chart has a point exactly for each of the last 240 quarters of a minute in which something was recorded under the name, at its first instant and with its last value |
| HistoryCharts.LongChartIsMeans | internal/history/history.go:286-349 | the charts of six hours and of a day have a point exactly for each of their last 360 and 1440 minutes in which something was recorded: the mean of the last values of its quarters, in their order, wherever that is a number |
| HistoryCharts.MinuteShows | internal/history/history.go:274-306 | a minute is the mean of the last values recorded in exactly those of its quarters that have one, wherever that is a number, and a gap when none has |
| HistoryCharts.ChartsRise | internal/history/history.go:309-349 | the points of a chart rise in time |
| HistoryRestart.OnlySamplesCount | internal/history/persist.go:95-179 | two runs with the same recordings show the same charts, however they were pruned, flushed and restarted |
| HistoryRestart.RestartKeepsExactly | internal/history/persist.go:361-372 | a clean restart keeps the window exactly when every key and series name is within the reader's bound; with one longer name the whole history is lost |
| HistoryLongNames.StaysWritable | internal/history/history.go:247-447 | over any run with names of any length, stops at any time and starts from whatever file there is, everything held can be written to the file |
| HistoryLongNames.RunRestartKeepsExactly | internal/history/persist.go:361-372 | after any such run a flush and a start keep the window exactly when every name held is within the reader's bound, and otherwise find nothing |
| HistoryLongNames.LongNameForgets | internal/history/persist.go:361-372 | one sample under a name one byte too long is in the chart of the log and gone after a flush and a start in the same moment |
| HistoryRestart.StandsShows | internal/history/history.go:309-349 | a store that agrees with the log charts what the log charts |
| HistoryRestart.PruneAgrees | internal/history/history.go:432-447 | a pruned subject had nothing left in any window |
| HistoryRestart.LoadedAgrees | internal/history/persist.go:268-394 | what is read back from the file still agrees with the log at the later time |
| HistoryWire.UvarintRoundTrip | internal/history/persist.go:341-349 | Base 128 Varints: every number below 2^64 is read back and exactly its own bytes are consumed |
| HistoryFormat.UvarintBytes | internal/history/persist.go:341-349 | byte i is the i-th seven bits, the lowest first, with the top bit set on every byte but the last |
| HistoryWire.UvarintFits | internal/history/persist.go:341-349 | no number is read that does not fit 64 bits |
| HistoryFormat.ZigzagCounts | internal/history/persist.go:351-359 | 0, -1, 1, -2, 2 are written as 0, 1, 2, 3, 4, and so on |
| HistoryFormat.WordBytes | internal/history/persist.go:245-265 | a value is its four bytes from the lowest up |
| HistoryFormat.FileBegins | internal/history/persist.go:189-229 | "HKMH", version 1 and the packed body |
| HistoryFormat.OtherFilesAreRefused | internal/history/persist.go:268-284 | a file that begins otherwise or does not unpack is not read |
| HistoryFormat.OneSampleFile | internal/history/persist.go:35-50 | the body of a file of one sample byte for byte, which fixes the order of everything in it |
| HistoryWire.VarintRoundTrip | internal/history/persist.go:351-359 | zigzag varints: every signed 64-bit number is read back and exactly its own bytes are consumed |
| HistoryWire.StringRoundTrip | internal/history/persist.go:361-372 | a string within the bound is read back and exactly its bytes consumed; a longer one is refused |
| HistoryRoundTrip.TrackRoundTrip | internal/history/persist.go:245-265 | one ring written at one time and read at a later one: exactly its bytes are consumed and the loader's puts give the ring LoadKeepsWindow describes |
| HistoryRoundTrip.LoadKeepsWindow | internal/history/persist.go:374-394 | for now <= later a loaded ring reads as the written one at every slot of [later-n+1, now] and as a gap elsewhere, and counts as held exactly if something is left |
| HistoryRoundTrip.SubjectRoundTrip | internal/history/persist.go:189-235 | one subject is read back with the series that still have a value in window, and dropped when none has |
| HistoryRoundTrip.FileRoundTrip | internal/history/persist.go:189-394 | the whole file: reading it gives the store less what aged out, exactly when every key and series name is within the bound, and nothing otherwise; the caps on counts never cut a valid file short |
| HistoryCodec.Trim | internal/history/persist.go:245-257 | the two loops find the stretch between the first and last value to write |
| HistoryCodec.AppendRing | internal/history/persist.go:245-265 | appends to the buffer exactly the bytes the file format gives a ring |
| HistoryCodec.EncodeBody | internal/history/persist.go:189-229 | the nested loops over sorted keys and names append exactly the bytes of the format, whatever order the maps hand them out in |
| HistoryCodec.Decoder.Uvarint | internal/history/persist.go:341-349 | consumes one varint, or latches the error and empties the input |
| HistoryCodec.Decoder.String | internal/history/persist.go:361-372 | consumes one string, or latches the error |
| HistoryCodec.Decoder.ReadRing | internal/history/persist.go:374-394 | consumes one ring and puts its values into a fresh one, or latches the error |
| HistoryCodec.DecodeBody | internal/history/persist.go:268-325 | the decoder's loops with their latched error give what the reader of the format gives, and no store at all on any error; bytes behind the last subject are not looked at |
| DriftTable.StateExact | internal/configdrift/decide.go:52-263 | exactly when a reading is ok, settling, drift or damaged, said without the order of the rules |
| DriftTable.DamagedExactly | internal/configdrift/decide.go:266-278 | exactly when a record cannot be trusted: its format, its text, its digest, its machine, or a text that does not load; nothing is written then |
| DriftTable.LandsExactly | internal/configdrift/decide.go:109-157 | what was sent lands exactly when it was staged, was sent with a restart less than a day ago, or otherwise less than the settle window ago; after that it is settling or a deviation, which drops the expectation |
| DriftTable.ExpiredIsDropped | internal/configdrift/decide.go:177-222 | whatever is written of a record whose expectation has run out no longer has it |
| DriftTable.ForeignExactly | internal/configdrift/decide.go:166-201 | another change is settling inside the settle window of an apply that was not staged and drift since now otherwise, with nothing else of the record touched |
| DriftTable.OpenExactly | internal/configdrift/decide.go:109-201 | while a deviation is open every reading but the baseline is drift since its start, and an own apply landing on it is noted once |
| DriftTable.BaselineCloses | internal/configdrift/decide.go:158-222 | the baseline again closes what was open and drops the expectation exactly when it is spent or has run out |
| DriftTable.JudgeKeepsOpenDrift | internal/configdrift/decide.go:103-220 | what a judgement writes keeps an open deviation with its baseline and its start unless the node is the baseline again, and opens one only while saying drift |
| DriftTable.JudgeKeepsSound | internal/configdrift/decide.go:58-220 | what a judgement writes is undamaged, under the cap, free of private keys, and has an apply noted on a drift only while one is open |
| DriftRuns.OpenDriftSurvives | internal/configdrift/decide.go:52-225 | over any run of readings, failed readings, applies landing or failing, lost compare-and-swaps, confirmations that fail and restarts, an open deviation keeps its start, its snapshot and its digest until one of its three ends, as long as other writers leave what is in the record |
| DriftRuns.StepKeepsOpen | internal/configdrift/lifecycle.go:55-117 | the same for one step |
| DriftRuns.ForeignDecided | internal/configdrift/decide.go:52-225 | the decision about such a reading under any list of faults: drift since the first sight, or not told; damaged only where the record could not be read |
| DriftRuns.ForeignIsDrift | internal/configdrift/decide.go:174-201 | a reading that is neither the baseline in meaning nor covered by an own apply, whatever goes wrong: once an attempt goes through it is drift in memory and in the record, keeping the first start; until then memory shows what it showed, unless the record cannot be read |
| DriftRuns.OwnChangeIsNeverDrift | internal/configdrift/apply.go:53-119 | from a node at rest on its baseline, an apply stored: while the node shows the old state and then what was sent, first inside the window, with lost writes, failed readings, late publications and restarts anywhere between, memory never says drift or settling; once a reading of what was sent goes through it is the baseline |
| DriftCalls.FirstSightLays | internal/configdrift/decide.go:75-91 | a node without a record gets one of what it runs |
| DriftCalls.UnsafeIsNotJudged | internal/configdrift/decide.go:58-67 | a text over a mebibyte or with a private key in it is neither compared nor stored |
| DriftCalls.UnreadableIsKept | internal/configdrift/decide.go:92-101 | a record that cannot be read is said to be damaged and is not written over |
| DriftCalls.FailureKeepsTheGood | internal/configdrift/decide.go:286-330 | a failed reading keeps the last good one and takes the deviation's start from the record |
| DriftCalls.ExpectExactly | internal/configdrift/apply.go:91-119 | an apply that starts leaves its expectation in a record that can be trusted, and nothing else of it changes |
| DriftCalls.UnexpectExactly | internal/configdrift/apply.go:123-145 | an apply that failed takes back its own expectation, by digest and time, and no other; nothing else of the record changes |
| DriftCalls.LaterApplyKeepsItsOwn | internal/configdrift/apply.go:121-145 | also when the later one is laid down in the middle of it |
| DriftCalls.ConfirmRefusesExactly | internal/configdrift/lifecycle.go:119-152 | the three refusals before anything is written, in their order |
| DriftCalls.ConfirmSucceeds | internal/configdrift/lifecycle.go:55-117 | with the digest that was shown a confirmation succeeds once an attempt goes through, unless the record cannot be trusted, and the record is then exactly what was shown |
| DriftCalls.ConfirmedShowsOk | internal/configdrift/lifecycle.go:154-182 | and the node is shown as ok with that reading |
| DriftRuns.BaselinesStaySound | internal/configdrift/decide.go:58-67 | over any run every stored record, and every reading that could be confirmed, is undamaged for its machine, under the cap and checked for private keys, with other writers putting any such record of their own in place of the stored one at any time |
| DriftRuns.ConfirmExact | internal/configdrift/lifecycle.go:55-140 | a confirmation that succeeds installs exactly the snapshot whose digest was passed and the operator was shown, with no deviation or expectation left |
| DriftRuns.NoConfirmTwice | internal/configdrift/lifecycle.go:121-182 | between two successful confirmations of one node some reading was compared and found to be drift |
| DriftRuns.OnlyDecideShowsDrift | internal/configdrift/decide.go:286-330 | nothing but a compared reading ever makes the reading in memory say drift, failed readings published late included |
| DriftService.Service.DecideReading | internal/configdrift/decide.go:52-225 | the retry loop: the record and the reading after it are those of the run step, and no other machine is touched |
| DriftService.Service.JudgeOnce | internal/configdrift/decide.go:92-222 | one attempt: the record written, the reading shown and the answer for each way the write can end |
| DriftService.Service.StorePut | internal/configdrift/decide.go:72-86 | a write with any revision but the stored one is refused and changes nothing; one with it is stored with the next |
| DriftService.Service.ApplyStarts | internal/configdrift/apply.go:53-119 | leaves the expectation of an apply in the record, none for a mode that returns by itself or a text that does not load |
| DriftService.Service.ApplyFailed | internal/configdrift/apply.go:123-145 | takes back that expectation and only that one |
| DriftService.Service.ConfirmDrift | internal/configdrift/lifecycle.go:55-117 | the loop of a confirmation: record, reading and answer |
| DriftService.Service.Forget | internal/configdrift/lifecycle.go:190-203 | drops the record and the reading of one machine and touches no other; the reading goes even when the record cannot be removed |
| DriftService.Service.Reconcile | internal/configdrift/lifecycle.go:218-254 | drops the records and readings of exactly the machines that some out-of-date record names, whatever file it lies in, except where the removal fails; one record that cannot be listed stops the whole clean-up |
| DriftService.ClearsExactly | internal/configdrift/lifecycle.go:218-254 | a record that lies under its own name, and that no other record names, outlasts it exactly when its machine is in the inventory and in its cluster |
| Ordering.SortedUnique | internal/audit/record.go:176-181 | a set of keys has one sorted order, so the order a map is walked in cannot show |
| AuditJson.WriteCanonicalString | internal/audit/record.go:213-243 | appends the quoted, escaped form of a string |
| AuditJson.WriteCanonical | internal/audit/record.go:154-209 | appends the canonical text of a tree, whatever order its maps are walked in |
| AuditJson.CharsRoundTrip | internal/audit/record.go:213-243 | a reader of JSON strings (section 7 of RFC 8259) gets back exactly the characters written and stops right behind the closing mark |
| AuditJson.NumberRoundTrip | internal/audit/record.go:166-175 | a number literal (section 6 of RFC 8259) is read back letter for letter |
| AuditJson.RoundTrip | internal/audit/record.go:154-209 | a reader of RFC 8259 recovers from the canonical text exactly the tree that was printed, and stops at its end |
| AuditJson.WriteInjective | internal/audit/record.go:94-115 | distinct trees have distinct canonical texts |
| AuditText.KeysRise | internal/audit/record.go:176-181 | the keys of an object, each once, in the order of their texts |
| AuditText.TwoFields | internal/audit/record.go:154-209 | so an object has one text: the field whose key comes first is first |
| AuditText.EscapesAre | internal/audit/record.go:213-243 | only the two marks and control characters are escaped, and how |
| AuditRecord.CanonicalJSON | internal/audit/record.go:104-114 | renders the twelve hashed fields of a record |
| AuditRecord.CanonicalTells | internal/audit/record.go:71-115 | two records with one canonical text agree in every field but, at most, the hash |
| AuditRecord.CanonicalReadsAs | internal/audit/record.go:69-115 | a reader of the text finds exactly the twelve fields, each with the part of the record it is named after |
| AuditScan.NoSuffix | internal/audit/record.go:104-128 | no canonical record ends with a shorter canonical record |
| AuditScan.HashedTextTells | internal/audit/record.go:116-128 | previous hash and canonical text are joined with nothing in between and can still be told apart, whatever the previous hash looks like |
| AuditChain.ComputeHash | internal/audit/chain.go:43-46 | the hash of the previous hash followed by the canonical text |
| AuditChain.ChainMeans | internal/audit/chain.go:48-60 | what a chain is, written out: hashes, predecessors, anchor |
| AuditChain.ReadFileLocated | internal/audit/rotate.go:293-333 | decodes a file in order with the line of each record, blank lines skipped, nothing at all if a line does not decode |
| AuditChain.GarbageIsUnreadable | internal/audit/rotate.go:323-326 | a file cannot be read exactly when some line does not decode |
| AuditChain.LinesAreExact | internal/audit/rotate.go:267-276 | the line reported for a record is the line of the file it stands on, and lines rise |
| AuditChain.EveryEntryLocated | internal/audit/rotate.go:293-333 | no record of a readable file is passed over |
| AuditChain.VerifyContext | internal/audit/chain.go:78-130 | its answer is the exact one: sound when the window is a chain, otherwise the first file and line that break it, or the file that cannot be read; abandoned only if the caller left |
| AuditChain.ExactOnce | internal/audit/chain.go:48-60 | there is one exact answer for a window |
| AuditChain.Binding | internal/audit/chain.go:43-130 | with a collision-free hash, two accepted windows that end in one hash are one history: the shorter is the end of the longer, record for record |
| AuditArchive.ShortSession | internal/audit/record.go:57-62 | a session token of at most eight characters is kept whole, of a longer one exactly the first eight and a mark |
| AuditArchive.SealedIsEntry | internal/audit/audit.go:175-204 | sealing changes the number, the two hashes and the session of what was asked to be recorded, and nothing else |
| AuditArchive.OldDaysExact | internal/audit/rotate.go:96-112 | due for compression are exactly the plain days with two plain days after them |
| AuditArchive.StepKeeps | internal/audit/rotate.go:47-171 | every step of an append, a day change, a compression, a crash or a start keeps the archive equal to the log of appends, in one chain, with the newest day plain |
| AuditRuns.ArchiveIsOneLog | internal/audit/audit.go:132-224 | over every run, cut off anywhere and started again, the archive reads as one file that was never rotated: nothing lost, doubled or reordered, each record sealed onto the one before |
| AuditRuns.NumbersReadBack | internal/audit/audit.go:175-224 | after any run from an empty directory the numbers read back are 1, 2, 3, ..., as many as were appended, in one chain from the anchor |
| AuditRuns.StepSparesDays | internal/audit/rotate.go:114-171 | a step changes no day's records but those of the day it appends to, which it extends by one |
| AuditRuns.CurrentFileIsPlain | internal/audit/rotate.go:42-112 | the file being appended to is plain, is the newest, and is never waiting for compression |
| AuditWindow.EveryWindowVerifies | internal/audit/chain.go:78-130 | in every state of every run, every window of consecutive day files verifies |
| AuditWindow.VerdictIsSound | internal/audit/audit.go:366-375 | so no verification of such a window can say anything else |
| AuditLogger.DedupeByDay | internal/audit/rotate.go:230-245 | collapses a day that has both files, overwriting the entry in place |
| AuditLogger.DedupedIsChosen | internal/audit/rotate.go:201-245 | what is left of a sorted listing is one file for every day that has any, the compressed one where there are two, in the order of the days |
| AuditLogger.ChosenRead | internal/audit/rotate.go:201-245 | reading those files is reading the archive |
| AuditLogger.Logger.Resume | internal/audit/audit.go:132-151 | the backward walk past empty files finds the number and hash of the last record, or the start of a fresh chain |
| AuditLogger.Logger.CompressFile | internal/audit/rotate.go:118-171 | one day through temporary, rename and removal, with a failure at any point, the last sync of the directory included: the steps taken, and exactly the files that are left |
| AuditLogger.Logger.CompressOlderThan | internal/audit/rotate.go:99-112 | compresses the due days in order until one fails; when none does, only those days have changed and each holds what it held |
| AuditLogger.Logger.OpenDay | internal/audit/rotate.go:47-94 | turns the day over if it has changed; a failed compression does not fail the append |
| AuditLogger.Logger.Open | internal/audit/audit.go:92-124 | takes up the tail of the chain, opens the day and compresses, and refuses to start if that fails |
| AuditLogger.Logger.AppendRecord | internal/audit/audit.go:175-224 | seals one record onto the tail and writes it to the file of its own day |
| AuditLogger.Logger.Attempt | internal/audit/audit.go:228-270 | records the intent, forgets attempts too old for an outcome, and remembers this one |
| AuditLogger.Logger.Outcome | internal/audit/audit.go:281-313 | one outcome for each remembered attempt and none for any other, the attempt in every field but the result and the parameters, of which only a code as the cause is left |
| AuditLogger.Logger.Verify | internal/audit/audit.go:366-375 | exactly the newest two files are verified, and in an archive this writer made they are sound |
| AuditQuery.EffectiveLimit | internal/audit/query.go:109-118 | a hundred when nothing is asked for, never more than a thousand, and as many as asked for between |
| AuditQuery.WithinWindow | internal/audit/query.go:142-166 | drops the day files outside the window |
| AuditQuery.PruningIsExact | internal/audit/query.go:136-166 | leaving those files out loses no match |
| AuditQuery.Gather | internal/audit/query.go:80-97 | the inner loop over one file backwards onto the page, stopping when the page is full and a further match is known |
| AuditQuery.Query | internal/audit/query.go:62-99 | the page is the newest records of the walked files that are below the cursor, between the two bounds and of the action, as many as the limit; whatever of those is missing is older than all of it and there is a cursor. The query fails exactly when a file it comes to before the page is full cannot be read or finds the caller gone, and names that |
| AuditQuery.WalkIsTheLog | internal/audit/query.go:62-99 | in an archive the writer made that page is the page of the whole log |
| AuditQuery.PageIs | internal/audit/query.go:80-97 | every page of every log is that, by the places of its records |
| AuditQuery.SelectExact | internal/audit/query.go:120-134 | selected are exactly the records below the cursor, between the bounds and of the action, newest first, none twice |
| AuditQuery.BelowCursor | internal/audit/query.go:86-93 | going on below the cursor selects exactly what followed it, whatever has been appended since |
| AuditQuery.PaginationIsExact | internal/audit/query.go:36-42 | following the cursor until it is null delivers every match of the log as it stood at the first page exactly once, newest first, however much is appended between pages |
| AuditQuery.PaginationOverRuns | internal/audit/query.go:62-99 | the same with any run of the archive between the pages: appends, day changes, compressions, crashes, restarts |
| AuditRedact.CapLength | internal/audit/redact.go:850-861 | cuts at the last character boundary within the limit and says so |
| AuditRedact.CappedIsValid | internal/audit/redact.go:854-860 | a valid text cut short is valid UTF-8 |
| AuditRedact.Params | internal/audit/redact.go:701-725 | what stands at a path of the output is the marker, an object on the way to a path some entry of the action names, or at a path that an entry names letter for letter the value sent there; and what is sent at a named path, with no shorter one named, is written there: a scalar capped, a list only where it is marked |
| AuditRedact.PermittedIs | internal/audit/redact.go:798-846 | a leaf carries a scalar, or where a list is marked at most 32 of them, each cut at 256 bytes before a whole character |
| AuditRedact.DependsOnPermitted | internal/audit/redact.go:742-773 | two bodies that agree on what the allowlisted leaves show and on the keys leading to them are written alike |
| AuditRedact.Provenance | internal/audit/redact.go:748-846 | whatever is written that is neither the marker nor an object stands at an allowlisted path and is what that leaf shows of the value sent there |
| AuditRedact.ShownIsFlat | internal/audit/redact.go:800-846 | what a leaf shows is one short scalar, or where it is marked a list of at most thirty-two of them, never a structure |
| AuditRedact.DottedKeyIsRedacted | internal/audit/redact.go:702-718 | a key with a dot in it never stands for a nested path |
| AuditRedact.OutcomeCause | internal/audit/redact.go:879-905 | a code-shaped cause is kept as it is, anything else is replaced whole |
| Splitting.SplitIsExact | internal/audit/redact.go:711-717 | splitting an entry at its dots loses nothing |
| InstallerResolve.CandidatesKeepToTheirKind | internal/imagefactory/installer.go:255-264 | a SecureBoot request asks only about SecureBoot names and no other request asks about one |
| InstallerResolve.KeyTells | internal/imagefactory/installer.go:428-433 | different questions have different cache keys |
| InstallerResolve.ResolveInstallerRepo | internal/imagefactory/installer.go:788-882 | for every order in which the candidates answer, the decision is the one over the answers in declared order: the first success wins, unresolved are exactly the earlier candidates that neither answered nor refused |
| InstallerResolve.NotBuildableExact | internal/imagefactory/probe.go:106-108 | "no installer for this schematic" is said exactly when every candidate answered 400 or 404 |
| InstallerCache.StepKeeps | internal/imagefactory/installer.go:300-619 | every step of every caller keeps the invariant of cache, flights and callers, and only moves cached answers on |
| InstallerCache.StoreMoves | internal/imagefactory/installer.go:496-505 | publishing never replaces a proven answer, and serves the one that stands |
| InstallerCache.ColdIsGood | internal/imagefactory/installer.go:371-404 | a cold resolution yields a proven answer, or the legacy name with exactly the preferred one unresolved and a warning |
| InstallerAnswers.ColdServes | internal/imagefactory/installer.go:371-404 | from the two answers alone: the platform's own name when it answers 2xx, the shared one when only that does, proven if the own one answered 400 or 404 and otherwise with a warning; else nothing is cached, and "no installer" is said only if both refused |
| InstallerAnswers.RequestionServes | internal/imagefactory/installer.go:524-619 | from the one answer alone: 2xx makes the own name the proven one, 400 and 404 prove the served one, silence stamps it anew or, when the caller left, writes nothing |
| InstallerAnswers.RequestionYields | internal/imagefactory/installer.go:496-505 | on a key proven meanwhile nothing is written |
| InstallerAnswers.AskFinds | internal/imagefactory/installer.go:300-336 | a proven answer, or one less than five minutes old, is served; an older one is asked about again; with none the caller follows the resolution in progress or begins it |
| InstallerCache.RequestionIsGood | internal/imagefactory/installer.go:524-619 | a re-question yields a proven answer or the same name again |
| InstallerClient.Client.Ask | internal/imagefactory/installer.go:300-336 | the look into the cache: served, sent to ask again, made to follow or made to lead, as the protocol's step says |
| InstallerClient.Client.StoreInstallerRepo | internal/imagefactory/installer.go:496-505 | the map after publishing, changed in place, and the entry that is served |
| InstallerClient.Client.LeadInstallerFlight | internal/imagefactory/installer.go:371-404 | the leader's resolution in place is the protocol's step: the answers decided in declared order, published to the cache and to its flight |
| InstallerClient.Client.RemoveFlight | internal/imagefactory/installer.go:379-381 | takes the flight out of the map, as the protocol's step does |
| InstallerClient.Client.CloseFlight | internal/imagefactory/installer.go:381-383 | closes it, which wakes its followers |
| InstallerClient.Client.FollowInstallerFlight | internal/imagefactory/installer.go:410-426 | what a follower takes from a closed flight, or that it asks again, as the protocol's step says |
| InstallerClient.Client.RequestionInstallerRepo | internal/imagefactory/installer.go:524-619 | asks only the names that were never ruled out, and writes what came of it, or nothing when only its caller had left |
| InstallerRuns.SilenceSetsThePace | internal/imagefactory/installer.go:558-619 | a re-question that hears nothing stamps the answer anew, so that nobody asks again for a whole interval; one whose caller left writes nothing, and a stale answer is asked about again at once |
| InstallerRuns.RunKeeps | internal/imagefactory/installer.go:300-619 | over every interleaving a cached answer goes from provisional to the same name again or to proven, and from proven nowhere |
| InstallerRuns.NameChangesAtMostOnce | internal/imagefactory/installer.go:434-495 | the name under a key changes at most once, and never once it is proven |
| InstallerRuns.ProvenForEver | internal/imagefactory/installer.go:454-458 | a proven answer stays the answer in every later state |
| InstallerRuns.EntriesKeepToTheirKind | internal/imagefactory/installer.go:255-264 | SecureBoot keys hold SecureBoot names only; a provisional answer is the legacy name, has exactly the preferred one unresolved and carries its warning |
| InstallerRuns.SingleFlight | internal/imagefactory/installer.go:300-336 | at most one caller resolves a key from cold, and nothing is cached for the key meanwhile |
| InstallerRuns.FlightsHaveLeaders | internal/imagefactory/installer.go:371-384 | a flight in the map has a leader at work on it, so no key is blocked for good |
| InstallerRuns.RemovedAndClosedOnce | internal/imagefactory/installer.go:374-384 | a flight is taken out of the map once and closed once, both by its own leader |
| InstallerRuns.EveryRunKeepsFlights | internal/imagefactory/installer.go:300-384 | in every state a run from the empty cache reaches: one caller a key resolves from cold, every flight in the map has its leader at work, and two callers served a proven name for one key were served the same |
| InstallerRuns.EveryRunServesFollowers | internal/imagefactory/installer.go:410-426 | and there a follower gets its leader's entry or error, or asks again, and the empty name exactly after a panic |
| InstallerRuns.FollowerGets | internal/imagefactory/installer.go:371-426 | a follower gets the entry its leader published, which the cache still holds or has moved on from, or the registry's error, and never the failure of a leader whose caller had left; it is served an empty name without an error exactly when its leader panicked |
| InstallerRuns.ProvenServedAlike | internal/imagefactory/installer.go:434-495 | two callers ever served a proven name for one key were served the same name |
| InstallerRuns.ServedNamesAreReal | internal/imagefactory/installer.go:371-404 | every served name is one of the candidates, unless a resolution on the key has panicked |
| InstallerRuns.PanicServesNothing | internal/imagefactory/installer.go:371-384 | and such a run exists: every request has one in which a follower is served the empty name |
| SchematicYaml.DoubleRoundTrip | internal/imagefactory/schematicid.go:386-392 | section 7.3.1 of YAML 1.2.2: a double-quoted scalar is read back |
| SchematicYaml.SingleRoundTrip | internal/imagefactory/schematicid.go:272-272 | section 7.3.2: a single-quoted scalar is read back |
| SchematicYaml.IsPlainAllowed | internal/imagefactory/schematicid.go:534-574 | the scan accepts exactly the scalars with no leading indicator, no blank at either end, no colon that ends a scalar and no hash that starts a comment |
| SchematicYaml.PlainIsYaml | internal/imagefactory/schematicid.go:534-574 | of texts without a tab, the emitter writes plain exactly what section 7.3.3 lets a block-context reader take for a plain scalar on one line |
| SchematicYaml.LeafRoundTrip | internal/imagefactory/schematicid.go:265-273 | a scalar in the style chosen for it is read back, style and text |
| SchematicYaml.MapRoundTrip | internal/imagefactory/schematicid.go:183-239 | sections 8.2.1 and 8.2.2: printed block mappings, with the sequences and mappings nested in them, are read back, and the reader stops where they end |
| SchematicYaml.DocumentRoundTrip | internal/imagefactory/schematicid.go:125-178 | a printed document is read back from its text |
| SchematicDocument.FirstRefusalExact | internal/imagefactory/schematicid.go:242-254 | a refusal names a scalar before which none is refused, and there is none exactly when all are representable |
| SchematicDocument.RepresentableExact | internal/imagefactory/schematicid.go:321-378 | representable is exactly valid UTF-8 of the characters from space to tilde and from U+00A0 to U+FFFD, less the two line separators and the byte order mark |
| SchematicDocument.RepresentableKeepsLine | internal/imagefactory/schematicid.go:321-378 | a representable scalar stands on one line and has no tab in it |
| SchematicDocument.SchematicRoundTrip | internal/imagefactory/schematicid.go:125-273 | a schematic whose scalars are all representable is read back from its document as it was |
| SchematicDocument.CanonicalTells | internal/imagefactory/schematicid.go:79-105 | two schematics with one document are one schematic |
| SchematicDocument.AllScalars | internal/imagefactory/schematic.go:53-110 | the scalars that are checked are all there are: what is left out of the document is empty |
| SchematicWriter.RenderScalar | internal/imagefactory/schematicid.go:265-273 | the style: double-quoted when the plain form would be read as something else, plain where that is allowed, single-quoted otherwise |
| SchematicWriter.CanonWriter.Render | internal/imagefactory/schematicid.go:242-254 | renders a scalar, or keeps the first refusal with its place |
| SchematicWriter.CanonWriter.Items | internal/imagefactory/schematicid.go:144-149 | a sequence of scalars under its key |
| SchematicWriter.CanonWriter.Metas | internal/imagefactory/schematicid.go:150-158 | the META entries, each with its key on the dash line and its value two columns in |
| SchematicWriter.Canonical | internal/imagefactory/schematicid.go:125-178 | renders exactly the document of the schematic, which can be read back; fails exactly when some scalar is not representable and then names the first in document order |
| SchematicLayout.DocumentIsLayout | internal/imagefactory/schematicid.go:118-178 | the document line by line, for every schematic: which keys, in which order, how far in, in which style |
| SchematicLayout.QuotedLetters | internal/imagefactory/schematicid.go:386-392 | the letters of a quoted scalar one by one |
| SchematicLayout.RefusalIsLocated | internal/imagefactory/schematicid.go:125-254 | a refusal names the first refused scalar by its path and its position, everything before it in the document being fine |
| HostPath.ResolvePath | internal/host/filesystems.go:140-179 | the worklist loop ends on every file system, link cycles included, and gives what a component-by-component recursive lookup gives |
| HostPath.WalkLaws | internal/host/filesystems.go:148-176 | what each component does to a walk: nothing, one up, one down, or on to a link's target from where the link stands or from the root; and all that ends one |
| HostPath.LookupConcat | internal/host/filesystems.go:171-176 | putting a link's target in front of the worklist is the same as finishing the target first |
| HostPath.ResolvedIsReal | internal/host/filesystems.go:136-139 | no prefix of a resolved path is a link, and resolving it again gives the same path |
| HostPath.MoreHopsAgree | internal/host/filesystems.go:132-134 | the bound on links only ever refuses: with more links allowed an answer stays the same |
| HostPath.LoopIsRefused | internal/host/filesystems.go:163-166 | a link to itself is refused however many links may be followed |
| HostPath.CleanIsHarmlessExactly | internal/host/filesystems.go:140-141 | cleaning a path before it is looked up changes nothing, on any file system, exactly when the path never goes up behind a component that names an entry |
| HostPath.ResolvedIsFollowedExactly | internal/host/filesystems.go:136-179 | so resolving a text follows every link in it, on every file system, exactly when the text never goes up behind a name |
| HostPath.GoingUpDiffers | internal/host/filesystems.go:136-179 | for every path that does, a file system in which both lookups find something and the two are different directories |
| HostPath.CleanLosesTheLink | internal/host/filesystems.go:136-141 | the smallest case: going up out of a link that is the whole path |

## Left out

- Rings inside a store: `HistoryRing.Ring` and `HistoryStore.LiveSeries` change arrays in place and are proved equal to values; `HistoryStore.Store` keeps those values in its maps, so the sharing of rings between a subject and a caller is not modelled.
- Retain, SetApps, AppKnown, Has, Subjects and the shortest decimal of a point: lookups and filters around the history.
- Floating point: numbers of the history are 32-bit patterns, and the average is an arbitrary function of the sequence of values present.
- HistoryAnyOrder.AnyOrderTiersAgree: says nothing of a minute that straddles the fine ring's older edge when a late sample arrives; the code averages what is left of it.
- DriftService.Service.DecideReading: the number of attempts is the length of the list of faults; the code makes three.
- Drift: other writers of the store appear, between read and write, as a higher revision, a record laid where there was none, or a record in place of the stored one; the theorems about deviations and own applies are about the first two kinds; operator sentences, the health banner, the map of logged states and the loops over nodes (Tick, Refresh) are left out.
- Audit writes: a write or fsync that fails inside a living process is not modelled (memory then lags behind the file); appends succeed or the process dies, and lines are written whole.
- Audit clocks: days do not go back. A clock that does would append to a file that may be compressed.
- Strings of a record are code points: two texts that differ only in bytes that are not UTF-8 have one canonical text, in the code as well.
- Audit numbers: the parameters of a record are the tree the canonical form is made from; that decoding a line respells some numbers as floats is not modelled. Sequence numbers are unbounded.
- AuditChain.Binding: the hash is injective on texts, which no real hash is; no length of a hash is assumed.
- CachedVerify's memo of a verdict, Close's error, permissions, fsync and the directory's durability: I/O.
- AuditQuery.Query: which files cannot be read and where the caller has left are parameters; the allowlist itself is a parameter of AuditRedact.Params.
- AuditRedact: values are walked by recursion over immutable trees; numbers are literals.
- Installer: a method of InstallerClient.Client is one critical section, or one fan-out with what it publishes, so the memory order inside one is not modelled, and a leader's panic has a step of the protocol but no method; the warnings' wording, the two clocks of the route and the contexts are reduced to whether the caller had left. Each fan-out is one step of the protocol and is treated on its own in InstallerResolve.
- InstallerResolve.KeyTells: asks that platforms have no slash in them, which the validation of a request guarantees.
- HostPath.ResolvePath: paths are component lists, and a path that does not start at the root is resolved as if it did, as the code does; mountOf, statfs and the size walk are left out.
- Schematic ids: SHA-256 is left out; the Factory's own emitter is not part of this model.
- Network, HTTP routes, CLI, TLS, sign-in, sensors and tickers: thin wrappers over libraries.
