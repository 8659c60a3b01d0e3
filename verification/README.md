# proxy-watch, verified

A Dafny model of the parts of the `proxy-watch` crate that have no input or output of their own,
and proofs of what they promise. `dafny verify dfyconfig.toml` checks all of it.

* **The watcher's queue** (`Watch*.dfy`, from `src/watch.rs`). The state that the platform thread
  and the event stream share under one mutex. `WatchQueue` gives every locked section as a function
  of the state, `WatchShared` is the object whose methods change its fields in place and are proved
  to be those sections, `WatchRuns` carries the history of a run and the invariant of every step,
  `WatchPromises`, `WatchReports`, `WatchFirstItem` and `WatchLateRecord` state what a subscriber
  may rely on over every run, and `WatchWake` splits each method into its locked section and the
  wake after unlocking, so that steps interleave.
* **The PAC evaluation threads** (`Pool*.dfy`, from `src/pac/budget.rs`). A transition system over
  calls waiting for a slot, evaluation threads, hand-off channels, the idle list and lingering, with
  an inductive invariant over every interleaving; `PoolAnswers` adds that no job is stranded.
  `PoolSlots` is the shared object, each of whose critical sections is proved to be a step of that
  system.
* **Bypass lists** (`Bypass*.dfy`, `PlainReaders.dfy`, from `src/bypass.rs`). Evaluation from the
  back with the subtracting entry, the inversion switch and the implicit set; collapsing repeats;
  IPv4-mapped addresses and blocks; reading an entry and printing a rule. `BypassMeaning` and
  `BypassReading` say which destinations each rule, and each entry, comes to match. What the
  standard library and the `ipnet` and `url` crates do with addresses, blocks and host names is a
  parameter,
  `BypassParse.Readers`, and the laws the round trip needs of it are `BypassRoundTrip.Lawful`;
  `PlainReaders` shows that the laws can be kept, by a small grammar of names and addresses for
  which they, and the round trip without them, are proved.
* **Text** (`Text*.dfy`, `Credentials*.dfy`, `Strings.dfy`, `Decimals.dfy`, from `src/util.rs`,
  `src/endpoint.rs`, `src/resolve.rs`). The indexed masking scan against a plain rescan and its
  closed forms, the greedy glob against substitution, the hash, and credentials written into a URL
  and read back.
* **The lookup** (`Proxy*.dfy`, from `src/mode.rs`, `src/parse.rs`, `src/resolve.rs`). Slots, the
  records of dropped values, the `ProxyServer` string, and what a request resolves to, from the text
  of a token to the step taken.

Two statements that look natural are false of the code, and are stated as they are:

* the first item is not always a snapshot: after 1023 groups of failures, each closed by a published
  change, with no poll so far, it is a failure (`WatchFirstItem.FirstItemIsAFailure`);
  `WatchFirstItem.FirstItemIsASnapshot` says exactly which runs keep the snapshot in front;
* printing and reading back changes one rule, the glob for every name without a port, which an entry
  such as `*:` reads as (`BypassRoundTrip.EmptyPortExample`); every other rule is kept.

That the stream is level triggered rests on the constructor's order, which records the health before
anyone can poll (`WatchPromises.Timely`). `WatchLateRecord` says what it would take without that order.

The bound on threads rests on the order in which a thread joins the idle list and frees its slot:
`PoolPromises.FreeingFirstExceedsTheLimit` gives the run that breaks it under the other order.

## Model

| member | source | states |
|---|---|---|
| WatchQueue.FoldKeepsShape | src/watch.rs:984-1033 | Publishing leaves a snapshot last, keeps at most two snapshots, and lengthens only a queue of at most two entries |
| WatchQueue.TrimKeepsShape | src/watch.rs:790-801 | Trimming a published queue removes at most one entry, keeps the snapshot at the back and gets back within 1024 |
| WatchQueue.FailKeepsShape | src/watch.rs:1049-1073 | A failure that coalesces or goes behind leaves at most one failure after the last snapshot and at most 1025 entries |
| WatchQueue.ReportKeepsShape | src/watch.rs:869-1093 | Every producer's locked section keeps the shape of the queue |
| WatchQueue.PollKeepsShape | src/watch.rs:1095-1146 | A poll keeps the shape of the queue |
| WatchQueue.MergedDegradedMeaning | src/watch.rs:388-409 | The merged list starts with the established routes, holds exactly the established and the lost ones, and repeats none |
| WatchQueue.MergeAppends | src/watch.rs:388-409 | A route lost later is appended to the merged list unless it is there |
| WatchQueue.DirtyExactlyWhenHealthMoves | src/watch.rs:869-918 | A section other than a publication marks the state dirty exactly when it changes what is known at run time, and that moves the merged health except for a route reported gone before the construction-time health is recorded |
| WatchRuns.EmitQueue | src/watch.rs:984-1033 | What one published change does to the queue: the front kept or, when one is discarded, a failure in front of a full queue |
| WatchRuns.EmitKeepsHistory | src/watch.rs:984-1033 | Publishing and trimming keep the failures in order and the newest one, and account for each discarded one |
| WatchRuns.FailKeepsHistory | src/watch.rs:1049-1073 | A new failure is known last, taking the place of one it coalesces with, which is counted as overwritten |
| WatchRuns.PollKeepsKnown | src/watch.rs:1095-1146 | Handing over a failure moves it from the queued to the delivered ones, in order |
| WatchRuns.StepKeepsInvariant | src/watch.rs:750-1146 | The invariant survives every step: shape, parked waker, history of failures, discard count, first item, freshness of the last snapshot |
| WatchRuns.EveryRun | src/watch.rs:824-843 | The invariant holds after every run of a new watcher |
| WatchPromises.LevelTriggered | src/watch.rs:536-541 | Whenever a poll has nothing to give, the last snapshot delivered is the configuration and merged health as they are; at the end of the stream it says stopped |
| WatchLateRecord.LevelTriggeredExactlyWhen | src/watch.rs:660-677 | Whenever the health is first recorded, a run ends level triggered exactly when the record did not move the merged health or a snapshot was owed then or since; one recorded ahead of the first poll, as the constructor does, always finds one owed |
| WatchLateRecord.RecordIsMissed | src/watch.rs:660-677 | The run the constructor's order rules out: a poll, then a record that goes unreported |
| WatchPromises.QueueIsBounded | src/watch.rs:541-546 | At most 1025 entries, a failure last at 1025, two snapshots only with one in front, at most one failure after the last snapshot |
| WatchPromises.FailuresInOrder | src/watch.rs:767-801 | Delivered and queued failures are an in-order selection of the raised ones that ends in the newest; raised = delivered + queued + overwritten + trimmed |
| WatchFirstItem.DiscardsExactlyWhen | src/watch.rs:984-1033 | On a queue nobody polled, something is discarded exactly when more than 1022 groups of failures are closed by a published change |
| WatchFirstItem.FirstItemIsASnapshot | src/watch.rs:792-801 | Before the first poll an item is ready; it is a snapshot exactly when at most 1022 groups were closed, which is when the discard counter is zero |
| WatchFirstItem.FirstItemIsAFailure | src/watch.rs:792-801 | 1023 rounds of a failure and a change, with no poll, put a failure in front |
| WatchPromises.PollMakesProgress | src/watch.rs:1095-1146 | Each event taken strictly lowers queued entries plus the owed health snapshot; a poll with no event changes the waker alone |
| WatchPromises.DrainDelivers | src/watch.rs:536-541 | Polling with no producer in between delivers every queued failure in order within a bounded number of polls and ends on the current state |
| WatchPromises.GuardState | src/watch.rs:1173-1187 | The thread's guard closes the stream; after a panic its failure is queued last and no route is live |
| WatchPromises.GuardEndsTheStream | src/watch.rs:1173-1187 | However the thread goes, a drain ends the stream on a snapshot that says stopped, and after a panic delivers that failure |
| WatchReports.EventsCarryTheState | src/watch.rs:1095-1133 | Every event, of either kind, carries the configuration, the end, the last live route, the poll interval and the lost routes as they stand when it is handed over |
| WatchReports.NothingReportedIsForgotten | src/watch.rs:869-1093 | After any run the merged health is exactly the first record and everything reported since, and the configuration the one published last |
| WatchReports.TransitionsShareASnapshot | src/watch.rs:1095-1133 | Draining gives the queued snapshots, and one more exactly when a health transition is unreported and none is queued |
| WatchReports.ChangeIsToldOf | src/watch.rs:984-1055 | A published change leaves nothing unreported beside the snapshot queued last, and a drain tells of it once, or twice when a snapshot was in front already |
| WatchShared.MergeRuntimeHealth | src/watch.rs:390-409 | The loop merges as specified: established routes first, each lost one once |
| WatchShared.Shared.SetConstructionHealth | src/watch.rs:845-849 | The construction-time health is written once |
| WatchShared.Shared.TrimToCapacity | src/watch.rs:792-801 | Exactly the excess is taken from the front and counted, and the running count is reported when there was any |
| WatchShared.Shared.QueueSnapshot | src/watch.rs:1014-1029 | A queued snapshot moves from behind the front to the back, or one is added, unless it already is last |
| WatchShared.Shared.WakeStored | src/watch.rs:1034-1046 | The stored waker is taken and woken once |
| WatchShared.Shared.Emit | src/watch.rs:984-1047 | One step of the run; the state after it, and a stored waker woken exactly when the stream became ready |
| WatchShared.Shared.Fail | src/watch.rs:1049-1073 | The same for a failed re-read |
| WatchShared.Shared.Degrade | src/watch.rs:869-889 | The same for a lost route |
| WatchShared.Shared.MarkNoLiveNotifications | src/watch.rs:894-913 | The same for the last live route |
| WatchShared.Shared.Close | src/watch.rs:1075-1093 | The same for the end of the backend thread |
| WatchShared.Shared.PollNext | src/watch.rs:1095-1146 | One step of the run; the latest waker is stored when nothing is ready, and the consumer is then up to date |
| WatchShared.Shared.ThreadGuardDrop | src/watch.rs:1173-1187 | The guard's steps in their order |
| WatchWake.SectionTakesTheWaker | src/watch.rs:1034-1046 | A section that makes the stream ready takes the stored waker; one that does not leaves it |
| WatchWake.StepKeepsInvariant | src/watch.rs:869-1146 | Stored only while nothing is ready, each waker in one place, and the sleeping consumer's never lost, under every interleaving |
| WatchWake.NoWakeUpIsLost | src/watch.rs:1055-1093 | A consumer asleep on a ready stream has been woken, or one producer is about to wake it, and never both |
| WatchWake.WokenAtMostOnce | src/watch.rs:1034-1046 | No waker is woken twice, or woken and still stored |
| PoolInvariant.SeeEmptyThreads | src/pac/budget.rs:144-172 | At the only step that raises the count, threads and calls about to make one fit the slots |
| PoolInvariant.EmptyListIsPaidFor | src/pac/budget.rs:30-41 | With nobody idle, every thread and every call without one is paid for by a slot of its own |
| PoolThreads.StepKeepsInvariant | src/pac/budget.rs:144-257 | Every step of every call and thread keeps the invariant |
| PoolThreads.SendNeverFails | src/pac/budget.rs:155-160 | An offered job can be sent and the failing branch cannot be taken |
| PoolPromises.ThreadsStayWithinLimit | src/pac/budget.rs:30-41 | Threads that have not ended plus calls about to make one never exceed the limit; with conversations, twice the limit; taken counts the slots alive |
| PoolPromises.ConversationsCountWhenSpawning | src/pac/budget.rs:30-41 | When a call decides to make a thread, conversations fit in the same limit |
| PoolPromises.HandOffSucceeds | src/pac/budget.rs:144-160 | The thread a job is offered to is live, off the list, with room in its channel |
| PoolPromises.IdleEntriesAreLive | src/pac/budget.rs:107-119 | An idle entry of this process is listed once and names a live, empty-handed thread |
| PoolPromises.JobIsInOnePlace | src/pac/budget.rs:121-126 | A job that holds a slot is in exactly one place, and was started exactly when a thread has it |
| PoolPromises.JobRunsAtMostOnce | src/pac/budget.rs:179-215 | No job is started twice, and only a started one is answered |
| PoolPromises.NoJobLeftBehind | src/pac/budget.rs:199-213 | A thread ends with an empty channel, no offer and no entry |
| PoolPromises.JobInChannelIsTaken | src/pac/budget.rs:179-215 | A thread whose channel holds a job has a next step of its own, which starts it or comes closer |
| PoolPromises.CommittedThreadHasAJob | src/pac/budget.rs:206-211 | A thread that lingered out and was taken off the list has its job or is about to be sent it |
| PoolPromises.NoNotificationIsLost | src/pac/budget.rs:223-257 | While a call sleeps, free slots are at most the notifications to be sent plus the calls up and yet to look |
| PoolAnswers.EveryRunIsAnswered | src/pac/budget.rs:179-196 | As long as no script panics, every job that was started is answered or on a thread that has yet to |
| PoolAnswers.OnwardIsCloser | src/pac/budget.rs:144-215 | The next step of a job's call or thread can always be taken and brings its answer closer |
| PoolAnswers.NoJobIsStranded | src/pac/budget.rs:144-215 | From every reachable state a job with a slot, or one that ran, can be brought to its answer by steps of its own |
| PoolAnswers.SlotsAreUsedAsWanted | src/pac/budget.rs:30-41 | A call that came to run a script never holds its slot as a conversation, nor the other way round |
| PoolAnswers.GivesUpOnlyWhenFull | src/pac/budget.rs:223-246 | A call sleeps or gives up only with every slot alive, and can take one otherwise |
| PoolAnswers.LeavingIsFinal | src/pac/budget.rs:223-259 | A call that gives up, ends its conversation or gets no thread never again holds a slot, sleeps or has its job started |
| PoolAnswers.CommittedOnlyReceives | src/pac/budget.rs:203-211 | A thread taken off the list as it lingered out stays and takes no other step until it has received the job on its way |
| PoolAnswers.EverySlotIsNotifiedOnce | src/pac/budget.rs:223-259 | Over every run the slots alive are those taken less those given back, and each one given back is notified once or still to be |
| PoolPromises.FreeingFirstExceedsTheLimit | src/pac/budget.rs:37-41 | Freed before joining, a limit of one allows two threads |
| PoolSlots.Slots.Look | src/pac/budget.rs:223-246 | One turn of the loop, from the lock to leaving or waiting: a free slot is taken, a passed deadline gives up, and otherwise the call sleeps, each as its step |
| PoolSlots.Slots.Drop | src/pac/budget.rs:252-257 | Dropping a Slot is the step it belongs to, and the counter was not at zero |
| PoolSlots.Slots.JoinIdle | src/pac/budget.rs:183-190 | Joining the list is the step of the same name |
| PoolSlots.Slots.PopLast | src/pac/budget.rs:144-154 | One look at the idle list takes the newest entry, or sees none, as the step it is |
| PoolSlots.Slots.Dispatch | src/pac/budget.rs:144-172 | The newest own entry gets the job and entries of another process above it are dropped; a new thread gets it exactly when there is none |
| PoolSlots.Slots.LeaveIdle | src/pac/budget.rs:199-211 | A thread that lingered out leaves the list exactly when it finds itself there |
| BypassAddress.MappedReduces | src/bypass.rs:1674-1687 | The mapped spelling of an IPv4 address reduces to it |
| BypassAddress.MappedBlock | src/bypass.rs:1704-1712 | A mapped block of prefix 96 or longer contains a mapped address exactly when its reduction contains the address |
| BypassAddress.ReducedBlockAgrees | src/bypass.rs:1704-1712 | The same for any IPv6 block of prefix 96 or longer, mapped or not |
| BypassMeaning.BlockIsPrefix | src/bypass.rs:727-734 | A block contains exactly the addresses of its family that share its prefix |
| BypassMeaning.DomainRule | src/bypass.rs:762-789 | A name rule matches the domain, if it is meant, and what ends in a dot and the domain, in either case, on its port, and nothing else |
| BypassMeaning.GlobRule | src/bypass.rs:790-805 | A glob, folded, matches the texts that strings in place of its stars give, on its port |
| BypassMeaning.AddressRule | src/bypass.rs:735-761 | An address rule matches that address, both sides reduced where that is asked |
| BypassMeaning.NameRule | src/bypass.rs:735-761 | A rule for one name compares it, folded, as text |
| BypassMeaning.OtherRules | src/bypass.rs:718-813 | What the entries for everything, a block, dot-less names and the subtraction match |
| BypassMeaning.CoveredAddresses | src/bypass.rs:911-924 | The addresses of each implicit set, as blocks |
| BypassMeaning.CoveredNames | src/bypass.rs:1575-1590 | The names of each implicit set |
| BypassMeaning.VerdictInFull | src/bypass.rs:1322-1391 | The verdict of any rule set on any destination, in terms of its fields |
| BypassVerdict.NamedLateMeaning | src/bypass.rs:1371-1390 | Named late means by an entry after the last subtracting one |
| BypassVerdict.WhoDecides | src/bypass.rs:1322-1391 | An implicit destination is decided by the entries after the last subtracting one alone, any other by whether some entry names it |
| BypassVerdict.DedupKeepsVerdict | src/bypass.rs:1091-1104 | Collapsing repeats never changes a verdict |
| BypassVerdict.DedupLeavesNoRepeats | src/bypass.rs:1091-1104 | No two equal entries are left without a subtracting one between them |
| BypassVerdict.RejectedNeverAddsABypass | src/bypass.rs:1340-1344 | A refused entry never adds a bypass, and takes one away exactly in an inclusion list complete so far that says nothing of the destination |
| BypassVerdict.MappedSpellingAgrees | src/bypass.rs:1322-1391 | An IPv4 address and its mapped spelling get one verdict from any list of entries about addresses, with the switch for dot-less hosts on or off |
| BypassList.BypassRules.PushEntry | src/bypass.rs:1195-1218 | An entry adds its rule, nothing, or the record that it was refused |
| BypassList.BypassRules.DedupPatterns | src/bypass.rs:1095-1104 | In place: the first of each repeat within a run is kept, and every destination keeps its verdict |
| BypassList.BypassRules.RetainFirsts | src/bypass.rs:1095-1104 | The single pass keeps what the specification keeps |
| BypassList.BypassRules.Matches | src/bypass.rs:1322-1391 | The loop from the back gives the verdict |
| BypassList.NoProxy | src/parse.rs:387-417 | A list becomes its entries' rules, collapsed, and the records of the refused ones |
| BypassRoundTrip.SplitsAgain | src/util.rs:4-54 | A printed host text and port are split again as they were |
| BypassRoundTrip.BracketsSplitAgain | src/util.rs:4-54 | So is a bracketed address and port |
| BypassRoundTrip.PortReadsBack | src/util.rs:49-54 | A printed port is read as itself |
| BypassRoundTrip.BaseAgain | src/bypass.rs:482-709 | The printed text of a name or glob rule reads as that rule |
| BypassRoundTrip.Origin | src/bypass.rs:224-482 | Every host rule comes from a host text that passed the guards and holds no single colon |
| BypassRoundTrip.BaseIsPrintable | src/bypass.rs:224-709 | The base of such a rule is a host text that splits off its port again |
| BypassRoundTrip.AddressRoundTrip | src/bypass.rs:601-612 | An address rule is printed and read back as itself |
| BypassRoundTrip.NetRoundTrip | src/bypass.rs:353-379 | A block rule is printed and read back as itself |
| BypassRoundTrip.RoundTrip | src/bypass.rs:816-843 | Whatever entry a rule was read from, its text reads as the same rule, except that the unrestricted glob for every name reads as the rule for everything |
| BypassRoundTrip.EmptyPortExample | src/bypass.rs:224-242 | The entry that is that exception |
| BypassRoundTrip.RoundTripMatchesTheSame | src/bypass.rs:718-813 | The rule read back matches exactly the destinations and ports it matched |
| BypassReading.NameEntry | src/bypass.rs:667-709 | A bare name, with or without a port, comes to match the domain and everything under it |
| BypassReading.SubdomainEntry | src/bypass.rs:564-581 | Behind a dot, or a star and a dot, it comes to match what is under the domain alone |
| BypassReading.GlobEntry | src/bypass.rs:611-644 | A glob comes to match what it can be substituted to |
| BypassReading.SubdomainGlobEntry | src/bypass.rs:631-644 | A glob behind a dot waits for something and a dot in front of it |
| BypassReading.RefusedGlobIsDead | src/bypass.rs:540-563 | A glob refused behind a dot could match no dotted quad either |
| BypassReading.AddressEntry | src/bypass.rs:603-609 | An address, bracketed for IPv6, comes to match that address |
| BypassReading.BareAddressEntry | src/bypass.rs:603-609 | So does one without brackets |
| BypassReading.OtherSpellingEntry | src/bypass.rs:656-702 | Another spelling of an IPv4 address is the address the destination's side reads |
| BypassReading.BlockEntry | src/bypass.rs:373-375 | A block comes to match the addresses in it |
| BypassReading.FoldedBlockEntry | src/bypass.rs:353-371 | A block in another spelling of four parts is the block of the address they are |
| BypassReading.OnlyFourPartsAreFolded | src/bypass.rs:353-375 | A block whose address reads as it stands, or is not four parts of an IPv4 address, is what the block reader makes of it |
| BypassReading.EitherCase | src/bypass.rs:224-242 | Letters are read in either case |
| BypassReading.RootDot | src/bypass.rs:595-601 | The dot of the root behind a name is read as if it were not there |
| BypassReading.NoRuleEntries | src/bypass.rs:224-228 | A port alone, dots alone, and a star and a dot make no rule |
| BypassReading.RefusedEntries | src/bypass.rs:244-388 | An `@`, whitespace inside, a scheme, and a slash that makes no block are refused |
| BypassReading.RefusedHosts | src/bypass.rs:438-500 | So are forbidden characters, empty labels and names no destination carries |
| BypassReading.OtherHosts | src/bypass.rs:438-474 | A host without forbidden characters is read for its labels, and one not in ASCII exactly as its ASCII spelling, or refused when it has none |
| BypassReading.SubdomainOfAddress | src/bypass.rs:540-563 | So is an address behind a dot |
| BypassReading.RefusedPort | src/util.rs:4-54 | A port that is no number, or too large, refuses its entry |
| BypassReading.BracketedPort | src/util.rs:4-54 | Behind a closing bracket only a colon and a port in range may stand, and an opening bracket has to be closed |
| BypassReading.PaddedPort | src/util.rs:36-54 | Zeros in front of a port change nothing |
| BypassReading.PrintedForms | src/bypass.rs:816-843 | The text of each kind of rule |
| BypassNoProxy.RereadEvaluatesTheSame | src/bypass.rs:1371-1390 | A list of rules read back evaluates as it did |
| BypassNoProxy.RulesInOrder | src/parse.rs:387-417 | The rules stand in the order of their entries, each read by itself |
| BypassNoProxy.ListRoundTrip | src/parse.rs:387-417 | A list read, printed rule by rule and read again refuses nothing and gives every destination its verdict again |
| TextGlob.GlobIsSpells | src/util.rs:96-119 | The recursive reading of a pattern is substitution: some strings in place of the stars give the text |
| TextGlob.LeftmostIsEnough | src/util.rs:100-119 | The leftmost occurrence of a part is as good as any other |
| TextGlob.MatchParts | src/util.rs:100-119 | The loop over the middle parts decides what is left of the pattern |
| TextGlob.MatchPastStar | src/util.rs:100-119 | Past the first star the middle parts and the last part decide |
| TextGlob.GlobMatch | src/util.rs:100-119 | The greedy matcher answers yes exactly when substitution can give the text |
| TextHash.Fnv1a | src/util.rs:546-553 | The loop computes the fold of the step over the bytes |
| TextHash.XorByteIs | src/util.rs:546-553 | Folding a byte in flips exactly the bits it has, of the lowest eight |
| TextHash.KnownHashes | src/util.rs:546-553 | The published values for the empty input and the letter a |
| TextHash.PrimeUndone | src/util.rs:546-553 | Multiplying by the prime modulo 2^64 can be undone |
| TextHash.StepInjectiveInHash | src/util.rs:546-553 | A step is one to one on the hash |
| TextHash.StepInjectiveInByte | src/util.rs:546-553 | A step is one to one on the byte |
| TextHash.OneByteIsSeen | src/util.rs:546-553 | Inputs of one length that differ in exactly one byte never hash alike |
| TextRedact.UserinfoDelimiterEnd | src/util.rs:424-436 | What is found is the end of a literal or an encoded colon |
| TextRedact.SpansAreOrdered | src/util.rs:241-299 | Masked spans are disjoint and in order, each from a delimiter's end to an at sign, past what was masked |
| TextRedact.NextIsEnough | src/util.rs:247-262 | Asking the next at sign gives the answer that asking every later one would |
| TextRedact.LookupIsMarkFrom | src/util.rs:213-227 | A lookup in the index is the first mark from there on |
| TextRedact.FirstDelimiterEndAgrees | src/util.rs:213-239 | The indexed delimiter is the one a rescan of the slice finds |
| TextRedact.AfterMarkerAtLeast | src/util.rs:278-283 | The last crossed boundary of the index is not before the rescanned one |
| TextRedact.AfterMarkerAtMost | src/util.rs:278-283 | Nor after it |
| TextRedact.IndexedStartAgrees | src/util.rs:284-289 | The segment starts where the scheme rule on the slice says |
| TextRedact.MaskStartAgrees | src/util.rs:278-291 | Masking starts where the plain reading starts it |
| TextRedact.Scan | src/util.rs:181-211 | One pass records every place of every mark |
| TextRedact.RedactUserinfo | src/util.rs:173-300 | The indexed scan writes exactly what the plain reading writes, for every input |
| TextRedact.PlainTextIsMaskedOnce | src/util.rs:241-299 | With no whitespace and no double slash, all between the first delimiter and the last at sign is masked once and nothing else |
| TextRedactForms.WhitespaceSeparates | src/util.rs:264-283 | Each side of a space, tab or line feed is masked as if it stood alone |
| TextRedactForms.SchemeIsKept | src/util.rs:284-295 | Behind a scheme the rest is masked as it would be alone |
| TextRedactForms.PasswordIsMaskedWhole | src/util.rs:264-289 | A password is masked whole although it holds slashes or what looks like a scheme's end |
| TextRedactForms.CarriageReturnEndsAnOccurrence | src/util.rs:241-262 | A carriage return ends an occurrence without being a boundary, so both passwords are masked, each up to its own at sign |
| TextRedactForms.DelimiterIsFirst | src/util.rs:424-436 | The delimiter found is the first there is, in either spelling |
| TextRedactForms.CleanIsExactly | src/util.rs:254-262 | An at sign may be looked past exactly over text without space, tab, line feed, carriage return or a double slash |
| Credentials.PercentDecode | src/util.rs:125-146 | The loop undoes every well-formed escape, or returns the input when that is not UTF-8 |
| CredentialsText.EscapesAreRead | src/util.rs:132-141 | Every byte's escape is read as the byte, its digits in either case |
| CredentialsText.OthersAreKept | src/util.rs:142-144 | A percent sign that two such digits do not follow stays |
| CredentialsText.Utf8IsEncodedScalars | src/util.rs:145 | Bytes are text exactly when they are the UTF-8 forms of scalar values |
| CredentialsText.DecodedIsExactly | src/util.rs:125-146 | Decoding gives the bytes of the escapes where they are text, and the input where not |
| CredentialsText.WrittenAsItIs | src/resolve.rs:95-104 | Which bytes a URL is given as they are, and the escape of every other |
| CredentialsText.RefusedExactlyWhen | src/endpoint.rs:272-319 | An address is refused for its authority exactly when an at sign stands behind the cut, no host is left, or U+FFFD stands in front of the cut |
| CredentialsText.PartsAreRead | src/endpoint.rs:272-319 | The last at sign ends the credentials and their first colon the user name, each part decoded by itself |
| Credentials.UnescapeWritten | src/resolve.rs:95-104 | Undoing the escapes of what a URL was given restores every byte |
| Credentials.CredentialsRoundTrip | src/endpoint.rs:282-315 | Credentials in front of a host are read back as they were, an empty password as none, whatever path, query or fragment follows; one that holds an at sign refuses the whole |
| Credentials.SurvivesExactlyWhen | src/resolve.rs:86-106 | Written into a URL and parsed, credentials come back unchanged exactly when the password is not empty, there is a user name or a password, and no at sign follows the authority |
| ProxyModes.FirstAnswerMeaning | src/mode.rs:80-95 | An answer anywhere beats every drop, and of a kind the earlier wins |
| ProxyModes.FindFirstAnswer | src/mode.rs:86-95 | The loop finds it |
| ProxyModes.FileRejected | src/mode.rs:193-200 | The loop files each record under the slot it names when that is empty |
| ProxyModes.FiledSlot | src/mode.rs:193-200 | An occupied slot stands; an empty one gets the first record that names it |
| ProxyModes.RecordsKeepAnswers | src/mode.rs:246-258 | Records never change an answer of either lookup; they turn no answer into the first record of the earliest lost slot |
| ProxyModes.DropsAreListed | src/mode.rs:186-209 | Every drop in the map is in the list, filed under the scheme it names |
| ProxyModes.RecordsAreAttached | src/mode.rs:186-209 | Records go to the modes that hold some and change nothing else of the automatic ones |
| ProxyModes.ManualListsEveryDrop | src/mode.rs:97-123 | A map that holds drops gets exactly those as its list, each once, in the fixed order of the schemes |
| ProxyServer.ApplySocksCatchAll | src/parse.rs:219-231 | The loop fills the unset slots as specified |
| ProxyServer.ProxyServerWithRejected | src/parse.rs:128-215 | The loop over the string leaves the slots and the records its tokens' effects say |
| ProxyServer.LastTokenWins | src/parse.rs:151-170 | The last valid token of a key stands |
| ProxyServer.SlotsInTheEnd | src/parse.rs:217-231 | A slot holds its last token's entry, or the SOCKS proxy exactly when it and the catch-all are unset |
| ProxyServerKeys.CutAtSeparators | src/parse.rs:131-135 | The string is cut at each separator and nowhere else |
| ProxyServerKeys.TokensOfAString | src/parse.rs:131-137 | What stands between two separators is one token, trimmed, or none when nothing is left of it |
| ProxyServerKeys.KeyIsSplit | src/parse.rs:245-258 | An equals sign in front of anything that ends a key sets the key off |
| ProxyServerKeys.NoKeyBehind | src/parse.rs:245-258 | A token has no key exactly when each equals sign in it stands behind a colon, slash, question mark or hash |
| ProxyServerKeys.KeyNamesSlot | src/endpoint.rs:61-70 | Which key text, folded and trimmed, names which slot |
| ProxyServerKeys.TokenSets | src/parse.rs:151-170 | A token with a readable value sets its key's slot, at port 80 or 1080, a `socks` one speaking SOCKS4 |
| ProxyServerKeys.BareTokenSets | src/parse.rs:195-211 | A token without a key is the catch-all, and recorded as lost to every scheme when it cannot be read |
| ProxyServerKeys.EmptyTokenDisables | src/parse.rs:151-152 | A token with nothing behind its key says no proxy |
| ProxyServerKeys.UnreadableTokenIsRecorded | src/parse.rs:171-191 | An unreadable value is recorded against its slot, a `socks` one against all |
| ProxyServerKeys.UnknownKeyIsRecorded | src/parse.rs:138-149 | A key that names no slot is recorded against none |
| ProxyServerKeys.KeyedTokenIsTheSlot | src/parse.rs:128-215 | The last readable token with a slot's key is what the slot holds, whatever stands around it |
| ProxyServerKeys.RequestGoesToItsToken | src/resolve.rs:177-229 | A request whose URL scheme is a token's key goes to the proxy of the last such token |
| ProxyServerKeys.WebsocketGoesToSocks | src/resolve.rs:177-229 | A request for a `ws` or `wss` URL goes to the proxy of the last readable `socks` token |
| ProxyServerKeys.RequestsBySchemeText | src/resolve.rs:317-326 | Which slot a URL's scheme is looked up under |
| ProxyServerKeys.AutomaticModesAreRefused | src/resolve.rs:177-186 | The automatic modes are refused by name |
| ProxyServerKeys.DirectWithoutAsking | src/resolve.rs:192-202 | No host, and a bypass, go direct before any entry is asked |
| ProxyServerKeys.LostEntryIsNamed | src/resolve.rs:213-226 | A lost entry is reported under the slot it was filed in |
| ProxyServerKeys.PortAskedAbout | src/bypass.rs:1415-1434 | A rule with a port is asked about the written port where the source wants one, and otherwise the default too |
| ProxyResolve.ManualAnswer | src/parse.rs:434-440 | A scheme's entry is what its tokens said, else what they lost |
| ProxyResolve.DirectExactlyWhen | src/resolve.rs:177-229 | A request goes direct exactly when the tokens said no proxy, or said nothing of it and lost nothing that covered it |
| ProxyResolve.DroppedTokenIsNeverDirect | src/resolve.rs:177-229 | With a covering token dropped, direct takes an empty token for the scheme or the catch-all |
| ProxyResolve.WebsocketOrder | src/mode.rs:317-331 | The WebSocket lookup takes the first proxy of socks, https and http, then the catch-all |
| ProxyResolve.WebsocketAnswer | src/mode.rs:317-331 | The WebSocket entry is what was said on its order, else the first record of the earliest slot lost on it |
| ProxyResolve.WebsocketDirectExactlyWhen | src/resolve.rs:177-229 | A WebSocket request goes direct exactly when an answer on its order said no proxy, or none was said and nothing was lost on it |

## Left out

- The platform backends, the registry and file watching, and the fallback polling: foreign calls.
- PAC script engines, their host functions, the worker process and `parse_find_proxy_result`.
- Tracing, `Debug` and the wording of errors: every refusal is one value, `Refused` or a record.
- Real clocks: deadlines, lingering and waiting are steps that may come at any moment, `captured_at` is carried and never read, and a caller's own wait for the reply of an evaluation is not modelled.
- Mutex poisoning and panics, beyond a panicking job that frees its slot and ends its thread and the watcher thread's guard.
- Counter overflow: `taken`, thread ids, the discard counter and the queue length are unbounded here.
- When a notification is sent: in the pool it may come any time after the slot is given back, where the code sends it next; this only adds runs.
- PoolSlots.Slots.Dispatch: the run in which nobody comes between its sections; the interleaved ones are the steps of PoolProtocol, of which `PopLast` is one.
- PoolSlots.Slots.Look: the wait itself; waking, spurious or by a notification, is a step of PoolProtocol, after which the call looks again.
- The Windows, macOS, GNOME and KDE dialects of `parse_in` with their refusals, and GNOME's ordering of entries: the `no_proxy` dialect alone is read.
- The grammar of `Host::parse`, IDNA and punycode, the octal, hexadecimal and short IPv4 forms and the block reader of `ipnet`: they are the parameter `BypassParse.Readers`, under the laws of `BypassRoundTrip.Lawful`.
- PlainReaders.PlainIsLawful: these readers take four decimal octets and the full form of IPv6 alone, and no internationalised name.
- PlainReaders.PlainRoundTrip: entries in the other forms are refused by these readers; RoundTrip covers them under the laws.
- A non-ASCII destination name handed to `matches` by a caller: its punycode conversion is not part of this model, and suffix comparison is on characters, so the byte-boundary check has no counterpart.
- `redact_offending_token`, `sanitize_untrusted` and the withholding of tokens: the passes after the masking scan.
- TextRedact.RedactUserinfo: positions are characters where the code has bytes; every mark it looks for is ASCII.
- `ProxyEndpoint::parse` beyond the authority split: the scheme prefix, host and port are the parameter `ProxyServer.Readers` of the lookup.
- Credentials.CredentialsRoundTrip: the `url` crate's setters are modelled as the escaping their standard prescribes, in front of a host and port the caller supplies.
- The trimming and splitting of the environment's and the registry's lists into entries, other than the `ProxyServer` string.
