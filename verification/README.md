# A verified model of the ADS-B reporter

fss-adsb receives aircraft transmissions from dump1090 as SBS-1 BaseStation text lines over TCP, keeps one
record per aircraft, and sends position reports to a flight-safety server. This project models that pipeline in
Dafny and proves what it guarantees over whole runs: every history of messages, every chunking of the byte
stream, every interleaving of the threads.

`dafny verify dfyconfig.toml` checks all of it.

## How it is organised

| file | subject |
|---|---|
| Limits.dfy, Wrappers.dfy | integer limits; optional values |
| Text.dfy, Numerals.dfy | splitting text; `std::from_chars`, `strtol` and number printing, for integer types of any width |
| Framing.dfy | the receive loop's line framing against splitting the whole stream at CR and LF |
| Decimals.dfy | exactly which decimal texts are accepted, and their values |
| Discards.dfy | exactly which lines are delivered when the loop discards |
| Fields.dfy, Sbs1.dfy | field parsers, the meaning of one SBS-1 line, and a printer that parsing undoes |
| Dump1090.dfy | class `Dump1090`: the getline loop, the parsing of a message, the receive loop, connecting and reconnecting, updating fields in place |
| Wire.dfy | the round trip of a whole stream of transmissions |
| Records.dfy, Units.dfy | class `AdsbData`, folding a message into a record, building a report, unit conversions |
| Replay.dfy, Registry.dfy | what a record must hold, from its message history alone; the bounded registry over whole histories |
| AircraftRegistry.dfy | class `AircraftRegistry`: the map updated in place, one step of Registry per method |
| QueueHistory.dfy, ReportQueue.dfy | the report queue as one ordered list over whole histories; class `ReportQueue`, a map and a deque |
| Worker.dfy, ReportingWorker.dfy | receive thread, worker and main thread as a step relation; class `ReportingWorker`, the drain loop and stop |
| Timestamps.dfy | the timestamps of what the worker sends |
| Descriptors.dfy | who owns the socket descriptor, as a step relation of main and receive thread |
| Backoff.dfy | when a lost connection is tried again |
| Pipeline.dfy | the parts put together, from bytes to sent reports; the limits of registry and queue |
| WholeProgram.dfy | registry, queue and threads as one machine, from bytes to what the reporter is handed, in every interleaving |

Methods of classes carry the source's loops and updates, and are proved equal to a function or a step of a state
machine. The lemmas are about those functions and machines. Numbers of type `double` are reals; times are
natural numbers of milliseconds, and of nanoseconds where two clocks are read; integer widths and wrap-around are
explicit where the code meets them.

## Findings

- Wire timestamps of one aircraft can step back. The worker reads the monotonic clock and then the wall clock, and
  a delay between the two reads is added to the timestamp (`Timestamps.SplitReadsCanReverse` is a run that reverses two
  timestamps so). Each clock is also truncated to milliseconds on its own, so that two reports received in the same
  millisecond can be reversed by one even when the reads are simultaneous (`Timestamps.TruncationCanReverse`).
  `Timestamps.TimestampsInOrderExactly` says exactly when two timestamps are in order whatever the wall clock's lead, and
  `Timestamps.TimestampsInOrder` bounds the step back.
- The comment at src/aircraft_registry.hpp:12-16 says that a registry smaller than the queue could never fill the
  queue. A registry of any capacity fills a queue of any capacity (`Pipeline.AnyRegistryFillsQueue`); in fact the
  registry's capacity has no influence on which aircraft wait (`Pipeline.QueueIgnoresRegistryLimit`). When exactly a
  queue never fills, and when exactly it drops nothing, is `QueueHistory.NeverFullExactly` and
  `QueueHistory.NothingDroppedExactly`.
- The comment at src/test/test_dump1090.cpp:1811-1813 says that the fragment after an overflow discard must not
  reach the callback. Framing hands such a fragment on as a line like any other, and if it is a record the callback
  hears it: `Wire.FragmentIsHeard`. What holds always is that every delivered line is a suffix of the real one
  (`Framing.FramingRefinesSplitting`), namely what follows the last discard in it (`Discards.LinesExactly`). No
  fragment is delivered if and only if each discard in a terminated line fell at its end
  (`Discards.NoFragmentExactly`); nothing is lost, of the lines or of the rest, if and only if no chunk ever left more
  than 2048 bytes without a terminator (`Framing.NothingLostExactly`).

## Model

| member | source | states |
|---|---|---|
| Registry.SmallerIsIncluded | src/aircraft_registry.cpp:14-75 | LRU inclusion: on the same messages and sweeps, a registry of smaller capacity always tracks a subset of the aircraft of a larger one, every field valid in its record has the same value and time in the larger's, and it is full unless both hold the same aircraft |
| Registry.SmallerReportsLess | src/aircraft_registry.cpp:34-56 | for the same message both registries report or neither does; the smaller's flags are a subset of the larger's, and whatever a flag vouches for is equal in both |
| Registry.SameVictim | src/aircraft_registry.cpp:14-32 | when the larger registry evicts an aircraft that the smaller one holds, the smaller one's victim is the same, ties included |
| Registry.KeysIncludedAfterSweep | src/aircraft_registry.cpp:58-75 | a sweep that reaches into the smaller registry has already emptied the difference between the two |
| Registry.RecordsReplayHistory | src/aircraft_registry.cpp:34-56 | a tracked aircraft was admitted by a message of its own, untracked before and tracked ever since, and its record is the last-writer-wins replay of exactly its messages from there on |
| Registry.ReportIsOfReplay | src/aircraft_registry.cpp:52-55 | every report is the one built from that replay |
| Registry.ReportTellsTrack | src/adsb_record.hpp:220-254 | whatever a report says is what the last message of its aircraft's current track that carried the field said: altitude and squawk as they are, the callsign without padding, heading, speed and vertical rate converted and rounded; position and address are the message's own |
| Registry.FlagsMeanFreshness | src/adsb_record.hpp:152-172 | over a whole run, a motion bit is set iff a message of the current track less than a minute older than the fix carried the field; an identity bit iff one less than five minutes older carried a squawk, or a callsign acceptable once trimmed |
| Registry.UntrackedIsOlder | src/aircraft_registry.hpp:76-86 | recency dominance: an aircraft that was heard and is not tracked, evicted or swept, was last heard no later than every tracked one |
| Registry.TrackedSinceHeard | src/aircraft_registry.cpp:52-53 | last_seen of a tracked aircraft is the stamp of the last message heard from it |
| Registry.SweepGoesByAge | src/aircraft_registry.cpp:58-75 | a sweep keeps, unchanged, exactly the aircraft heard less than the window ago, and counts no capacity eviction |
| Registry.EveryAdmissionAccounted | src/aircraft_registry.cpp:14-75 | over any history, admissions = tracked aircraft + capacity evictions + addresses returned by sweeps |
| Registry.Bounded | src/aircraft_registry.hpp:36-41 | the registry never exceeds its capacity, and files each record under its own address |
| Registry.FoldSize | src/aircraft_registry.cpp:43-51 | a message of a known aircraft evicts nothing; a new one evicts only when full, and then exactly the least recently heard |
| Registry.VictimIsUnique | src/aircraft_registry.cpp:23-25 | the aircraft that std::min_element picks is unique: oldest last_seen, lowest address among equals |
| Registry.SparedByEviction | src/aircraft_registry.cpp:23-31 | every aircraft that an eviction spares keeps its record and was heard later than the one evicted, or at the same time with a higher address |
| AircraftRegistries.AircraftRegistry.MinElement | src/aircraft_registry.cpp:23-25 | the scan in key order finds that aircraft, or nothing in an empty map |
| AircraftRegistries.AircraftRegistry.EvictLeastRecentlySeen | src/aircraft_registry.cpp:14-32 | removes that aircraft and counts it; does nothing on an empty map |
| AircraftRegistries.AircraftRegistry.FindOrAdmit | src/aircraft_registry.cpp:43-51 | makes room before the new entry exists, and only for a new aircraft |
| AircraftRegistries.AircraftRegistry.Fold | src/aircraft_registry.cpp:34-56 | takes the registry's fold step, and returns the report built from the updated record |
| AircraftRegistries.AircraftRegistry.EvictStale | src/aircraft_registry.cpp:58-75 | the erasing walk takes the sweep step and returns exactly the stale addresses, each once |
| AircraftRegistries.AircraftRegistry.CapacityEvictions | src/aircraft_registry.cpp:77-81 | returns the number of capacity evictions, for which EveryAdmissionAccounted holds |
| AircraftRegistries.VisitedRemovesStale | src/aircraft_registry.cpp:62-73 | after any part of the walk, exactly the stale keys visited have moved from the map to the list |
| Replay.ReplayExtends | src/adsb_record.hpp:79-112 | folding one more message into a replayed record replays one more message: each field is replaced only by a message that carries it |
| Replay.FreshMeansCarried | src/adsb_record.hpp:141-144 | a replayed field is fresh iff some message later than the window before the fix carried it |
| Replay.FlagsMeanHeardRecently | src/adsb_record.hpp:152-172 | all seven flag bits of a replayed record, in terms of its messages |
| Replay.ReportOfReplayTells | src/adsb_record.hpp:224-254 | the same of a report built from any messages |
| Replay.CallsignTold | src/adsb_record.hpp:81-91 | the callsign is the last acceptable one heard, without the spaces at its end |
| Records.TrimTrailingSpaces | src/adsb_record.hpp:26-31 | the longest prefix that does not end in a space; only spaces are dropped |
| Records.CallsignIsStored | src/adsb_record.hpp:81-91 | a padded callsign of 1 to 8 characters is stored without its padding, at the message's time; a blank or longer one leaves the record's as it was |
| Records.UpdateCallsign | src/adsb_record.hpp:81-91 | the callsign is replaced by the trimmed one iff that is 1 to 8 characters long |
| Records.UpdateRecord | src/adsb_record.hpp:79-112 | the setters leave the overlay of message on record, every other field unchanged |
| Records.FlagsDecode | src/adsb_record.hpp:152-172 | the word decodes bit by bit, and unused bits stay clear |
| Records.FlagsOnlyShrink | src/adsb_record.hpp:152-172 | on an unchanged record, flags only ever lose bits as time passes |
| Records.TslcMatchesTimestamp | src/adsb_record.hpp:196-218 | below 255, tslc*1000 <= wall time - timestamp < (tslc+1)*1000; at 255 the age is at least 255 s |
| Records.TimestampIsAged | src/adsb_record.hpp:214-218 | a timestamp is never ahead of the clock, and behind it by the report's age, or at zero when that reaches further |
| Units.KnotsConversion | src/units.hpp:16-24 | monotone, within half a unit of exact where the exact value fits, saturated otherwise, never wrapped |
| Units.VerticalRateConversion | src/units.hpp:28-38 | monotone, odd, and within half a unit of exact for every 16-bit input |
| Units.HeadingConversion | src/units.hpp:42-48 | as for speed; a compass heading stays within 36000 |
| QueueHistory.NoStarvation | src/report_queue.hpp:47-52 | while an address stays queued its position falls by one with each pop and never rises under any pushes, so one at position k is out within k+1 pops |
| QueueHistory.NeverMovesBack | src/report_queue.cpp:11-33 | the same for each single operation |
| QueueHistory.NewestIsPopped | src/report_queue.cpp:15-19 | what a pop returns for an address is the newest report pushed for it |
| QueueHistory.PoppedIsSubsequence | src/report_queue.cpp:35-49 | per address, the reports popped are a subsequence of those pushed |
| QueueHistory.WaitingAfterPush | src/report_queue.cpp:15-30 | a push replaces its own entry and touches another only by dropping the head of a full queue |
| QueueHistory.RunKeepsDistinct | src/report_queue.hpp:25-34 | at most one entry per address and never more than the capacity, over any history |
| QueueHistory.NoEvictionBelowCapacity | src/report_queue.hpp:30-33 | as long as at most capacity distinct addresses are ever pushed, nothing is dropped |
| QueueHistory.NothingDroppedExactly | src/report_queue.cpp:22-27 | a queue drops nothing iff, with room for every address ever pushed, no more than its capacity would ever wait at once |
| QueueHistory.NeverFullExactly | src/report_queue.cpp:22-27 | and it never fills iff fewer than its capacity would ever wait at once |
| ReportQueues.SizesAgree | src/report_queue.hpp:46-52 | map and deque, in step, have the same size |
| ReportQueues.HeadlessLine | src/report_queue.cpp:43-48 | taking the head off both keeps them in step and takes the head off the one list |
| ReportQueues.ReportQueue.Push | src/report_queue.cpp:11-31 | map and deque stay in step and represent the list after the push |
| ReportQueues.ReportQueue.Pop | src/report_queue.cpp:35-49 | returns the head of the list and removes it; the lookup in the map never misses; nothing iff the queue is empty |
| ReportQueues.ReportQueue.Shutdown | src/report_queue.cpp:51-58 | sets stopped and leaves the contents |
| ReportQueues.ReportQueue.Clear | src/report_queue.cpp:60-65 | empties both |
| ReportQueues.ReportQueue.Size | src/report_queue.cpp:67-71 | the length of the list |
| Worker.Reachable | src/report_queue.cpp:11-58 | the invariant of the whole protocol holds in every state of every interleaving |
| Worker.WakeupStep | src/report_queue.cpp:11-58 | no lost wakeup: a worker asleep with no notification outstanding has an empty queue and is not stopped |
| Worker.AsleepWithWorkIsWoken | src/report_queue.cpp:32-38 | a worker asleep with work or after shutdown has an enabled step that wakes it |
| Worker.PushesConserved | src/reporting_worker.cpp:8-51 | over any run, pushes = sent + in flight + queued + superseded + evicted + cleared |
| Worker.SentOnce | src/reporting_worker.cpp:10-39 | no push is sent twice |
| Worker.SentWasPushed | src/reporting_worker.cpp:10-39 | everything sent is the very report that was pushed, for the same address and with its receive stamp |
| Worker.ConservedStep | src/report_queue.cpp:11-65 | each push is in exactly one of those places, after every step |
| Worker.AtMostOneMoreSend | src/reporting_worker.cpp:41-49 | bounded drain: once the deadline is stored and has passed, at most one further send returns, in whatever order clock and deadline are read |
| Worker.DrainNeverStuck | src/main.cpp:209-210 | once ingestion is over the shutdown always has a step to take, until main has joined a worker that exited with an empty queue |
| Worker.DrainTerminates | src/reporting_worker.cpp:63-73 | the steps the shutdown takes are bounded by what remained when ingestion stopped, above all the queue length |
| Worker.DrainGetsItsTime | src/reporting_worker.cpp:63-68 | no report is given up before the whole drain timeout has passed since stop() read the clock, ingestion being over by then |
| Worker.ShutdownBegins | src/main.cpp:209-210 | at any time, disconnecting and the receive thread's exit lead to the drain, with queue and worker untouched |
| Worker.IngestionResumes | src/dump1090.cpp:655-668 | while the main thread runs, a receive thread that has gone is replaced and can push again |
| Timestamps.TimestampIsReceiveTime | src/adsb_record.hpp:214-218 | without a wall-clock step, the timestamp sent is receive stamp + constant + the time between the worker's two clock reads, to within one millisecond, both clocks being truncated separately; how long the report queued does not enter |
| Timestamps.TimestampsInOrderExactly | src/reporting_worker.cpp:15-18 | two reports' timestamps are in the order they are sent, whatever the wall clock's lead, iff their receive stamps are as far apart as the readings of the monotonic clock less the whole milliseconds between the wall reads |
| Timestamps.GapBounds | src/reporting_worker.cpp:15-18 | that gap is 0 or 1 ms when each report's clocks are read at one instant, and otherwise less than the first one's delay and 2 ms |
| Timestamps.TimestampsInOrder | src/reporting_worker.cpp:15-18 | reports of one aircraft are sent in receive order; a timestamp steps back by less than the delay between the reads and 2 ms; with simultaneous reads, a later receive stamp never gets an earlier timestamp and an equal one at most 1 ms earlier |
| Timestamps.SplitReadsCanReverse | src/reporting_worker.cpp:15-18 | a run in which a report received 50 ms later is sent with a timestamp 50 ms earlier, because the worker was held up between its clock reads |
| Timestamps.TruncationCanReverse | src/monotonic_time.hpp:21-28 | a run in which simultaneous reads reverse two reports of one millisecond by 1 ms |
| Worker.DeadlineBeforeShutdown | src/reporting_worker.cpp:63-68 | whenever the queue is seen shut down, or the worker has exited, the drain deadline has been stored |
| ReportingWorkers.ReportingWorker.Run | src/reporting_worker.cpp:8-51 | sends a prefix of the queue in order, each report with the TSLC and timestamp of its own clock reads, and leaves the queue empty |
| ReportingWorkers.SendsAreDated | src/reporting_worker.cpp:10-39 | the i-th send is the i-th report queued, with timestamp = wall reading - age and, below 255, its age in whole seconds |
| ReportingWorkers.ReportingWorker.Stop | src/reporting_worker.cpp:63-73 | stores the deadline, shuts the queue down and lets the drain run to its end under that deadline |
| ReportingWorkers.AllowedUntilDeadline | src/reporting_worker.cpp:41-49 | that prefix ends exactly at the first send that ends at or past the deadline, or with the queue |
| ReportingWorkers.NoSendAfterLate | src/reporting_worker.hpp:44-55 | no send starts once one has ended at or past the deadline |
| Descriptors.Reachable | src/dump1090.cpp:645-724 | the ownership invariant holds in every state of every interleaving, with descriptor numbers reused |
| Descriptors.RecvIsOnOpenDescriptor | src/dump1090.cpp:463-468 | recv never runs on a closed descriptor, nor on one reused for another connection |
| Descriptors.CloseIsOfOpenDescriptor | src/dump1090.cpp:469-482 | each close is of an open descriptor and the first of its connection |
| Descriptors.NoDescriptorLeaks | src/dump1090.cpp:476-481 | with no connection, no live thread and nothing in hand, every connection ever opened was closed exactly once |
| Descriptors.FdOverwrittenOnlyWhenFree | src/dump1090.cpp:645-667 | fd is overwritten only while it is -1 and no receive thread exists |
| Descriptors.DisconnectLeavesNothing | src/dump1090.cpp:694-724 | after disconnect there is no thread and nothing open |
| Descriptors.JoinedThreadCanFinish | src/dump1090.cpp:694-719 | a thread being joined has taken fd, will find it gone, or is in recv on a socket that was shut down, and can always step |
| Descriptors.JoinedThreadFinishes | src/dump1090.cpp:647-653 | and every step brings it nearer its end |
| Descriptors.CanReconnect | src/dump1090.cpp:645-680 | after a drop the main thread can always connect again, on any descriptor number, with a thread to serve the new connection |
| Descriptors.ReceivesOn | src/dump1090.cpp:461-492 | a receive thread that has its data goes back to receiving from the same descriptor |
| Descriptors.DropIsClosed | src/dump1090.cpp:469-482 | a dropped connection is closed by its receive thread, once, leaving nothing open |
| Backoff.DelayLaw | src/dump1090.cpp:679-689 | after n consecutive failures the delay is min(1000*2^n, 30000), within [1000, 30000] always, and 1000 after a success |
| Backoff.ElapsedWraps | src/dump1090.cpp:680-680 | the time since the last attempt is the unsigned 64-bit difference |
| Backoff.AttemptsWhenDue | src/dump1090.cpp:672-691 | an attempt is made exactly when there is no connection and the last attempt is longer ago than the delay in force, and it decides whether there is a connection; otherwise the call changes nothing |
| Backoff.ConnectedByAttempt | src/dump1090.cpp:672-691 | a connection is lost only by being dropped and had only by an attempt that succeeds |
| Backoff.AttemptsAreApart | src/dump1090.cpp:679-688 | two successive attempts are more than the delay between them apart |
| Backoff.AttemptsTakeTime | src/dump1090.cpp:672-692 | from one attempt to a later one takes more than all the delays between |
| Backoff.OutageTakesTime | src/dump1090.cpp:672-692 | k failures in a row keep the next attempt away for more than 2000 + 4000 + ... of their delays |
| Dump1090s.Dump1090.constructor | src/dump1090.cpp:518-524 | starts from the initial delay with the first candidate that connects, if any |
| Dump1090s.Dump1090.ConnectToDump1090 | src/dump1090.cpp:655-669 | uses the first candidate that connects and resets the delay; changes nothing if none does |
| Dump1090s.FirstOpenIsFirst | src/dump1090.cpp:659-669 | the candidate used is the first that connects |
| Dump1090s.NoneOpen | src/dump1090.cpp:659-669 | there is no connection iff no candidate connects |
| Dump1090s.Dump1090.Reconnect | src/dump1090.cpp:672-692 | takes the backoff step; a success is not clobbered by the doubling |
| Framing.FramingRefinesSplitting | src/dump1090.cpp:455-511 | for every chunking, each CR/LF segment yields at most one line, in order, a non-empty suffix of it, and all of it when it has at most 2048 bytes; what is retained has no terminator and at most 2048 bytes |
| Framing.NothingLostExactly | src/dump1090.cpp:494-509 | every non-empty segment, of whatever length, is delivered whole and the rest is retained, iff no chunk left more than 2048 bytes of the stream without a terminator |
| Framing.LinesAreSegmentsExactly | src/dump1090.cpp:494-509 | for a stream that ends with a terminator, the lines are exactly the non-empty segments iff that holds |
| Framing.KeepsIsTheGuard | src/dump1090.cpp:506-509 | that condition on the stream holds iff the guard of the discard is never met |
| Framing.ShortIsKept | src/dump1090.cpp:494-509 | segments that all fit the buffer meet it in any chunks |
| Framing.ShortSegmentsAreLines | src/dump1090.cpp:494-504 | when no segment exceeds 2048 bytes the lines are exactly the non-empty segments |
| Framing.ChunkingIsInvisible | src/dump1090.cpp:455-511 | so two ways of receiving the same stream deliver the same lines |
| Framing.LinesAreBounded | src/dump1090.cpp:466-510 | no delivered line exceeds 4095 bytes |
| Framing.StampOfLine | src/dump1090.cpp:484-500 | while nothing is discarded, a line carries the stamp of the chunk that completed its segment |
| Framing.CompletedInIsFirst | src/dump1090.cpp:484-500 | which is the first chunk after which more segments are terminated than lines came before |
| Framing.StampsStayInOrder | src/dump1090.cpp:484-492 | non-decreasing chunk stamps give non-decreasing line stamps |
| Framing.FragmentIsDelivered | src/dump1090.cpp:506-509 | the end of an overlong line whose beginning was discarded is delivered as a line |
| Discards.LinesExactly | src/dump1090.cpp:494-509 | for every stream in any chunks, discards or not: each terminated segment yields, in order, what follows the last discard in it, nothing when that is empty, stamped with the chunk that completed it; what is retained follows the last discard in the rest |
| Discards.KeepsIsNoCut | src/dump1090.cpp:506-509 | nothing is cut off any segment or the rest iff no chunk leaves more than 2048 bytes without a terminator |
| Discards.NoFragmentExactly | src/dump1090.cpp:506-509 | every line is a whole segment iff each discard in a terminated segment fell at its end |
| Dump1090s.SplitFields | src/dump1090.cpp:332-340 | the getline loop yields the text between commas, also for empty and trailing fields |
| Text.SplitJoins | src/dump1090.cpp:332-340 | commas+1 fields, whose join by commas is the line |
| Text.JoinSplits | src/dump1090.cpp:332-340 | and comma-free fields come back as they were joined |
| Dump1090s.Dump1090.ReadContent | src/dump1090.cpp:360-447 | the switch leaves in the message exactly what the columns of its type say, on every conforming integer width |
| Dump1090s.Dump1090.ProcessMessage | src/dump1090.cpp:330-453 | the callback hears the meaning of the line, or nothing when the line has none |
| Dump1090s.Dump1090.TakeChunk | src/dump1090.cpp:483-509 | one turn of the receive loop frames what the specification frames, and retains the rest |
| Dump1090s.Dump1090.ProcessMessages | src/dump1090.cpp:455-511 | over a whole connection the callback hears exactly what the lines of the stream mean |
| Dump1090s.TypeOfId | src/dump1090.cpp:360-360 | strtol's saturation cannot turn an unknown type into a known one, whatever the width of long |
| Numerals.FullSigned | src/dump1090.cpp:258-267 | a full-field from_chars to a signed type succeeds iff the text is an optional minus and digits, with the unbounded value or a range error |
| Numerals.FullUnsigned | src/dump1090.cpp:198-208 | the same for unsigned types, with no sign |
| Numerals.DigitsOfEitherCase | src/dump1090.cpp:202-203 | hexadecimal digits are those of either case and nothing else |
| Numerals.StrtolReads | src/dump1090.cpp:360-360 | strtol reads white space, an optional sign and digits, passes over what follows, and gives 0 without digits |
| Numerals.LimitsOfWidths | src/dump1090.cpp:248-295 | the clamping limits are those of the integer widths |
| Fields.AddressIsHexValue | src/dump1090.cpp:198-208 | address parsing returns the unbounded hexadecimal value iff it lies in 1..0xFFFFFF |
| Fields.AltitudeIsClampedValue | src/dump1090.cpp:258-272 | the unbounded decimal value clamped to 0..2^32-1, iff the text is an optional minus and digits, for every width of long long that holds the range |
| Fields.VertrateIsClampedValue | src/dump1090.cpp:279-295 | the same, clamped to 16 bits, for every width of long |
| Fields.ClampIsNearest | src/dump1090.cpp:268-271 | clamping gives the nearest value of the range |
| Fields.ToSquawk | src/dump1090.cpp:308-328 | the digit loop accepts exactly the texts of digits that, without leading zeros, are at most four digits from 0 to 7 |
| Fields.SquawkByValue | src/dump1090.cpp:314-326 | the test on the value and its digits is that test on the text |
| Fields.SquawksAreIdentityCodes | src/dump1090.cpp:297-307 | the accepted values and 0..4095 read as octal correspond one to one |
| Fields.SquawkRoundTrip | src/dump1090.cpp:308-328 | printing an identity code in four octal digits and parsing it is the identity |
| Fields.FixedRoundTrip | src/dump1090.cpp:221-231 | a decimal number printed with any number of places is parsed as the same real |
| Decimals.DoublesExactly | src/dump1090.cpp:221-231 | a decimal field is accepted iff it is an optional minus, digits with at most one point and at least one digit, and perhaps an exponent, with a value in range; the result is that value. Empty, partial and trailing text, plus signs, nan and inf are not |
| Decimals.NumeralParsed | src/dump1090.cpp:221-231 | every decimal number is parsed, with its sign and the value of its digits and exponent |
| Decimals.NumeralRead | src/dump1090.cpp:221-231 | and whatever is parsed is one |
| Sbs1.MessagesAreInRange | src/dump1090.cpp:342-431 | every message has an address in 1..0xFFFFFF, coordinates within 90/180, heading within 0..360, an octal-digit squawk, and all its fields stamped with its receive time |
| Sbs1.OnlyMessagesCount | src/dump1090.cpp:342-447 | a record is a message iff it has at least 18 fields, the kind MSG, a hexadecimal address in 1..0xFFFFFF and a type from 1 to 8; it is then filed under that address and stamp |
| Sbs1.LineRoundTrip | src/dump1090.cpp:330-453 | parsing a printed line gives back exactly what the transmission reports, with missing numbers unset, whatever stands in the columns its type does not carry |
| Wire.WireRoundTrip | src/dump1090.cpp:330-511 | any transmissions, printed as lines ended by LF or CR LF and received in any chunks, are heard exactly, in order, each stamped with the chunk that completed its line; for lines of at most 2048 bytes always, for longer ones as long as nothing is discarded |
| Wire.LinesArePrinted | src/dump1090.cpp:494-509 | the lines framed are the lines printed iff no chunk leaves more than 2048 bytes without a terminator |
| Wire.FragmentIsHeard | src/dump1090.cpp:506-509 | 2049 bytes of junk followed by a record on the same line: the record is heard |
| Pipeline.HandleAdsbData | src/main.cpp:47-64 | folds, then queues the returned report under its address with the message's own stamp |
| Pipeline.EveryReportHasOrigin | src/main.cpp:47-64 | everything queued or sent is the report that one of the messages gave rise to |
| Pipeline.FoldKeepsRange | src/adsb_record.hpp:79-112 | records stay within what the wire format has room for |
| Pipeline.BuiltInRange | src/adsb_record.hpp:224-254 | so do the reports built from them |
| Pipeline.EventsOfMessages | src/dump1090.cpp:484-492 | when the messages are in order and well formed, so is every history made of them and of sweeps |
| Pipeline.LinesAreWellFormed | src/dump1090.cpp:330-453 | the messages of lines in stamp order are in order and well formed |
| Pipeline.ConnectionsInOrder | src/dump1090.cpp:484-492 | the lines of one connection after another are in stamp order |
| Pipeline.EverySentReport | src/main.cpp:47-64 | end to end, over any connections, sweeps, sends and clears: each report sent has one message's position, the replay of its aircraft's track, flags that say what was recent, and every value in range |
| WholeProgram.Reachable | src/main.cpp:47-64 | with fold and push under separate locks, in every interleaving: the registry is that of its history, the queue and threads take only steps of module Worker, receive stamps rise towards the clock, and what is in hand or pushed is the report of a message |
| WholeProgram.WorkerStep | src/main.cpp:47-64 | every run of the whole is a run of module Worker, so all its theorems hold |
| WholeProgram.EverySend | src/main.cpp:47-64 | end to end, in every interleaving: whatever the worker hands to the reporter has one message's position, the replay of its aircraft's track, flags that say what was recent, every value in range, an age that agrees with its timestamp, and the timestamp of the receipt to within a millisecond |
| WholeProgram.EveryFixIsPushed | src/main.cpp:47-64 | every message with a position gives rise to exactly one push, in the order the messages were heard, and nothing else is pushed |
| WholeProgram.MessageIsReported | src/main.cpp:47-64 | when nothing waits, a message with a position that has just been received reaches the reporter: each step on its way is enabled in turn, whether the worker was asleep or not |
| WholeProgram.SweepsAfterTenMinutes | src/main.cpp:66-74 | the main thread's sweeps remove exactly the aircraft not heard for ten minutes |
| WholeProgram.HandedInTime | src/reporting_worker.cpp:15-24 | TSLC and timestamp of a send agree, and the timestamp is receive stamp + constant + delay to within a millisecond |
| Pipeline.QueueIsRun | src/main.cpp:47-64 | the queue of the whole is the run of its pushes, pops and clears |
| Pipeline.AnyRegistryFillsQueue | src/aircraft_registry.hpp:12-16 | for every registry capacity and every queue capacity, that many aircraft with positions fill the queue |
| Pipeline.QueueIgnoresRegistryLimit | src/aircraft_registry.hpp:12-16 | which aircraft wait, and in which order, is the same for every registry capacity |

## Left out

- Sockets, poll, keepalive and DNS: a connection attempt gives a new descriptor or fails; recv gives some bytes or ends the connection.
- A shutdown() of the socket that fails with another error than ENOTCONN, after which a join could wait for the peer.
- TLS and the FSS library (src/fss-reporter.cpp): sending is a step that takes any time and is recorded.
- IEEE-754: decimal fields are parsed to reals, so rounding, and the rejection of magnitudes that a double cannot hold, are not modelled; nan and inf are rejected as in the code.
- Relaxed memory ordering of the drain deadline and the inside of mutexes: steps are sequentially consistent and critical sections atomic.
- Scheduling: progress is stated as an enabled step and a decreasing measure, not as fairness of the scheduler.
- A monotonic clock within one drain timeout of 2^64 ms: in module Worker the clock stays below that.
- A second, idempotent stop() or disconnect() from a destructor.
- Argument checking, signals, logging and the sampling of the eviction counter in src/main.cpp.
- AircraftRegistries.AircraftRegistry.Fold: the map holds records by value, so the reference the source keeps into its map entry is a copy taken out, updated and put back.
- ReportQueues.ReportQueue.Pop: models pop from the moment its wait is over; the blocking wait and its wakeups are in module Worker.
- ReportingWorkers.ReportingWorker.Run: models the loop after shutdown, with no more pushes; the loop among the other threads is in module Worker.
- Dump1090s.Dump1090.ConnectToDump1090: does not show the join of the old receive thread and the start of the new one, which are steps of module Descriptors.
- Fields.FixedRoundTrip: holds of reals; the rounding of a decimal text to a double is not modelled.
- Timestamps.TimestampIsReceiveTime: the wall clock runs a constant time ahead of the monotonic one; a step of it is not modelled.
- Dump1090s.Dump1090.ProcessMessages: one thread's view, with what recv returns given in advance; a disconnect that takes the descriptor meanwhile is in module Descriptors.
