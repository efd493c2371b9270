# iorapd, modelled and proved in Dafny

iorapd makes app launches faster: it traces which pages a launch touches, compiles the traces, and
reads the pages ahead at the next launch. This project models its hardest machinery and proves what
that machinery is for.

- **Prefetcher protocol.** `Codec` and `CommandCodec` hold the binary command format, `WireLayout`
  spells it out byte by byte, and `Reassembly` has the parsers that put commands together from
  arbitrary pieces and pair them with file descriptors. `SystemCalls`, `Sessions`,
  `SessionResources`, `SessionLeaks`, `SessionReports` and `DirectSession` are a session and every
  system call it makes; `Stores`, `SessionCalls` and `DirectManager` the store of sessions;
  `Daemon`, `DaemonSafety` and `DaemonEndings` the daemon around it; `Client` the sending side.
  `Refinement` closes the circle: calls made through the client, the wire and the daemon do what the
  same calls do directly.
- **Trace compiler.** `PageCacheTraces` selects events, `SelectedEvents` says which and with what
  fields, `TraceClocks` what borrowed times do to them. `EventJoin` and `JoinedEvents` join them
  with file names, `PageCacheMerge` and `MergeOrder` merge duplicates in two differently ordered
  sets, `TraceIndex` writes the indexed file. `CompileThenPrefetch`, `TracePrefetch`,
  `TraceProcessing` and `PrefetchTasks` follow the file into the session that consumes it.
- **Inode search.** `Inodes` has device numbers, `InodeSearch` the scan over a shrinking multimap,
  `TreeTraversal` the lazy pre-order traversal, `LazySearch` the two together, and `FoundNames` says
  what is found. `InodeText`, `ResultFraming` and `OutOfProcessSearch` carry the results between
  processes.
- **App launches.** `LaunchDefender` filters launch events into a regular language, `LaunchStates`
  is the state machine behind it, `LaunchActions` says what each event does to it, and `LaunchRuns`
  and `LaunchHistories` state what holds over whole runs.
- **Perfetto handles.** `PerfettoTracker` balances trace spans against handles.

Objects the source updates in place are classes here, each method proved against a specification
function; the properties are proved about those functions. Stream operators are modelled as sequences
consumed one element at a time. System calls, the database, the version map, the compiled traces found
and the clock are parameters: any answers are allowed, and what is asked is recorded.

Several expected properties are false of the code. Each is stated with the exact condition under which
it holds, over whole runs or whole inputs, and most with an input for which it fails: `RunLeaksIff` with
`LeakExample`, `RecordedMappings` with `ReportExample`, `ActsAlikeIffInRange` with `WideIdsCollide`,
`LimitEscapes` with `LimitExample`, `DistanceWraps` with `WrapExample`, `OffsetIsExact`,
`SessionsLeftBehind`, `ExactlyOneResultEach`, `FramingRoundTrip`, `LeftOnIffFlipped` with `FlipExample`,
`FaithfulIffRemembered` with `StaleExample`, and `OpenIffReadTooEarly` with `EarlyReadExample`.

Check everything with `dafny verify dfyconfig.toml`.

Where code and comments disagree, the model follows the code: file names with spaces are not parsed
whole (src/inode2filename/out_of_process_inode_resolver.cc:171-175), a launch can finish without a
history subscriber (src/manager/event_manager.cc:625-628), and tracing can still be on when an intent
starts (src/manager/event_manager.cc:230).

## Model

| member | source | states |
|---|---|---|
| Codec.RoundTrip | src/prefetcher/prefetcher_daemon.cc:622-918 | Reading what was written, followed by any bytes, gives the same fields and consumes exactly what was produced, if and only if the text is shorter than 2^32. |
| Codec.ProperPrefixWaits | src/prefetcher/prefetcher_daemon.cc:622-768 | A proper prefix of an encoded command yields no command and consumes nothing, so the format is prefix-free. |
| Codec.DecodeExtends | src/prefetcher/prefetcher_daemon.cc:622-768 | Once a buffer holds a command or an unknown choice, more bytes behind it never change the verdict. |
| Codec.DecodeSound | src/prefetcher/prefetcher_daemon.cc:622-918 | Any bytes accepted off the wire are exactly the encoding of the command that comes out; no two byte strings stand for one command. |
| WireLayout.CommandLayout | src/prefetcher/prefetcher_daemon.cc:622-918 | Every command as bytes: its number and then the fields its kind has, each at its position, lowest byte first. |
| WireLayout.MessageLayout | src/prefetcher/session.cc:603-694 | Every client call as the bytes it writes, in terms of the numbers passed in: the low four or eight bytes of each, and a descriptor beside the one message that needs it. |
| CommandCodec.Read | src/prefetcher/prefetcher_daemon.cc:622-768 | The field-by-field reader with its switch and its bound checks is the reference decoder, on every buffer. |
| CommandCodec.ReadText | src/prefetcher/prefetcher_daemon.cc:222-283 | A length-prefixed text is read exactly when the prefix and all its bytes are there. |
| CommandCodec.Write | src/prefetcher/prefetcher_daemon.cc:770-918 | Writing succeeds exactly when the required text is present and the buffer is large enough; it then leaves the encoding at the front and every later byte untouched, and otherwise changes nothing. |
| Reassembly.DrainConserves | src/prefetcher/prefetcher_daemon.cc:493-601 | The commands parsed and the bytes kept spell the buffer: nothing is lost, invented or reordered, and what is kept is waiting for more. |
| Reassembly.ChunkingDoesNotMatter | src/prefetcher/prefetcher_daemon.cc:493-601 | For any bytes and any way of cutting them, the results of successive reads are those of the whole stream; the process dies exactly when the stream holds an unknown command. |
| Reassembly.StreamIsReassembled | src/prefetcher/prefetcher_daemon.cc:493-601 | Reads delivering the front of a stream of encoded commands give back the first commands exactly and keep a proper prefix of the next one, and nothing once all of it has arrived. |
| Reassembly.CommandParser.ParseCommands | src/prefetcher/prefetcher_daemon.cc:493-601 | One read appended to the kept bytes returns all whole commands and keeps the rest; a failed read and the end of input leave the buffer alone. The loop terminates. |
| Reassembly.CommandParser.ParseSocketCommands | src/prefetcher/prefetcher_daemon.cc:291-491 | The same for one message, whose descriptor joins the queue before the commands that need one take theirs from its front. |
| Reassembly.DescriptorsDoNotParse | src/prefetcher/prefetcher_daemon.cc:291-491 | Descriptors play no part in parsing: socket and pipe parsers agree on commands, remainder and death. |
| Reassembly.DescriptorsConserved | src/prefetcher/prefetcher_daemon.cc:366-392 | The descriptors attached so far followed by those waiting are those received, in order. |
| Reassembly.PairingIsInOrder | src/prefetcher/prefetcher_daemon.cc:433-486 | Every command that needs a descriptor has one if and only if descriptors arrive in time, and then the i-th such command carries the i-th descriptor received and the queue holds exactly the others. |
| DirectSession.SessionDirect.RegisterFilePath | src/prefetcher/session.cc:115-138 | The three maps and the system calls after registering a path, including a failed open and a path registered already. |
| DirectSession.SessionDirect.UnregisterFilePath | src/prefetcher/session.cc:140-182 | The maps and calls after unregistering: every mapped range unmapped, the descriptor closed, unknown ids refused. |
| DirectSession.SessionDirect.ReadAhead | src/prefetcher/session.cc:193-280 | The entry recorded and the calls made for each kind of read-ahead, for an unknown id, for a path that failed to open, and for failing calls. |
| DirectSession.SessionDirect.ProcessFd | src/prefetcher/session.cc:338-411 | A trace file registers its index in order and then reads its legal ranges ahead in order. |
| TraceProcessing.DescriptorIsProcessed | src/prefetcher/session.cc:338-411 | A fresh session given a descriptor knows each id of the index by its first name and has asked, by advice, for exactly the legal ranges of the list, in order, under their ids modulo 2^64; without a readable file it does nothing. |
| TraceProcessing.CreatedFromDescriptor | src/prefetcher/session_manager.cc:114-136 | So does the session that a store creates from a descriptor. |
| TraceProcessing.CompiledFromDescriptor | src/prefetcher/session.cc:338-411 | For a compiled file whose page indices are below 2^51, the session a store creates from its descriptor is the one processing leaves, and has asked for exactly the added pages of each file, in order. |
| DirectSession.SessionDirect.Destroy | src/prefetcher/session.cc:593-600 | The destructor unregisters every path with entries and then closes what is left. |
| SessionCalls.PerformDoes | src/prefetcher/session.cc:115-280 | What each call leaves for its path, and returns: the first name and descriptor stay, an unregistered path is forgotten, one entry more is recorded for a known path; nothing changes for any other path. |
| SessionCalls.CallDoes | src/prefetcher/session_manager.cc:78-136 | What each call on a store leaves for its session; all other sessions stay as they were, and a session that exists is not replaced. |
| SessionResources.RegisterSound | src/prefetcher/session.cc:83-138 | Registering keeps the invariant: path ids equal descriptor ids and lie among the entry ids when debug checks run, ranges belong only to registered ids, and the log balances with what is held. |
| SessionResources.UnregisterSound | src/prefetcher/session.cc:140-182 | Unregistering keeps the invariant. |
| SessionResources.ReadAheadSound | src/prefetcher/session.cc:193-280 | Reading ahead keeps the invariant, including when mlock fails after mmap succeeded. |
| SessionResources.RunSound | src/prefetcher/session.cc:115-280 | Any run of registrations, read-aheads, unregistrations and trace files keeps the invariant and touches no other session. |
| SessionResources.DestroyReleases | src/prefetcher/session.cc:593-600 | Destroying a session unmaps every region exactly as often as it was mapped and closes every descriptor it still knew. |
| SessionResources.LifetimeReleases | src/prefetcher/session.cc:593-600 | From creation to destruction, over every run: all regions balance, and a descriptor balances if and only if it was not abandoned. |
| SessionResources.RegisterAbandons | src/prefetcher/session.cc:115-138 | Registering abandons a descriptor exactly when the path is registered already and opens again. |
| SessionResources.DisciplinedRunLeaksNothing | src/prefetcher/session.cc:115-138 | A run that never registers a live path abandons nothing. |
| SessionLeaks.RunLeaksIff | src/prefetcher/session.cc:115-138 | A run abandons no descriptor if and only if none of its calls, trace files included, registers a live path that opens once more. |
| SessionLeaks.LifetimeReleasesIff | src/prefetcher/session.cc:593-600 | From creation to destruction every descriptor is closed as often as it was opened exactly in such runs. |
| SessionLeaks.LeakExample | src/prefetcher/session.cc:115-138 | A run that abandons a descriptor. |
| SessionReports.FailedMmapReported | src/prefetcher/session.cc:234-279 | A mapping read-ahead reports a region exactly if there is one: for kMmapLocked if and only if mmap did not fail, as its result is compared with null; for kMlock if and only if mlock succeeds on a region and fails on a failed mmap. |
| SessionReports.RunExplained | src/prefetcher/session.cc:193-280 | Over every run, each recorded entry is explained by a call of its own in the log, on the descriptor of its path, or had no open file. |
| SessionReports.AskedOfItsDescriptor | src/prefetcher/session.cc:193-280 | Over every run, each thing recorded for a path was asked by a call of its own, in order, of the descriptor that opening its name returned, after it was opened and before anything was closed for the path; or the path could not be opened. |
| SessionReports.RecordedMappings | src/prefetcher/session.cc:234-271 | Over every run, a mapping recorded as a success is a region if and only if its mmap did not return MAP_FAILED, and one recorded as a failure is a region if and only if mmap gave one and its mlock failed. |
| SessionReports.ReportExample | src/prefetcher/session.cc:246-263 | A failed mmap recorded as a success, and a mapped region recorded as a failure. |
| SessionReports.AdviceNeverFails | src/prefetcher/session.cc:227-233 | As posix_fadvise returns no negative number, a read-ahead by advice is recorded as a success exactly if the file could be opened. |
| DirectManager.SessionManager.FindSession | src/prefetcher/session_manager.cc:78-86 | The session of that id, or none. |
| DirectManager.SessionManager.CreateSession | src/prefetcher/session_manager.cc:99-136 | A fresh session; one of that id already in the store stays there, and the new one is handed out all the same. |
| DirectManager.SessionManager.DestroySession | src/prefetcher/session_manager.cc:88-97 | The session leaves the store and its destructor runs; unknown ids are refused. |
| Stores.ApplySound | src/prefetcher/session_manager.cc:78-136 | Every call on a store keeps every session sound and leaves destroyed ids settled. |
| Stores.ApplyAllSound | src/prefetcher/session_manager.cc:78-136 | So does any sequence of calls. |
| Stores.ShutdownReleases | src/prefetcher/session.cc:593-600 | Taking a sound store down releases every region and every descriptor not abandoned. |
| Daemon.PrefetcherDaemon.ReceiveCommand | src/prefetcher/prefetcher_daemon.cc:1222-1326 | A command acts on the store as the call it stands for, and the process dies exactly when a required field is missing where the code checks it. |
| Daemon.PrefetcherDaemon.ServeCommands | src/prefetcher/prefetcher_daemon.cc:1095-1113 | A batch is served in order up to an exit command or a death, each passed descriptor being closed afterwards. |
| Daemon.PrefetcherDaemon.MainLoop | src/prefetcher/prefetcher_daemon.cc:1062-1120 | The whole loop, over pipes or sockets: the store, the closed descriptors and the way it ends are those of the reference run over the reads. |
| DaemonEndings.OneCommandIsFatal | src/prefetcher/prefetcher_daemon.cc:1222-1326 | Of all commands that can come off the wire, only the creation of a new session from a descriptor that did not come kills the daemon; exit ends it; the rest keep it running. |
| DaemonEndings.UnknownCommandIsFatal | src/prefetcher/prefetcher_daemon.cc:493-601 | An unknown command kills the daemon once it is read, and no command that became complete with the same read is carried out, those in front of it included. |
| DaemonEndings.QuitEnds | src/prefetcher/prefetcher_daemon.cc:1095-1113 | Nothing asked for after exit is done. |
| DaemonSafety.DaemonReleasesEverything | src/prefetcher/prefetcher_daemon.cc:1062-1120 | Whatever bytes and descriptors arrive, and however the loop ends, taking the store down balances every region, and every descriptor not abandoned. |
| DaemonSafety.PassedDescriptorsAreClosed | src/prefetcher/prefetcher_daemon.cc:1095-1113 | While the daemon runs, the descriptors it closed followed by those still queued are those it received, in order. |
| Client.SessionManagerIndirect.SendCommand | src/prefetcher/prefetcher_daemon.cc:1140-1220 | A command is sent exactly when it fits the 1024-byte buffer and the write succeeds, and then as one message holding its encoding and its descriptor. |
| WireLayout.LongestTexts | src/prefetcher/prefetcher_daemon.cc:1140-1220 | A call is too long for the send buffer exactly if it registers a path of more than 1008 bytes or creates a session with a description of more than 1012. |
| Client.SessionManagerIndirect.CreateSession | src/prefetcher/session_manager.cc:148-167 | Creating a session sends one creation and makes the session live. |
| Client.SessionManagerIndirect.CreateFdSession | src/prefetcher/session_manager.cc:209-231 | Creating a session with a descriptor sends one creation with it. |
| Client.SessionManagerIndirect.DestroySession | src/prefetcher/session_manager.cc:88-97 | Destroying forgets the session, and sends one destruction if the manager held the last reference and the write succeeds. |
| Client.SessionManagerIndirect.LetGo | src/prefetcher/session.cc:630-639 | The destructor of a session kept by a caller sends its destruction later. |
| Client.SessionManagerIndirect.RegisterFilePath | src/prefetcher/session.cc:652-660 | Registering sends one command, and fails when the path does not fit the buffer. |
| Client.SessionManagerIndirect.ReadAhead | src/prefetcher/session.cc:670-683 | Reading ahead sends one command, which always fits. |
| Refinement.ServeIsAct | src/prefetcher/prefetcher_daemon.cc:1222-1326 | Serving a delivered command does to a store what the client call does directly, its ids taken modulo 2^32. |
| Refinement.NarrowingIsExact | src/prefetcher/session.cc:606-683 | The wire carries a call exactly if and only if its session and path ids are below 2^32. |
| Refinement.ActsAlikeIffInRange | src/prefetcher/session.cc:606-683 | A call acts on every store as its delivered form does if and only if its numbers are in range. |
| Refinement.WideIdsCollide | src/prefetcher/session.cc:606-628 | Any two session ids that differ only above bit 31 are two sessions directly and one at the daemon. |
| Refinement.PipeRefinement | src/prefetcher/prefetcher_daemon.cc:493-601 | Client calls, encoded, cut anywhere, parsed and dispatched by a daemon on a pipe, leave its store, status and log as exactly those calls would directly whose bytes have all arrived. |
| Refinement.SocketRefinement | src/prefetcher/prefetcher_daemon.cc:291-491 | The same over a socket, for any cutting in which descriptors arrive in time, with each descriptor reaching its own session. |
| Refinement.MessagesAreTheStream | src/prefetcher/prefetcher_daemon.cc:1140-1220 | What the client writes is the stream the refinement is about. |
| Refinement.MessagesCarryTheFds | src/prefetcher/prefetcher_daemon.cc:1140-1220 | The descriptors beside the messages are those of the calls, in order. |
| Refinement.UnbrokenMessagesAreTimely | src/prefetcher/prefetcher_daemon.cc:1140-1220 | Messages delivered one by one always bring descriptors in time. |
| Refinement.LiveWhenDirect | src/prefetcher/session_manager.cc:78-136 | The sessions in a store are those created and not destroyed. |
| Refinement.LiveOverAPipe | src/prefetcher/session_manager.cc:78-167 | At a daemon on a pipe they are those of the calls whose bytes have arrived. |
| Refinement.LiveAtTheDaemon | src/prefetcher/session_manager.cc:78-231 | And so at a daemon on a socket, sessions created from a descriptor included. |
| PageCacheTraces.GetStartTimestamp | src/compiler/compiler.cc:239-260 | The smallest timestamp of all packets and events, or none. |
| SelectedEvents.StartIsEarliest | src/compiler/compiler.cc:239-260 | A start is a timestamp of some packet or event of the trace and none is earlier; there is none exactly if nothing is stamped. |
| PageCacheTraces.SelectPageCacheFtraceEvents | src/compiler/compiler.cc:287-402 | The events the loop emits, an event without a timestamp inheriting the one before it. |
| SelectedEvents.PassingIsExact | src/compiler/compiler.cc:350-402 | The positions of exactly the add and delete events not stamped past the limit, in the order of the trace. |
| SelectedEvents.OutputFields | src/compiler/compiler.cc:293-402 | The k-th event that comes out belongs to the k-th such position: processor, process, direction and payload are those of that event, its time is the last stamp up to it in its packet, and the distance is that time less the start, modulo 2^64. |
| PageCacheTraces.SelectionIsExact | src/compiler/compiler.cc:293-402 | When every event carries a timestamp, none precedes the start, so no relative time wraps, and the output is exactly the add and delete events at or below the limit, in order. |
| TraceClocks.LimitEscapes | src/compiler/compiler.cc:350-363 | For every trace: everything that comes out is within the limit if and only if no add or delete event without a timestamp follows, in its packet, a time past the limit. |
| TraceClocks.LimitExample | src/compiler/compiler.cc:350-363 | A trace whose output passes the limit. |
| TraceClocks.DistanceWraps | src/compiler/compiler.cc:331-369 | For every trace: no relative time wraps around if and only if every add or delete event without a timestamp has one before it in its packet, or the trace starts at zero; a wrapped one is 2^64 too large. |
| TraceClocks.NoStampsNoDistance | src/compiler/compiler.cc:365-369 | A trace without a timestamp gives every event time and distance zero. |
| TraceClocks.WrapExample | src/compiler/compiler.cc:331-369 | A trace with a relative time of 2^64 - 5. |
| PageCacheTraces.ClockOffsetIsIrrelevant | src/compiler/compiler.cc:239-402 | Adding a constant to all timestamps and the limit, without overflow, changes no relative time and no choice. |
| PageCacheMerge.OrdersAreTotal | src/compiler/compiler.cc:621-690 | The comparison by key equates exactly the events of one key, and the full comparison no two different events. |
| PageCacheMerge.OrdersAreTransitive | src/compiler/compiler.cc:621-690 | Both comparisons are transitive, as std::set needs. |
| PageCacheMerge.MergeEvent | src/compiler/compiler.cc:741-798 | One insertion, with the erase and re-insert for an earlier duplicate, keeps the set a merge of the input so far. |
| PageCacheMerge.CompilePageCacheEvents | src/compiler/compiler.cc:741-819 | One event per key of the input, each the earliest of its key, strictly ascending; moving between the two sets loses nothing. |
| MergeOrder.OutputInOrder | src/compiler/compiler.cc:621-690 | Output events are in the order of their times; at one time by the first byte in which the file names differ, deletions before additions, smaller pages first. |
| MergeOrder.OneOfEachLike | src/compiler/compiler.cc:741-819 | No two output events are about the same page of the same file in the same direction; each is the earliest input of its like, and no input is without its like. |
| PageCacheMerge.OneEventPerKey | src/compiler/compiler.cc:741-819 | The output keys are distinct and are exactly the input keys. |
| PageCacheMerge.OrderIsIrrelevant | src/compiler/compiler.cc:741-819 | Inputs with the same events in any order, duplicates included, have one and the same output. |
| PageCacheMerge.CompilingIsIdempotent | src/compiler/compiler.cc:741-819 | Compiling the output again gives the output. |
| PageCacheMerge.BlacklistCommutes | src/compiler/compiler.cc:716-735 | Dropping blacklisted file names before or after the merge gives the same. |
| EventJoin.ReduceResolvedInodesToMap | src/compiler/compiler.cc:439-456 | The map from the inodes that were resolved to their names. |
| JoinedEvents.FirstNameStays | src/compiler/compiler.cc:439-456 | The name of an inode is that of the first success for it. |
| EventJoin.ResolvePageCacheEntries | src/compiler/compiler.cc:472-619 | Concatenating the map with the events, merging by scan and filtering is the plain in-order join of the events with the map. |
| JoinedEvents.JoinInOrder | src/compiler/compiler.cc:536-619 | Every event with a name for its device and number comes out once under that name, in the order of the events. |
| EventJoin.DistinctInodesOnce | src/compiler/compiler.cc:405-427 | Each inode an event mentions is searched for exactly once. |
| EventJoin.DroppedIffUnresolved | src/compiler/compiler.cc:536-619 | An event has exactly one result for its inode, and is dropped if and only if that is a failure. |
| EventJoin.KeptIffItsFileIsFound | src/compiler/compiler.cc:536-619 | With the search in front: an event comes out exactly when some item of the haystack fits its inode, and under the name found for it. |
| JoinedEvents.KeptIffItsFileIsNamed | src/compiler/compiler.cc:536-619 | An event comes out exactly when, during the search, some item offered a name under the number in the event and stat of it gave the device and number in the event; the name it carries is such a name. |
| TraceIndex.OffsetIsExact | src/compiler/compiler.cc:865-910 | The stored offset is the page index times 4096 if and only if the index is below 2^51. |
| TraceIndex.OffsetWraps | src/compiler/compiler.cc:865-910 | In any case the offset is a signed 64-bit number, off by a multiple of 2^64. |
| TraceIndex.AddsInOrder | src/compiler/compiler.cc:865-910 | The events written are exactly the add events, each at its place among them. |
| TraceIndex.BuildTraceFile | src/compiler/compiler.cc:865-910 | Dense ids in first-appearance order, one per distinct file name, and one entry per add event, in order. |
| TraceIndex.NamesAreDistinct | src/compiler/compiler.cc:876-900 | The id of a file name is unique and every name of an event has one. |
| TraceIndex.IndexIsUnique | src/compiler/compiler.cc:865-910 | There is only one such file for given events. |
| TraceIndex.FilesOnlyGrow | src/compiler/compiler.cc:865-910 | The file of more events begins with the file of fewer: no id is ever given again. |
| TraceIndex.DecodingGivesTheAdds | src/compiler/compiler.cc:865-910 | Decoding the entries gives back exactly the add events, in order, at their true offsets, for page indices below 2^51. |
| CompileThenPrefetch.CompiledFileIsPrefetched | src/prefetcher/session.cc:338-411 | A fresh session that processes the compiled file finds the path of every entry, asks for exactly the added pages of each file in order, and abandons no descriptor, whatever the kernel answers. |
| CompileThenPrefetch.RegistrationIsFresh | src/prefetcher/session.cc:364-380 | No path id of a compiled file is registered twice. |
| TracePrefetch.AddedPagesAreReadOnce | src/compiler/compiler.cc:747-910 | From joined events, through blacklist, merge and file, to the session: every page the events add to a named file is asked for exactly once, and no other page of it. |
| TracePrefetch.InputIsTheEvents | src/compiler/compiler.cc:705-740 | What the merge is given: of each joined event whose name is not blacklisted, that name and its own distance, direction and page. |
| TracePrefetch.FoundPagesAreAdded | src/compiler/compiler.cc:536-619 | With the search in front, this covers every added page of a file that some item of the haystack fits, unless its name is blacklisted. |
| CompileThenPrefetch.PrefetchSizeInBytes | src/prefetcher/read_ahead.cc:408-431 | The sum of the legal lengths, or nothing without a file. |
| CompileThenPrefetch.SizeIsAPagePerAdd | src/prefetcher/read_ahead.cc:408-431 | For a compiled file that is 4096 times the number of add events, modulo 2^64. |
| CompileThenPrefetch.SizeIsTheSum | src/prefetcher/read_ahead.cc:408-431 | For any file it is the sum of the legal lengths, modulo 2^64. |
| PrefetchTasks.ReadAheadTasks.BeginTask | src/prefetcher/read_ahead.cc:261-402 | Beginning creates a session, registers the index, reads the list ahead and remembers the id; without a readable file only the session is left. |
| PrefetchTasks.ReadAheadTasks.Prefetch | src/prefetcher/read_ahead.cc:327-390 | Both loops over the trace file together amount to processing it whole, and return its size. |
| PrefetchTasks.ReadAheadTasks.FinishTask | src/prefetcher/read_ahead.cc:199-222 | Finishing a remembered id destroys its session; any other is ignored. |
| PrefetchTasks.TaskCallsAreTheTask | src/prefetcher/read_ahead.cc:261-402 | The separate calls of a task leave the store that processing the file in one step would. |
| TraceProcessing.TaskHoldsItsFile | src/prefetcher/read_ahead.cc:261-402 | A task that finds its trace file leaves a session that knows the index and has asked for the legal ranges, in order and by the configured kind. |
| PrefetchTasks.FinishUndoesBegin | src/prefetcher/read_ahead.cc:199-222 | After any run, beginning a new task and finishing it restores the store if and only if the trace file could be read. |
| PrefetchTasks.SessionsLeftBehind | src/prefetcher/read_ahead.cc:261-402 | Over every run of beginning and finishing, the sessions in the store are those of the remembered tasks, which are the unfinished ones, and apart from them those begun without a readable file. |
| PrefetchTasks.OrphansHadNoFile | src/prefetcher/read_ahead.cc:307-312 | When no id is begun twice, the sessions left behind are exactly those whose trace file could not be read. |
| PrefetchTasks.TaskThroughTheDaemon | src/prefetcher/read_ahead.cc:261-402 | A task made through the client, the wire and the daemon leaves there the session that processing the file in process would. |
| Inodes.DeviceBijection | src/inode2filename/inode.h:49-74 | Devices and pairs of 32-bit numbers correspond one to one through makedev, major and minor. |
| WireLayout.DeviceLayout | src/inode2filename/inode.h:49-74 | Where the bits of major and minor number are in a device number. |
| Inodes.MatchingByDevice | src/inode2filename/inode.h:106-112 | Comparing device and number is comparing whole inodes, exactly for inodes with 32-bit device numbers. |
| InodeSearch.InodeSet.FindAndRemove | src/inode2filename/search_directories.cc:148-222 | The first inode of the bucket that fits leaves the set and is returned, and nothing else changes. |
| InodeSearch.AnsweredPlusRemaining | src/inode2filename/search_directories.cc:1069-1195 | After every item, the inodes answered and those remaining are the multiset searched for. |
| InodeSearch.ExactlyOneResultEach | src/inode2filename/search_directories.cc:1069-1263 | Every searched inode, duplicates included, gets exactly one result if and only if the haystack is not empty or nothing is searched for. |
| InodeSearch.StopsOneItemLater | src/inode2filename/search_directories.cc:1140-1174 | One item is consumed after the set has become empty, and none after that. |
| InodeSearch.AnswersAreBacked | src/inode2filename/search_directories.cc:1085-1137 | Every answer is for an item that fits its inode, under that item's name. |
| InodeSearch.LeftoversLackItems | src/inode2filename/search_directories.cc:1197-1210 | An inode is left over only for lack of items: it was answered as often as items fit it. |
| InodeSearch.FoundIffSomeItemFits | src/inode2filename/search_directories.cc:1069-1263 | An inode searched for once is answered if and only if some item fits it. |
| InodeSearch.FastIsNaive | src/inode2filename/search_directories.cc:801-831 | Probing the inode bucket and calling stat only on a hit gives the matches, in order, of calling stat on every item, when directory entries agree with stat; and it never calls stat more often. |
| InodeSearch.VerificationKeepsInodes | src/inode2filename/search_directories.cc:1218-1258 | Verification never changes which inode a result answers for; a name survives exactly when stat confirms it and is replaced by the right error otherwise; failures, and everything when no verification is wanted, stay as they are. |
| InodeSearch.StatsOnlyCandidates | src/inode2filename/search_directories.cc:795-828 | An item is looked up with stat exactly if the scan goes on, the item lacks its device, and a searched inode has its number. |
| FoundNames.FoundIffNamed | src/inode2filename/search_directories.cc:777-920 | An inode searched once is found exactly when some item offers a name under its number and stat, when the item is reached, gives its device and number; the name given is such a name, and otherwise the result is a failure. |
| FoundNames.TrustedIffListed | src/inode2filename/search_directories.cc:777-920 | Where items carry devices, an inode is answered for exactly when an item is for that inode, and by such an item. |
| InodeSearch.FilterFilenamesForSpecificInodes | src/inode2filename/search_directories.cc:1069-1263 | The running search is the reference scan for some order of the list, verified. |
| TreeTraversal.Traverse | src/inode2filename/search_directories.cc:606-680 | The recursive traversal offers the nodes of the left-to-right pre-order one by one to a consumer that may unsubscribe. |
| TreeTraversal.ParentsFirstLeftToRight | src/inode2filename/search_directories.cc:606-680 | In that order a node comes first and the nodes under each child are together, after those under the children to its left. |
| TreeTraversal.ItemsAreInTree | src/inode2filename/search_directories.cc:606-680 | It holds exactly the items with no unreadable directory above them. |
| TreeTraversal.LazyPrefix | src/inode2filename/search_directories.cc:606-680 | The consumer receives exactly the nodes up to the one after which it wants no more, or all of them, and children are asked for only of nodes before the last received. |
| LazySearch.LazySearchIsSearch | src/inode2filename/search_directories.cc:777-920 | Reading the tree lazily gives the answers and leftovers of searching the whole of it. |
| LazySearch.ReadsOnlyWhileSearching | src/inode2filename/search_directories.cc:606-697 | No directory is opened once the search is done. |
| LazySearch.TreeSearchAnswersAll | src/inode2filename/search_directories.cc:777-920 | A search from the roots answers every inode exactly once, because of the sentinel above them. |
| LazySearch.SearchDirectories | src/inode2filename/search_directories.cc:777-934 | Traversal and scan running together give the results of the search over the whole tree. |
| FoundNames.FoundInTree | src/inode2filename/search_directories.cc:777-920 | A search of a directory tree finds an inode exactly when an entry of the tree has its number and stat of that name gives its device and number; the name it gives is such a name. |
| InodeText.Parse | src/inode2filename/inode.cc:31-79 | Parsing accepts exactly the two notations and yields the inode they denote; a refusal carries a message. |
| InodeText.NoInode | src/inode2filename/inode.cc:35-57 | A text without exactly one @ and without exactly two colons is refused. |
| InodeText.PairIsParsed | src/inode2filename/inode.cc:35-54 | A text with one @ is an inode exactly if both sides are numbers, the first a device number. |
| InodeText.TripleIsParsed | src/inode2filename/inode.cc:55-76 | A text with two colons and not one @ is an inode exactly if its three pieces are numbers. |
| InodeText.InodeRoundTrip | src/inode2filename/inode.h:119-122 | Every inode, device numbers of any size included, survives printing and parsing. |
| InodeText.NotationsAgree | src/inode2filename/inode.cc:35-76 | A device number and an inode number in either notation give the same inode. |
| ResultFraming.ParseFromLine | src/inode2filename/out_of_process_inode_resolver.cc:121-188 | The line reader, branch by branch, is the reference reader. |
| ResultFraming.LineRoundTrip | src/inode2filename/main.cc:387-428 | A line gives its result back if and only if its file name is not empty and has no whitespace or, for a failure, its error code fits an int. |
| WireLayout.ResultLayout | src/inode2filename/main.cc:387-428 | A found name and an error as lines, and a line as a frame, byte by byte. |
| ResultFraming.RefusedLines | src/inode2filename/out_of_process_inode_resolver.cc:121-188 | A line is refused exactly if its first word is neither kind, its second is no inode, or its third is missing or, for an error, no int32_t. |
| ResultFraming.ResultWriter.OnNext | src/inode2filename/main.cc:380-434 | One framed line per result, and a zero return code after a success. |
| ResultFraming.ResultWriter.Subscribe | src/inode2filename/main.cc:378-446 | The frames of all results in order, and the return code of the whole. |
| ResultFraming.FrameRoundTrip | src/inode2filename/out_of_process_inode_resolver.cc:75-111 | A line is read back, whatever follows, if and only if it is not empty and its length fits an int32_t. |
| ResultFraming.Pipe.ReadLineLength | src/inode2filename/out_of_process_inode_resolver.cc:75-88 | Four bytes as a signed length, or the end of the file. |
| ResultFraming.Pipe.ReadOneLine | src/inode2filename/out_of_process_inode_resolver.cc:91-111 | The next line and the rest of the stream, or the end at a missing, broken or non-positive frame. |
| ResultFraming.EmitFromCommand | src/inode2filename/out_of_process_inode_resolver.cc:321-366 | The results read are delivered in order, and then exactly one ending: completion, an invalid line, or a wrong count. |
| ResultFraming.RefusedLineEndsIt | src/inode2filename/out_of_process_inode_resolver.cc:321-366 | A refused line ends the reading: exactly the results before it are delivered, nothing after it is read, and the ending names that line. |
| ResultFraming.EmitFromCommandFind | src/inode2filename/out_of_process_inode_resolver.cc:235-246 | An empty search list completes at once, and the command that is run all the same delivers nothing more. |
| ResultFraming.FramingRoundTrip | src/inode2filename/out_of_process_inode_resolver.cc:321-348 | A list of results is read back as the same list, the reader stopping exactly at its end, if and only if every file name in it is a word. |
| ResultFraming.CutShort | src/inode2filename/out_of_process_inode_resolver.cc:91-111 | A stream cut anywhere inside its last frame gives the results before it and no others. |
| OutOfProcessSearch.SearchSurvivesThePipe | src/inode2filename/out_of_process_inode_resolver.cc:321-366 | A search over a haystack that is not empty comes through the pipe unchanged and passes the count check if and only if every name it found is a word. |
| OutOfProcessSearch.EmptyHaystackIsRejected | src/inode2filename/out_of_process_inode_resolver.cc:352-362 | Over an empty haystack the search answers nothing and the count check fails. |
| LaunchDefender.AppLaunchEventDefender.OnAppLaunchEvent | src/manager/event_manager.cc:731-798 | The verdict on one event and the type remembered, for every transition; an overwritten event keeps all but its type. |
| LaunchDefender.LaunchEventGate.OnAppLaunchEvent | src/manager/event_manager.cc:978-1006 | What is delivered is the filtered history, and the call returns true exactly when the event itself was delivered. |
| LaunchDefender.DeliveredInOrder | src/manager/event_manager.cc:722-799 | For any events whatever, those delivered form a prefix of launches in the documented order. |
| LaunchDefender.StrayEventsEndTheLaunch | src/manager/event_manager.cc:722-799 | While a launch is under way every event is delivered, one out of order as the failure or the cancellation of the launch with its other fields unchanged; between launches only the next intent is, and a report right after the end. |
| LaunchDefender.UnchangedIffInOrder | src/manager/event_manager.cc:722-799 | The filter changes nothing if and only if the events were in the documented order. |
| LaunchDefender.FilteringIsIdempotent | src/manager/event_manager.cc:722-799 | Filtering what was filtered changes nothing. |
| LaunchStates.AppLaunchEventState.OnNewEvent | src/manager/event_manager.cc:189-376 | The new state and everything begun, ended, inserted and updated for each event type. |
| LaunchRuns.EventManager.OnAppLaunchEvent | src/manager/event_manager.cc:978-1006 | After any events the filter and the state machine are in the state of the run over them, and the call returns true exactly for an accepted event. |
| LaunchActions.NextEventDoes | src/manager/event_manager.cc:189-376 | What the next event does after any run: a cold activity keeps what runs or starts read-ahead, or else tracing; a warm or hot one drops it; an intent opens a chain; an end finishes the read-ahead, keeps or drops the trace, and writes the row; by the fields of the event and the state before. |
| LaunchActions.TitleIsSpelt | src/db/app_component_name.h:27-52 | A title is a package and an activity about its first slash, an activity name with a leading dot being short for one in the package. |
| LaunchRuns.LaunchesAreSafe | src/manager/event_manager.cc:189-376 | In every run without a flip of the blacklist verdict: every debug check reached holds, tracing is on exactly while it has a subscription, never together with read-ahead, and both are off between launches. |
| LaunchRuns.LeftOnIffFlipped | src/manager/event_manager.cc:287-331 | In every run, both are off whenever no launch is under way if and only if no event but the last launches a blacklisted activity while something runs for its intent. |
| LaunchRuns.FlipExample | src/manager/event_manager.cc:287-331 | A run in which tracing is left on. |
| LaunchRuns.NothingIsLost | src/manager/event_manager.cc:438-620 | Between launches of a run without flips, every read-ahead task begun was finished, one before the next, and every trace subscription was dropped, once, or is in flight. |
| LaunchHistories.SubscribersEndAtMostOnce | src/manager/event_manager.cc:216-275 | In every run, flips and blacklisting included, no history subscriber is terminated twice, nor kept after it was. |
| LaunchHistories.SubscriberWaits | src/manager/event_manager.cc:216-228 | In a run with no blacklisted intent, a subscriber waits whenever a launch is under way. |
| LaunchHistories.FinishedLaunchEndsItsChain | src/manager/event_manager.cc:622-646 | A launch not blacklisted opens one chain of its own and ends it with the row it inserted, or with an error if it inserted none. |
| LaunchHistories.FaithfulIffRemembered | src/manager/event_manager.cc:333-370 | A report of being fully drawn changes exactly the row its launch inserted, or nothing, if and only if the launch is ignored, a subscriber waited, or the id remembered happens to be right. |
| LaunchHistories.ReportsAreFaithful | src/manager/event_manager.cc:357-370 | With no blacklisted intent, every report is faithful, whatever came before. |
| LaunchHistories.StaleReport | src/manager/event_manager.cc:622-646 | With a blacklisted intent and another package's activity, a report changes the row of an earlier launch. |
| LaunchHistories.StaleExample | src/manager/event_manager.cc:622-646 | A whole run, from the start, in which that happens. |
| PerfettoTracker.PerfettoConsumer.CreateHandle | src/perfetto/perfetto_consumer.cc:181-209 | Creating keeps the books of the run over the calls made. |
| PerfettoTracker.PerfettoConsumer.BeginTracing | src/perfetto/perfetto_consumer.cc:211-238 | So does starting, on a tracked handle or not. |
| PerfettoTracker.PerfettoConsumer.TakeTrace | src/perfetto/perfetto_consumer.cc:240-257 | So does reading. |
| PerfettoTracker.PerfettoConsumer.TryDestroy | src/perfetto/perfetto_consumer.cc:264-292 | So does destroying, which succeeds exactly on a tracked handle. |
| PerfettoTracker.RunsAreSound | src/perfetto/perfetto_consumer.cc:181-292 | The bookkeeping invariant over every run. |
| PerfettoTracker.SpansBalance | src/perfetto/perfetto_consumer.cc:181-292 | Over every run: tracked handles lie among those handed out, cookies count up from 1 and are never reused, each handle begins at most one span, each span ends at most once and only when open, and begins minus ends is the number of tracked handles started and not ended. |
| PerfettoTracker.DestroyClosesItsSpan | src/perfetto/perfetto_consumer.cc:435-441 | After a destroy the handle is untracked and no span of it is open. |
| PerfettoTracker.CreateCrashesIffOutOfStep | src/perfetto/perfetto_consumer.cc:191-206 | Creating crashes exactly when the handle is not the next number; it is never found tracked already. |
| PerfettoTracker.CrashesIff | src/perfetto/perfetto_consumer.cc:181-292 | After any run without a crash the next call crashes exactly if it creates a handle out of step or starts a tracked handle above 2^31-1. |
| PerfettoTracker.HandlesAreKnown | src/perfetto/perfetto_consumer.cc:181-292 | Over every run a handle is tracked exactly when the last call carried out for it was not its destruction; its state, and the times it was changed, started and read, are those of the calls. |
| PerfettoTracker.OpenIffReadTooEarly | src/perfetto/perfetto_consumer.cc:421-433 | Over every run, the span of a tracked, started handle is still open if and only if the handle was never read, or first read before it was first started. |
| PerfettoTracker.EarlyReadExample | src/perfetto/perfetto_consumer.cc:421-433 | A run in which a read handle keeps its span open. |

## Left out

- Word sizes: 64-bit little-endian targets only; the 32-bit `dev_t` of older Android is not modelled.
- Codec.RoundTrip: null buffer arguments of `Read` and `Write` are not modelled.
- Reassembly.CommandParser.ParseCommands: `LOG(FATAL)` on an unknown command is a result here, after which the object is not specified.
- Reassembly.CommandParser.ParseSocketCommands: message headers and truncated control data are not modelled, only the bytes and the descriptor that reach the parser.
- DirectSession.SessionDirect.Destroy: the iteration order of hash maps is a parameter of the environment that may depend on the keys and on all calls made before; results hold for every order.
- DirectManager.SessionManager.DestroySession: the destructor runs at once; a task data record that holds the session too lets go of it at the end of the same FinishTask.
- DirectSession.SessionDirect.RegisterFilePath: the debug check that inserts an empty entry list as a side effect is switched by a parameter; that a debug build aborts when a path with recorded entries is registered again is not modelled.
- SessionResources.RunSound: `UnreadAhead` is not an operation of a run, as it works on a copy of the list and leaves the entry behind.
- Daemon.PrefetcherDaemon.MainLoop: fork, minijail, io priorities and log output are not modelled.
- Client.SessionManagerIndirect.CreateSession: the session object itself is only an id; a failed creation kills the client process.
- PrefetchTasks.SessionsLeftBehind: a task id that is begun again while its session is in the store is followed in the set of ids only, as ids always increase.
- PageCacheTraces.SelectPageCacheFtraceEvents: a debug build aborts at an event without a timestamp in a packet with one; a subscriber that leaves in the middle of the trace is not modelled.
- PageCacheMerge.BlacklistCommutes: the regular expression is an arbitrary predicate on file names.
- MergeOrder.OutputInOrder: `char` is taken as unsigned, as on ARM; where it is signed, file names with bytes above 127 sort differently.
- EventJoin.ResolvePageCacheEntries: the sharing of one map object between the merged states is not visible in values.
- PrefetchTasks.ReadAheadTasks.BeginTask: the variant that hands the file over a socket, and the record of recent tasks, are not modelled.
- InodeSearch.FilterFilenamesForSpecificInodes: rx scheduling is not modelled; the order inside the multimap is arbitrary.
- InodeText.Parse: the library's number reader is modelled for decimal and hexadecimal digits, without embedded null characters.
- ResultFraming.EmitFromCommand: pipe, fork and exec failures, and read errors other than the end of the file, are not modelled.
- ResultFraming.ResultWriter.OnNext: only the inter-process output format is modelled; the log and text-cache formats are not.
- LaunchDefender.LaunchEventGate.OnAppLaunchEvent: the subject is taken to be subscribed from the first event on.
- LaunchStates.AppLaunchEventState.OnNewEvent: a failed debug check is recorded and the run goes on, as in a release build.
- LaunchStates.AppLaunchEventState.StartTracing: what the subscription later writes to disk and to the database is not modelled.
- PerfettoTracker.SpansBalance: the 64-bit counters are unbounded, as the source assumes they never wrap.
- Pruning of old perfetto handles on a timer, and inferring the state of an untracked handle, are debugging aids.
- `EmitAllFilenames`, and everything else in the search that only adds a simpler path.
- SQL models and clean-up (src/db), protobuf parsing, parcels and dumps: their meaning lies in libraries that cannot be seen here.
