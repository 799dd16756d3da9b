# Log pipeline: model and proofs

A Dafny model of the logging library, the console application and the metrics application:
console commands go through a thread-safe queue to a worker, from there through the logger
and its socket sink onto a byte stream, and from the stream through the metrics server into
running statistics. Everything a thread can do between two accesses to shared state is a
step of its own where threads meet; loops over system calls run against arbitrary traces of
results.

| file | part |
|---|---|
| `Options.dfy`, `LogLevels.dfy` | optional values; severity levels and their names |
| `LogLine.dfy` | the log line printer and the two bracket scanners |
| `CommandParser.dfy` | console commands |
| `QueueProtocol.dfy`, `ThreadSafeQueue.dfy` | the queue as a monitor: transition system, and class refining its steps |
| `Application.dfy`, `TestApplication.dfy` | reader and worker threads with their shutdown; the application object under one schedule |
| `Metrics.dfy`, `MetricsCollector.dfy` | statistics as a function of the operations; the collector object |
| `ProcessorProtocol.dfy`, `MessageProcessor.dfy` | receiver and timer threads; the processor object |
| `SocketSink.dfy`, `Logger.dfy` | partial sends; level filter and fan-out |
| `SocketServer.dfy` | receive buffering |
| `Pipeline.dfy` | the parts put together |

`dafny verify dfyconfig.toml` checks the whole project.

## Where the code does less than it seems to promise

Each item names the theorem that says exactly when the code does meet the expectation:

- Two timer prints can be less than T seconds apart: the receiver reads the clock and stores
  the time stamp in two steps, and may put back a reading older than the timer's own stamp.
  For every N and T, all interleavings that add at most k messages are spaced if and only if
  k is at most one (`TimerSpacingExactly`). A single interleaving is spaced whenever no store
  is stale (`SpacedUnlessStale`), and all would be if reading and store were one step
  (`IndivisibleStoreKeepsSpacing`).
- A batch that is followed by a disconnect within the same receive call is dropped. All bytes
  are delivered if and only if recv reports would-block first, or nothing was read
  (`CallDeliversAllExactly`; a concrete loss is `LastBatchIsLost`).
- Several log lines received in one batch are counted as one message, with the first line's
  level. All lines are counted if and only if every batch holds one line
  (`LinesCountedExactly`, and over both programs `EveryLineCountedExactly`).
- A message comes back from a log line without its leading whitespace, so unchanged exactly
  when it has none (`MessageSurvivesExactly`); for console messages this only concerns
  vertical tabs and form feeds (`ConsoleMessageSurvivesExactly`).
- A level name is taken off a command if and only if a space, not just tabs, stands before it
  (`CommandRoundTrip`).
- A log call makes its validity check before it takes the sinks lock. It does what its locked
  part would do if and only if a sink was valid at the check or none is at the lock; only
  adding a sink in between can make it lose a message (`UnlockedCheckExactly`; a concrete
  loss is `LateSinkMissesCall`).

## Model

| member | source | states |
|---|---|---|
| `LogLevels.StringToLevel` | src/logger/utility.cpp:37-52 | the in-place lower-casing and the comparisons compute the case-insensitive reading `ParseLevel` |
| `LogLevels.LowerInPlace` | src/logger/utility.cpp:38 | the transform lower-cases every character of the text in place |
| `LogLevels.ParseInvertsName` | src/logger/utility.cpp:18-52 | a text reads as a level exactly when the level is one of the five and the text is its printed name up to letter case |
| `LogLevels.LevelTextIsWord` | src/test_application/command_parser.cpp:43-59 | a text that reads as a level contains no whitespace and no bracket |
| `LogLevels.LevelsByName` | src/logger/log_level.hpp:4 | the five levels are 0 to 4 in order of severity, each prints as its own upper-case name, and no other value does |
| `LogLine.Find` | src/metrics_application/utility.cpp:24-45 | the search returns the first occurrence at or after a position, and nothing only if there is none |
| `LogLine.ParseMessageFromLog` | src/metrics_application/utility.cpp:56-95 | the scanner with its whitespace loop returns what follows the second bracket pair from the first non-whitespace on |
| `LogLine.ScannersAgree` | src/metrics_application/utility.cpp:21-95 | on every string both scanners work on the same header, given without searching by four strictly increasing positions: the level is read from its second bracket pair and the message from behind it; the message is found exactly when a header exists, the level exactly when its text also names one |
| `LogLine.RoundTrip` | src/logger/utility.cpp:11-35 | for every timestamp, level and message: printing then parsing returns the level and the message without leading whitespace if and only if no `[` follows a `]` in the timestamp |
| `LogLine.PrintedLine` | src/logger/utility.cpp:11-16 | the printed line with the literal name, level by level |
| `LogLine.LeadingWhitespace` | src/metrics_application/utility.cpp:82-94 | by character codes: what is skipped before a message is exactly its leading characters among the six whitespace codes |
| `LogLine.MessageSurvivesExactly` | src/metrics_application/utility.cpp:82-94 | the message comes back unchanged exactly when it is empty or does not start with whitespace |
| `LogLine.BatchReadsAsFirstFrame` | src/metrics_application/utility.cpp:21-95 | a frame followed by any text reads as one message with that frame's level and everything after its header |
| `CommandParser.Split` | src/test_application/command_parser.cpp:71-84 | the getline loop returns the trimmed non-empty pieces between delimiters, in order |
| `CommandParser.TokensArePieces` | src/test_application/command_parser.cpp:71-84 | splitting at spaces gives non-empty trimmed pieces without a space, and apart from trim characters nothing of the text is lost, invented or reordered |
| `CommandParser.TrimExactly` | src/test_application/command_parser.cpp:62-69 | by character codes: trim strips blanks, tabs, line feeds and carriage returns from both ends and nothing else |
| `CommandParser.TokenizerAgrees` | src/test_application/command_parser.cpp:27-37 | on every non-empty trimmed text the last token is the trimmed text after the last space, and there are several tokens exactly when a space exists |
| `CommandParser.CommandRoundTrip` | src/test_application/command_parser.cpp:12-41 | for every trimmed message, level word in any case, padding and non-empty gap of trim characters: message and level are read back if and only if the gap has a space, and otherwise the whole text is the message |
| `CommandParser.LevelTakenExactly` | src/test_application/command_parser.cpp:32-37 | a message with a level is returned exactly when the input is padding, that message, a gap with a space, a name of that level, padding |
| `CommandParser.PlainMessageExactly` | src/test_application/command_parser.cpp:12-40 | a message without a level is returned exactly when it is the trimmed input, no keyword, and no reading with a level exists |
| `CommandParser.KeywordsExactly` | src/test_application/command_parser.cpp:13-25 | nothing is returned for blank input only, exit for exit or quit in any padding only, help for help in any padding only |
| `CommandParser.CommandConservation` | src/test_application/command_parser.cpp:12-84 | a logged message is non-empty and trimmed; apart from trim characters the input is the message followed by the level word, if one was taken |
| `QueueProtocol.RunKeepsInvariant` | src/test_application/thread_safe_queue.hpp:15-44 | in every state of every run of push, both halves of pop, spurious wakeups and stop, with any number of consumers: a consumer sleeps only while running with every queued item matched by a woken consumer, and accepted = popped ++ queue |
| `QueueProtocol.NeverAllAsleepWithWork` | src/test_application/thread_safe_queue.hpp:28 | no reachable state has all waiting consumers asleep with an item queued or after stop |
| `QueueProtocol.AfterStop` | src/test_application/thread_safe_queue.hpp:18-44 | after stop nothing is accepted and nobody sleeps, for the rest of the run |
| `QueueProtocol.FifoWithoutLoss` | src/test_application/thread_safe_queue.hpp:15-44 | in every run, items received followed by items queued are exactly the items pushed before the first stop, in order |
| `QueueProtocol.PopServes` | src/test_application/thread_safe_queue.hpp:25-38 | whenever a consumer of any run evaluates the wait's predicate it takes the front item if there is one, else sleeps while running, else leaves; nobody else is affected |
| `ThreadSafeQueues.ThreadSafeQueue.Push` | src/test_application/thread_safe_queue.hpp:15-23 | the method is the protocol's push step and keeps its invariant |
| `ThreadSafeQueues.ThreadSafeQueue.PopEnter` | src/test_application/thread_safe_queue.hpp:25-38 | entering pop is the protocol's step; a false result means stopped, empty and everything accepted already popped |
| `ThreadSafeQueues.ThreadSafeQueue.PopResume` | src/test_application/thread_safe_queue.hpp:28-38 | the same for a consumer that gets the mutex back after a wakeup |
| `ThreadSafeQueues.ThreadSafeQueue.Stop` | src/test_application/thread_safe_queue.hpp:40-44 | stop is the protocol's step: nobody is left asleep and queued items stay |
| `Application.RunKeepsInvariant` | src/test_application/test_application.cpp:40-107 | the invariant tying flag, queue, thread state and both program counters holds in every state of every interleaving |
| `Application.NothingLostAnywhere` | src/test_application/test_application.cpp:40-107 | at every step, logged ++ in the worker's hand ++ queued ++ still to be read = the LOG_MESSAGE commands before exit or end of input |
| `Application.JoinedMeansDrained` | src/test_application/test_application.cpp:60-69 | once the join has returned the queue is empty and exactly those commands have been logged, once each, in order |
| `Application.ThreadLifecycle` | src/test_application/test_application.cpp:38-69 | the worker is joined at most once; after the destructor's stop it is joined exactly once if run was called and never started otherwise |
| `Application.NoDeadlock` | src/test_application/test_application.cpp:60-69 | until the destructor has returned some thread can move, and whichever does lowers a potential, so that every step is progress; the worker is never asleep un-notified while it is being joined |
| `Application.ClosedPopMeansFlagCleared` | src/test_application/test_application.cpp:94-102 | a pop can only return false after the application's flag has been cleared |
| `Application.DrainTerminates` | src/test_application/test_application.cpp:60-107 | after the queue is stopped at most a given number of steps of any thread remain, and a run that cannot go on has finished with the queue drained and everything logged |
| `Application.EveryRunEnds` | src/test_application/test_application.cpp:40-107 | in every interleaving the reader makes at most 7 steps per line and 8 more, and all threads together at most 49 per line, 56 more and two per spurious wakeup; a run in which neither thread can move has finished with everything logged, whether or not the queue was stopped |
| `Application.WorkerKeepsUp` | src/test_application/test_application.cpp:91-107 | from any moment on, three worker steps for each accepted but unlogged entry are enough: all entries accepted by then have been logged in order, whatever the reader does |
| `Application.CanFinish` | src/test_application/test_application.cpp:38-69 | every run can be carried on to the end of the destructor without any spurious wakeup, with everything logged |
| `Application.EntriesOfLine` | src/test_application/test_application.cpp:71-89 | line by line: a message is logged with its own level or the default one, exit ends the input, anything else adds nothing |
| `Application.PhasesRefineSingleLoop` | src/test_application/test_application.cpp:91-107 | every interleaving of the two-loop worker maps, with the same queue, popped and logged entries, to one of a worker that is a single while(pop) loop |
| `TestApplications.TestApplication.RunAndDestroy` | src/test_application/test_application.cpp:38-58 | reading all input and then destroying the object logs exactly the expected entries and leaves queue and thread finished |
| `TestApplications.TestApplication.ProcessCommand` | src/test_application/test_application.cpp:71-89 | a message is queued with its level or the default one, help changes nothing, exit stops and drains |
| `TestApplications.TestApplication.Stop` | src/test_application/test_application.cpp:60-69 | the first stop drains and joins, a later one does nothing |
| `TestApplications.TestApplication.WorkerThreadFunction` | src/test_application/test_application.cpp:91-107 | after stop the drain loop logs every queued entry in order and ends |
| `Metrics.StreamingIsRecomputation` | src/metrics_application/metrics_collector.cpp:15-30 | after any adds interleaved with prints and queries, counts per level, total, total length, attained minimum and maximum, and average equal a recomputation over all messages |
| `Metrics.StatisticsAreConsistent` | src/metrics_application/message_stats.hpp:12-26 | min·count ≤ total length ≤ max·count, min ≤ average ≤ max, and the five level counts sum to the total |
| `Metrics.OrderDoesNotMatter` | src/metrics_application/metrics_collector.cpp:15-30 | these statistics depend only on the multiset of messages, so any order of the locked adds, prints and queries gives the same |
| `Metrics.WindowCountsWholeHistory` | src/metrics_application/metrics_collector.cpp:32-42 | under a non-decreasing clock the pruned deque is a sorted suffix of all timestamps and an update counts exactly the timestamps of the whole history at most one hour old |
| `Metrics.OneHourExactly` | src/metrics_application/metrics_collector.cpp:32-42 | a message counts as one of the last hour for exactly 3,600,000,000,000 nanoseconds |
| `MetricsCollectors.MetricsCollector.AddMessage` | src/metrics_application/metrics_collector.cpp:15-30 | the field updates are the add operation and the state stays the function of the history |
| `MetricsCollectors.MetricsCollector.UpdateMessagesLastHour` | src/metrics_application/metrics_collector.cpp:32-42 | the pop_front loop removes exactly the leading timestamps before the cutoff and counts the rest |
| `MetricsCollectors.MetricsCollector.PrintStats` | src/metrics_application/metrics_collector.cpp:44-79 | shows the updated statistics, with the last-hour figure counted over the whole history, and leaves nothing unreported |
| `MetricsCollectors.MetricsCollector.GetStats` | src/metrics_application/metrics_collector.cpp:91-95 | returns the updated statistics, with the last-hour figure counted over the whole history, and keeps the print mark |
| `Metrics.QuestionsReadHistory` | src/metrics_application/metrics_collector.cpp:81-89 | after any adds, prints and queries: the statistics have changed exactly when some message was added after the last print, and the interval is reached exactly when all messages ever added fill one or more whole groups of its size |
| `MetricsCollectors.MetricsCollector.ShouldPrintStats` | src/metrics_application/metrics_collector.cpp:81-84 | true exactly when the messages of the whole history fill one or more whole groups of the interval's size |
| `MetricsCollectors.MetricsCollector.HasStatsChangedSinceLastPrint` | src/metrics_application/metrics_collector.cpp:86-89 | true exactly when the history holds an add after its last print |
| `ProcessorProtocol.HistoryIsConsumed` | src/metrics_application/message_processor.cpp:41-70 | in every interleaving the collector holds exactly the messages the receiver has taken in, once each and in order |
| `ProcessorProtocol.BacklogIsBounded` | src/metrics_application/message_processor.cpp:41-90 | in every interleaving of receiver and timer the unreported messages are between 0 and N, and fewer than N when the receiver is idle |
| `ProcessorProtocol.MultiplesExactly` | src/metrics_application/message_processor.cpp:61-69 | when the receiver is idle, the totals it has printed are exactly the positive multiples of N up to the current total |
| `ProcessorProtocol.TotalsRisePerThread` | src/metrics_application/message_processor.cpp:61-88 | totals printed by each thread strictly increase over every run, despite the gaps between check and print |
| `ProcessorProtocol.SnapshotsAreRecomputations` | src/metrics_application/metrics_collector.cpp:44-79 | every snapshot printed by either thread equals a recomputation over the whole history at that moment, last hour included |
| `ProcessorProtocol.SpacedUnlessStale` | src/metrics_application/message_processor.cpp:74-90 | any two timer prints are at least T seconds apart, truncating cast included, in every interleaving in which the receiver stores no stale time |
| `ProcessorProtocol.TimerSpacingExactly` | src/metrics_application/message_processor.cpp:58-88 | for every N, T and k: all interleavings of the code's two-step store that add at most k messages have that spacing if and only if k is at most one |
| `ProcessorProtocol.SpacingBreaks` | src/metrics_application/message_processor.cpp:58-88 | for every N and T an interleaving with two messages prints twice with the same time stamp |
| `ProcessorProtocol.IndivisibleStoreKeepsSpacing` | src/metrics_application/message_processor.cpp:58-88 | a remark on a repaired code: with reading and store as one step every interleaving has the spacing |
| `ProcessorProtocol.QuietTimeoutReports` | src/metrics_application/message_processor.cpp:75-88 | a timer round that starts T seconds after the stamp with something unreported: however the clock moves on, after six timer moves without the receiver everything is reported by exactly one more print, whose time is sampled in that round and stored as the stamp |
| `ProcessorProtocol.TimerEndsAfterStop` | src/metrics_application/message_processor.cpp:29-39 | once a stop is among the events the timer thread ends within six moves of its own, whatever else happens, so the join returns |
| `ProcessorProtocol.TimerRunsUntilStop` | src/metrics_application/message_processor.cpp:74-75 | without a stop the timer thread never ends |
| `MessageProcessors.CountedExactlyWhenLevelParses` | src/metrics_application/message_processor.cpp:44-56 | a frame is counted exactly when the level scanner succeeds, and then with one of the five levels |
| `MessageProcessors.CallsAreRuns` | src/metrics_application/message_processor.cpp:41-90 | an uninterrupted call of process_message and an uninterrupted timer pass lead from states reachable in the protocol to states reachable in it, so the theorems on all interleavings hold of the object after any such calls |
| `MessageProcessors.MessageProcessor.ProcessMessage` | src/metrics_application/message_processor.cpp:41-70 | an unreadable frame changes nothing; a readable one does the receiver's protocol steps, and the total grows exactly when the level scanner succeeds |
| `MessageProcessors.MessageProcessor.TimerPass` | src/metrics_application/message_processor.cpp:74-90 | one loop pass is one uninterrupted round of the protocol's timer: it prints once and stores its sampled time exactly when T seconds have passed and the history holds an add after its last print, and otherwise changes nothing; the clock bound for the next call is kept |
| `MessageProcessors.MessageProcessor.Start` | src/metrics_application/message_processor.cpp:17-27 | starts once and stamps the time; a second start does nothing |
| `MessageProcessors.MessageProcessor.Stop` | src/metrics_application/message_processor.cpp:29-39 | leaves the processor stopped with no joinable timer thread |
| `SocketSinks.SendsPrefix` | src/logger/socket_sink.cpp:27-48 | for any poll and send results the loop puts a prefix of the rest of the message on the wire, all of it if it ends connected and not all of it if it disconnects |
| `SocketSinks.WrittenExactly` | src/logger/socket_sink.cpp:20-49 | from the results of poll and send alone: how much of the message goes out, that the call returns connected if and only if send took all of it before poll gave up or send failed, disconnects if and only if such a failure came first, and is retrying otherwise; a sink without socket or connection is left alone |
| `SocketSinks.BlockedSendIsRetried` | src/logger/socket_sink.cpp:39-41 | taking a would-block out of the results, wherever it stands, changes nothing |
| `SocketSinks.SocketSink.Write` | src/logger/socket_sink.cpp:20-49 | the loop over total_sent computes the specified writing and does nothing on a disconnected sink |
| `Loggers.WireIsPrefixOfFrames` | src/logger/logger.cpp:50-65 | over any log calls, level changes and send traces, each sink's wire is a prefix of the concatenation of the frames passing the filter, and all of it while connected and between calls |
| `Loggers.NothingAfterDisconnect` | src/logger/socket_sink.cpp:20-54 | a sink that has disconnected sends nothing more, whatever is logged later |
| `Loggers.LoggedByName` | src/logger/logger.cpp:50-65 | with the names in order of severity: a message is put as one printed line on the wire of each valid sink whose sends take it, and on no other, if and only if its level's name does not stand before the default level's |
| `Loggers.SinksInTurn` | src/logger/logger.cpp:61-64 | for any send results each sink gets what a write to it alone would do, except that sinks behind one still retrying get nothing; the lock is held if and only if there is such a one |
| `Loggers.UnlockedCheckExactly` | src/logger/logger.cpp:55-64 | whatever other threads do between the unlocked validity check and the lock, the call does what its locked part would do if and only if a sink was valid at the check or none is at the lock (or it never gets the lock); always so when no valid sink is added in between |
| `Loggers.LateSinkMissesCall` | src/logger/logger.cpp:29-64 | with a sink added between check and lock, the call writes nothing although its locked part would write the whole frame |
| `Loggers.Logger.Log` | src/logger/logger.cpp:50-65 | filter, validity check and the loop over the sinks do exactly the specified call, one write per sink in order until one is still retrying |
| `Loggers.Logger.IsValid` | src/logger/logger.cpp:78-91 | true exactly when some sink is valid |
| `SocketServers.HandleRecvConserves` | src/metrics_application/socket_server.cpp:154-185 | for any recv results, delivered ++ buffer = received; would-block delivers all as one batch and empties the buffer; disconnect and error deliver nothing and leave the bytes of this call |
| `SocketServers.CallDeliversAllExactly` | src/metrics_application/socket_server.cpp:159-184 | for any recv results, a call has delivered all bytes received if and only if would-block comes before end of stream and error, or nothing was read |
| `SocketServers.LastBatchIsLost` | src/metrics_application/socket_server.cpp:159-172 | one byte followed by a disconnect in the same call: the byte is read, the server stopped, and the callback never sees it |
| `SocketServers.BatchesAreNonEmpty` | src/metrics_application/socket_server.cpp:176-184 | over any run the callback is never given an empty batch |
| `SocketServers.RunConserves` | src/metrics_application/socket_server.cpp:51-82 | over any poll and recv results delivered ++ buffer = received, the buffer is empty between calls while running, and what a stopped server leaves was read in one call |
| `SocketServers.RunExactly` | src/metrics_application/socket_server.cpp:51-82 | from the results of poll and recv alone: a run receives the bytes of all readable rounds before the first failing poll, hangup or ended call, delivers each drained round as one batch in order, and keeps running with open sockets exactly if no call ended the stream |
| `SocketServers.IdlePollsChangeNothing` | src/metrics_application/socket_server.cpp:60-80 | timeouts and interruptions may be taken out anywhere without any change, and nothing after a failing poll or a hangup matters |
| `SocketServers.SocketServer.HandleRecv` | src/metrics_application/socket_server.cpp:154-185 | the receive loop and the flush compute the specified call |
| `SocketServers.SocketServer.Run` | src/metrics_application/socket_server.cpp:51-82 | the poll loop computes the specified run, with its breaks and continues |
| `SocketServers.SocketServer.Stop` | src/metrics_application/socket_server.cpp:84-96 | stops the loop and invalidates both descriptors, keeping buffer and deliveries |
| `Pipeline.BatchesCountOnce` | src/metrics_application/socket_server.cpp:176-184 | every received batch of one or more whole frames is counted exactly once, with its first frame's level and the text after that frame's header |
| `Pipeline.LinesCountedExactly` | src/metrics_application/message_processor.cpp:41-56 | of whole frames received in batches every line is counted, with its own level and text, if and only if every batch holds exactly one frame |
| `Pipeline.BatchesToStatistics` | src/metrics_application/message_processor.cpp:41-90 | for any batches and any interleaving of receiver, timer, clock and stop, the collector holds exactly the readable batches among those taken, in order, and its statistics are the recomputation over them |
| `Pipeline.EveryBatchIsTaken` | src/metrics_application/metrics_application.cpp:43-50 | seven moves of the receiving thread for each batch are enough, whatever clock, timer and stop do in between: all batches have been taken, the receiver is idle, and the collector holds all readable ones |
| `Pipeline.OthersAreNotHeldUp` | src/metrics_application/message_processor.cpp:74-90 | clock, timer and stop events happen exactly as moved, in order, whatever the receiver does |
| `Pipeline.ConsoleMessageSurvivesExactly` | src/test_application/command_parser.cpp:62-69 | a console message keeps its text through the log line exactly when it does not start with a vertical tab or form feed |
| `Pipeline.BytesFollowThrough` | src/metrics_application/socket_server.cpp:51-185 | at every moment of every execution, disconnects and stops included: entries logged are a prefix of the commands typed, the wire a prefix of their frames, and delivered ++ buffer = received, a prefix of the wire |
| `Pipeline.ConsoleToStatistics` | src/test_application/test_application.cpp:40-107 | at every moment of every execution whose batches end where frames end: the server's deliveries are groups of consecutive frames of the commands that pass the filter, and the collector, under any interleaving with the timer, holds one message per batch taken, with statistics recomputed from that list |
| `Pipeline.OneFramePerBatch` | src/metrics_application/message_processor.cpp:41-56 | if moreover each delivery is one frame, the collector holds the matching prefix of the messages sent, each without leading whitespace, and its statistics are the recomputation over it |
| `Pipeline.EveryLineCountedExactly` | src/metrics_application/message_processor.cpp:41-56 | in an execution with nothing left anywhere and batches that end with frames, the collector holds exactly the commands typed before exit that pass the filter if and only if there were as many deliveries as lines |
| `Pipeline.EveryInputCanArrive` | src/metrics_application/metrics_application.cpp:31-51 | for any lines typed, any default level and any interval and timeout some execution of both programs leaves nothing anywhere, and its collector holds exactly the commands typed before exit that pass the filter |

The level type is the integer behind the source's unscoped enumeration. `parse_level` of the
command parser and `string_to_level` of the logger library are the same function in the
source, letter for letter, and one function here.

## Left out

- Socket creation, connect, bind, accept, fcntl, getsockopt: system calls; their outcomes are constructor arguments.
- Termination of the send loop: would-block may repeat for ever, so a trace that ends inside the loop is a call that has not returned.
- `FileSink` and file output: a thin wrapper over a stream; the logger here has socket sinks only.
- Counters are unbounded: wrap-around after 2^64 messages or bytes is not modelled; message lengths are taken to fit the size type.
- The average is an exact quotient: rounding of doubles is not modelled.
- The C++ memory model: plain shared flags and time points are read and written atomically.
- Locales other than C, and negative character values passed to isspace and tolower.
- Timestamp formatting: a timestamp is any string; the calendar code only matters through containing no bracket.
- A user-set statistics callback: the application sets none.
- Calling `run` again after `stop`.
- TestApplications.TestApplication.RunAndDestroy: covers the schedule in which the worker runs only while being joined; all schedules are covered on values by the Application module.
- TestApplications.TestApplication.ProcessCommand: the same single schedule, so a push never meets a waiting worker; all schedules are covered by Application.RunKeepsInvariant.
- TestApplications.TestApplication.Stop: the same single schedule, in which the worker starts at the join; all schedules are covered by Application.JoinedMeansDrained.
- TestApplications.TestApplication.WorkerThreadFunction: only entered after stop, so its first loop is not run; both loops under all schedules are covered by Application.PhasesRefineSingleLoop.
- MessageProcessors.MessageProcessor.ProcessMessage: one call without interference; the two threads together are covered on values by ProcessorProtocol, of whose runs such a call is a stretch (CallsAreRuns).
- MessageProcessors.MessageProcessor.TimerPass: one pass without interference, not the whole loop; the loop in all interleavings is covered on values by ProcessorProtocol.
- The queue's size, empty and is_running queries, the logger's per-level shortcuts, argument parsing, console texts and help output: they would only add easy members.
- Batches that split a frame in the middle: BytesFollowThrough and BatchesToStatistics cover them (each counts as what the scanners read in it), but no claim relates them to the lines sent.
- The connection: a byte stream of which the server has received some prefix; nothing is said on how soon bytes arrive.
