/** The console application as a transition system: the reading thread (run, stop, the
    destructor) and the worker thread, sharing a flag and the queue
    (src/test_application/test_application.cpp). One step per atomic access. */
module Application {
  import opened Options
  import opened LogLevels
  import opened QueueProtocol
  import CommandParser

  datatype LogEntry = LogEntry(message: string, level: LogLevel)

  // Where a call of stop() returns to.
  datatype Caller = ExitCommand | Destructor

  datatype Reader =
    | SetFlag
    | Launch
    | TestLoop
    | Reading
    | Handling(command: CommandParser.Command)
    | TestStop(caller: Caller)
    | ClearFlag(caller: Caller)
    | StopQueue(caller: Caller)
    | Join(caller: Caller)
    | Finished

  // First: the loop guarded by the flag. Rest: the drain loop. afterClosed remembers that
  // a pop of the first loop has already found the queue stopped and empty.
  datatype Worker =
    | NotStarted
    | TestFlag(afterClosed: bool)
    | PopFirst
    | WaitFirst
    | LogFirst(entry: LogEntry)
    | PopRest(afterClosed: bool)
    | WaitRest
    | LogRest(entry: LogEntry)
    | Done

  datatype Thread = Unstarted | Joinable | Joined

  // logged is the sequence of entries the worker has handed to the logger.
  datatype App = App(
    reader: Reader, lines: seq<string>, flag: bool,
    thread: Thread, joins: nat, worker: Worker,
    monitor: Monitor<LogEntry>, logged: seq<LogEntry>)

  const WORKER: Consumer := 0

  // twoPhase is how the worker is written; without it the worker is one while(pop) loop.
  datatype Config = Config(defaultLevel: LogLevel, twoPhase: bool)

  function Initial(lines: seq<string>, callsRun: bool): App {
    App(if callsRun then SetFlag else TestStop(Destructor), lines, false,
        Unstarted, 0, NotStarted, QueueProtocol.Initial(), [])
  }

  function After(caller: Caller): Reader {
    if caller.ExitCommand? then TestLoop else Finished
  }

  function ToNotify(m: Monitor<LogEntry>): Option<Consumer> {
    if m.running && WORKER in m.sleeping then Some(WORKER) else None
  }

  // None: the thread cannot move.
  function ReaderStep(config: Config, s: App): Option<App> {
    match s.reader
    case SetFlag => Some(s.(flag := true, reader := Launch))
    case Launch =>
      Some(s.(thread := Joinable, worker := if config.twoPhase then TestFlag(false) else PopRest(false),
              reader := TestLoop))
    case TestLoop => Some(s.(reader := if s.flag then Reading else TestStop(Destructor)))
    case Reading =>
      if s.lines == [] then Some(s.(reader := TestStop(Destructor))) else
      var command := CommandParser.ParseCommand(s.lines[0]);
      Some(s.(lines := s.lines[1..], reader := if command.Some? then Handling(command.value) else TestLoop))
    case Handling(command) =>
      (match command
       case LogMessage(message, level) =>
         var entry := LogEntry(message, level.GetOr(config.defaultLevel));
         Some(s.(monitor := Pushed(s.monitor, entry, ToNotify(s.monitor)), reader := TestLoop))
       case Help => Some(s.(reader := TestLoop))
       case Exit => Some(s.(reader := TestStop(ExitCommand))))
    case TestStop(caller) => Some(s.(reader := if s.flag then ClearFlag(caller) else After(caller)))
    case ClearFlag(caller) => Some(s.(flag := false, reader := StopQueue(caller)))
    case StopQueue(caller) => Some(s.(monitor := Stopped(s.monitor), reader := Join(caller)))
    case Join(caller) =>
      if !s.thread.Joinable? then Some(s.(reader := After(caller)))
      else if s.worker.Done? then Some(s.(thread := Joined, joins := s.joins + 1, reader := After(caller)))
      else None
    case Finished => None
  }

  function AfterPop(m: Monitor<LogEntry>, first: bool): Worker {
    match PopOutcome(m)
    case Item(entry) => if first then LogFirst(entry) else LogRest(entry)
    case Waiting => if first then WaitFirst else WaitRest
    case Closed => if first then TestFlag(true) else Done
  }

  function EnterPop(s: App, first: bool): Option<App> {
    Some(s.(monitor := Popped(s.monitor, WORKER), worker := AfterPop(s.monitor, first)))
  }

  function ResumePop(s: App, first: bool): Option<App> {
    if WORKER !in s.monitor.woken then None else
    var m := Reacquired(s.monitor, WORKER);
    Some(s.(monitor := Popped(m, WORKER), worker := AfterPop(m, first)))
  }

  function WorkerStep(s: App): Option<App> {
    match s.worker
    case NotStarted => None
    case TestFlag(closed) => Some(s.(worker := if s.flag then PopFirst else PopRest(closed)))
    case PopFirst => EnterPop(s, true)
    case WaitFirst => ResumePop(s, true)
    case LogFirst(entry) => Some(s.(logged := s.logged + [entry], worker := TestFlag(false)))
    case PopRest(_) => EnterPop(s, false)
    case WaitRest => ResumePop(s, false)
    case LogRest(entry) => Some(s.(logged := s.logged + [entry], worker := PopRest(false)))
    case Done => None
  }

  function SpuriousStep(s: App): Option<App> {
    if WORKER in s.monitor.sleeping then Some(s.(monitor := Wake(s.monitor, WORKER))) else None
  }

  ghost predicate Next(config: Config, s: App, s': App) {
    ReaderStep(config, s) == Some(s') || WorkerStep(s) == Some(s') || SpuriousStep(s) == Some(s')
  }

  ghost predicate Steps(config: Config, states: seq<App>) {
    states != [] && forall i :: 0 <= i < |states| - 1 ==> Next(config, states[i], states[i + 1])
  }

  ghost predicate Run(config: Config, lines: seq<string>, callsRun: bool, states: seq<App>) {
    Steps(config, states) && states[0] == Initial(lines, callsRun)
  }

  // ---------------------------------------------------------- what must be logged

  function EntryOf(config: Config, command: CommandParser.Command): seq<LogEntry> {
    if command.LogMessage? then [LogEntry(command.message, command.level.GetOr(config.defaultLevel))] else []
  }

  // The LOG_MESSAGE commands of the input before the first exit or the end of the input.
  function Entries(config: Config, lines: seq<string>): seq<LogEntry> {
    if lines == [] then [] else
    match CommandParser.ParseCommand(lines[0])
    case None => Entries(config, lines[1..])
    case Some(Exit) => []
    case Some(command) => EntryOf(config, command) + Entries(config, lines[1..])
  }

  /** Line by line: what a line of input adds to the entries, and with which level. */
  lemma EntriesOfLine(config: Config, line: string, rest: seq<string>, message: string, level: LogLevel)
    ensures
      var command, entries := CommandParser.ParseCommand(line), Entries(config, [line] + rest);
      && (command.None? || command.value.Help? ==> entries == Entries(config, rest))
      && (command == Some(CommandParser.Exit) ==> entries == [])
      && (command == Some(CommandParser.LogMessage(message, None)) ==>
            entries == [LogEntry(message, config.defaultLevel)] + Entries(config, rest))
      && (command == Some(CommandParser.LogMessage(message, Some(level))) ==>
            entries == [LogEntry(message, level)] + Entries(config, rest))
  {
    hide CommandParser.ParseCommand;
    assert ([line] + rest)[1..] == rest;
    assert [] + Entries(config, rest) == Entries(config, rest);
  }

  // What the reader has still to push.
  function Remaining(config: Config, reader: Reader, flag: bool, lines: seq<string>): seq<LogEntry> {
    match reader
    case SetFlag => Entries(config, lines)
    case Launch => Entries(config, lines)
    case TestLoop => if flag then Entries(config, lines) else []
    case Reading => Entries(config, lines)
    case Handling(command) => if command.Exit? then [] else EntryOf(config, command) + Entries(config, lines)
    case _ => []
  }

  // What the worker has popped but not yet handed over.
  function InHand(w: Worker): seq<LogEntry> {
    match w
    case LogFirst(entry) => [entry]
    case LogRest(entry) => [entry]
    case _ => []
  }

  // ------------------------------------------------------------------ the invariant

  predicate Running(s: App) {
    s.flag && s.monitor.running && s.thread.Joinable?
  }

  predicate Over(s: App) {
    && !s.flag
    && ((s.thread.Joined? && s.worker.Done?) || (s.thread.Unstarted? && s.monitor == QueueProtocol.Initial()))
  }

  predicate ReaderInvariant(s: App) {
    match s.reader
    case SetFlag => !s.flag && s.thread.Unstarted? && s.monitor == QueueProtocol.Initial()
    case Launch => s.flag && s.thread.Unstarted? && s.monitor == QueueProtocol.Initial()
    case TestLoop => Running(s) || (Over(s) && s.thread.Joined?)
    case Reading => Running(s)
    case Handling(_) => Running(s)
    case TestStop(caller) => Running(s) || (caller.Destructor? && Over(s))
    case ClearFlag(_) => Running(s)
    case StopQueue(_) => !s.flag && s.monitor.running && s.thread.Joinable?
    case Join(_) => !s.flag && !s.monitor.running && s.thread.Joinable?
    case Finished => Over(s)
  }

  predicate WorkerInvariant(config: Config, s: App) {
    && (s.worker.NotStarted? <==> s.thread.Unstarted?)
    && (s.worker.NotStarted? ==> s.logged == [])
    && s.monitor.sleeping + s.monitor.woken == (if s.worker.WaitFirst? || s.worker.WaitRest? then {WORKER} else {})
    && (config.twoPhase && (s.worker.PopRest? || s.worker.WaitRest? || s.worker.LogRest? || s.worker.Done?) ==> !s.flag)
    && (!config.twoPhase ==> !s.worker.TestFlag? && !s.worker.PopFirst? && !s.worker.WaitFirst? && !s.worker.LogFirst?)
    && (s.worker.Done? || ((s.worker.TestFlag? || s.worker.PopRest?) && s.worker.afterClosed)
        ==> !s.monitor.running && s.monitor.queue == [])
    && s.logged + InHand(s.worker) == s.monitor.popped
  }

  ghost predicate AppInvariant(config: Config, lines: seq<string>, callsRun: bool, s: App) {
    && QueueProtocol.Invariant(s.monitor)
    && ReaderInvariant(s)
    && WorkerInvariant(config, s)
    && (!s.monitor.running ==> !s.flag)
    && s.joins == (if s.thread.Joined? then 1 else 0)
    && (s.thread.Joined? ==> s.worker.Done?)
    && (s.thread.Unstarted? && (s.reader.TestStop? || s.reader.Finished?) ==> !callsRun)
    && (!callsRun ==> s.thread.Unstarted? && !s.flag && (s.reader == TestStop(Destructor) || s.reader.Finished?))
    && s.monitor.accepted + Remaining(config, s.reader, s.flag, s.lines) == (if callsRun then Entries(config, lines) else [])
  }

  lemma MonitorSteps(s: App, entry: LogEntry)
    requires QueueProtocol.Invariant(s.monitor) && s.monitor.sleeping + s.monitor.woken <= {WORKER}
    ensures QueueProtocol.Invariant(Pushed(s.monitor, entry, ToNotify(s.monitor)))
    ensures QueueProtocol.Invariant(Stopped(s.monitor))
  {
  }

  lemma PushKeepsInvariant(config: Config, lines: seq<string>, callsRun: bool, s: App, s': App)
    requires AppInvariant(config, lines, callsRun, s) && ReaderStep(config, s) == Some(s')
    requires s.reader.Handling? && s.reader.command.LogMessage?
    ensures AppInvariant(config, lines, callsRun, s')
  {
    hide Entries;
    var entry := EntryOf(config, s.reader.command)[0];
    MonitorSteps(s, entry);
    assert s.monitor.accepted + ([entry] + Entries(config, s.lines))
        == (s.monitor.accepted + [entry]) + Entries(config, s.lines);
  }

  lemma StopQueueKeepsInvariant(config: Config, lines: seq<string>, callsRun: bool, s: App, s': App)
    requires AppInvariant(config, lines, callsRun, s) && ReaderStep(config, s) == Some(s') && s.reader.StopQueue?
    ensures AppInvariant(config, lines, callsRun, s')
  {
    hide Entries;
    MonitorSteps(s, LogEntry("", INFO));
  }

  // The steps that only read shared state, or start and join the worker.
  lemma ControlKeepsInvariant(config: Config, lines: seq<string>, callsRun: bool, s: App, s': App)
    requires AppInvariant(config, lines, callsRun, s) && ReaderStep(config, s) == Some(s')
    requires s.reader.SetFlag? || s.reader.Launch? || s.reader.TestStop? || s.reader.ClearFlag? || s.reader.Join?
    ensures AppInvariant(config, lines, callsRun, s')
  {
    hide QueueProtocol.Invariant, Entries;
  }

  lemma ReadingKeepsRemaining(config: Config, s: App, s': App)
    requires ReaderInvariant(s) && ReaderStep(config, s) == Some(s')
    requires s.reader.TestLoop? || s.reader.Reading? || (s.reader.Handling? && !s.reader.command.LogMessage?)
    ensures Remaining(config, s'.reader, s'.flag, s'.lines) == Remaining(config, s.reader, s.flag, s.lines)
  {
    hide CommandParser.ParseCommand;
    assert [] + Entries(config, s.lines) == Entries(config, s.lines);
  }

  lemma ReadingKeepsInvariant(config: Config, lines: seq<string>, callsRun: bool, s: App, s': App)
    requires AppInvariant(config, lines, callsRun, s) && ReaderStep(config, s) == Some(s')
    requires s.reader.TestLoop? || s.reader.Reading? || (s.reader.Handling? && !s.reader.command.LogMessage?)
    ensures AppInvariant(config, lines, callsRun, s')
  {
    hide QueueProtocol.Invariant, CommandParser.ParseCommand, Remaining, Entries;
    ReadingKeepsRemaining(config, s, s');
    assert WorkerInvariant(config, s');
    assert ReaderInvariant(s');
  }

  lemma FinishedIsFinal(config: Config, s: App)
    requires s.reader.Finished?
    ensures ReaderStep(config, s) == None
  {
  }

  lemma ReaderKeepsInvariant(config: Config, lines: seq<string>, callsRun: bool, s: App, s': App)
    requires AppInvariant(config, lines, callsRun, s) && ReaderStep(config, s) == Some(s')
    ensures AppInvariant(config, lines, callsRun, s')
  {
    hide AppInvariant, ReaderStep;
    match s.reader
    case Handling(command) =>
      if command.LogMessage? {
        PushKeepsInvariant(config, lines, callsRun, s, s');
      } else {
        ReadingKeepsInvariant(config, lines, callsRun, s, s');
      }
    case TestLoop => ReadingKeepsInvariant(config, lines, callsRun, s, s');
    case Reading => ReadingKeepsInvariant(config, lines, callsRun, s, s');
    case StopQueue(_) => StopQueueKeepsInvariant(config, lines, callsRun, s, s');
    case Finished => FinishedIsFinal(config, s);
    case _ => ControlKeepsInvariant(config, lines, callsRun, s, s');
  }

  lemma PopKeepsMonitor(before: Monitor<LogEntry>, event: Event<LogEntry>, m: Monitor<LogEntry>)
    requires QueueProtocol.Invariant(before) && Step(before, event, Popped(m, WORKER)) && !event.Push?
    requires m == before || m == Reacquired(before, WORKER)
    ensures QueueProtocol.Invariant(Popped(m, WORKER))
    ensures Popped(m, WORKER).accepted == before.accepted && Popped(m, WORKER).running == before.running
  {
  }

  lemma NobodyElseWaits(m: Monitor<LogEntry>)
    requires QueueProtocol.Invariant(m) && m.sleeping + m.woken == {WORKER} && WORKER in m.woken
    ensures m.sleeping == {} && Reacquired(m, WORKER).woken == {}
  {
  }

  lemma PopKeepsWorkerInvariant(config: Config, s: App, s': App, m: Monitor<LogEntry>, first: bool)
    requires s' == s.(worker := AfterPop(m, first), monitor := Popped(m, WORKER)) && s.thread != Unstarted
    requires m.sleeping + m.woken == {} && s.logged == m.popped
    requires config.twoPhase && !first ==> !s.flag
    requires !config.twoPhase ==> !first
    ensures WorkerInvariant(config, s')
  {
  }

  lemma PopKeepsReaderInvariant(s: App, s': App)
    requires ReaderInvariant(s) && !s.thread.Unstarted? && !s.worker.Done?
    requires s' == s.(worker := s'.worker, monitor := s'.monitor) && s'.monitor.running == s.monitor.running
    ensures ReaderInvariant(s')
  {
  }

  lemma PopKeepsInvariant(config: Config, lines: seq<string>, callsRun: bool, s: App, s': App, first: bool)
    requires AppInvariant(config, lines, callsRun, s)
    requires s.worker.PopFirst? || s.worker.PopRest? || s.worker.WaitFirst? || s.worker.WaitRest?
    requires first <==> s.worker.PopFirst? || s.worker.WaitFirst?
    requires
      if s.worker.PopFirst? || s.worker.PopRest? then EnterPop(s, first) == Some(s')
      else ResumePop(s, first) == Some(s')
    ensures AppInvariant(config, lines, callsRun, s')
  {
    hide Remaining, Entries, QueueProtocol.Invariant, ReaderInvariant;
    var resumes := s.worker.WaitFirst? || s.worker.WaitRest?;
    var m := if resumes then Reacquired(s.monitor, WORKER) else s.monitor;
    if resumes {
      NobodyElseWaits(s.monitor);
    }
    PopKeepsWorkerInvariant(config, s, s', m, first);
    PopKeepsReaderInvariant(s, s');
    PopKeepsMonitor(s.monitor, if resumes then Resume(WORKER) else Enter(WORKER), m);
  }

  lemma WorkerKeepsInvariant(config: Config, lines: seq<string>, callsRun: bool, s: App, s': App)
    requires AppInvariant(config, lines, callsRun, s)
    requires WorkerStep(s) == Some(s') || SpuriousStep(s) == Some(s')
    ensures AppInvariant(config, lines, callsRun, s')
  {
    hide Remaining, Entries, QueueProtocol.Invariant;
    if SpuriousStep(s) == Some(s') {
      StepKeepsInvariant(s.monitor, SpuriousWake(WORKER), s'.monitor);
    } else if s.worker.PopFirst? || s.worker.WaitFirst? {
      PopKeepsInvariant(config, lines, callsRun, s, s', true);
    } else if s.worker.PopRest? || s.worker.WaitRest? {
      PopKeepsInvariant(config, lines, callsRun, s, s', false);
    }
  }

  lemma StepKeepsAppInvariant(config: Config, lines: seq<string>, callsRun: bool, s: App, s': App)
    requires AppInvariant(config, lines, callsRun, s) && Next(config, s, s')
    ensures AppInvariant(config, lines, callsRun, s')
  {
    hide AppInvariant, ReaderStep, WorkerStep, SpuriousStep;
    if ReaderStep(config, s) == Some(s') {
      ReaderKeepsInvariant(config, lines, callsRun, s, s');
    } else {
      WorkerKeepsInvariant(config, lines, callsRun, s, s');
    }
  }

  lemma InitialInvariant(config: Config, lines: seq<string>, callsRun: bool)
    ensures AppInvariant(config, lines, callsRun, Initial(lines, callsRun))
  {
  }

  /** The invariant holds in every state of every interleaving. */
  lemma {:induction false} RunKeepsInvariant(config: Config, lines: seq<string>, callsRun: bool, states: seq<App>, i: nat)
    requires Run(config, lines, callsRun, states) && i < |states|
    ensures AppInvariant(config, lines, callsRun, states[i])
  {
    hide AppInvariant, Next;
    if i == 0 {
      InitialInvariant(config, lines, callsRun);
    } else {
      RunKeepsInvariant(config, lines, callsRun, states, i - 1);
      StepKeepsAppInvariant(config, lines, callsRun, states[i - 1], states[i]);
    }
  }

  // ------------------------------------------------------------------- progress

  // Bounds the steps the reader still has to make; nobody else changes it.
  function ReaderMeasure(s: App): nat {
    7 * |s.lines| +
    match s.reader
    case SetFlag => 8
    case Launch => 7
    case TestLoop => 6
    case Reading => 5
    case Handling(_) => 11
    case TestStop(caller) => if caller.Destructor? then 4 else 10
    case ClearFlag(caller) => if caller.Destructor? then 3 else 9
    case StopQueue(caller) => if caller.Destructor? then 2 else 8
    case Join(caller) => if caller.Destructor? then 1 else 7
    case Finished => 0
  }

  lemma ReaderStepAdvances(config: Config, s: App, s': App)
    requires ReaderStep(config, s) == Some(s')
    ensures ReaderMeasure(s') < ReaderMeasure(s)
  {
    hide CommandParser.ParseCommand, Pushed, Stopped;
  }

  lemma OthersLeaveReader(s: App, s': App)
    requires WorkerStep(s) == Some(s') || SpuriousStep(s) == Some(s')
    ensures s'.reader == s.reader && s'.lines == s.lines
  {
  }

  lemma ReaderAdvances(config: Config, s: App, s': App)
    requires Next(config, s, s')
    ensures if ReaderStep(config, s) == Some(s') then ReaderMeasure(s') < ReaderMeasure(s)
            else ReaderMeasure(s') == ReaderMeasure(s)
  {
    hide ReaderStep, WorkerStep, SpuriousStep;
    if ReaderStep(config, s) == Some(s') {
      ReaderStepAdvances(config, s, s');
    } else {
      OthersLeaveReader(s, s');
    }
  }

  // Bounds the steps the worker can make on its own before it waits or is done, not
  // counting what is queued.
  function WorkerPotential(s: App): nat {
    match s.worker
    case NotStarted => 0
    case Done => 0
    case TestFlag(closed) => if closed then 2 else 6
    case PopRest(closed) => if closed then 1 else 5
    case PopFirst => 5
    case WaitFirst => if WORKER in s.monitor.woken then 4 else 3
    case WaitRest => if WORKER in s.monitor.woken then 4 else 3
    case LogFirst(_) => 7
    case LogRest(_) => 7
  }

  function Potential(s: App): nat {
    7 * ReaderMeasure(s) + 4 * |s.monitor.queue| + WorkerPotential(s)
  }

  lemma ReaderLowersPotential(config: Config, lines: seq<string>, callsRun: bool, s: App, s': App)
    requires AppInvariant(config, lines, callsRun, s) && ReaderStep(config, s) == Some(s')
    ensures Potential(s') < Potential(s)
  {
    hide Entries, Remaining, CommandParser.ParseCommand, ReaderMeasure;
    ReaderStepAdvances(config, s, s');
    assert |s'.monitor.queue| <= |s.monitor.queue| + 1;
    assert s.worker == s'.worker || s.worker.NotStarted?;
  }

  lemma WorkerLowersPotential(config: Config, lines: seq<string>, callsRun: bool, s: App, s': App)
    requires AppInvariant(config, lines, callsRun, s) && WorkerStep(s) == Some(s')
    ensures Potential(s') < Potential(s)
  {
    hide Entries, Remaining, ReaderInvariant;
    assert ReaderMeasure(s') == ReaderMeasure(s);
  }

  lemma SpuriousRaisesPotential(s: App, s': App)
    requires SpuriousStep(s) == Some(s')
    ensures Potential(s') <= Potential(s) + 1
  {
  }

  // ---------------------------------------------------------------- main results

  function Expected(config: Config, lines: seq<string>, callsRun: bool): seq<LogEntry> {
    if callsRun then Entries(config, lines) else []
  }

  /** Conservation at every step of every interleaving: what was logged, what the worker
      holds, what is queued and what is still to be read add up, in order, to the
      LOG_MESSAGE commands issued before exit or the end of the input. */
  lemma NothingLostAnywhere(config: Config, lines: seq<string>, callsRun: bool, states: seq<App>, i: nat)
    requires Run(config, lines, callsRun, states) && i < |states|
    ensures
      var s := states[i];
      s.logged + InHand(s.worker) + s.monitor.queue + Remaining(config, s.reader, s.flag, s.lines)
      == Expected(config, lines, callsRun)
  {
    hide Entries, Remaining, InHand, Next;
    RunKeepsInvariant(config, lines, callsRun, states, i);
  }

  /** When the join in stop has returned, the queue is empty and the worker has logged
      exactly those commands, once each and in order. */
  lemma JoinedMeansDrained(config: Config, lines: seq<string>, callsRun: bool, states: seq<App>, i: nat)
    requires Run(config, lines, callsRun, states) && i < |states| && states[i].thread.Joined?
    ensures states[i].monitor.queue == [] && states[i].logged == Entries(config, lines)
  {
    hide Next, Entries;
    RunKeepsInvariant(config, lines, callsRun, states, i);
    var s := states[i];
    assert s.logged + [] == s.logged;
  }

  /** Thread lifecycle: the worker is joined at most once, and once the destructor's stop
      has returned it is not joinable: joined exactly once if run was called, never
      started otherwise. */
  lemma ThreadLifecycle(config: Config, lines: seq<string>, callsRun: bool, states: seq<App>, i: nat)
    requires Run(config, lines, callsRun, states) && i < |states|
    ensures states[i].joins <= 1
    ensures states[i].reader.Finished? ==>
              && states[i].thread == (if callsRun then Joined else Unstarted)
              && states[i].joins == (if callsRun then 1 else 0)
  {
    hide Next, Entries;
    RunKeepsInvariant(config, lines, callsRun, states, i);
  }

  /** No deadlock: until the destructor has returned, some thread can move, and whichever
      does makes progress: its step lowers the potential, which bounds the whole rest of
      the run. In particular the worker never sleeps un-notified while the reader waits in
      join. */
  lemma NoDeadlock(config: Config, lines: seq<string>, callsRun: bool, states: seq<App>, i: nat)
    requires Run(config, lines, callsRun, states) && i < |states| && !states[i].reader.Finished?
    ensures ReaderStep(config, states[i]).Some? || WorkerStep(states[i]).Some?
    ensures forall s' :: ReaderStep(config, states[i]) == Some(s') || WorkerStep(states[i]) == Some(s') ==>
              Potential(s') < Potential(states[i])
  {
    hide Next, Entries, CommandParser.ParseCommand, Potential;
    RunKeepsInvariant(config, lines, callsRun, states, i);
    var s := states[i];
    if ReaderStep(config, s).Some? {
      ReaderLowersPotential(config, lines, callsRun, s, ReaderStep(config, s).value);
    }
    if WorkerStep(s).Some? {
      WorkerLowersPotential(config, lines, callsRun, s, WorkerStep(s).value);
    }
    if s.reader.Join? && (s.worker.WaitFirst? || s.worker.WaitRest?) {
      assert WORKER in s.monitor.sleeping + s.monitor.woken;
    }
  }

  /** A pop returns false only after stop has cleared the application's flag. */
  lemma ClosedPopMeansFlagCleared(config: Config, lines: seq<string>, callsRun: bool, states: seq<App>, i: nat)
    requires Run(config, lines, callsRun, states) && i < |states|
    requires PopOutcome(states[i].monitor).Closed?
    ensures !states[i].flag
    ensures config.twoPhase && states[i].worker.PopFirst? ==>
              WorkerStep(states[i]).value.worker == TestFlag(true)
  {
    hide Next, Entries;
    RunKeepsInvariant(config, lines, callsRun, states, i);
  }

  // ------------------------------------------------------------------ termination

  function WorkerRank(w: Worker): nat {
    match w
    case NotStarted => 0
    case Done => 0
    case PopRest(_) => 1
    case WaitRest => 2
    case LogRest(_) => 2
    case TestFlag(_) => 2
    case PopFirst => 3
    case WaitFirst => 3
    case LogFirst(_) => 3
  }

  function ReaderRank(r: Reader): nat {
    match r
    case Finished => 0
    case TestStop(_) => 1
    case TestLoop => 2
    case _ => 3
  }

  // Bounds the steps left once the queue has been stopped.
  function DrainMeasure(s: App): nat {
    4 * |s.monitor.queue| + WorkerRank(s.worker) + ReaderRank(s.reader)
  }

  lemma DrainStep(config: Config, lines: seq<string>, callsRun: bool, s: App, s': App)
    requires AppInvariant(config, lines, callsRun, s) && !s.monitor.running && Next(config, s, s')
    ensures !s'.monitor.running && DrainMeasure(s') < DrainMeasure(s)
  {
    hide Entries, CommandParser.ParseCommand;
  }

  lemma {:induction false} DrainBound(config: Config, lines: seq<string>, callsRun: bool, states: seq<App>, i: nat, j: nat)
    requires Run(config, lines, callsRun, states) && i <= j < |states| && !states[i].monitor.running
    ensures !states[j].monitor.running && j - i + DrainMeasure(states[j]) <= DrainMeasure(states[i])
    decreases j
  {
    hide Next, AppInvariant, DrainMeasure;
    if i < j {
      DrainBound(config, lines, callsRun, states, i, j - 1);
      RunKeepsInvariant(config, lines, callsRun, states, j - 1);
      DrainStep(config, lines, callsRun, states[j - 1], states[j]);
    }
  }

  lemma StoppedMeansStarted(config: Config, lines: seq<string>, callsRun: bool, states: seq<App>, i: nat)
    requires Run(config, lines, callsRun, states) && i < |states|
    requires !states[i].monitor.running && states[i].reader.Finished?
    ensures states[i].thread.Joined?
  {
    hide Next, Entries;
    RunKeepsInvariant(config, lines, callsRun, states, i);
  }

  /** The drain terminates: after the queue has been stopped only boundedly many steps of
      any thread remain, whatever the interleaving, and a run that cannot go on has reached
      the end of the destructor. */
  lemma DrainTerminates(config: Config, lines: seq<string>, callsRun: bool, states: seq<App>, i: nat)
    requires Run(config, lines, callsRun, states) && i < |states| && !states[i].monitor.running
    ensures |states| - 1 - i <= DrainMeasure(states[i])
    ensures
      var last := states[|states| - 1];
      ReaderStep(config, last).None? && WorkerStep(last).None? ==>
        last.reader.Finished? && last.monitor.queue == [] && last.logged == Entries(config, lines)
  {
    hide Next, AppInvariant, ReaderStep, WorkerStep, DrainMeasure, Entries;
    DrainBound(config, lines, callsRun, states, i, |states| - 1);
    var n := |states| - 1;
    if ReaderStep(config, states[n]).None? && WorkerStep(states[n]).None? {
      if !states[n].reader.Finished? {
        NoDeadlock(config, lines, callsRun, states, n);
      }
      StoppedMeansStarted(config, lines, callsRun, states, n);
      JoinedMeansDrained(config, lines, callsRun, states, n);
    }
  }

  /** A sleeping worker can be woken spuriously at any moment, and by nothing else than
      that, a push or a stop; the wakeup only moves it from sleeping to woken. */
  lemma SpuriousWakeupsHappen(config: Config, s: App)
    ensures SpuriousStep(s).Some? <==> WORKER in s.monitor.sleeping
    ensures WORKER in s.monitor.sleeping ==>
      exists s' :: Next(config, s, s') && WORKER in s'.monitor.woken && WORKER !in s'.monitor.sleeping
                   && s' == s.(monitor := s'.monitor) && s'.monitor.queue == s.monitor.queue
  {
    if WORKER in s.monitor.sleeping {
      assert Next(config, s, SpuriousStep(s).value);
    }
  }

  // --------------------------------------------------------------- the whole run ends

  // How many of the steps between two moments of a run are the reader's, the worker's, or
  // spurious wakeups.
  datatype Mover = ByReader | ByWorker | BySpurious

  predicate MadeBy(mover: Mover, config: Config, s: App, s': App) {
    match mover
    case ByReader => ReaderStep(config, s) == Some(s')
    case ByWorker => WorkerStep(s) == Some(s')
    case BySpurious => SpuriousStep(s) == Some(s')
  }

  function StepsBy(mover: Mover, config: Config, states: seq<App>, i: nat, j: nat): nat
    requires j < |states|
  {
    if j <= i then 0
    else StepsBy(mover, config, states, i, j - 1) + if MadeBy(mover, config, states[j - 1], states[j]) then 1 else 0
  }

  lemma {:induction false} ReaderStepsAreBounded(config: Config, states: seq<App>, j: nat)
    requires Steps(config, states) && j < |states|
    ensures StepsBy(ByReader, config, states, 0, j) + ReaderMeasure(states[j]) <= ReaderMeasure(states[0])
  {
    hide Next, ReaderMeasure, ReaderStep;
    if j > 0 {
      ReaderStepsAreBounded(config, states, j - 1);
      ReaderAdvances(config, states[j - 1], states[j]);
    }
  }

  lemma {:induction false} StepsAreBounded(config: Config, lines: seq<string>, callsRun: bool, states: seq<App>, j: nat)
    requires Run(config, lines, callsRun, states) && j < |states|
    ensures j + Potential(states[j]) <= Potential(states[0]) + 2 * StepsBy(BySpurious, config, states, 0, j)
  {
    hide AppInvariant, Potential, ReaderStep, WorkerStep, SpuriousStep;
    if j > 0 {
      var s, s' := states[j - 1], states[j];
      StepsAreBounded(config, lines, callsRun, states, j - 1);
      RunKeepsInvariant(config, lines, callsRun, states, j - 1);
      assert Next(config, s, s');
      if ReaderStep(config, s) == Some(s') {
        ReaderLowersPotential(config, lines, callsRun, s, s');
      } else if WorkerStep(s) == Some(s') {
        WorkerLowersPotential(config, lines, callsRun, s, s');
      } else {
        SpuriousRaisesPotential(s, s');
      }
    }
  }

  lemma FinishedIsComplete(config: Config, lines: seq<string>, callsRun: bool, states: seq<App>, i: nat)
    requires Run(config, lines, callsRun, states) && i < |states| && states[i].reader.Finished?
    ensures states[i].monitor.queue == [] && states[i].logged == Expected(config, lines, callsRun)
  {
    hide Next, Entries;
    RunKeepsInvariant(config, lines, callsRun, states, i);
    var s := states[i];
    assert s.logged + [] == s.logged;
    assert s.monitor.popped + [] == s.monitor.popped;
  }

  /** Every run ends: the reader makes at most 7 steps for each line of input and 8 more,
      and all threads together a bounded number of steps and at most two for each spurious
      wakeup. A run in which neither reader nor worker can move has come to the end of the
      destructor with everything logged, whether or not the queue was ever stopped. */
  lemma EveryRunEnds(config: Config, lines: seq<string>, callsRun: bool, states: seq<App>)
    requires Run(config, lines, callsRun, states)
    ensures StepsBy(ByReader, config, states, 0, |states| - 1) <= 7 * |lines| + 8
    ensures |states| - 1 <= 49 * |lines| + 56 + 2 * StepsBy(BySpurious, config, states, 0, |states| - 1)
    ensures
      var last := states[|states| - 1];
      ReaderStep(config, last).None? && WorkerStep(last).None? ==>
        last.reader.Finished? && last.monitor.queue == [] && last.logged == Expected(config, lines, callsRun)
  {
    hide Next, AppInvariant, ReaderStep, WorkerStep, StepsBy, Entries, Remaining, QueueProtocol.Invariant;
    var n := |states| - 1;
    ReaderStepsAreBounded(config, states, n);
    StepsAreBounded(config, lines, callsRun, states, n);
    if ReaderStep(config, states[n]).None? && WorkerStep(states[n]).None? {
      if !states[n].reader.Finished? {
        NoDeadlock(config, lines, callsRun, states, n);
      }
      FinishedIsComplete(config, lines, callsRun, states, n);
    }
  }

  lemma RunGrows(config: Config, lines: seq<string>, callsRun: bool, states: seq<App>, s': App)
    requires Run(config, lines, callsRun, states) && Next(config, states[|states| - 1], s')
    ensures Run(config, lines, callsRun, states + [s'])
  {
    hide Next;
  }

  /** Every run can be carried on to the end, without any spurious wakeup. */
  lemma {:induction false} CanFinish(config: Config, lines: seq<string>, callsRun: bool, states: seq<App>) returns (longer: seq<App>)
    requires Run(config, lines, callsRun, states)
    ensures states <= longer && Run(config, lines, callsRun, longer)
    ensures
      var last := longer[|longer| - 1];
      last.reader.Finished? && last.monitor.queue == [] && last.logged == Expected(config, lines, callsRun)
    decreases Potential(states[|states| - 1])
  {
    hide Potential, ReaderStep, WorkerStep, SpuriousStep, Expected;
    var n := |states| - 1;
    if states[n].reader.Finished? {
      FinishedIsComplete(config, lines, callsRun, states, n);
      longer := states;
    } else {
      NoDeadlock(config, lines, callsRun, states, n);
      var s' := if ReaderStep(config, states[n]).Some? then ReaderStep(config, states[n]).value
                else WorkerStep(states[n]).value;
      RunGrows(config, lines, callsRun, states, s');
      longer := CanFinish(config, lines, callsRun, states + [s']);
    }
  }

  // How many steps of its own the worker needs until it logs an entry that is there.
  function UntilLogged(w: Worker): nat {
    match w
    case NotStarted => 0
    case Done => 0
    case TestFlag(_) => 3
    case PopFirst => 2
    case WaitFirst => 2
    case PopRest(_) => 2
    case WaitRest => 2
    case LogFirst(_) => 1
    case LogRest(_) => 1
  }

  lemma WorkIsNotFinished(config: Config, lines: seq<string>, callsRun: bool, s: App)
    requires AppInvariant(config, lines, callsRun, s)
    ensures s.logged + InHand(s.worker) + s.monitor.queue == s.monitor.accepted
    ensures |s.logged| < |s.monitor.accepted| ==> UntilLogged(s.worker) > 0
  {
    hide Entries, Remaining;
  }

  lemma WorkerHurries(config: Config, lines: seq<string>, callsRun: bool, s: App, s': App)
    requires AppInvariant(config, lines, callsRun, s) && |s.logged| < |s.monitor.accepted|
    requires WorkerStep(s) == Some(s')
    ensures s'.monitor.accepted == s.monitor.accepted
    ensures 3 * |s'.logged| + UntilLogged(s.worker) >= 3 * |s.logged| + UntilLogged(s'.worker) + 1
  {
    hide Entries, Remaining, ReaderInvariant;
    WorkIsNotFinished(config, lines, callsRun, s);
  }

  lemma OthersKeepWork(config: Config, lines: seq<string>, callsRun: bool, s: App, s': App)
    requires AppInvariant(config, lines, callsRun, s)
    requires ReaderStep(config, s) == Some(s') || SpuriousStep(s) == Some(s')
    ensures s.monitor.accepted <= s'.monitor.accepted && s'.logged == s.logged
    ensures |s.logged| < |s.monitor.accepted| ==> s'.worker == s.worker
  {
    hide Entries, Remaining, CommandParser.ParseCommand;
  }

  lemma WorkerKeepsLogged(config: Config, lines: seq<string>, callsRun: bool, s: App, s': App)
    requires AppInvariant(config, lines, callsRun, s) && WorkerStep(s) == Some(s')
    ensures s'.monitor.accepted == s.monitor.accepted && |s.logged| <= |s'.logged|
  {
    hide Entries, Remaining, ReaderInvariant;
  }

  lemma {:induction false} WorkerCatchesUp(config: Config, lines: seq<string>, callsRun: bool, states: seq<App>, i: nat, j: nat)
    requires Run(config, lines, callsRun, states) && i <= j < |states|
    ensures states[i].monitor.accepted <= states[j].monitor.accepted
    ensures
      || |states[j].logged| >= |states[i].monitor.accepted|
      || 3 * |states[i].logged| + UntilLogged(states[j].worker) + StepsBy(ByWorker, config, states, i, j)
         <= 3 * |states[j].logged| + UntilLogged(states[i].worker)
    decreases j
  {
    hide AppInvariant, ReaderStep, WorkerStep, SpuriousStep, UntilLogged;
    if i < j {
      var s, s' := states[j - 1], states[j];
      WorkerCatchesUp(config, lines, callsRun, states, i, j - 1);
      RunKeepsInvariant(config, lines, callsRun, states, j - 1);
      assert Next(config, s, s');
      if WorkerStep(s) == Some(s') {
        WorkerKeepsLogged(config, lines, callsRun, s, s');
        if |s.logged| < |s.monitor.accepted| {
          WorkerHurries(config, lines, callsRun, s, s');
        }
      } else {
        OthersKeepWork(config, lines, callsRun, s, s');
      }
    }
  }

  lemma PrefixOfFirst(a: seq<LogEntry>, b: seq<LogEntry>, rest: seq<LogEntry>, all: seq<LogEntry>)
    requires a <= all && b + rest == all && |a| <= |b|
    ensures a <= b
  {
  }

  /** The worker keeps up: from any moment of any run on, whatever reader and spurious
      wakeups do, three steps of the worker for each entry accepted but not yet logged are
      enough, and all entries accepted up to that moment have been logged, in order. */
  lemma WorkerKeepsUp(config: Config, lines: seq<string>, callsRun: bool, states: seq<App>, i: nat, j: nat)
    requires Run(config, lines, callsRun, states) && i <= j < |states|
    requires StepsBy(ByWorker, config, states, i, j) >= 3 * (|states[i].monitor.accepted| - |states[i].logged|)
    ensures states[i].monitor.accepted <= states[j].logged
  {
    hide Next, AppInvariant, StepsBy, InHand;
    WorkerCatchesUp(config, lines, callsRun, states, i, j);
    RunKeepsInvariant(config, lines, callsRun, states, i);
    RunKeepsInvariant(config, lines, callsRun, states, j);
    WorkIsNotFinished(config, lines, callsRun, states[i]);
    WorkIsNotFinished(config, lines, callsRun, states[j]);
    assert UntilLogged(states[i].worker) <= 3;
    PrefixOfFirst(states[i].monitor.accepted, states[j].logged, InHand(states[j].worker) + states[j].monitor.queue,
                  states[j].monitor.accepted);
  }

  // ------------------------------------------------- two loops refine a single loop

  function SingleLoopWorker(w: Worker): Worker {
    match w
    case TestFlag(closed) => if closed then Done else PopRest(false)
    case PopFirst => PopRest(false)
    case WaitFirst => WaitRest
    case LogFirst(entry) => LogRest(entry)
    case PopRest(closed) => if closed then Done else w
    case _ => w
  }

  function AsSingleLoop(s: App): App {
    s.(worker := SingleLoopWorker(s.worker))
  }

  lemma PhasesReaderStep(config: Config, s: App, s': App)
    requires config.twoPhase && ReaderStep(config, s) == Some(s')
    ensures ReaderStep(config.(twoPhase := false), AsSingleLoop(s)) == Some(AsSingleLoop(s'))
  {
  }

  lemma PhasesWorkerStep(config: Config, lines: seq<string>, callsRun: bool, s: App, s': App)
    requires config.twoPhase && AppInvariant(config, lines, callsRun, s) && WorkerStep(s) == Some(s')
    ensures AsSingleLoop(s') == AsSingleLoop(s) || WorkerStep(AsSingleLoop(s)) == Some(AsSingleLoop(s'))
  {
    hide Entries, Remaining, ReaderInvariant;
  }

  lemma PhasesStep(config: Config, lines: seq<string>, callsRun: bool, s: App, s': App)
    requires config.twoPhase && AppInvariant(config, lines, callsRun, s) && Next(config, s, s')
    ensures AsSingleLoop(s') == AsSingleLoop(s)
            || Next(config.(twoPhase := false), AsSingleLoop(s), AsSingleLoop(s'))
  {
    hide AppInvariant, ReaderStep, WorkerStep;
    if ReaderStep(config, s) == Some(s') {
      PhasesReaderStep(config, s, s');
    } else if WorkerStep(s) == Some(s') {
      PhasesWorkerStep(config, lines, callsRun, s, s');
    }
  }

  /** The two-phase loop pops and logs the same sequence as a single while(pop) loop: every
      interleaving of the two-phase worker, seen through AsSingleLoop (which keeps queue,
      flag, popped and logged entries as they are), is an interleaving of the single-loop
      worker in which some steps do nothing. */
  lemma PhasesRefineSingleLoop(config: Config, lines: seq<string>, callsRun: bool, states: seq<App>, i: nat)
    requires config.twoPhase && Run(config, lines, callsRun, states) && i < |states| - 1
    ensures AsSingleLoop(states[0]) == Initial(lines, callsRun)
    ensures AsSingleLoop(states[i + 1]) == AsSingleLoop(states[i])
            || Next(config.(twoPhase := false), AsSingleLoop(states[i]), AsSingleLoop(states[i + 1]))
  {
    hide AppInvariant, Next;
    RunKeepsInvariant(config, lines, callsRun, states, i);
    PhasesStep(config, lines, callsRun, states[i], states[i + 1]);
  }
}
