/** The application class (src/test_application/test_application.cpp), run under the
    schedule in which the worker gets the processor only while it is being joined. The
    Application module covers all other schedules. */
module TestApplications {
  import opened Options
  import opened LogLevels
  import opened QueueProtocol
  import opened ThreadSafeQueues
  import opened Application
  import CommandParser

  class TestApplication {
    const config: Config
    const logQueue: ThreadSafeQueue<LogEntry>
    var isRunning: bool
    var workerThread: Thread
    var logged: seq<LogEntry>

    ghost predicate Valid()
      reads this, logQueue
    {
      && logQueue.Valid() && logQueue.sleeping == {} && logQueue.woken == {}
      && (isRunning ==> workerThread.Joinable? && logQueue.isRunning)
    }

    constructor (defaultLevel: LogLevel)
      ensures Valid() && !isRunning && workerThread.Unstarted? && logged == []
      ensures config.defaultLevel == defaultLevel && logQueue.State() == QueueProtocol.Initial()
      ensures fresh(logQueue)
    {
      config := Config(defaultLevel, true);
      logQueue := new ThreadSafeQueue<LogEntry>();
      isRunning, workerThread, logged := false, Unstarted, [];
    }

    /** Reads commands until exit or the end of the input; stop, called by an exit command
        or by the destructor, leaves exactly the expected entries logged. */
    method RunAndDestroy(lines: seq<string>)
      requires Valid() && workerThread.Unstarted? && !isRunning && logged == []
      requires logQueue.State() == QueueProtocol.Initial()
      modifies this, logQueue
      ensures Valid() && !isRunning && workerThread.Joined?
      ensures logQueue.queue == [] && logged == Entries(config, lines)
    {
      Run(lines);
      Stop();
    }

    method Run(lines: seq<string>)
      requires Valid() && workerThread.Unstarted? && !isRunning && logged == []
      requires logQueue.State() == QueueProtocol.Initial()
      modifies this, logQueue
      ensures Valid()
      ensures
        if isRunning then logged == [] && logQueue.queue == Entries(config, lines)
        else logged == Entries(config, lines) && logQueue.queue == [] && workerThread.Joined?
    {
      hide QueueProtocol.Invariant, CommandParser.ParseCommand, EntryOf;
      assert lines[0..] == lines;
      isRunning := true;
      workerThread := Joinable;
      var i := 0;
      while isRunning && i < |lines|
        invariant i <= |lines| && Valid()
        invariant
          if isRunning then logged == [] && logQueue.queue + Entries(config, lines[i..]) == Entries(config, lines)
          else logged == Entries(config, lines) && logQueue.queue == [] && workerThread.Joined?
        decreases |lines| - i
      {
        var command := CommandParser.ParseCommand(lines[i]);
        assert lines[i..][1..] == lines[i + 1..];
        i := i + 1;
        if command.Some? {
          ProcessCommand(command.value);
        }
      }
    }

    method ProcessCommand(command: CommandParser.Command)
      requires Valid() && isRunning
      modifies this, logQueue
      ensures Valid()
      ensures command.Exit? ==> !isRunning && workerThread.Joined? && logQueue.queue == []
                                && logged == old(logged) + old(logQueue.queue)
      ensures !command.Exit? ==> isRunning && logged == old(logged)
                                 && logQueue.queue == old(logQueue.queue) + EntryOf(config, command)
    {
      match command {
        case LogMessage(message, level) =>
          logQueue.Push(LogEntry(message, level.GetOr(config.defaultLevel)), None);
        case Help =>
        case Exit =>
          Stop();
      }
    }

    method Stop()
      requires Valid()
      modifies this, logQueue
      ensures Valid() && !isRunning
      ensures if old(isRunning) then
                && workerThread.Joined? && logQueue.queue == []
                && logged == old(logged) + old(logQueue.queue)
              else
                && workerThread == old(workerThread) && logQueue.queue == old(logQueue.queue)
                && logged == old(logged)
    {
      if isRunning {
        isRunning := false;
        logQueue.Stop();
        if workerThread.Joinable? {
          WorkerThreadFunction();
          workerThread := Joined;
        }
      }
    }

    // The worker's two loops, started after stop: the first is skipped, the second drains.
    method WorkerThreadFunction()
      requires logQueue.Valid() && !isRunning && !logQueue.isRunning && logQueue.sleeping == logQueue.woken == {}
      modifies this`logged, logQueue
      ensures logQueue.Valid() && !logQueue.isRunning && logQueue.sleeping == logQueue.woken == {}
      ensures logQueue.queue == [] && logged == old(logged) + old(logQueue.queue)
    {
      var result := logQueue.PopEnter(WORKER);
      while result.Item?
        invariant logQueue.Valid() && !logQueue.isRunning && !result.Waiting?
        invariant logQueue.sleeping == logQueue.woken == {}
        invariant logged + (if result.Item? then [result.value] else []) + logQueue.queue
                  == old(logged) + old(logQueue.queue)
        invariant result.Closed? ==> logQueue.queue == []
        decreases |logQueue.queue| + if result.Item? then 1 else 0
      {
        logged := logged + [result.value];
        result := logQueue.PopEnter(WORKER);
      }
    }
  }
}
