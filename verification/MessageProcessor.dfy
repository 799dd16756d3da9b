/** The message processor object (src/metrics_application/message_processor.cpp): one
    uninterrupted call of process_message, one uninterrupted pass of the timer loop, start
    and stop. ProcessorProtocol covers the two threads together. */
module MessageProcessors {
  import opened Options
  import opened LogLevels
  import opened Metrics
  import opened MetricsCollectors
  import opened ProcessorProtocol
  import LogLine

  // What a received frame adds to the statistics.
  function Decoded(frame: string): Option<Message> {
    var text :- LogLine.MessageOf(frame);
    var level :- LogLine.ParseLevelFromLog(frame);
    Some(Message(text, level))
  }

  /** A frame is counted exactly when the level scanner succeeds on it. */
  lemma CountedExactlyWhenLevelParses(frame: string)
    ensures Decoded(frame).Some? <==> LogLine.ParseLevelFromLog(frame).Some?
    ensures Decoded(frame).Some? ==> Defined(Decoded(frame).value.level)
  {
  }

  function Stamp(config: Config, s: Proc, m: Message): Proc
    requires Legal(config)
  {
    var s' := Do(config, s, ReceiverMoves(m));
    if config.indivisible then s' else Do(config, s', ReceiverMoves(m))
  }

  // The receiver's steps for one message without interference; the four times are the
  // clock readings of the call.
  function Uninterrupted(config: Config, s: Proc, m: Message, tStamp: int, tPrint: int, tDone: int): Proc
    requires Legal(config)
  {
    var added := Do(config, s, ReceiverMoves(m)).(clock := tStamp);
    var stamped := Stamp(config, added, m);
    var checked := Do(config, stamped, ReceiverMoves(m));
    if checked.receiver.Idle? then checked.(clock := tDone) else
    var printed := Do(config, checked.(clock := tPrint), ReceiverMoves(m)).(clock := tDone);
    Stamp(config, printed, m)
  }

  lemma UninterruptedResult(config: Config, s: Proc, m: Message, tStamp: int, tPrint: int, tDone: int)
    requires Legal(config) && s.receiver.Idle?
    ensures
      var stats := Added(s.stats, m, s.clock);
      var history := s.history + [Add(m, s.clock)];
      var s' := Uninterrupted(config, s, m, tStamp, tPrint, tDone);
      if IntervalReached(stats, config.interval) then
        var printed := Printed(stats, tPrint);
        s' == s.(clock := tDone, stats := printed, history := history + [Print(tPrint)], lastTime := tDone,
                 prints := s.prints + [Snapshot(Receiver, tPrint, |history| + 1, printed)])
      else
        s' == s.(clock := tDone, stats := stats, history := history, lastTime := tStamp)
  {
    hide Added, Printed, IntervalReached;
  }

  // The timer's steps for one pass of its loop body without interference, up to where it
  // tests the running flag again; it samples s.clock, and prints, if it does, at tPrint.
  function UninterruptedPass(config: Config, s: Proc, tPrint: int): Proc {
    var timed := TimerStep(config, TimerStep(config, TimerStep(config, s)));
    if !timed.timer.Elapsed? then timed.(clock := tPrint) else
    var checked := TimerStep(config, timed).(clock := tPrint);
    if !checked.timer.Changed? then checked else TimerStep(config, TimerStep(config, checked))
  }

  lemma UninterruptedPassResult(config: Config, s: Proc, tPrint: int)
    requires Legal(config) && s.timer.Loop? && s.running
    ensures
      var s' := UninterruptedPass(config, s, tPrint);
      if Overdue(config, s) then
        var printed := Printed(s.stats, tPrint);
        s' == s.(clock := tPrint, stats := printed, history := s.history + [Print(tPrint)], lastTime := s.clock,
                 prints := s.prints + [Snapshot(Timer, s.clock, |s.history| + 1, printed)])
      else
        s' == s.(clock := tPrint)
  {
    hide Printed, TruncatedSeconds, StatsChanged;
    TruncationIsSafe(s.clock - s.lastTime, config.timeout);
  }

  lemma ReachLater(config: Config, start: int, s: Proc, later: int) returns (s': Proc)
    requires Legal(config) && Reachable(config, start, s) && s.clock <= later
    ensures s' == s.(clock := later) && Reachable(config, start, s')
  {
    s' := Reach(config, start, s, Tick(later - s.clock));
  }

  lemma ReachStamp(config: Config, start: int, s: Proc, m: Message) returns (s': Proc)
    requires Legal(config) && Reachable(config, start, s)
    ensures s' == Stamp(config, s, m) && Reachable(config, start, s')
  {
    hide Do, Reachable;
    s' := Reach(config, start, s, ReceiverMoves(m));
    if !config.indivisible {
      s' := Reach(config, start, s', ReceiverMoves(m));
    }
  }

  lemma MessageIsARun(config: Config, start: int, s: Proc, m: Message, tStamp: int, tPrint: int, tDone: int)
    requires Legal(config) && Reachable(config, start, s) && s.clock <= tStamp <= tPrint <= tDone
    requires s.receiver.Idle?
    ensures Reachable(config, start, Uninterrupted(config, s, m, tStamp, tPrint, tDone))
  {
    hide Reachable, Added, Printed, IntervalReached;
    var s' := Reach(config, start, s, ReceiverMoves(m));
    s' := ReachLater(config, start, s', tStamp);
    s' := ReachStamp(config, start, s', m);
    s' := Reach(config, start, s', ReceiverMoves(m));
    if s'.receiver.Idle? {
      s' := ReachLater(config, start, s', tDone);
    } else {
      s' := ReachLater(config, start, s', tPrint);
      s' := Reach(config, start, s', ReceiverMoves(m));
      s' := ReachLater(config, start, s', tDone);
      s' := ReachStamp(config, start, s', m);
    }
  }

  lemma PassIsARun(config: Config, start: int, s: Proc, tPrint: int)
    requires Legal(config) && Reachable(config, start, s) && s.clock <= tPrint && s.timer.Loop?
    ensures Reachable(config, start, UninterruptedPass(config, s, tPrint))
  {
    hide Reachable, Printed, StatsChanged, TruncatedSeconds;
    var s' := Reach(config, start, s, TimerMoves);
    s' := Reach(config, start, s', TimerMoves);
    s' := Reach(config, start, s', TimerMoves);
    if !s'.timer.Elapsed? {
      s' := ReachLater(config, start, s', tPrint);
    } else {
      s' := Reach(config, start, s', TimerMoves);
      s' := ReachLater(config, start, s', tPrint);
      if s'.timer.Changed? {
        s' := Reach(config, start, s', TimerMoves);
        s' := Reach(config, start, s', TimerMoves);
      }
    }
  }

  /** Calls of the object are stretches of protocol runs: an uninterrupted call of
      process_message and an uninterrupted pass of the timer lead from reachable states of
      the protocol to reachable states, so what is proved of every interleaving holds of
      the object after any such calls. */
  lemma CallsAreRuns(config: Config, start: int, s: Proc, m: Message, tStamp: int, tPrint: int, tDone: int)
    requires Legal(config) && Reachable(config, start, s) && s.clock <= tStamp <= tPrint <= tDone
    requires s.receiver.Idle? && s.timer.Loop?
    ensures Reachable(config, start, Uninterrupted(config, s, m, tStamp, tPrint, tDone))
    ensures Reachable(config, start, UninterruptedPass(config, s, tPrint))
  {
    MessageIsARun(config, start, s, m, tStamp, tPrint, tDone);
    PassIsARun(config, start, s, tPrint);
  }

  class MessageProcessor {
    const config: Config
    const collector: MetricsCollector
    var lastStatsPrintTime: int
    var running: bool
    var timerJoinable: bool
    ghost var prints: seq<Snapshot>

    // This object as a state of the protocol, both threads between two rounds.
    ghost function View(clock: int): Proc
      reads this, collector
    {
      Proc(clock, collector.State(), lastStatsPrintTime, running, Idle, Loop, collector.history, prints)
    }

    ghost predicate Valid()
      reads this, collector
    {
      Legal(config) && collector.Valid() && (timerJoinable <==> running)
    }

    constructor (messageInterval: nat, timeoutSeconds: nat, now: int)
      requires messageInterval > 0 && timeoutSeconds > 0
      ensures Valid() && !running && fresh(collector)
      ensures config == Config(messageInterval, timeoutSeconds, false)
      ensures View(now) == Initial(now).(running := false)
    {
      config := Config(messageInterval, timeoutSeconds, false);
      collector := new MetricsCollector();
      lastStatsPrintTime, running, timerJoinable, prints := now, false, false, [];
    }

    method Start(now: int)
      requires Valid()
      modifies this`running, this`lastStatsPrintTime, this`timerJoinable
      ensures Valid() && running
      ensures lastStatsPrintTime == if old(running) then old(lastStatsPrintTime) else now
    {
      if running {
        return;
      }
      running := true;
      lastStatsPrintTime := now;
      timerJoinable := true;
    }

    method Stop()
      requires Valid()
      modifies this`running, this`timerJoinable
      ensures Valid() && !running && !timerJoinable
    {
      if !running {
        return;
      }
      running := false;
      if timerJoinable {
        timerJoinable := false;
      }
    }

    lemma Untouched(clock: int, later: int)
      ensures View(later) == View(clock).(clock := later)
    {
    }

    // What follows the parsing: add, stamp, and print on every N-th message.
    method Count(m: Message, tAdd: int, tStamp: int, tPrint: int, tDone: int)
      requires Valid() && UpTo(collector.history, tAdd) && tAdd <= tStamp <= tPrint <= tDone
      modifies this`lastStatsPrintTime, this`prints, collector
      ensures Valid() && UpTo(collector.history, tDone)
      ensures View(tDone) == Uninterrupted(config, old(View(tAdd)), m, tStamp, tPrint, tDone)
      ensures collector.totalMessages == old(collector.totalMessages) + 1
    {
      hide Uninterrupted, Times, CountFrom, Run, Pruned, Messages, FillsIntervals, Refreshed;
      UninterruptedResult(config, View(tAdd), m, tStamp, tPrint, tDone);
      collector.AddMessage(m.text, m.level, tAdd);
      lastStatsPrintTime := tStamp;
      var shouldPrint := collector.ShouldPrintStats(config.interval);
      if shouldPrint {
        var shown := collector.PrintStats(tPrint);
        prints := prints + [Snapshot(Receiver, tPrint, |collector.history|, shown)];
        lastStatsPrintTime := tDone;
      }
    }

    /** A frame that cannot be read leaves everything as it was. A readable one is counted
        once, as the protocol's receiver does; the collector changes exactly when the level
        scanner succeeds. */
    method ProcessMessage(logMessage: string, tAdd: int, tStamp: int, tPrint: int, tDone: int)
      requires Valid() && UpTo(collector.history, tAdd) && tAdd <= tStamp <= tPrint <= tDone
      modifies this`lastStatsPrintTime, this`prints, collector
      ensures Valid() && UpTo(collector.history, tDone)
      ensures View(tDone) ==
              match Decoded(logMessage)
              case None => old(View(tAdd)).(clock := tDone)
              case Some(m) => Uninterrupted(config, old(View(tAdd)), m, tStamp, tPrint, tDone)
      ensures collector.totalMessages ==
              old(collector.totalMessages) + if LogLine.ParseLevelFromLog(logMessage).Some? then 1 else 0
    {
      hide LogLine.MessageOf, LogLine.ParseLevelFromLog, Uninterrupted, View;
      LogLine.ScannersAgree(logMessage);
      var message := LogLine.ParseMessageFromLog(logMessage);
      if message.None? {
        Untouched(tAdd, tDone);
        return;
      }
      var level := LogLine.ParseLevelFromLog(logMessage);
      if level.None? {
        Untouched(tAdd, tDone);
        return;
      }
      Count(Message(message.value, level.value), tAdd, tStamp, tPrint, tDone);
    }

    /** One pass of the timer's loop body does what the protocol's timer does in one round,
        and leaves the object ready for the next pass or message: it prints exactly when at
        least T seconds have gone by since the stamp and something is unreported, and then
        stores the time it sampled. */
    method TimerPass(now: int, tPrint: int)
      requires Valid() && running && UpTo(collector.history, now) && now <= tPrint
      modifies this`lastStatsPrintTime, this`prints, collector
      ensures Valid() && UpTo(collector.history, tPrint)
      ensures View(tPrint) == UninterruptedPass(config, old(View(now)), tPrint)
      ensures
        if now - old(lastStatsPrintTime) >= config.timeout * SECOND && old(Unreported(collector.history)) then
          && collector.history == old(collector.history) + [Print(tPrint)]
          && collector.State() == Printed(old(collector.State()), tPrint) && lastStatsPrintTime == now
          && prints == old(prints) + [Snapshot(Timer, now, |collector.history|, collector.State())]
        else
          View(tPrint) == old(View(tPrint))
    {
      hide UninterruptedPass, Run, Pruned, Messages, Unreported, TruncatedSeconds;
      UninterruptedPassResult(config, View(now), tPrint);
      QuestionsReadHistory(collector.history, 1);
      TruncationIsSafe(now - lastStatsPrintTime, config.timeout);
      if TruncatedSeconds(now - lastStatsPrintTime) >= config.timeout {
        var changed := collector.HasStatsChangedSinceLastPrint();
        if changed {
          var shown := collector.PrintStats(tPrint);
          prints := prints + [Snapshot(Timer, now, |collector.history|, shown)];
          lastStatsPrintTime := now;
        }
      }
    }
  }
}
