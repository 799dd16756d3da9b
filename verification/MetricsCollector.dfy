/** The collector object (src/metrics_application/metrics_collector.cpp). Each method is
    one locked section; the clock reading it makes is a parameter. */
module MetricsCollectors {
  import opened LogLevels
  import opened Metrics

  class MetricsCollector {
    var totalMessages: nat
    var messagesByLevel: map<LogLevel, nat>
    var messagesLastHour: nat
    var minLength: nat
    var maxLength: nat
    var averageLength: real
    var totalLength: nat
    var messageTimestamps: seq<int>
    var lastPrintedTotalMessages: nat

    // Every operation so far.
    ghost var history: seq<Op>

    function State(): Stats
      reads this
    {
      Stats(totalMessages, messagesByLevel, messagesLastHour, minLength, maxLength, averageLength,
            totalLength, messageTimestamps, lastPrintedTotalMessages)
    }

    ghost predicate Valid()
      reads this
    {
      State() == Run(history)
    }

    constructor ()
      ensures Valid() && history == [] && State() == InitialStats
    {
      totalMessages := 0;
      messagesByLevel := map[DEBUG := 0, INFO := 0, WARNING := 0, ERROR := 0, FATAL := 0];
      messagesLastHour := 0;
      minLength, maxLength, averageLength, totalLength := SIZE_MAX, 0, 0.0, 0;
      messageTimestamps := [];
      lastPrintedTotalMessages := 0;
      history := [];
    }

    method AddMessage(message: string, level: LogLevel, now: int)
      requires Valid()
      modifies this
      ensures Valid() && history == old(history) + [Add(Message(message, level), now)]
      ensures State() == Added(old(State()), Message(message, level), now)
    {
      hide Metrics.Run, Messages, Times;
      RunStep(history, Add(Message(message, level), now));
      totalMessages := totalMessages + 1;
      var count := LevelCount(messagesByLevel, level);
      messagesByLevel := messagesByLevel[level := count + 1];
      var messageLength := |message|;
      totalLength := totalLength + messageLength;
      minLength := Min(minLength, messageLength);
      maxLength := Max(maxLength, messageLength);
      averageLength := totalLength as real / totalMessages as real;
      messageTimestamps := messageTimestamps + [now];
      history := history + [Add(Message(message, level), now)];
    }

    method UpdateMessagesLastHour(now: int)
      modifies this`messageTimestamps, this`messagesLastHour
      ensures State() == Refreshed(old(State()), now)
    {
      var oneHourAgo := now - HOUR;
      while messageTimestamps != [] && messageTimestamps[0] < oneHourAgo
        invariant Pruned(messageTimestamps, oneHourAgo) == Pruned(old(messageTimestamps), oneHourAgo)
        decreases |messageTimestamps|
      {
        messageTimestamps := messageTimestamps[1..];
      }
      messagesLastHour := |messageTimestamps|;
    }

    /** Returns what was written to the console: the statistics as they are after the
        update. When the clock has not gone back, the last-hour figure is the count over
        the whole history, and everything printed counts as reported. */
    method PrintStats(now: int) returns (printed: Stats)
      requires Valid() && UpTo(history, now)
      modifies this
      ensures Valid() && history == old(history) + [Print(now)]
      ensures State() == Printed(old(State()), now) && printed == State()
      ensures printed.messagesLastHour == CountFrom(Times(old(history)), now - HOUR)
      ensures !StatsChanged(State())
    {
      hide Metrics.Run, Times, CountFrom, SuffixAfter, Sorted, Pruned;
      WindowCountsWholeHistory(history, now);
      RunStep(history, Print(now));
      UpdateMessagesLastHour(now);
      lastPrintedTotalMessages := totalMessages;
      history := history + [Print(now)];
      printed := State();
    }

    /** True exactly when the messages added so far, over the whole history, fill one or
        more groups of the interval's size. */
    method ShouldPrintStats(messageInterval: nat) returns (answer: bool)
      requires messageInterval > 0 && Valid()
      ensures answer <==> FillsIntervals(|Messages(history)|, messageInterval)
      ensures answer == IntervalReached(State(), messageInterval)
    {
      QuestionsReadHistory(history, messageInterval);
      answer := totalMessages > 0 && totalMessages % messageInterval == 0;
    }

    /** True exactly when some message was added after the last print. */
    method HasStatsChangedSinceLastPrint() returns (answer: bool)
      requires Valid()
      ensures answer <==> Unreported(history)
      ensures answer == StatsChanged(State())
    {
      QuestionsReadHistory(history, 1);
      answer := totalMessages != lastPrintedTotalMessages;
    }

    method GetStats(now: int) returns (stats: Stats)
      requires Valid() && UpTo(history, now)
      modifies this
      ensures Valid() && history == old(history) + [Query(now)]
      ensures State() == Refreshed(old(State()), now) && stats == State()
      ensures stats.messagesLastHour == CountFrom(Times(old(history)), now - HOUR)
    {
      hide Metrics.Run, Times, CountFrom, SuffixAfter, Sorted, Pruned;
      WindowCountsWholeHistory(history, now);
      RunStep(history, Query(now));
      UpdateMessagesLastHour(now);
      history := history + [Query(now)];
      stats := State();
    }
  }
}
