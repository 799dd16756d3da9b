/** The receiving thread and the timer thread of the message processor as a transition
    system (src/metrics_application/message_processor.cpp). Each lock acquisition, each
    clock reading and each access to the shared time stamp is a step of its own, so all the
    gaps between checking and printing are there. */
module ProcessorProtocol {
  import opened LogLevels
  import opened Metrics

  const SECOND: int := 1_000_000_000

  // interval is N, timeout is T. indivisible says whether the receiver's
  // "stamp := current time" is one step; in the source it is two: read the clock, store.
  datatype Config = Config(interval: nat, timeout: nat, indivisible: bool)

  // The command line only admits positive values.
  predicate Legal(config: Config) {
    config.interval > 0 && config.timeout > 0
  }

  datatype Who = Receiver | Timer

  // One print_stats: by whom, the time stamp that goes with it, how many collector
  // operations had been done including this one, and the statistics shown.
  datatype Snapshot = Snapshot(who: Who, stamp: int, at: nat, stats: Stats)

  datatype ReceiverPc =
    | Idle
    | MessageAdded
    | StampAdd(sample: int)
    | CheckInterval
    | IntervalHit
    | StatsPrinted
    | StampPrint(sample: int)

  datatype TimerPc =
    | Loop
    | Admitted
    | Sampled(now: int)
    | Elapsed(now: int)
    | Changed(now: int)
    | TimerPrinted(now: int)
    | Exited

  datatype Proc = Proc(
    clock: int, stats: Stats, lastTime: int, running: bool,
    receiver: ReceiverPc, timer: TimerPc,
    history: seq<Op>, prints: seq<Snapshot>)

  datatype Event = Tick(ticks: nat) | ReceiverMoves(message: Message) | TimerMoves | StopRequested

  function Initial(now: int): Proc {
    Proc(now, InitialStats, now, true, Idle, Loop, [], [])
  }

  // duration_cast<seconds> truncates toward zero.
  function TruncatedSeconds(ticks: int): int {
    if ticks >= 0 then ticks / SECOND else -(-ticks / SECOND)
  }

  function PrintBy(s: Proc, who: Who, stamp: int): Proc {
    var stats := Printed(s.stats, s.clock);
    s.(stats := stats,
       history := s.history + [Print(s.clock)],
       prints := s.prints + [Snapshot(who, stamp, |s.history| + 1, stats)])
  }

  function ReceiverStep(config: Config, s: Proc, message: Message): Proc
    requires Legal(config)
  {
    match s.receiver
    case Idle =>
      s.(stats := Added(s.stats, message, s.clock), history := s.history + [Add(message, s.clock)],
         receiver := MessageAdded)
    case MessageAdded =>
      if config.indivisible then s.(lastTime := s.clock, receiver := CheckInterval)
      else s.(receiver := StampAdd(s.clock))
    case StampAdd(sample) => s.(lastTime := sample, receiver := CheckInterval)
    case CheckInterval => s.(receiver := if IntervalReached(s.stats, config.interval) then IntervalHit else Idle)
    case IntervalHit => PrintBy(s, Receiver, s.clock).(receiver := StatsPrinted)
    case StatsPrinted =>
      if config.indivisible then s.(lastTime := s.clock, receiver := Idle)
      else s.(receiver := StampPrint(s.clock))
    case StampPrint(sample) => s.(lastTime := sample, receiver := Idle)
  }

  function TimerStep(config: Config, s: Proc): Proc {
    match s.timer
    case Loop => s.(timer := if s.running then Admitted else Exited)
    case Admitted => s.(timer := Sampled(s.clock))
    case Sampled(now) =>
      s.(timer := if TruncatedSeconds(now - s.lastTime) >= config.timeout then Elapsed(now) else Loop)
    case Elapsed(now) => s.(timer := if StatsChanged(s.stats) then Changed(now) else Loop)
    case Changed(now) => PrintBy(s, Timer, now).(timer := TimerPrinted(now))
    case TimerPrinted(now) => s.(lastTime := now, timer := Loop)
    case Exited => s
  }

  function Do(config: Config, s: Proc, event: Event): Proc
    requires Legal(config)
  {
    match event
    case Tick(ticks) => s.(clock := s.clock + ticks)
    case ReceiverMoves(message) => ReceiverStep(config, s, message)
    case TimerMoves => TimerStep(config, s)
    case StopRequested => s.(running := false)
  }

  // The state after any interleaving of events.
  function After(config: Config, start: int, events: seq<Event>): Proc
    requires Legal(config)
  {
    if events == [] then Initial(start)
    else Do(config, After(config, start, events[..|events| - 1]), events[|events| - 1])
  }

  // The messages the receiver takes in: those it is given when it is idle.
  function Consumed(config: Config, start: int, events: seq<Event>): seq<Message>
    requires Legal(config)
  {
    if events == [] then [] else
    var before, last := events[..|events| - 1], events[|events| - 1];
    Consumed(config, start, before)
    + if last.ReceiverMoves? && After(config, start, before).receiver.Idle? then [last.message] else []
  }

  lemma AddsWhenIdle(config: Config, s: Proc, event: Event)
    requires Legal(config)
    ensures Messages(Do(config, s, event).history)
            == Messages(s.history) + if event.ReceiverMoves? && s.receiver.Idle? then [event.message] else []
  {
    hide Added, Printed, IntervalReached, StatsChanged, TruncatedSeconds;
    if event.ReceiverMoves? && s.receiver.Idle? {
      RunStep(s.history, Add(event.message, s.clock));
    } else {
      RunStep(s.history, Print(s.clock));
      assert Messages(s.history) + [] == Messages(s.history);
    }
  }

  /** In every interleaving the collector's messages are the ones the receiver has taken
      in, once each and in order, whatever the timer does. */
  lemma {:induction false} HistoryIsConsumed(config: Config, start: int, events: seq<Event>)
    requires Legal(config)
    ensures Messages(After(config, start, events).history) == Consumed(config, start, events)
  {
    hide Do;
    if events != [] {
      var before := events[..|events| - 1];
      HistoryIsConsumed(config, start, before);
      AddsWhenIdle(config, After(config, start, before), events[|events| - 1]);
    }
  }

  // ------------------------------------------------------------- print backlog

  // The receiver has added a message and not yet got past the interval check for it.
  predicate Pending(r: ReceiverPc) {
    r.MessageAdded? || r.StampAdd? || r.CheckInterval? || r.IntervalHit?
  }

  // Up to which total the receiver has dealt with every multiple of the interval.
  function Settled(s: Proc): int {
    s.stats.totalMessages - if Pending(s.receiver) then 1 else 0
  }

  predicate BacklogInvariant(config: Config, s: Proc)
    requires Legal(config)
  {
    var total, printed := s.stats.totalMessages, s.stats.lastPrinted;
    && printed <= total && 0 <= Settled(s)
    && (s.receiver.IntervalHit? ==> total % config.interval == 0)
    && total - printed <= (if Pending(s.receiver) then Settled(s) % config.interval + 1 else total % config.interval)
  }

  lemma ModSuccessor(x: nat, n: nat)
    requires n > 0
    ensures (x + 1) % n != 0 ==> (x + 1) % n == x % n + 1
  {
    var q, r := x / n, x % n;
    assert x + 1 == q * n + (r + 1);
    if r + 1 < n {
      ModUnique(x + 1, n, q, r + 1);
    } else {
      ModUnique(x + 1, n, q + 1, 0);
    }
  }

  lemma BacklogStep(config: Config, s: Proc, event: Event)
    requires Legal(config) && BacklogInvariant(config, s)
    ensures BacklogInvariant(config, Do(config, s, event))
  {
    if s.receiver.CheckInterval? {
      ModSuccessor(s.stats.totalMessages - 1, config.interval);
    }
  }

  lemma BacklogInitially(config: Config, start: int)
    requires Legal(config)
    ensures BacklogInvariant(config, Initial(start))
  {
  }

  lemma {:induction false} BacklogHolds(config: Config, start: int, events: seq<Event>)
    requires Legal(config)
    ensures BacklogInvariant(config, After(config, start, events))
  {
    hide Do, BacklogInvariant;
    if events == [] {
      BacklogInitially(config, start);
    } else {
      BacklogHolds(config, start, events[..|events| - 1]);
      BacklogStep(config, After(config, start, events[..|events| - 1]), events[|events| - 1]);
    }
  }

  /** Print backlog bound: under every interleaving, no more than N messages are ever
      unreported, and fewer than N whenever the receiver is idle. */
  lemma BacklogIsBounded(config: Config, start: int, events: seq<Event>)
    requires Legal(config)
    ensures
      var s := After(config, start, events);
      && 0 <= s.stats.totalMessages - s.stats.lastPrinted <= config.interval
      && (s.receiver.Idle? ==> s.stats.totalMessages - s.stats.lastPrinted < config.interval)
  {
    hide After;
    BacklogHolds(config, start, events);
  }

  // -------------------------------------------------------------- what is printed

  // The snapshot is the state of the collector just after that print.
  ghost predicate FromHistory(p: Snapshot, history: seq<Op>) {
    0 < p.at <= |history| && history[p.at - 1].Print? && p.stats == Run(history[..p.at])
  }

  predicate RisesPerThread(prints: seq<Snapshot>) {
    forall i, j :: 0 <= i < j < |prints| && prints[i].who == prints[j].who
      ==> prints[i].stats.totalMessages < prints[j].stats.totalMessages
  }

  ghost predicate PrintsInvariant(config: Config, s: Proc)
    requires Legal(config)
  {
    && s.stats == Run(s.history) && UpTo(s.history, s.clock)
    && (forall p :: p in s.prints ==> FromHistory(p, s.history))
    && (forall p :: p in s.prints ==> p.stats.totalMessages <= s.stats.lastPrinted)
    && (forall p :: p in s.prints && p.who.Receiver? ==> p.stats.totalMessages <= Settled(s))
    && (s.timer.Changed? ==> forall p :: p in s.prints && p.who.Timer? ==> p.stats.totalMessages < s.stats.totalMessages)
    && RisesPerThread(s.prints)
  }

  lemma HistoryGrows(p: Snapshot, history: seq<Op>, op: Op)
    requires FromHistory(p, history)
    ensures FromHistory(p, history + [op])
  {
    assert (history + [op])[..p.at] == history[..p.at];
  }

  lemma RecordKeepsInvariant(config: Config, s: Proc, op: Op, s': Proc)
    requires Legal(config) && PrintsInvariant(config, s) && Clock(op) == s.clock
    requires s' == s.(history := s.history + [op], stats := Apply(s.stats, op))
    ensures s'.stats == Run(s'.history) && UpTo(s'.history, s'.clock)
    ensures forall p :: p in s'.prints ==> FromHistory(p, s'.history)
  {
    RunStep(s.history, op);
    forall p | p in s'.prints
      ensures FromHistory(p, s'.history)
    {
      HistoryGrows(p, s.history, op);
    }
  }

  lemma PrintKeepsInvariant(config: Config, s: Proc, who: Who, stamp: int)
    requires Legal(config) && PrintsInvariant(config, s) && s.stats.lastPrinted <= s.stats.totalMessages
    requires if who.Receiver? then s.receiver.IntervalHit? else s.timer.Changed?
    ensures
      var s' := PrintBy(s, who, stamp);
      PrintsInvariant(config, if who.Receiver? then s'.(receiver := StatsPrinted) else s'.(timer := TimerPrinted(stamp)))
  {
    hide Run;
    var s' := PrintBy(s, who, stamp);
    var op := Print(s.clock);
    RecordKeepsInvariant(config, s, op, s.(history := s.history + [op], stats := Apply(s.stats, op)));
    var p := s'.prints[|s.prints|];
    assert s'.history[..p.at] == s'.history;
    assert FromHistory(p, s'.history);
    assert forall x :: x in s'.prints <==> x in s.prints || x == p;
    forall i, j | 0 <= i < j < |s'.prints| && s'.prints[i].who == s'.prints[j].who
      ensures s'.prints[i].stats.totalMessages < s'.prints[j].stats.totalMessages
    {
      if j == |s.prints| {
        assert s.prints[i] in s.prints;
      }
    }
  }

  lemma PrintsStep(config: Config, s: Proc, event: Event)
    requires Legal(config) && PrintsInvariant(config, s) && BacklogInvariant(config, s)
    ensures PrintsInvariant(config, Do(config, s, event))
  {
    hide Run, FromHistory, RisesPerThread;
    if event.ReceiverMoves? && s.receiver.Idle? {
      var op := Add(event.message, s.clock);
      RecordKeepsInvariant(config, s, op, s.(history := s.history + [op], stats := Apply(s.stats, op)));
    } else if event.ReceiverMoves? && s.receiver.IntervalHit? {
      PrintKeepsInvariant(config, s, Receiver, s.clock);
    } else if event.TimerMoves? && s.timer.Changed? {
      PrintKeepsInvariant(config, s, Timer, s.timer.now);
    }
  }

  lemma {:induction false} PrintsHold(config: Config, start: int, events: seq<Event>)
    requires Legal(config)
    ensures PrintsInvariant(config, After(config, start, events))
  {
    hide Do, BacklogInvariant;
    if events != [] {
      PrintsHold(config, start, events[..|events| - 1]);
      BacklogHolds(config, start, events[..|events| - 1]);
      PrintsStep(config, After(config, start, events[..|events| - 1]), events[|events| - 1]);
    }
  }

  /** Despite the unlocked gap between check and print, the totals printed by each thread
      strictly increase over every run; so no total is printed more than twice. */
  lemma TotalsRisePerThread(config: Config, start: int, events: seq<Event>)
    requires Legal(config)
    ensures RisesPerThread(After(config, start, events).prints)
  {
    hide After;
    PrintsHold(config, start, events);
  }

  /** Every snapshot printed by either thread, at any point of any interleaving, is a
      recomputation over the whole history at that moment, last hour included. */
  lemma SnapshotsAreRecomputations(config: Config, start: int, events: seq<Event>, p: Snapshot)
    requires Legal(config) && p in After(config, start, events).prints
    ensures 0 < p.at <= |After(config, start, events).history|
    ensures
      var ops := After(config, start, events).history[..p.at];
      && ops[|ops| - 1].Print?
      && (Sized(Messages(ops)) ==> Describes(p.stats, Messages(ops)))
      && p.stats.messagesLastHour == CountFrom(Times(ops), ops[|ops| - 1].now - HOUR)
  {
    hide After, Describes, CountFrom;
    PrintsHold(config, start, events);
    var ops := After(config, start, events).history[..p.at];
    var before, now := ops[..|ops| - 1], ops[|ops| - 1].now;
    if Sized(Messages(ops)) {
      StreamingIsRecomputation(ops);
    }
    assert UpTo(before, now);
    WindowCountsWholeHistory(before, now);
    assert Times(before) + [] == Times(before);
  }

  ghost predicate ShownByReceiver(prints: seq<Snapshot>, total: int) {
    exists p :: p in prints && p.who.Receiver? && p.stats.totalMessages == total
  }

  // Up to which total every multiple of the interval has been shown by the receiver.
  ghost predicate MultiplesShown(config: Config, s: Proc)
    requires Legal(config)
  {
    forall total :: 0 < total <= Settled(s) && total % config.interval == 0 ==> ShownByReceiver(s.prints, total)
  }

  lemma ShownStays(prints: seq<Snapshot>, more: seq<Snapshot>)
    ensures forall total :: ShownByReceiver(prints, total) ==> ShownByReceiver(prints + more, total)
  {
  }

  // Nothing but positive multiples of the interval is shown by the receiver.
  predicate OnlyMultiples(config: Config, prints: seq<Snapshot>)
    requires Legal(config)
  {
    forall p :: p in prints && p.who.Receiver? ==>
      p.stats.totalMessages > 0 && p.stats.totalMessages % config.interval == 0
  }

  lemma OnlyMultiplesStep(config: Config, s: Proc, event: Event)
    requires Legal(config) && OnlyMultiples(config, s.prints) && BacklogInvariant(config, s)
    ensures OnlyMultiples(config, Do(config, s, event).prints)
  {
    hide Added, IntervalReached, StatsChanged, TruncatedSeconds;
    var s' := Do(config, s, event);
    assert forall p :: p in s'.prints ==> p in s.prints || p == s'.prints[|s'.prints| - 1];
  }

  lemma LastIsShown(prints: seq<Snapshot>)
    requires prints != [] && prints[|prints| - 1].who.Receiver?
    ensures ShownByReceiver(prints, prints[|prints| - 1].stats.totalMessages)
  {
  }

  lemma MultiplesStep(config: Config, s: Proc, event: Event)
    requires Legal(config) && MultiplesShown(config, s)
    ensures MultiplesShown(config, Do(config, s, event))
  {
    hide ShownByReceiver;
    var s' := Do(config, s, event);
    ShownStays(s.prints, s'.prints[|s.prints|..]);
    assert s'.prints == s.prints + s'.prints[|s.prints|..];
    if event.ReceiverMoves? && s.receiver.IntervalHit? {
      LastIsShown(s'.prints);
    }
  }

  lemma {:induction false} MultiplesHold(config: Config, start: int, events: seq<Event>)
    requires Legal(config)
    ensures MultiplesShown(config, After(config, start, events))
    ensures OnlyMultiples(config, After(config, start, events).prints)
  {
    hide Do, ShownByReceiver, BacklogInvariant;
    if events != [] {
      var before := events[..|events| - 1];
      MultiplesHold(config, start, before);
      BacklogHolds(config, start, before);
      MultiplesStep(config, After(config, start, before), events[|events| - 1]);
      OnlyMultiplesStep(config, After(config, start, before), events[|events| - 1]);
    }
  }

  /** Whenever the receiver is idle, the totals it has shown are exactly the positive
      multiples of N up to the current total. */
  lemma MultiplesExactly(config: Config, start: int, events: seq<Event>, total: int)
    requires Legal(config) && After(config, start, events).receiver.Idle?
    ensures
      var s := After(config, start, events);
      ShownByReceiver(s.prints, total) <==> 0 < total <= s.stats.totalMessages && total % config.interval == 0
  {
    hide After, RisesPerThread, FromHistory, Run;
    MultiplesHold(config, start, events);
    PrintsHold(config, start, events);
  }

  // -------------------------------------------------------- spacing of timer prints

  // Any two prints of the timer are at least T seconds apart.
  predicate Spaced(config: Config, s: Proc) {
    forall i, j :: 0 <= i < j < |s.prints| && s.prints[i].who.Timer? && s.prints[j].who.Timer?
      ==> s.prints[j].stamp - s.prints[i].stamp >= config.timeout * SECOND
  }

  predicate NoTimerPrintAfter(prints: seq<Snapshot>, bound: int) {
    forall p :: p in prints && p.who.Timer? ==> p.stamp <= bound
  }

  // A receiver's store is stale when it puts back a time before a timer print whose own
  // stamp has already been stored.
  predicate StoresFresh(s: Proc, event: Event) {
    && event.ReceiverMoves? && (s.receiver.StampAdd? || s.receiver.StampPrint?) && !s.timer.TimerPrinted?
    ==> NoTimerPrintAfter(s.prints, s.receiver.sample)
  }

  ghost predicate NeverStale(config: Config, start: int, events: seq<Event>)
    requires Legal(config)
  {
    forall k :: 0 <= k < |events| ==> StoresFresh(After(config, start, events[..k]), events[k])
  }

  predicate SpacingInvariant(config: Config, s: Proc) {
    && Spaced(config, s) && s.lastTime <= s.clock
    && (s.receiver.StampAdd? || s.receiver.StampPrint? ==> s.receiver.sample <= s.clock)
    && (!s.timer.TimerPrinted? ==> NoTimerPrintAfter(s.prints, s.lastTime))
    && (s.timer.Sampled? || s.timer.Elapsed? || s.timer.Changed? || s.timer.TimerPrinted? ==> s.timer.now <= s.clock)
    && (s.timer.TimerPrinted? ==> NoTimerPrintAfter(s.prints, s.timer.now))
    && (s.timer.Elapsed? || s.timer.Changed? ==>
          NoTimerPrintAfter(s.prints, s.timer.now - config.timeout * SECOND))
  }

  lemma TruncationIsSafe(ticks: int, seconds: nat)
    requires seconds > 0
    ensures TruncatedSeconds(ticks) >= seconds <==> ticks >= seconds * SECOND
  {
  }

  lemma SamePrintsSameSpacing(config: Config, s: Proc, s': Proc)
    requires s'.prints == s.prints
    ensures Spaced(config, s) <==> Spaced(config, s')
  {
  }

  lemma PrintKeepsSpacing(config: Config, s: Proc, s': Proc)
    requires Spaced(config, s) && |s'.prints| == |s.prints| + 1 && s'.prints[..|s.prints|] == s.prints
    requires
      var p := s'.prints[|s.prints|];
      p.who.Timer? ==> NoTimerPrintAfter(s.prints, p.stamp - config.timeout * SECOND)
    ensures Spaced(config, s')
    ensures forall x :: x in s'.prints <==> x in s.prints || x == s'.prints[|s.prints|]
  {
  }

  /** A second in ticks, and which way its fractions are cut off. */
  lemma SecondsAreTruncated()
    ensures TruncatedSeconds(999_999_999) == 0 && TruncatedSeconds(1_000_000_000) == 1
    ensures TruncatedSeconds(-999_999_999) == 0 && TruncatedSeconds(-1_000_000_000) == -1
  {
  }

  lemma SpacingTimerStep(config: Config, s: Proc)
    requires Legal(config) && SpacingInvariant(config, s)
    ensures SpacingInvariant(config, TimerStep(config, s))
  {
    hide Printed, StatsChanged, TruncatedSeconds, Spaced;
    if s.timer.Changed? {
      PrintKeepsSpacing(config, s, TimerStep(config, s));
    } else {
      if s.timer.Sampled? {
        TruncationIsSafe(s.timer.now - s.lastTime, config.timeout);
      }
      SamePrintsSameSpacing(config, s, TimerStep(config, s));
    }
  }

  lemma SpacingReceiverStep(config: Config, s: Proc, m: Message)
    requires Legal(config) && SpacingInvariant(config, s) && StoresFresh(s, ReceiverMoves(m))
    ensures SpacingInvariant(config, ReceiverStep(config, s, m))
  {
    hide Added, Printed, IntervalReached, Spaced;
    if s.receiver.IntervalHit? {
      PrintKeepsSpacing(config, s, ReceiverStep(config, s, m));
    } else {
      SamePrintsSameSpacing(config, s, ReceiverStep(config, s, m));
    }
  }

  lemma SpacingStep(config: Config, s: Proc, event: Event)
    requires Legal(config) && SpacingInvariant(config, s) && StoresFresh(s, event)
    ensures SpacingInvariant(config, Do(config, s, event))
  {
    hide ReceiverStep, TimerStep;
    match event
    case ReceiverMoves(m) => SpacingReceiverStep(config, s, m);
    case TimerMoves => SpacingTimerStep(config, s);
    case _ =>
  }

  lemma {:induction false} SpacingHolds(config: Config, start: int, events: seq<Event>)
    requires Legal(config) && NeverStale(config, start, events)
    ensures SpacingInvariant(config, After(config, start, events))
  {
    hide Do, StoresFresh;
    if events != [] {
      var before, last := events[..|events| - 1], events[|events| - 1];
      forall k | 0 <= k < |before|
        ensures StoresFresh(After(config, start, before[..k]), before[k])
      {
        assert before[..k] == events[..k] && before[k] == events[k];
      }
      SpacingHolds(config, start, before);
      assert StoresFresh(After(config, start, before), last);
      SpacingStep(config, After(config, start, before), last);
    }
  }

  /** The timer's prints are at least T seconds apart, truncating cast included, in every
      interleaving in which the receiver never stores a stale time. */
  lemma SpacedUnlessStale(config: Config, start: int, events: seq<Event>)
    requires Legal(config) && NeverStale(config, start, events)
    ensures Spaced(config, After(config, start, events))
  {
    hide After, Spaced;
    SpacingHolds(config, start, events);
  }

  lemma {:induction false} IndivisibleIsNeverStale(config: Config, start: int, events: seq<Event>)
    requires Legal(config) && config.indivisible
    ensures !After(config, start, events).receiver.StampAdd? && !After(config, start, events).receiver.StampPrint?
  {
    if events != [] {
      IndivisibleIsNeverStale(config, start, events[..|events| - 1]);
    }
  }

  ghost predicate Reachable(config: Config, start: int, s: Proc)
    requires Legal(config)
  {
    exists events :: s == After(config, start, events)
  }

  lemma Reach(config: Config, start: int, s: Proc, event: Event) returns (s': Proc)
    requires Legal(config) && Reachable(config, start, s)
    ensures s' == Do(config, s, event) && Reachable(config, start, s')
  {
    hide Do;
    var events :| s == After(config, start, events);
    var longer := events + [event];
    assert longer[..|longer| - 1] == events;
    s' := Do(config, s, event);
    assert s' == After(config, start, longer);
  }

  // The interleaving that breaks the spacing. First half: the receiver reads the clock for
  // a message; T seconds later the timer prints and stores its stamp; the receiver then
  // stores its old reading, and the timer's next time check passes at once.
  lemma StaleStamp(config: Config, start: int, m: Message) returns (s: Proc)
    requires Legal(config) && !config.indivisible
    ensures Reachable(config, start, s)
    ensures s.receiver.CheckInterval? && s.timer == Elapsed(start + config.timeout * SECOND)
    ensures s.stats.totalMessages == 1 == s.stats.lastPrinted
    ensures |s.prints| == 1 && s.prints[0].who.Timer? && s.prints[0].stamp == start + config.timeout * SECOND
  {
    assert After(config, start, []) == Initial(start);
    s := Reach(config, start, Initial(start), ReceiverMoves(m));
    s := Reach(config, start, s, ReceiverMoves(m));
    assert s.receiver == StampAdd(start);
    s := Reach(config, start, s, Tick(config.timeout * SECOND));
    s := Reach(config, start, s, TimerMoves);
    s := Reach(config, start, s, TimerMoves);
    TruncationIsSafe(config.timeout * SECOND, config.timeout);
    s := Reach(config, start, s, TimerMoves);
    s := Reach(config, start, s, TimerMoves);
    assert s.timer.Changed?;
    s := Reach(config, start, s, TimerMoves);
    s := Reach(config, start, s, TimerMoves);
    s := Reach(config, start, s, ReceiverMoves(m));
    s := Reach(config, start, s, TimerMoves);
    s := Reach(config, start, s, TimerMoves);
    s := Reach(config, start, s, TimerMoves);
  }

  // Second half: the receiver finishes the message (which prints when N is one) and adds
  // another before the timer checks for a change; the timer prints again.
  lemma SecondMessage(config: Config, start: int, m: Message) returns (s: Proc)
    requires Legal(config) && !config.indivisible
    ensures Reachable(config, start, s) && s.stats.totalMessages == 2 && s.stats.lastPrinted == 1
    ensures s.timer == Elapsed(start + config.timeout * SECOND)
    ensures s.prints != [] && s.prints[0].who.Timer? && s.prints[0].stamp == start + config.timeout * SECOND
  {
    s := StaleStamp(config, start, m);
    s := Reach(config, start, s, ReceiverMoves(m));
    if s.receiver.IntervalHit? {
      s := Reach(config, start, s, ReceiverMoves(m));
      s := Reach(config, start, s, ReceiverMoves(m));
      s := Reach(config, start, s, ReceiverMoves(m));
    }
    assert s.receiver.Idle? && s.stats.totalMessages == 1 == s.stats.lastPrinted;
    s := Reach(config, start, s, ReceiverMoves(m));
  }

  lemma SpacingBreaks(config: Config, start: int, m: Message) returns (s: Proc)
    requires Legal(config) && !config.indivisible
    ensures Reachable(config, start, s) && s.stats.totalMessages == 2 && !Spaced(config, s)
  {
    s := SecondMessage(config, start, m);
    var first := s.prints[0];
    s := Reach(config, start, s, TimerMoves);
    s := Reach(config, start, s, TimerMoves);
    assert s.prints[0] == first && s.prints[|s.prints| - 1].who.Timer?;
    assert s.prints[|s.prints| - 1].stamp == first.stamp;
  }

  // The timer only ever reports something.
  predicate TimerReports(s: Proc) {
    && (forall p :: p in s.prints && p.who.Timer? ==> p.stats.totalMessages > 0)
    && (s.timer.Changed? ==> s.stats.totalMessages > 0)
  }

  lemma TimerReportsStep(config: Config, s: Proc, event: Event)
    requires Legal(config) && TimerReports(s) && BacklogInvariant(config, s)
    ensures TimerReports(Do(config, s, event))
  {
    hide IntervalReached, TruncatedSeconds;
    var s' := Do(config, s, event);
    assert forall p :: p in s'.prints ==> p in s.prints || p == s'.prints[|s'.prints| - 1];
  }

  lemma {:induction false} TimerReportsHold(config: Config, start: int, events: seq<Event>)
    requires Legal(config)
    ensures TimerReports(After(config, start, events))
  {
    hide Do, BacklogInvariant;
    if events != [] {
      var before := events[..|events| - 1];
      TimerReportsHold(config, start, before);
      BacklogHolds(config, start, before);
      TimerReportsStep(config, After(config, start, before), events[|events| - 1]);
    }
  }

  lemma OneMessageIsSpaced(config: Config, start: int, s: Proc)
    requires Legal(config) && Reachable(config, start, s) && s.stats.totalMessages <= 1
    ensures Spaced(config, s)
  {
    hide After, FromHistory, Run;
    var events :| s == After(config, start, events);
    PrintsHold(config, start, events);
    BacklogHolds(config, start, events);
    TimerReportsHold(config, start, events);
    forall i, j | 0 <= i < j < |s.prints| && s.prints[i].who.Timer?
      ensures !s.prints[j].who.Timer?
    {
      assert s.prints[i] in s.prints && s.prints[j] in s.prints;
    }
  }

  /** How far the spacing of timer prints can be relied on, for the code as it is, with the
      receiver's clock reading and its store as two steps: for every N and T, in all
      interleavings that add at most k messages any two timer prints are at least T seconds
      apart, if and only if k is at most one. */
  lemma TimerSpacingExactly(config: Config, start: int, k: nat)
    requires Legal(config) && !config.indivisible
    ensures (forall s :: Reachable(config, start, s) && s.stats.totalMessages <= k ==> Spaced(config, s)) <==> k <= 1
  {
    hide Spaced, After;
    if k <= 1 {
      forall s | Reachable(config, start, s) && s.stats.totalMessages <= k
        ensures Spaced(config, s)
      {
        OneMessageIsSpaced(config, start, s);
      }
    } else {
      var s := SpacingBreaks(config, start, Message("", INFO));
    }
  }

  /** What would repair it: were reading and store one step, the spacing would hold in
      every interleaving, truncating cast included. */
  lemma IndivisibleStoreKeepsSpacing(config: Config, start: int, s: Proc)
    requires Legal(config) && config.indivisible && Reachable(config, start, s)
    ensures Spaced(config, s)
  {
    hide Spaced, After;
    var events :| s == After(config, start, events);
    forall k | 0 <= k < |events|
      ensures StoresFresh(After(config, start, events[..k]), events[k])
    {
      IndivisibleIsNeverStale(config, start, events[..k]);
    }
    SpacedUnlessStale(config, start, events);
  }

  // ------------------------------------------------------------------ the timeout

  // The state reached from any state by a list of events.
  function Continue(config: Config, s: Proc, events: seq<Event>): Proc
    requires Legal(config)
  {
    if events == [] then s
    else Do(config, Continue(config, s, events[..|events| - 1]), events[|events| - 1])
  }

  function TimerMovesIn(events: seq<Event>): nat {
    if events == [] then 0
    else TimerMovesIn(events[..|events| - 1]) + if events[|events| - 1].TimerMoves? then 1 else 0
  }

  predicate ReceiverIsQuiet(events: seq<Event>) {
    forall i :: 0 <= i < |events| ==> events[i].Tick? || events[i].TimerMoves?
  }

  // From s to s' the timer has printed once, with a time stamp not before s, and that
  // print has reported everything.
  predicate Reported(s: Proc, s': Proc, stamp: int) {
    && s'.stats.totalMessages == s.stats.totalMessages && !StatsChanged(s'.stats)
    && s'.prints == s.prints + [Snapshot(Timer, stamp, |s'.history|, s'.stats)]
    && s.clock <= stamp <= s'.clock
  }

  // Where the timer's round that starts in s has got to after some moves of the timer.
  predicate RoundReached(s: Proc, s': Proc, moves: nat) {
    && s'.running && s.clock <= s'.clock
    && (moves < 5 ==> s'.stats == s.stats && s'.prints == s.prints && s'.lastTime == s.lastTime)
    && match moves
       case 0 => s'.timer.Loop?
       case 1 => s'.timer.Admitted?
       case 2 => s'.timer.Sampled? && s.clock <= s'.timer.now <= s'.clock
       case 3 => s'.timer.Elapsed? && s.clock <= s'.timer.now <= s'.clock
       case 4 => s'.timer.Changed? && s.clock <= s'.timer.now <= s'.clock
       case 5 => s'.timer.TimerPrinted? && Reported(s, s', s'.timer.now)
       case _ => (s'.timer.Loop? || s'.timer.Admitted? || s'.timer.Sampled? || s'.timer.Elapsed?)
                 && Reported(s, s', s'.lastTime)
  }

  predicate Overdue(config: Config, s: Proc) {
    s.clock - s.lastTime >= config.timeout * SECOND && StatsChanged(s.stats)
  }

  lemma PrintReports(s: Proc, s': Proc, stamp: int)
    requires s'.stats == s.stats && s'.prints == s.prints && s.clock <= stamp <= s'.clock
    ensures Reported(s, PrintBy(s', Timer, stamp), stamp)
  {
  }

  lemma RoundStep(config: Config, s: Proc, s': Proc, moves: nat)
    requires Legal(config) && Overdue(config, s) && RoundReached(s, s', moves)
    ensures RoundReached(s, TimerStep(config, s'), moves + 1)
  {
    hide Printed;
    if moves == 2 {
      TruncationIsSafe(s'.timer.now - s'.lastTime, config.timeout);
    } else if moves == 4 {
      PrintReports(s, s', s'.timer.now);
    }
  }

  lemma {:induction false} RoundProceeds(config: Config, s: Proc, events: seq<Event>)
    requires Legal(config) && Overdue(config, s) && s.timer.Loop? && s.running && ReceiverIsQuiet(events)
    ensures RoundReached(s, Continue(config, s, events), TimerMovesIn(events))
  {
    hide TimerStep, Overdue;
    if events != [] {
      var before := events[..|events| - 1];
      RoundProceeds(config, s, before);
      if events[|events| - 1].TimerMoves? {
        RoundStep(config, s, Continue(config, s, before), TimerMovesIn(before));
      }
    }
  }

  /** The timeout is honoured: when the timer starts a round at least T seconds after the
      stamp with something unreported, then however the clock moves on, once the timer has
      made six moves without the receiver everything is reported, by exactly one more
      print; it carries the time sampled in that round, which is also the stamp stored. */
  lemma QuietTimeoutReports(config: Config, s: Proc, events: seq<Event>)
    requires Legal(config) && Overdue(config, s) && s.timer.Loop? && s.running
    requires ReceiverIsQuiet(events) && TimerMovesIn(events) >= 6
    ensures
      var s' := Continue(config, s, events);
      Reported(s, s', s'.lastTime)
  {
    hide Reported, Continue;
    RoundProceeds(config, s, events);
  }

  // ------------------------------------------------------------- stopping the timer

  function TimerRank(timer: TimerPc): nat {
    match timer
    case Exited => 0
    case Loop => 1
    case TimerPrinted(_) => 2
    case Changed(_) => 3
    case Elapsed(_) => 4
    case Sampled(_) => 5
    case Admitted => 6
  }

  lemma ReceiverLeavesTimer(config: Config, s: Proc)
    requires Legal(config)
    ensures forall m :: ReceiverStep(config, s, m).timer == s.timer && ReceiverStep(config, s, m).running == s.running
  {
  }

  lemma {:induction false} TimerWindsDown(config: Config, start: int, events: seq<Event>, more: seq<Event>)
    requires Legal(config) && !After(config, start, events).running
    ensures
      var s := After(config, start, events + more);
      !s.running && (s.timer.Exited? || TimerRank(s.timer) + TimerMovesIn(more) <= TimerRank(After(config, start, events).timer))
    decreases |more|
  {
    hide ReceiverStep;
    if more == [] {
      assert events + more == events;
    } else {
      var fewer := more[..|more| - 1];
      assert (events + more)[..|events + more| - 1] == events + fewer;
      TimerWindsDown(config, start, events, fewer);
      ReceiverLeavesTimer(config, After(config, start, events + fewer));
    }
  }

  lemma {:induction false} StopStays(config: Config, start: int, events: seq<Event>, i: nat)
    requires Legal(config) && i < |events| && events[i].StopRequested?
    ensures !After(config, start, events).running
  {
    hide ReceiverStep;
    if i < |events| - 1 {
      StopStays(config, start, events[..|events| - 1], i);
      ReceiverLeavesTimer(config, After(config, start, events[..|events| - 1]));
    }
  }

  /** The join in stop returns: once stop has been requested the timer thread ends within
      six moves of its own, whatever else happens in between. */
  lemma TimerEndsAfterStop(config: Config, start: int, events: seq<Event>, i: nat, more: seq<Event>)
    requires Legal(config) && i < |events| && events[i].StopRequested? && TimerMovesIn(more) >= 6
    ensures After(config, start, events + more).timer.Exited?
  {
    hide After;
    StopStays(config, start, events, i);
    TimerWindsDown(config, start, events, more);
  }

  /** And not before: without a stop the timer thread is running. */
  lemma {:induction false} TimerRunsUntilStop(config: Config, start: int, events: seq<Event>)
    requires Legal(config) && forall i :: 0 <= i < |events| ==> !events[i].StopRequested?
    ensures After(config, start, events).running && !After(config, start, events).timer.Exited?
  {
    hide ReceiverStep;
    if events != [] {
      TimerRunsUntilStop(config, start, events[..|events| - 1]);
      ReceiverLeavesTimer(config, After(config, start, events[..|events| - 1]));
    }
  }

  lemma AfterOne(config: Config, start: int, events: seq<Event>, event: Event)
    requires Legal(config)
    ensures After(config, start, events + [event]) == Do(config, After(config, start, events), event)
  {
    hide Do;
    assert (events + [event])[..|events + [event]| - 1] == events;
  }
}
