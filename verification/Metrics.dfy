/** Streaming message statistics (src/metrics_application/message_stats.hpp and
    metrics_collector.cpp) as a function of the operations performed, and what that
    function has to do with the whole history. Times are steady-clock ticks of one
    nanosecond. */
module Metrics {
  import opened LogLevels

  const SIZE_MAX: nat := 0xFFFF_FFFF_FFFF_FFFF
  const HOUR: int := 3_600_000_000_000

  datatype Message = Message(text: string, level: LogLevel)

  datatype Stats = Stats(
    totalMessages: nat, messagesByLevel: map<LogLevel, nat>, messagesLastHour: nat,
    minLength: nat, maxLength: nat, averageLength: real, totalLength: nat,
    timestamps: seq<int>, lastPrinted: nat)

  const InitialStats: Stats :=
    Stats(0, map[DEBUG := 0, INFO := 0, WARNING := 0, ERROR := 0, FATAL := 0], 0, SIZE_MAX, 0, 0.0, 0, [], 0)

  function Min(a: nat, b: nat): nat { if b < a then b else a }
  function Max(a: nat, b: nat): nat { if a < b then b else a }

  function LevelCount(counts: map<LogLevel, nat>, level: LogLevel): nat {
    if level in counts then counts[level] else 0
  }

  function Added(s: Stats, m: Message, now: int): Stats {
    s.(totalMessages := s.totalMessages + 1,
       messagesByLevel := s.messagesByLevel[m.level := LevelCount(s.messagesByLevel, m.level) + 1],
       totalLength := s.totalLength + |m.text|,
       minLength := Min(s.minLength, |m.text|),
       maxLength := Max(s.maxLength, |m.text|),
       averageLength := (s.totalLength + |m.text|) as real / (s.totalMessages + 1) as real,
       timestamps := s.timestamps + [now])
  }

  // Drops timestamps from the front while they are before the cutoff.
  function Pruned(timestamps: seq<int>, cutoff: int): seq<int> {
    if timestamps != [] && timestamps[0] < cutoff then Pruned(timestamps[1..], cutoff) else timestamps
  }

  function Refreshed(s: Stats, now: int): Stats {
    var kept := Pruned(s.timestamps, now - HOUR);
    s.(timestamps := kept, messagesLastHour := |kept|)
  }

  function Printed(s: Stats, now: int): Stats {
    Refreshed(s, now).(lastPrinted := s.totalMessages)
  }

  predicate IntervalReached(s: Stats, interval: nat)
    requires interval > 0
  {
    s.totalMessages > 0 && s.totalMessages % interval == 0
  }

  predicate StatsChanged(s: Stats) {
    s.totalMessages != s.lastPrinted
  }

  // Every locked operation of the collector that changes it, with the clock it read.
  datatype Op = Add(message: Message, now: int) | Print(now: int) | Query(now: int)

  function Apply(s: Stats, op: Op): Stats {
    match op
    case Add(m, now) => Added(s, m, now)
    case Print(now) => Printed(s, now)
    case Query(now) => Refreshed(s, now)
  }

  function Run(ops: seq<Op>): Stats {
    if ops == [] then InitialStats else Apply(Run(ops[..|ops| - 1]), ops[|ops| - 1])
  }

  // The whole history: every message ever added, and when.
  function Messages(ops: seq<Op>): seq<Message> {
    if ops == [] then [] else
    Messages(ops[..|ops| - 1]) + if ops[|ops| - 1].Add? then [ops[|ops| - 1].message] else []
  }

  function Times(ops: seq<Op>): seq<int> {
    if ops == [] then [] else
    Times(ops[..|ops| - 1]) + if ops[|ops| - 1].Add? then [ops[|ops| - 1].now] else []
  }

  lemma RunStep(ops: seq<Op>, op: Op)
    ensures Run(ops + [op]) == Apply(Run(ops), op)
    ensures Messages(ops + [op]) == Messages(ops) + if op.Add? then [op.message] else []
    ensures Times(ops + [op]) == Times(ops) + if op.Add? then [op.now] else []
  {
  }

  // Some message was added, and nothing has been printed since.
  ghost predicate Unreported(ops: seq<Op>) {
    exists i :: 0 <= i < |ops| && ops[i].Add? && forall j :: i < j < |ops| ==> !ops[j].Print?
  }

  lemma UnreportedStep(ops: seq<Op>, op: Op)
    ensures Unreported(ops + [op]) <==> op.Add? || (Unreported(ops) && !op.Print?)
  {
    var longer := ops + [op];
    if op.Add? {
      assert longer[|ops|].Add?;
    } else {
      if Unreported(ops) && !op.Print? {
        var i :| 0 <= i < |ops| && ops[i].Add? && forall j :: i < j < |ops| ==> !ops[j].Print?;
        assert longer[i].Add?;
      }
      if Unreported(longer) {
        var i :| 0 <= i < |longer| && longer[i].Add? && forall j :: i < j < |longer| ==> !longer[j].Print?;
        assert ops[i].Add? && !longer[|ops|].Print?;
        forall j | i < j < |ops| ensures !ops[j].Print? {
          assert longer[j] == ops[j];
        }
      }
    }
  }

  lemma Spread(d: int, n: int)
    requires n > 0
    ensures d >= 1 ==> d * n >= n
    ensures d <= -1 ==> d * n <= -n
  {
  }

  lemma ModUnique(a: int, n: int, q: int, r: int)
    requires n > 0 && a == q * n + r && 0 <= r < n
    ensures a % n == r
  {
    var q', r' := a / n, a % n;
    assert (q - q') * n == r' - r;
    Spread(q - q', n);
  }

  // The messages fill one or more whole groups of the interval's size.
  ghost predicate FillsIntervals(total: nat, interval: nat) {
    exists k: nat :: k > 0 && total == k * interval
  }

  lemma WholeGroups(total: nat, interval: nat)
    requires interval > 0
    ensures total > 0 && total % interval == 0 <==> FillsIntervals(total, interval)
  {
    if total > 0 && total % interval == 0 {
      assert total == (total / interval) * interval;
    }
    forall k: nat | k > 0 && total == k * interval
      ensures total % interval == 0 && total > 0
    {
      ModUnique(total, interval, k, 0);
      Spread(k, interval);
    }
  }

  /** What the two questions of the collector mean, over the whole history: the statistics
      have changed exactly when some message was added after the last print, and the
      interval is reached exactly when the messages added fill one or more whole groups
      of the interval's size. */
  lemma {:induction false} QuestionsReadHistory(ops: seq<Op>, interval: nat)
    requires interval > 0
    ensures StatsChanged(Run(ops)) <==> Unreported(ops)
    ensures Run(ops).totalMessages == |Messages(ops)| && Run(ops).lastPrinted <= |Messages(ops)|
    ensures IntervalReached(Run(ops), interval) <==> FillsIntervals(|Messages(ops)|, interval)
  {
    if ops != [] {
      var before, op := ops[..|ops| - 1], ops[|ops| - 1];
      QuestionsReadHistory(before, interval);
      UnreportedStep(before, op);
      assert ops == before + [op];
    }
    WholeGroups(|Messages(ops)|, interval);
  }

  // ------------------------------------------------- statistics refine a plain fold

  // The sum of a weight over a list of messages.
  function Sum(ms: seq<Message>, weight: Message -> nat): nat {
    if ms == [] then 0 else Sum(ms[..|ms| - 1], weight) + weight(ms[|ms| - 1])
  }

  function Length(m: Message): nat { |m.text| }

  function AtLevel(level: LogLevel): Message -> nat {
    (m: Message) => if m.level == level then 1 else 0
  }

  function TotalLength(ms: seq<Message>): nat { Sum(ms, Length) }
  function CountAt(ms: seq<Message>, level: LogLevel): nat { Sum(ms, AtLevel(level)) }

  // Every length fits the source's size type.
  predicate Sized(ms: seq<Message>) {
    forall m :: m in ms ==> |m.text| <= SIZE_MAX
  }

  ghost predicate DescribesLevels(counts: map<LogLevel, nat>, ms: seq<Message>) {
    && (forall level :: LevelCount(counts, level) == CountAt(ms, level))
    && (forall level :: level in counts <==> Defined(level) || exists m :: m in ms && m.level == level)
  }

  ghost predicate DescribesLengths(low: nat, high: nat, ms: seq<Message>) {
    if ms == [] then low == SIZE_MAX && high == 0 else
    && (forall m :: m in ms ==> low <= |m.text| <= high)
    && (exists m :: m in ms && |m.text| == low)
    && (exists m :: m in ms && |m.text| == high)
  }

  // The recomputation of every statistic from the list of all messages.
  ghost predicate Describes(s: Stats, ms: seq<Message>) {
    && s.totalMessages == |ms|
    && s.totalLength == TotalLength(ms)
    && s.averageLength == (if ms == [] then 0.0 else s.totalLength as real / |ms| as real)
    && DescribesLevels(s.messagesByLevel, ms)
    && DescribesLengths(s.minLength, s.maxLength, ms)
  }

  lemma SumStep(ms: seq<Message>, m: Message, weight: Message -> nat)
    ensures Sum(ms + [m], weight) == Sum(ms, weight) + weight(m)
  {
  }

  lemma AddedCounts(counts: map<LogLevel, nat>, ms: seq<Message>, m: Message)
    requires forall level :: LevelCount(counts, level) == CountAt(ms, level)
    ensures
      var counts' := counts[m.level := LevelCount(counts, m.level) + 1];
      forall level :: LevelCount(counts', level) == CountAt(ms + [m], level)
  {
    var counts' := counts[m.level := LevelCount(counts, m.level) + 1];
    forall level
      ensures LevelCount(counts', level) == CountAt(ms + [m], level)
    {
      SumStep(ms, m, AtLevel(level));
      assert LevelCount(counts, level) == CountAt(ms, level);
    }
  }

  lemma AddedLevels(counts: map<LogLevel, nat>, ms: seq<Message>, m: Message)
    requires DescribesLevels(counts, ms)
    ensures DescribesLevels(counts[m.level := LevelCount(counts, m.level) + 1], ms + [m])
  {
    hide Sum, LevelCount, CountAt;
    AddedCounts(counts, ms, m);
    assert forall x :: x in ms + [m] <==> x in ms || x == m;
  }

  lemma AddedLengths(low: nat, high: nat, ms: seq<Message>, m: Message)
    requires DescribesLengths(low, high, ms) && |m.text| <= SIZE_MAX
    ensures DescribesLengths(Min(low, |m.text|), Max(high, |m.text|), ms + [m])
  {
  }

  lemma AddedDescribes(s: Stats, ms: seq<Message>, m: Message, now: int)
    requires Describes(s, ms) && |m.text| <= SIZE_MAX
    ensures Describes(Added(s, m, now), ms + [m])
  {
    hide DescribesLevels, DescribesLengths;
    SumStep(ms, m, Length);
    AddedLevels(s.messagesByLevel, ms, m);
    AddedLengths(s.minLength, s.maxLength, ms, m);
  }

  lemma EmptyDescribes()
    ensures Describes(InitialStats, [])
  {
  }

  /** Streaming statistics refine a fold: after any adds interleaved with prints and
      queries, every statistic is what recomputing it over the whole history gives. */
  lemma {:induction false} StreamingIsRecomputation(ops: seq<Op>)
    requires Sized(Messages(ops))
    ensures Describes(Run(ops), Messages(ops))
  {
    hide DescribesLevels, DescribesLengths, Sum;
    if ops != [] {
      var before, op := ops[..|ops| - 1], ops[|ops| - 1];
      StreamingIsRecomputation(before);
      assert Messages(before) + [] == Messages(before);
      if op.Add? {
        assert op.message in Messages(ops);
        AddedDescribes(Run(before), Messages(before), op.message, op.now);
      }
    } else {
      EmptyDescribes();
    }
  }

  // ---------------------------------------------------------- derived properties

  /** Per-level counts sum to the total when every level added is one of the five. */
  lemma {:induction false} LevelCountsAddUp(ms: seq<Message>)
    requires forall m :: m in ms ==> Defined(m.level)
    ensures CountAt(ms, DEBUG) + CountAt(ms, INFO) + CountAt(ms, WARNING) + CountAt(ms, ERROR) + CountAt(ms, FATAL) == |ms|
  {
    if ms != [] {
      LevelCountsAddUp(ms[..|ms| - 1]);
      assert ms[|ms| - 1] in ms;
    }
  }

  lemma {:induction false} TotalIsBounded(ms: seq<Message>, low: nat, high: nat)
    requires forall m :: m in ms ==> low <= |m.text| <= high
    ensures low * |ms| <= TotalLength(ms) <= high * |ms|
  {
    if ms != [] {
      TotalIsBounded(ms[..|ms| - 1], low, high);
      assert ms[|ms| - 1] in ms;
      assert low * |ms| == low * (|ms| - 1) + low;
      assert high * |ms| == high * (|ms| - 1) + high;
    }
  }

  lemma QuotientIsBounded(total: nat, count: nat, low: nat, high: nat)
    requires count > 0 && low * count <= total <= high * count
    ensures low as real <= total as real / count as real <= high as real
  {
  }

  /** Once a message exists: min <= average <= max, with the matching bounds on the total,
      and the five level counts sum to the total count. */
  lemma StatisticsAreConsistent(ops: seq<Op>)
    requires Sized(Messages(ops)) && Messages(ops) != []
    ensures
      var s := Run(ops);
      && s.minLength * s.totalMessages <= s.totalLength <= s.maxLength * s.totalMessages
      && s.minLength as real <= s.averageLength <= s.maxLength as real
    ensures
      var c := Run(ops).messagesByLevel;
      (forall m :: m in Messages(ops) ==> Defined(m.level)) ==>
        LevelCount(c, DEBUG) + LevelCount(c, INFO) + LevelCount(c, WARNING) + LevelCount(c, ERROR)
        + LevelCount(c, FATAL) == Run(ops).totalMessages
  {
    hide Sum, LevelCount, Run, Messages;
    var s, ms := Run(ops), Messages(ops);
    StreamingIsRecomputation(ops);
    TotalIsBounded(ms, s.minLength, s.maxLength);
    QuotientIsBounded(s.totalLength, |ms|, s.minLength, s.maxLength);
    if forall m :: m in ms ==> Defined(m.level) {
      LevelCountsAddUp(ms);
    }
  }

  lemma {:induction false} SumSplits(a: seq<Message>, b: seq<Message>, weight: Message -> nat)
    ensures Sum(a + b, weight) == Sum(a, weight) + Sum(b, weight)
  {
    if b == [] {
      assert a + b == a;
    } else {
      assert (a + b)[..|a + b| - 1] == a + b[..|b| - 1];
      SumSplits(a, b[..|b| - 1], weight);
    }
  }

  lemma RemovesSame(a: seq<Message>, x: Message, left: seq<Message>, right: seq<Message>)
    requires multiset(a + [x]) == multiset(left + [x] + right)
    ensures multiset(a) == multiset(left + right)
  {
    assert multiset(a + [x]) == multiset(a) + multiset{x};
    assert multiset(left + [x] + right) == multiset(left) + multiset{x} + multiset(right);
    assert multiset(left + right) == multiset(left) + multiset(right);
    assert multiset(a) == (multiset(a) + multiset{x}) - multiset{x};
    assert multiset(left) + multiset(right) == (multiset(left) + multiset{x} + multiset(right)) - multiset{x};
  }

  lemma {:induction false} SumOfPermutation(a: seq<Message>, b: seq<Message>, weight: Message -> nat)
    requires multiset(a) == multiset(b)
    ensures Sum(a, weight) == Sum(b, weight)
  {
    if a == [] {
      assert multiset(b) == multiset{};
      assert b == [];
    } else {
      var x, a' := a[|a| - 1], a[..|a| - 1];
      assert a == a' + [x];
      assert x in multiset(b);
      var i :| 0 <= i < |b| && b[i] == x;
      var left, right := b[..i], b[i + 1..];
      assert b == left + [x] + right;
      RemovesSame(a', x, left, right);
      SumOfPermutation(a', left + right, weight);
      SumSplits(left, right, weight);
      SumSplits(left + [x], right, weight);
      SumStep(left, x, weight);
    }
  }

  lemma SameLevels(counts: map<LogLevel, nat>, counts': map<LogLevel, nat>, ms: seq<Message>, ms': seq<Message>)
    requires DescribesLevels(counts, ms) && DescribesLevels(counts', ms') && multiset(ms) == multiset(ms')
    ensures counts == counts'
  {
    hide Sum;
    assert forall m :: m in ms <==> m in multiset(ms);
    assert forall m :: m in ms' <==> m in multiset(ms');
    forall level | level in counts
      ensures level in counts' && counts[level] == counts'[level]
    {
      SumOfPermutation(ms, ms', AtLevel(level));
      assert LevelCount(counts, level) == LevelCount(counts', level);
    }
    assert forall level :: level in counts' ==> level in counts;
  }

  /** Order independence: all statistics but the timestamps and the print mark depend only
      on the multiset of messages added, so any order in which threads get the lock, and
      any prints and queries in between, give the same result. */
  lemma OrderDoesNotMatter(ops: seq<Op>, ops': seq<Op>)
    requires multiset(Messages(ops)) == multiset(Messages(ops')) && Sized(Messages(ops))
    ensures
      var s, s' := Run(ops), Run(ops');
      && s.totalMessages == s'.totalMessages && s.messagesByLevel == s'.messagesByLevel
      && s.totalLength == s'.totalLength && s.averageLength == s'.averageLength
      && s.minLength == s'.minLength && s.maxLength == s'.maxLength
  {
    hide Sum, Run, Messages;
    var ms, ms' := Messages(ops), Messages(ops');
    assert forall m :: m in ms <==> m in multiset(ms);
    assert forall m :: m in ms' <==> m in multiset(ms');
    assert |ms| == |multiset(ms)| && |ms'| == |multiset(ms')|;
    StreamingIsRecomputation(ops);
    StreamingIsRecomputation(ops');
    SumOfPermutation(ms, ms', Length);
    SameLevels(Run(ops).messagesByLevel, Run(ops').messagesByLevel, ms, ms');
  }

  // -------------------------------------------------------------- sliding window

  function Clock(op: Op): int { op.now }

  predicate Monotone(ops: seq<Op>) {
    forall i, j :: 0 <= i < j < |ops| ==> Clock(ops[i]) <= Clock(ops[j])
  }

  predicate Sorted(ts: seq<int>) {
    forall i, j :: 0 <= i < j < |ts| ==> ts[i] <= ts[j]
  }

  // How many timestamps are not before the cutoff.
  function CountFrom(ts: seq<int>, cutoff: int): nat {
    if ts == [] then 0 else CountFrom(ts[1..], cutoff) + if ts[0] >= cutoff then 1 else 0
  }

  // kept is what is left of all after dropping some timestamps that are before the horizon.
  ghost predicate SuffixAfter(kept: seq<int>, all: seq<int>, horizon: int) {
    exists k :: 0 <= k <= |all| && kept == all[k..] && forall i :: 0 <= i < k ==> all[i] < horizon
  }

  lemma {:induction false} CountOfSorted(ts: seq<int>, k: nat, cutoff: int)
    requires k <= |ts| && (forall i :: 0 <= i < k ==> ts[i] < cutoff)
    requires forall i :: k <= i < |ts| ==> ts[i] >= cutoff
    ensures CountFrom(ts, cutoff) == |ts| - k
  {
    if ts != [] {
      CountOfSorted(ts[1..], if k > 0 then k - 1 else 0, cutoff);
    }
  }

  lemma {:induction false} PruneOfSorted(ts: seq<int>, cutoff: int) returns (k: nat)
    requires Sorted(ts)
    ensures k <= |ts| && Pruned(ts, cutoff) == ts[k..]
    ensures forall i :: 0 <= i < k ==> ts[i] < cutoff
    ensures forall i :: k <= i < |ts| ==> ts[i] >= cutoff
  {
    if ts != [] && ts[0] < cutoff {
      k := PruneOfSorted(ts[1..], cutoff);
      assert ts[1..][k..] == ts[k + 1..];
      k := k + 1;
    } else {
      k := 0;
    }
  }

  lemma SuffixOfSuffix(all: seq<int>, k: nat, n: nat)
    requires k <= |all| && n <= |all| - k
    ensures all[k..][n..] == all[k + n..] && |all[k + n..]| == |all| - k - n
  {
  }

  // The timestamps before the cutoff are the first k + n ones.
  lemma PruneOfRest(all: seq<int>, k: nat, cutoff: int) returns (n: nat)
    requires Sorted(all) && k <= |all| && forall i :: 0 <= i < k ==> all[i] < cutoff
    ensures n <= |all| - k && Pruned(all[k..], cutoff) == all[k + n..]
    ensures forall i :: 0 <= i < k + n ==> all[i] < cutoff
    ensures forall i :: k + n <= i < |all| ==> all[i] >= cutoff
  {
    hide Pruned;
    var rest := all[k..];
    n := PruneOfSorted(rest, cutoff);
    SuffixOfSuffix(all, k, n);
    forall i | k <= i < |all|
      ensures all[i] < cutoff <==> i < k + n
    {
      assert all[i] == rest[i - k];
    }
  }

  lemma PruneOfSuffix(kept: seq<int>, all: seq<int>, horizon: int, cutoff: int)
    requires Sorted(all) && SuffixAfter(kept, all, horizon) && horizon <= cutoff
    ensures SuffixAfter(Pruned(kept, cutoff), all, cutoff)
    ensures |Pruned(kept, cutoff)| == CountFrom(all, cutoff)
  {
    hide Pruned, CountFrom, Sorted;
    var k :| 0 <= k <= |all| && kept == all[k..] && forall i :: 0 <= i < k ==> all[i] < horizon;
    var n := PruneOfRest(all, k, cutoff);
    CountOfSorted(all, k + n, cutoff);
  }

  // Some clock reading not after now and not before any operation's.
  ghost predicate UpTo(ops: seq<Op>, now: int) {
    Monotone(ops) && (ops != [] ==> Clock(ops[|ops| - 1]) <= now)
  }

  lemma {:induction false} TimesAreSorted(ops: seq<Op>, now: int)
    requires UpTo(ops, now)
    ensures Sorted(Times(ops)) && forall t :: t in Times(ops) ==> t <= now
  {
    if ops != [] {
      var before, op := ops[..|ops| - 1], ops[|ops| - 1];
      TimesAreSorted(before, Clock(op));
      var earlier := Times(before);
      forall i | 0 <= i < |earlier| ensures earlier[i] <= Clock(op) {
        assert earlier[i] in earlier;
      }
    }
  }

  lemma SuffixGrows(kept: seq<int>, all: seq<int>, horizon: int, later: int, added: seq<int>)
    requires SuffixAfter(kept, all, horizon) && horizon <= later
    ensures SuffixAfter(kept + added, all + added, later)
    ensures added == [] ==> kept + added == kept && all + added == all
  {
    var k :| 0 <= k <= |all| && kept == all[k..] && forall i :: 0 <= i < k ==> all[i] < horizon;
    assert kept + added == (all + added)[k..];
  }

  lemma {:induction false} WindowIsSuffix(ops: seq<Op>, now: int)
    requires UpTo(ops, now)
    ensures SuffixAfter(Run(ops).timestamps, Times(ops), now - HOUR)
    decreases |ops|, 1
  {
    if ops == [] {
      assert [] == Times(ops)[0..];
    } else {
      WindowStep(ops[..|ops| - 1], ops[|ops| - 1], now);
    }
  }

  lemma WindowStep(before: seq<Op>, op: Op, now: int)
    requires UpTo(before, Clock(op)) && Clock(op) <= now
    ensures SuffixAfter(Apply(Run(before), op).timestamps,
                        Times(before) + if op.Add? then [op.now] else [], now - HOUR)
    decreases |before| + 1, 0
  {
    hide SuffixAfter, Run, Times, Pruned;
    var kept, all, horizon := Run(before).timestamps, Times(before), Clock(op) - HOUR;
    WindowIsSuffix(before, Clock(op));
    TimesAreSorted(before, Clock(op));
    if op.Add? {
      SuffixGrows(kept, all, horizon, now - HOUR, [op.now]);
    } else {
      PruneOfSuffix(kept, all, horizon, horizon);
      SuffixGrows(Pruned(kept, horizon), all, horizon, now - HOUR, []);
    }
  }

  /** The sliding window refines the full history: under a non-decreasing clock the pruned
      deque is a sorted suffix of all timestamps ever added, and an update at any later
      time counts exactly the timestamps of the whole history that are at most one hour
      old. Earlier updates, wherever they happened, never change a later answer. */
  lemma WindowCountsWholeHistory(ops: seq<Op>, now: int)
    requires UpTo(ops, now)
    ensures SuffixAfter(Run(ops).timestamps, Times(ops), now - HOUR) && Sorted(Times(ops))
    ensures Refreshed(Run(ops), now).messagesLastHour == CountFrom(Times(ops), now - HOUR)
  {
    hide SuffixAfter, Run, Times, CountFrom, Pruned;
    WindowIsSuffix(ops, now);
    TimesAreSorted(ops, now);
    PruneOfSuffix(Run(ops).timestamps, Times(ops), now - HOUR, now - HOUR);
  }

  /** The hour in ticks, and that it is inclusive: a message counts for exactly
      3,600,000,000,000 nanoseconds. */
  lemma OneHourExactly(m: Message, now: int, later: int)
    requires now <= later
    ensures Refreshed(Run([Add(m, now)]), later).messagesLastHour == if later - now <= 3_600_000_000_000 then 1 else 0
  {
    var ops := [Add(m, now)];
    assert ops[..0] == [];
    assert Run(ops).timestamps == [now] && [now][1..] == [];
    var cutoff := later - 3_600_000_000_000;
    assert Pruned([now], cutoff) == if now < cutoff then Pruned([], cutoff) else [now];
  }

  /** Before the first message the smallest length is the largest 64-bit number. */
  lemma InitialFigures()
    ensures InitialStats.minLength == 18_446_744_073_709_551_615 && InitialStats.maxLength == 0
    ensures InitialStats.messagesByLevel == map[0 := 0, 1 := 0, 2 := 0, 3 := 0, 4 := 0]
    ensures InitialStats.totalMessages == InitialStats.lastPrinted == InitialStats.messagesLastHour == 0
  {
  }
}
