/** The log line: the printer of the logger library (src/logger/utility.cpp) and the two
    bracket scanners of the metrics application (src/metrics_application/utility.cpp). */
module LogLine {
  import opened Options
  import opened LogLevels

  function FormatMessage(timestamp: string, level: LogLevel, message: string): string {
    "[" + timestamp + "] [" + LevelName(level) + "] " + message
  }

  ghost predicate Absent(s: string, c: char, lo: nat, hi: nat)
    requires hi <= |s|
  {
    forall i :: lo <= i < hi ==> s[i] != c
  }

  // The first position at or after from that holds c.
  function Find(s: string, c: char, from: nat): (r: Option<nat>)
    ensures r.Some? ==> from <= r.value < |s| && s[r.value] == c && Absent(s, c, from, r.value)
    ensures r.None? ==> Absent(s, c, from, |s|)
    decreases |s| - from
  {
    if from >= |s| then None
    else if s[from] == c then Some(from)
    else Find(s, c, from + 1)
  }

  // The first position at or after from that holds no whitespace, or the end.
  function SkipSpaces(s: string, from: nat): (r: nat)
    requires from <= |s|
    ensures from <= r <= |s|
    ensures r < |s| ==> !IsSpace(s[r])
    ensures forall i :: from <= i < r ==> IsSpace(s[i])
    decreases |s| - from
  {
    if from < |s| && IsSpace(s[from]) then SkipSpaces(s, from + 1) else from
  }

  function DropSpaces(s: string): string {
    s[SkipSpaces(s, 0)..]
  }

  lemma NameBetweenBrackets(timestamp: string, level: LogLevel, message: string)
    ensures FormatMessage(timestamp, level, message) == "[" + timestamp + ("] [" + LevelName(level) + "] ") + message
  {
    hide LevelName;
  }

  lemma PrintedNames()
    ensures "] [" + LevelName(0) + "] " == "] [DEBUG] " && "] [" + LevelName(1) + "] " == "] [INFO] "
    ensures "] [" + LevelName(2) + "] " == "] [WARNING] " && "] [" + LevelName(3) + "] " == "] [ERROR] "
    ensures "] [" + LevelName(4) + "] " == "] [FATAL] "
  {
  }

  /** The printed line, level by level. */
  lemma PrintedLine(timestamp: string, message: string)
    ensures FormatMessage(timestamp, 0, message) == "[" + timestamp + "] [DEBUG] " + message
    ensures FormatMessage(timestamp, 1, message) == "[" + timestamp + "] [INFO] " + message
    ensures FormatMessage(timestamp, 2, message) == "[" + timestamp + "] [WARNING] " + message
    ensures FormatMessage(timestamp, 3, message) == "[" + timestamp + "] [ERROR] " + message
    ensures FormatMessage(timestamp, 4, message) == "[" + timestamp + "] [FATAL] " + message
  {
    hide FormatMessage, LevelName;
    forall level
      ensures FormatMessage(timestamp, level, message) == "[" + timestamp + ("] [" + LevelName(level) + "] ") + message
    {
      NameBetweenBrackets(timestamp, level, message);
    }
    PrintedNames();
  }

  /** The whitespace skipped before a message: exactly the leading characters with these
      six codes. */
  lemma LeadingWhitespace(s: string) returns (k: nat)
    ensures k <= |s| && DropSpaces(s) == s[k..]
    ensures forall i :: 0 <= i < k ==> s[i] as int in {9, 10, 11, 12, 13, 32}
    ensures k < |s| ==> s[k] as int !in {9, 10, 11, 12, 13, 32}
  {
    k := SkipSpaces(s, 0);
  }

  /** The scanner that reads the level. Cutting the text between the second pair of
      brackets is well defined: the second closing bracket lies after the opening one. */
  function ParseLevelFromLog(log: string): Option<LogLevel> {
    var firstBracket :- Find(log, '[', 0);
    var firstClosing :- Find(log, ']', firstBracket);
    var secondBracket :- Find(log, '[', firstClosing);
    var secondClosing :- Find(log, ']', secondBracket);
    ParseLevel(log[secondBracket + 1..secondClosing])
  }

  // What the scanner that reads the message returns.
  function MessageOf(log: string): Option<string> {
    var firstBracket :- Find(log, '[', 0);
    var firstClosing :- Find(log, ']', firstBracket);
    var secondBracket :- Find(log, '[', firstClosing);
    var secondClosing :- Find(log, ']', secondBracket);
    Some(log[SkipSpaces(log, secondClosing + 1)..])
  }

  /** The scanner that reads the message, with its whitespace-skipping loop. */
  method ParseMessageFromLog(log: string) returns (message: Option<string>)
    ensures message == MessageOf(log)
  {
    var firstBracket := Find(log, '[', 0);
    if firstBracket.None? { return None; }
    var firstClosing := Find(log, ']', firstBracket.value);
    if firstClosing.None? { return None; }
    var secondBracket := Find(log, '[', firstClosing.value);
    if secondBracket.None? { return None; }
    var secondClosing := Find(log, ']', secondBracket.value);
    if secondClosing.None? { return None; }

    var messageStart := secondClosing.value + 1;
    while messageStart < |log| && IsSpace(log[messageStart])
      invariant secondClosing.value < messageStart <= |log|
      invariant SkipSpaces(log, messageStart) == SkipSpaces(log, secondClosing.value + 1)
    {
      messageStart := messageStart + 1;
    }
    if messageStart >= |log| {
      assert log[messageStart..] == "";
      return Some("");
    }
    return Some(log[messageStart..]);
  }

  lemma SkipIsDrop(s: string, from: nat)
    requires from <= |s|
    ensures s[SkipSpaces(s, from)..] == DropSpaces(s[from..])
  {
  }

  /** A header without reference to searching: a is the first '[', b the first ']' after
      it, c the first '[' after that, and d the first ']' after c. */
  ghost predicate IsHeader(s: string, a: nat, b: nat, c: nat, d: nat) {
    && a < b < c < d < |s|
    && s[a] == '[' && Absent(s, '[', 0, a)
    && s[b] == ']' && Absent(s, ']', a, b)
    && s[c] == '[' && Absent(s, '[', b, c)
    && s[d] == ']' && Absent(s, ']', c, d)
  }

  lemma HeaderPositions(s: string, a: nat, b: nat, c: nat, d: nat)
    requires IsHeader(s, a, b, c, d)
    ensures Find(s, '[', 0) == Some(a) && Find(s, ']', a) == Some(b)
    ensures Find(s, '[', b) == Some(c) && Find(s, ']', c) == Some(d)
  {
  }

  lemma HeaderGivesLevel(s: string, a: nat, b: nat, c: nat, d: nat)
    requires IsHeader(s, a, b, c, d)
    ensures ParseLevelFromLog(s) == ParseLevel(s[c + 1..d])
  {
    hide ParseLevel;
    HeaderPositions(s, a, b, c, d);
  }

  lemma HeaderGivesMessage(s: string, a: nat, b: nat, c: nat, d: nat)
    requires IsHeader(s, a, b, c, d)
    ensures MessageOf(s) == Some(s[SkipSpaces(s, d + 1)..])
  {
    HeaderPositions(s, a, b, c, d);
  }

  ghost predicate HasHeader(s: string) {
    exists a: nat, b: nat, c: nat, d: nat :: IsHeader(s, a, b, c, d)
  }

  ghost predicate HasLevelHeader(s: string) {
    exists a: nat, b: nat, c: nat, d: nat :: IsHeader(s, a, b, c, d) && ParseLevel(s[c + 1..d]).Some?
  }

  lemma ScannedHeader(s: string)
    requires MessageOf(s).Some? || ParseLevelFromLog(s).Some?
    ensures HasHeader(s)
    ensures ParseLevelFromLog(s).Some? ==> HasLevelHeader(s)
  {
    var a := Find(s, '[', 0).value;
    var b := Find(s, ']', a).value;
    var c := Find(s, '[', b).value;
    var d := Find(s, ']', c).value;
    assert IsHeader(s, a, b, c, d);
  }

  /** The two separately written scanners agree on every string. Both work on the same
      header, whose four positions strictly increase; the message is read exactly when a
      header exists, and the level exactly when, besides, the bracketed text names one. */
  lemma ScannersAgree(s: string)
    ensures MessageOf(s).Some? <==> HasHeader(s)
    ensures ParseLevelFromLog(s).Some? <==> HasLevelHeader(s)
    ensures ParseLevelFromLog(s).Some? ==> MessageOf(s).Some?
    ensures forall a: nat, b: nat, c: nat, d: nat :: IsHeader(s, a, b, c, d) ==>
              ParseLevelFromLog(s) == ParseLevel(s[c + 1..d]) && MessageOf(s) == Some(DropSpaces(s[d + 1..]))
  {
    hide ParseLevel, DropSpaces;
    forall a: nat, b: nat, c: nat, d: nat | IsHeader(s, a, b, c, d)
      ensures ParseLevelFromLog(s) == ParseLevel(s[c + 1..d]) && MessageOf(s) == Some(DropSpaces(s[d + 1..]))
    {
      HeaderGivesLevel(s, a, b, c, d);
      HeaderGivesMessage(s, a, b, c, d);
      SkipIsDrop(s, d + 1);
    }
    if MessageOf(s).Some? || ParseLevelFromLog(s).Some? {
      ScannedHeader(s);
    }
  }

  // No '[' follows a ']'. Every timestamp without ']' is clean.
  ghost predicate Clean(timestamp: string) {
    forall i, j :: 0 <= i < j < |timestamp| && timestamp[i] == ']' ==> timestamp[j] != '['
  }

  lemma FormatShape(ts: string, level: LogLevel, message: string)
    ensures
      var s := FormatMessage(ts, level, message);
      var name := LevelName(level);
      var c := |ts| + 3;
      var d := c + 1 + |name|;
      && |s| == d + 2 + |message|
      && s[0] == '[' && s[1..|ts| + 1] == ts && s[|ts| + 1] == ']' && s[|ts| + 2] == ' '
      && s[c] == '[' && s[c + 1..d] == name && s[d] == ']' && s[d + 1] == ' '
      && s[d + 2..] == message
  {
  }

  lemma CleanHeader(ts: string, level: LogLevel, message: string) returns (b: nat)
    requires Clean(ts)
    ensures
      var s := FormatMessage(ts, level, message);
      var c := |ts| + 3;
      IsHeader(s, 0, b, c, c + 1 + |LevelName(level)|)
  {
    hide FormatMessage, LevelName;
    FormatShape(ts, level, message);
    NameHasNoBracket(level);
    var s := FormatMessage(ts, level, message);
    var c := |ts| + 3;
    var d := c + 1 + |LevelName(level)|;
    var closing := Find(s, ']', 0);
    assert s[|ts| + 1] == ']';
    b := closing.value;
    assert b <= |ts| + 1;
    assert Absent(s, '[', b, c) by {
      forall k | b <= k < c ensures s[k] != '[' {
        if b < k < |ts| + 1 {
          assert s[b] == s[1..|ts| + 1][b - 1] && s[k] == s[1..|ts| + 1][k - 1];
        }
      }
    }
    assert Absent(s, ']', c, d) by {
      forall k | c <= k < d ensures s[k] != ']' {
        if c < k { assert s[k] == s[c + 1..d][k - c - 1] && s[k] in LevelName(level); }
      }
    }
  }

  lemma DirtyHeader(ts: string, level: LogLevel, message: string)
    requires !Clean(ts)
    ensures
      var s := FormatMessage(ts, level, message);
      MessageOf(s).Some? && |MessageOf(s).value| > |message|
  {
    FormatShape(ts, level, message);
    var s := FormatMessage(ts, level, message);
    var i, j :| 0 <= i < j < |ts| && ts[i] == ']' && ts[j] == '[';
    assert s[i + 1] == s[1..|ts| + 1][i] && s[j + 1] == s[1..|ts| + 1][j];
    var b := Find(s, ']', 0).value;
    assert b <= i + 1;
    var c := Find(s, '[', b).value;
    assert c <= j + 1;
    var d := Find(s, ']', c).value;
    assert d <= |ts| + 1;
    // The level's own bracket is left in the remaining text, so it cannot be skipped.
    assert SkipSpaces(s, d + 1) <= |ts| + 3;
  }

  lemma CleanLevel(ts: string, level: LogLevel, message: string)
    requires Clean(ts)
    ensures ParseLevelFromLog(FormatMessage(ts, level, message)) == if Defined(level) then Some(level) else None
  {
    var s := FormatMessage(ts, level, message);
    var name := LevelName(level);
    var b := CleanHeader(ts, level, message);
    assert s[|ts| + 4..|ts| + 4 + |name|] == name by {
      FormatShape(ts, level, message);
    }
    HeaderGivesLevel(s, 0, b, |ts| + 3, |ts| + 4 + |name|);
    assert ParseLevel(name) == (if Defined(level) then Some(level) else None) by {
      NameParses(level);
    }
  }

  lemma HeaderThenText(s: string, a: nat, b: nat, c: nat, d: nat)
    requires IsHeader(s, a, b, c, d) && d + 1 < |s| && s[d + 1] == ' '
    ensures MessageOf(s) == Some(DropSpaces(s[d + 2..]))
  {
  }

  lemma CleanMessage(ts: string, level: LogLevel, message: string)
    requires Clean(ts)
    ensures MessageOf(FormatMessage(ts, level, message)) == Some(DropSpaces(message))
  {
    var s := FormatMessage(ts, level, message);
    var b := CleanHeader(ts, level, message);
    var d := |ts| + 4 + |LevelName(level)|;
    FormatShape(ts, level, message);
    HeaderThenText(s, 0, b, |ts| + 3, d);
  }

  /** Log line round trip, with its exact condition: whatever the level and the message
      (brackets and newlines included), the parsers give back the level and the message
      without its leading whitespace if and only if no '[' follows a ']' inside the
      timestamp. A level outside the enumeration prints as UNKNOWN and is not read back. */
  lemma RoundTrip(ts: string, level: LogLevel, message: string)
    ensures
      var s := FormatMessage(ts, level, message);
      Clean(ts) <==>
      && ParseLevelFromLog(s) == (if Defined(level) then Some(level) else None)
      && MessageOf(s) == Some(DropSpaces(message))
  {
    if Clean(ts) {
      CleanLevel(ts, level, message);
      CleanMessage(ts, level, message);
    } else {
      DirtyHeader(ts, level, message);
    }
  }

  /** The message comes back unchanged exactly when it does not start with whitespace. */
  lemma MessageSurvivesExactly(ts: string, level: LogLevel, message: string)
    requires Clean(ts)
    ensures MessageOf(FormatMessage(ts, level, message)) == Some(message)
            <==> message == "" || !IsSpace(message[0])
  {
    CleanMessage(ts, level, message);
  }

  /** Several frames handed over in one batch are read as one message: the level is that
      of the first frame and the text is everything after its header. */
  lemma BatchReadsAsFirstFrame(ts: string, level: LogLevel, message: string, rest: string)
    requires Clean(ts) && Defined(level)
    ensures ParseLevelFromLog(FormatMessage(ts, level, message) + rest) == Some(level)
    ensures MessageOf(FormatMessage(ts, level, message) + rest) == Some(DropSpaces(message + rest))
  {
    assert FormatMessage(ts, level, message) + rest == FormatMessage(ts, level, message + rest);
    CleanLevel(ts, level, message + rest);
    CleanMessage(ts, level, message + rest);
  }
}
