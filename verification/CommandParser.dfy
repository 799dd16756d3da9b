/** The console command parser (src/test_application/command_parser.cpp). */
module CommandParser {
  import opened Options
  import opened LogLevels
  import LogLine

  datatype Command = LogMessage(message: string, level: Option<LogLevel>) | Help | Exit

  // The four characters trim strips; isspace knows two more.
  predicate IsTrim(c: char) {
    c == ' ' || c == '\t' || c == '\r' || c == '\n'
  }

  predicate Blank(s: string) {
    forall i :: 0 <= i < |s| ==> IsTrim(s[i])
  }

  predicate Trimmed(s: string) {
    s != "" ==> !IsTrim(s[0]) && !IsTrim(s[|s| - 1])
  }

  function TrimStart(s: string, from: nat): (a: nat)
    requires from <= |s|
    ensures from <= a <= |s|
    ensures forall i :: from <= i < a ==> IsTrim(s[i])
    ensures a < |s| ==> !IsTrim(s[a])
    decreases |s| - from
  {
    if from < |s| && IsTrim(s[from]) then TrimStart(s, from + 1) else from
  }

  function TrimEnd(s: string, to: nat): (b: nat)
    requires to <= |s|
    ensures b <= to
    ensures forall i :: b <= i < to ==> IsTrim(s[i])
    ensures 0 < b ==> !IsTrim(s[b - 1])
  {
    if 0 < to && IsTrim(s[to - 1]) then TrimEnd(s, to - 1) else to
  }

  function Trim(s: string): (r: string)
    ensures Trimmed(r)
    ensures r == "" <==> Blank(s)
  {
    var start := TrimStart(s, 0);
    if start == |s| then "" else s[start..TrimEnd(s, |s|)]
  }

  // The last position before end that holds c.
  function RFind(s: string, c: char, end: nat): (r: Option<nat>)
    requires end <= |s|
    ensures r.Some? ==> r.value < end && s[r.value] == c && LogLine.Absent(s, c, r.value + 1, end)
    ensures r.None? ==> LogLine.Absent(s, c, 0, end)
  {
    if end == 0 then None
    else if s[end - 1] == c then Some(end - 1)
    else RFind(s, c, end - 1)
  }

  function Keep(token: string): seq<string> {
    if token == "" then [] else [token]
  }

  // One getline: where the piece starting at from ends, and where the next one starts.
  function PieceEnd(s: string, delimiter: char, from: nat): (end: nat)
    requires from < |s|
    ensures from <= end <= |s|
  {
    LogLine.Find(s, delimiter, from).GetOr(|s|)
  }

  function NextPiece(s: string, delimiter: char, from: nat): (next: nat)
    requires from < |s|
    ensures from < next <= |s|
  {
    var end := PieceEnd(s, delimiter, from);
    if end < |s| then end + 1 else end
  }

  // The trimmed, non-empty pieces of s from a position on.
  function Tokens(s: string, delimiter: char, from: nat): seq<string>
    decreases |s| - from
  {
    if from >= |s| then []
    else Keep(Trim(s[from..PieceEnd(s, delimiter, from)])) + Tokens(s, delimiter, NextPiece(s, delimiter, from))
  }

  /** The getline loop: reads up to the next delimiter until the stream is exhausted. */
  method Split(str: string, delimiter: char) returns (tokens: seq<string>)
    ensures tokens == Tokens(str, delimiter, 0)
  {
    tokens := [];
    var position := 0;
    while position < |str|
      invariant position <= |str|
      invariant tokens + Tokens(str, delimiter, position) == Tokens(str, delimiter, 0)
    {
      var next := NextPiece(str, delimiter, position);
      var token := Trim(str[position..PieceEnd(str, delimiter, position)]);
      Regroup(tokens, token, Tokens(str, delimiter, next));
      if token != "" {
        tokens := tokens + [token];
      }
      position := next;
    }
  }

  lemma Regroup(tokens: seq<string>, token: string, rest: seq<string>)
    ensures tokens + (Keep(token) + rest) == (if token != "" then tokens + [token] else tokens) + rest
  {
  }

  // The rest of parse_command: a last token that names a level is cut off, unless it is
  // the only one.
  function ParseLog(trimmed: string, tokens: seq<string>): Option<Command> {
    if tokens == [] then None else
    var level := ParseLevel(tokens[|tokens| - 1]);
    if level.Some? && |tokens| > 1 then
      var cut := RFind(trimmed, ' ', |trimmed|);
      Some(LogMessage(Trim(if cut.Some? then trimmed[..cut.value] else trimmed), level))
    else
      Some(LogMessage(trimmed, None))
  }

  function ParseCommand(input: string): Option<Command> {
    var trimmed := Trim(input);
    if trimmed == "" then None
    else if trimmed == "exit" || trimmed == "quit" then Some(Exit)
    else if trimmed == "help" then Some(Help)
    else
      ParseLog(trimmed, Tokens(trimmed, ' ', 0))
  }

  // ---------------------------------------------------------------- trimming

  lemma TrimOfPadded(s: string, a: nat, b: nat)
    requires a < b <= |s| && !IsTrim(s[a]) && !IsTrim(s[b - 1])
    requires forall i :: 0 <= i < a || b <= i < |s| ==> IsTrim(s[i])
    ensures Trim(s) == s[a..b]
  {
  }

  lemma TrimSplits(s: string) returns (before: string, after: string)
    ensures s == before + Trim(s) + after && Blank(before) && Blank(after)
  {
    var a, b := TrimStart(s, 0), TrimEnd(s, |s|);
    if a == |s| {
      before, after := s, "";
    } else {
      before, after := s[..a], s[b..];
    }
  }

  /** What trim strips, by character codes: from both ends blanks, tabs, line feeds and
      carriage returns, and nothing else. */
  lemma TrimExactly(s: string) returns (a: nat, b: nat)
    ensures a <= b <= |s| && Trim(s) == s[a..b]
    ensures forall i :: 0 <= i < a || b <= i < |s| ==> s[i] as int in {9, 10, 13, 32}
    ensures a < b ==> s[a] as int !in {9, 10, 13, 32} && s[b - 1] as int !in {9, 10, 13, 32}
  {
    a, b := TrimStart(s, 0), TrimEnd(s, |s|);
    if a == |s| {
      b := |s|;
    }
  }

  lemma TrimOfTrimmed(s: string)
    requires Trimmed(s)
    ensures Trim(s) == s
  {
  }

  // ----------------------------------------- forward tokens and reverse search

  // Where the text after the last space starts, looking no further back than from.
  function LastCut(s: string, from: nat): nat {
    var k := RFind(s, ' ', |s|);
    if k.Some? && from <= k.value then k.value + 1 else from
  }

  lemma CutIsLastSpace(s: string, from: nat)
    requires from < |s| && s[|s| - 1] != ' '
    ensures LastCut(s, from) < |s|
    ensures
      var next := NextPiece(s, ' ', from);
      if next == |s| then PieceEnd(s, ' ', from) == |s| && LastCut(s, from) == from
      else LastCut(s, from) == LastCut(s, next)
  {
  }

  lemma {:induction false} LastTokenFrom(s: string, from: nat)
    requires from < |s| && !IsTrim(s[|s| - 1])
    ensures LastCut(s, from) < |s|
    ensures
      var tokens := Tokens(s, ' ', from);
      tokens != [] && tokens[|tokens| - 1] == Trim(s[LastCut(s, from)..|s|])
    decreases |s| - from
  {
    CutIsLastSpace(s, from);
    var next := NextPiece(s, ' ', from);
    var token := Trim(s[from..PieceEnd(s, ' ', from)]);
    if next == |s| {
      assert s[from..|s|][|s| - from - 1] == s[|s| - 1];
      assert Tokens(s, ' ', from) == [token] + [];
    } else {
      LastTokenFrom(s, next);
    }
  }

  lemma FirstTokenKept(s: string)
    requires s != "" && !IsTrim(s[0])
    ensures Keep(Trim(s[0..PieceEnd(s, ' ', 0)])) != []
  {
  }

  lemma OnlyToken(s: string)
    requires Trimmed(s) && s != "" && NextPiece(s, ' ', 0) == |s| && PieceEnd(s, ' ', 0) == |s|
    ensures Tokens(s, ' ', 0) == [s]
  {
    var piece := s[0..|s|];
    assert piece == s;
    TrimOfTrimmed(s);
    assert Tokens(s, ' ', |s|) == [];
  }

  lemma SeveralTokens(s: string)
    requires Trimmed(s) && s != "" && NextPiece(s, ' ', 0) < |s|
    ensures |Tokens(s, ' ', 0)| > 1
  {
    FirstTokenKept(s);
    LastTokenFrom(s, NextPiece(s, ' ', 0));
  }

  /** The tokenizer and the reverse search agree: on a non-empty trimmed text the last
      token is the trimmed text after the last space (all of it when there is none), and
      there is more than one token exactly when there is a space. */
  lemma TokenizerAgrees(s: string)
    requires Trimmed(s) && s != ""
    ensures LastCut(s, 0) < |s|
    ensures
      var tokens := Tokens(s, ' ', 0);
      && tokens != []
      && (|tokens| > 1 <==> RFind(s, ' ', |s|).Some?)
      && tokens[|tokens| - 1] == Trim(s[LastCut(s, 0)..|s|])
  {
    CutIsLastSpace(s, 0);
    LastTokenFrom(s, 0);
    if RFind(s, ' ', |s|).None? {
      OnlyToken(s);
    } else {
      SeveralTokens(s);
    }
  }

  // -------------------------------------------------- what the parser accepts

  /** The text is: padding, the message, a gap of trim characters holding at least one
      space, a word naming the level in any mix of cases, padding. */
  ghost predicate WrittenWithLevel(input: string, message: string, level: LogLevel) {
    exists before, gap, word, after ::
      input == before + message + gap + word + after && Frame(before, message, gap, word, after, level)
  }

  ghost predicate Frame(before: string, message: string, gap: string, word: string, after: string, level: LogLevel) {
    && Blank(before) && Blank(gap) && ' ' in gap && Blank(after)
    && message != "" && Trimmed(message)
    && ParseLevel(word) == Some(level)
  }

  ghost predicate SpaceBetween(t: string, p: nat, g: nat)
    requires g <= |t|
  {
    !LogLine.Absent(t, ' ', p, g)
  }

  // A trimmed text t = message + gap + word, cut at positions p and g.
  ghost predicate CutsInto(t: string, p: nat, g: nat, level: LogLevel) {
    && 0 < p < g < |t| && !IsTrim(t[0]) && !IsTrim(t[p - 1])
    && (forall i :: p <= i < g ==> IsTrim(t[i]))
    && ParseLevel(t[g..]) == Some(level)
  }

  lemma WordHasNoTrim(t: string, g: nat)
    requires g <= |t| && ParseLevel(t[g..]).Some?
    ensures g < |t| && forall i :: g <= i < |t| ==> !IsTrim(t[i])
  {
    var word := t[g..];
    LevelTextIsWord(word);
    forall i | g <= i < |t| ensures !IsTrim(t[i]) {
      assert word[i - g] == t[i] && word[i - g] in word;
    }
  }

  lemma MessageBeforeCut(t: string, p: nat, k: nat)
    requires 0 < p <= k <= |t| && !IsTrim(t[0]) && !IsTrim(t[p - 1])
    requires forall i :: p <= i < k ==> IsTrim(t[i])
    ensures Trim(t[..k]) == t[..p]
  {
  }

  lemma TailOfTail(t: string, k: nat, g: nat)
    requires k <= g <= |t|
    ensures |t[k..|t|]| == |t| - k && t[k..|t|][g - k..|t| - k] == t[g..]
  {
    var inner, word := t[k..|t|][g - k..|t| - k], t[g..];
    assert |inner| == |word|;
    forall i | 0 <= i < |word| ensures inner[i] == word[i] {
      assert inner[i] == t[k..|t|][g - k + i] == t[g + i];
    }
  }

  lemma WordAfterCut(t: string, g: nat, k: nat)
    requires k <= g < |t| && !IsTrim(t[g]) && !IsTrim(t[|t| - 1])
    requires forall i :: k <= i < g ==> IsTrim(t[i])
    ensures Trim(t[k..|t|]) == t[g..]
  {
    TailOfTail(t, k, g);
    TrimOfPadded(t[k..|t|], g - k, |t| - k);
  }

  lemma KeywordHasNoTrim(t: string, i: nat)
    requires i < |t| && IsTrim(t[i])
    ensures t != "exit" && t != "quit" && t != "help"
  {
  }

  lemma SpaceInGap(t: string, p: nat, g: nat, level: LogLevel) returns (k: nat)
    requires CutsInto(t, p, g, level)
    requires SpaceBetween(t, p, g)
    ensures RFind(t, ' ', |t|) == Some(k) && p <= k < g && LastCut(t, 0) == k + 1
    ensures !IsTrim(t[g]) && !IsTrim(t[|t| - 1])
  {
    WordHasNoTrim(t, g);
    k := RFind(t, ' ', |t|).value;
  }

  lemma TakesLevel(t: string, tokens: seq<string>, k: nat, message: string, word: string, level: LogLevel)
    requires RFind(t, ' ', |t|) == Some(k) && Trim(t[..k]) == message
    requires |tokens| > 1 && tokens[|tokens| - 1] == word && ParseLevel(word) == Some(level)
    ensures ParseLog(t, tokens) == Some(LogMessage(message, Some(level)))
  {
  }

  lemma LevelIsTaken(t: string, tokens: seq<string>, p: nat, g: nat, level: LogLevel)
    requires CutsInto(t, p, g, level)
    requires SpaceBetween(t, p, g)
    requires |tokens| > 1 && LastCut(t, 0) <= |t| && tokens[|tokens| - 1] == Trim(t[LastCut(t, 0)..|t|])
    ensures ParseLog(t, tokens) == Some(LogMessage(t[..p], Some(level)))
  {
    hide Trim, ParseLevel, LastCut;
    var k := SpaceInGap(t, p, g, level);
    WordAfterCut(t, g, k + 1);
    MessageBeforeCut(t, p, k);
    TakesLevel(t, tokens, k, t[..p], t[g..], level);
  }

  // A trim character with other text on both sides survives trimming.
  lemma GapStaysInside(t: string, cut: nat, p: nat)
    requires cut < p < |t| - 1 && !IsTrim(t[p - 1]) && IsTrim(t[p]) && !IsTrim(t[|t| - 1])
    ensures exists c :: c in Trim(t[cut..|t|]) && IsTrim(c)
  {
    var s := t[cut..|t|];
    var a := TrimStart(s, 0);
    assert s[p - 1 - cut] == t[p - 1] && s[|s| - 1] == t[|t| - 1];
    TrimOfPadded(s, a, |s|);
    assert s[a..|s|][p - cut - a] == t[p];
  }

  lemma LevelIsNotTaken(t: string, tokens: seq<string>, p: nat, g: nat, level: LogLevel)
    requires CutsInto(t, p, g, level)
    requires !SpaceBetween(t, p, g)
    requires LastCut(t, 0) <= |t| && tokens != [] && tokens[|tokens| - 1] == Trim(t[LastCut(t, 0)..|t|])
    ensures ParseLog(t, tokens) == Some(LogMessage(t, None))
  {
    WordHasNoTrim(t, g);
    var cut := LastCut(t, 0);
    assert cut < p;
    var token := Trim(t[cut..|t|]);
    if ParseLevel(token).Some? {
      LevelTextIsWord(token);
      GapStaysInside(t, cut, p);
    }
  }

  lemma PiecesOfTrimmed(message: string, gap: string, word: string, level: LogLevel) returns (t: string)
    requires Blank(gap) && gap != "" && message != "" && Trimmed(message) && ParseLevel(word) == Some(level)
    ensures t == message + gap + word && Trimmed(t)
    ensures CutsInto(t, |message|, |message| + |gap|, level) && t[..|message|] == message
    ensures SpaceBetween(t, |message|, |message| + |gap|) <==> ' ' in gap
  {
    t := message + gap + word;
    var p, g := |message|, |message| + |gap|;
    LevelTextIsWord(word);
    assert t[..p] == message && t[p..g] == gap && t[g..] == word;
    assert t[|t| - 1] == word[|word| - 1] && t[0] == message[0] && t[p - 1] == message[p - 1];
    assert forall i :: p <= i < g ==> t[i] == gap[i - p];
    if ' ' in gap {
      var j :| 0 <= j < |gap| && gap[j] == ' ';
      assert t[p + j] == ' ';
    }
    WordHasNoTrim(t, g);
  }

  lemma TrimDropsPadding(before: string, t: string, after: string)
    requires Blank(before) && Blank(after) && t != "" && Trimmed(t)
    ensures Trim(before + t + after) == t
  {
    var s := before + t + after;
    TrimOfPadded(s, |before|, |before| + |t|);
    assert s[|before|..|before| + |t|] == t;
  }

  /** Command round trip, with its exact condition. For every non-empty trimmed message,
      every level and any letter case of its name, any padding, and any non-empty gap of
      trim characters between the two: the message and the level are read back if and
      only if the gap holds a space. A gap of tabs only leaves the whole text as the
      message. */
  lemma CommandRoundTrip(before: string, message: string, gap: string, word: string, after: string, level: LogLevel)
    requires Blank(before) && Blank(gap) && gap != "" && Blank(after)
    requires message != "" && Trimmed(message) && ParseLevel(word) == Some(level)
    ensures
      var command := ParseCommand(before + (message + gap + word) + after);
      && (command == Some(LogMessage(message, Some(level))) <==> ' ' in gap)
      && (command == Some(LogMessage(message + gap + word, None)) <==> ' ' !in gap)
  {
    var t := PiecesOfTrimmed(message, gap, word, level);
    TrimDropsPadding(before, t, after);
    var p, g := |message|, |message| + |gap|;
    var tokens := Tokens(t, ' ', 0);
    TokenizerAgrees(t);
    KeywordHasNoTrim(t, p);
    if ' ' in gap {
      LevelIsTaken(t, tokens, p, g, level);
    } else {
      LevelIsNotTaken(t, tokens, p, g, level);
    }
  }

  lemma LogDecision(input: string) returns (message: string, level: Option<LogLevel>)
    requires Trim(input) !in ["", "exit", "quit", "help"]
    ensures
      var t := Trim(input);
      var tokens := Tokens(t, ' ', 0);
      && ParseCommand(input) == ParseLog(t, tokens) == Some(LogMessage(message, level))
      && tokens != [] && tokens[|tokens| - 1] == Trim(t[LastCut(t, 0)..|t|])
      && (level.None? ==> message == t)
      && (level.Some? ==> RFind(t, ' ', |t|).Some? && ParseLevel(tokens[|tokens| - 1]) == level
                          && message == Trim(t[..RFind(t, ' ', |t|).value]))
  {
    hide Trim, ParseLevel, LastCut, Tokens;
    var t := Trim(input);
    TokenizerAgrees(t);
    var command := ParseLog(t, Tokens(t, ' ', 0)).value;
    message, level := command.message, command.level;
  }

  lemma NoPadding(s: string, before: string, middle: string, after: string)
    requires s == before + middle + after && Blank(before) && Blank(after) && s != "" && !IsTrim(s[0])
    ensures before == "" && middle != ""
  {
  }

  lemma NoPaddingRight(s: string, before: string, middle: string, after: string)
    requires s == before + middle + after && Blank(after)
    ensures after == "" || IsTrim(s[|s| - 1])
  {
  }

  lemma Reassemble(t: string, k: nat, headStart: string, message: string, headEnd: string,
                   tailStart: string, word: string, tailEnd: string)
    returns (gap: string)
    requires Trimmed(t) && k < |t| && t[k] == ' '
    requires t[..k] == headStart + message + headEnd && t[k + 1..|t|] == tailStart + word + tailEnd
    requires Blank(headStart) && Blank(headEnd) && Blank(tailStart) && Blank(tailEnd)
    ensures t == message + gap + word && message != "" && Blank(gap) && ' ' in gap
  {
    var head, tail := t[..k], t[k + 1..|t|];
    assert k > 0 && head[0] == t[0] && k + 1 < |t| && tail[|tail| - 1] == t[|t| - 1];
    NoPadding(head, headStart, message, headEnd);
    NoPaddingRight(tail, tailStart, word, tailEnd);
    gap := headEnd + " " + tailStart;
    assert gap[|headEnd|] == ' ';
    assert t == head + " " + tail;
    assert head == message + headEnd && tail == tailStart + word;
  }

  lemma Enclose(input: string, before: string, t: string, after: string, message: string, gap: string, word: string)
    requires input == before + t + after && t == message + gap + word
    ensures input == before + message + gap + word + after
  {
  }

  lemma WordWasWritten(input: string, before: string, t: string, after: string, k: nat,
                       message: string, word: string, level: LogLevel)
    requires input == before + t + after && Blank(before) && Blank(after)
    requires Trimmed(t) && k < |t| && t[k] == ' '
    requires message == Trim(t[..k]) && word == Trim(t[k + 1..|t|]) && ParseLevel(word) == Some(level)
    ensures WrittenWithLevel(input, message, level)
  {
    var headStart, headEnd := TrimSplits(t[..k]);
    var tailStart, tailEnd := TrimSplits(t[k + 1..|t|]);
    var gap := Reassemble(t, k, headStart, message, headEnd, tailStart, word, tailEnd);
    Enclose(input, before, t, after, message, gap, word);
    assert Frame(before, message, gap, word, after, level);
  }

  lemma TakenLevelWasWritten(input: string, message: string, level: LogLevel)
    requires ParseCommand(input) == Some(LogMessage(message, Some(level)))
    ensures WrittenWithLevel(input, message, level)
  {
    hide Trim, ParseLevel, ParseLog, Tokens;
    var t := Trim(input);
    var m, l := LogDecision(input);
    var before, after := TrimSplits(input);
    var k := RFind(t, ' ', |t|).value;
    var word := Trim(t[k + 1..|t|]);
    assert ParseLevel(word) == Some(level);
    WordWasWritten(input, before, t, after, k, message, word, level);
  }

  /** What the parser accepts, in both directions: it returns a message with a level
      exactly when the input is that message, a gap with a space, a name of that level,
      and padding around them. */
  lemma LevelTakenExactly(input: string, message: string, level: LogLevel)
    ensures ParseCommand(input) == Some(LogMessage(message, Some(level)))
            <==> WrittenWithLevel(input, message, level)
  {
    if WrittenWithLevel(input, message, level) {
      var before, gap, word, after :|
        input == before + message + gap + word + after && Frame(before, message, gap, word, after, level);
      assert input == before + (message + gap + word) + after;
      CommandRoundTrip(before, message, gap, word, after, level);
    }
    if ParseCommand(input) == Some(LogMessage(message, Some(level))) {
      TakenLevelWasWritten(input, message, level);
    }
  }

  // ------------------------------------------------------------ conservation

  // The text without its trim characters.
  function Squeeze(s: string): (r: string) {
    if s == "" then "" else (if IsTrim(s[0]) then "" else [s[0]]) + Squeeze(s[1..])
  }

  lemma {:induction false} SqueezeConcat(a: string, b: string)
    ensures Squeeze(a + b) == Squeeze(a) + Squeeze(b)
  {
    if a == "" {
      assert a + b == b;
    } else {
      assert (a + b)[1..] == a[1..] + b;
      SqueezeConcat(a[1..], b);
    }
  }

  lemma {:induction false} SqueezeBlank(s: string)
    requires Blank(s)
    ensures Squeeze(s) == ""
  {
    if s != "" {
      SqueezeBlank(s[1..]);
    }
  }

  lemma {:induction false} SqueezeSolid(s: string)
    requires forall c :: c in s ==> !IsTrim(c)
    ensures Squeeze(s) == s
  {
    if s != "" {
      SqueezeSolid(s[1..]);
      assert s == [s[0]] + s[1..];
    }
  }

  lemma SqueezePadded(before: string, middle: string, after: string)
    requires Blank(before) && Blank(after)
    ensures Squeeze(before + middle + after) == Squeeze(middle)
  {
    SqueezeConcat(before + middle, after);
    SqueezeConcat(before, middle);
    SqueezeBlank(before);
    SqueezeBlank(after);
  }

  lemma SqueezeFrame(before: string, message: string, gap: string, word: string, after: string)
    requires Blank(before) && Blank(gap) && Blank(after) && forall c :: c in word ==> !IsTrim(c)
    ensures Squeeze(before + message + gap + word + after) == Squeeze(message) + word
  {
    SqueezeConcat(before + message + gap + word, after);
    SqueezeConcat(before + message + gap, word);
    SqueezePadded(before, message, gap);
    SqueezeBlank(after);
    SqueezeSolid(word);
  }

  /** Shape and conservation. A logged message is never empty and has no trim character at
      either end; apart from trim characters, nothing of the input is lost or invented: it
      is the message, followed by a name of the level when one was taken. */
  lemma CommandConservation(input: string, message: string, level: Option<LogLevel>)
    requires ParseCommand(input) == Some(LogMessage(message, level))
    ensures message != "" && Trimmed(message)
    ensures level.None? ==> Squeeze(input) == Squeeze(message)
    ensures level.Some? ==> exists word :: ParseLevel(word) == level && Squeeze(input) == Squeeze(message) + word
  {
    hide Tokens, ParseLevel, Squeeze;
    match level
    case None =>
      assert message == Trim(input);
      var before, after := TrimSplits(input);
      SqueezePadded(before, message, after);
    case Some(l) =>
      LevelTakenExactly(input, message, l);
      var before, gap, word, after :|
        input == before + message + gap + word + after && Frame(before, message, gap, word, after, l);
      LevelTextIsWord(word);
      SqueezeFrame(before, message, gap, word, after);
      assert ParseLevel(word) == level && Squeeze(input) == Squeeze(message) + word;
  }

  function Flattened(tokens: seq<string>): string {
    if tokens == [] then "" else tokens[0] + Flattened(tokens[1..])
  }

  lemma PieceAndRest(s: string, from: nat)
    requires from < |s|
    ensures
      var end, next := PieceEnd(s, ' ', from), NextPiece(s, ' ', from);
      && s[from..] == s[from..end] + s[end..next] + s[next..] && Blank(s[end..next]) && ' ' !in s[from..end]
  {
  }

  lemma TrimKeepsOut(s: string)
    requires ' ' !in s
    ensures ' ' !in Trim(s)
  {
  }

  lemma SqueezeTrimmed(s: string)
    ensures Squeeze(Trim(s)) == Squeeze(s)
  {
    hide Trim, Squeeze;
    var before, after := TrimSplits(s);
    SqueezePadded(before, Trim(s), after);
  }

  lemma SqueezeNothing()
    ensures Squeeze("") == ""
  {
  }

  /** What splitting at spaces gives: non-empty trimmed pieces without a space in them, and
      nothing of the text is lost, invented or reordered apart from trim characters. */
  lemma {:induction false} TokensArePieces(s: string, from: nat)
    requires from <= |s|
    ensures
      var tokens := Tokens(s, ' ', from);
      && (forall i :: 0 <= i < |tokens| ==> tokens[i] != "" && Trimmed(tokens[i]) && ' ' !in tokens[i])
      && Squeeze(Flattened(tokens)) == Squeeze(s[from..])
    decreases |s| - from
  {
    hide Trim, Trimmed, PieceEnd, NextPiece, Blank, Squeeze;
    if from < |s| {
      var end, next := PieceEnd(s, ' ', from), NextPiece(s, ' ', from);
      var piece := s[from..end];
      TokensArePieces(s, next);
      PieceAndRest(s, from);
      TrimKeepsOut(piece);
      SqueezeTrimmed(piece);
      SqueezeConcat(piece + s[end..next], s[next..]);
      SqueezeConcat(piece, s[end..next]);
      SqueezeBlank(s[end..next]);
      var rest := Tokens(s, ' ', next);
      if Trim(piece) != "" {
        assert ([Trim(piece)] + rest)[1..] == rest;
        SqueezeConcat(Trim(piece), Flattened(rest));
      } else {
        assert [] + rest == rest && "" + Squeeze(s[next..]) == Squeeze(s[next..]);
        SqueezeNothing();
      }
      assert Squeeze(piece) + "" == Squeeze(piece);
    } else {
      assert s[from..] == "";
    }
  }

  /** Without a level: the message is the whole trimmed input, and no other reading with a
      level exists. Together with LevelTakenExactly this decides every input. */
  lemma PlainMessageExactly(input: string, message: string)
    ensures ParseCommand(input) == Some(LogMessage(message, None)) <==>
            && message == Trim(input) && !Blank(input)
            && message !in ["exit", "quit", "help"]
            && forall m, l :: !WrittenWithLevel(input, m, l)
  {
    hide ParseLevel, ParseLog, Tokens, WrittenWithLevel;
    forall m, l
      ensures ParseCommand(input) == Some(LogMessage(m, Some(l))) <==> WrittenWithLevel(input, m, l)
    {
      LevelTakenExactly(input, m, l);
    }
    if Trim(input) !in ["", "exit", "quit", "help"] {
      var m, level := LogDecision(input);
      if level.Some? {
        assert ParseCommand(input) == Some(LogMessage(m, Some(level.value)));
        assert WrittenWithLevel(input, m, level.value);
      }
    }
  }

  ghost predicate IsPadded(input: string, word: string) {
    exists before, after :: input == before + word + after && Blank(before) && Blank(after)
  }

  lemma PaddedMeansTrim(input: string, word: string)
    requires word != "" && Trimmed(word)
    ensures IsPadded(input, word) <==> Trim(input) == word
  {
    if IsPadded(input, word) {
      var before, after :| input == before + word + after && Blank(before) && Blank(after);
      TrimDropsPadding(before, word, after);
    }
    if Trim(input) == word {
      var before, after := TrimSplits(input);
    }
  }

  /** The other outcomes: nothing for blank input only, exit for a padded exit or quit
      only, help for a padded help only. */
  lemma KeywordsExactly(input: string)
    ensures ParseCommand(input) == None <==> Blank(input)
    ensures ParseCommand(input) == Some(Exit) <==> IsPadded(input, "exit") || IsPadded(input, "quit")
    ensures ParseCommand(input) == Some(Help) <==> IsPadded(input, "help")
  {
    hide IsPadded, Tokens, ParseLevel;
    PaddedMeansTrim(input, "exit");
    PaddedMeansTrim(input, "quit");
    PaddedMeansTrim(input, "help");
    if Trim(input) !in ["", "exit", "quit", "help"] {
      var m, level := LogDecision(input);
    }
  }
}
