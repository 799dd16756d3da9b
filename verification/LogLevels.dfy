/** Severity levels, their names, and the case-insensitive reading of a name
    (src/logger/log_level.hpp and src/logger/utility.cpp). */
module LogLevels {
  import opened Options

  // The source's level is an unscoped enumeration, so any integer may be stored in it.
  type LogLevel = int

  const DEBUG: LogLevel := 0
  const INFO: LogLevel := 1
  const WARNING: LogLevel := 2
  const ERROR: LogLevel := 3
  const FATAL: LogLevel := 4

  predicate Defined(level: LogLevel) {
    DEBUG <= level <= FATAL
  }

  function LevelName(level: LogLevel): string {
    if level == DEBUG then "DEBUG"
    else if level == INFO then "INFO"
    else if level == WARNING then "WARNING"
    else if level == ERROR then "ERROR"
    else if level == FATAL then "FATAL"
    else "UNKNOWN"
  }

  // isspace and tolower in the C locale.
  predicate IsSpace(c: char) {
    c == ' ' || c == '\t' || c == '\n' || c == '\U{000B}' || c == '\U{000C}' || c == '\r'
  }

  function LowerChar(c: char): char {
    if 'A' <= c <= 'Z' then (c as int + 32) as char else c
  }

  function Lowered(s: string): string {
    seq(|s|, i requires 0 <= i < |s| => LowerChar(s[i]))
  }

  function LevelOfLowered(s: string): Option<LogLevel> {
    if s == "debug" then Some(DEBUG)
    else if s == "info" then Some(INFO)
    else if s == "warning" then Some(WARNING)
    else if s == "error" then Some(ERROR)
    else if s == "fatal" then Some(FATAL)
    else None
  }

  function ParseLevel(s: string): Option<LogLevel> {
    LevelOfLowered(Lowered(s))
  }

  /** Lower-cases a private copy of the text, then compares it with the five names. */
  method StringToLevel(levelStr: string) returns (level: Option<LogLevel>)
    ensures level == ParseLevel(levelStr)
  {
    var copy := new char[|levelStr|](i requires 0 <= i < |levelStr| => levelStr[i]);
    assert copy[..] == levelStr;
    LowerInPlace(copy);
    var lowered := copy[..];
    if lowered == "debug" { return Some(DEBUG); }
    if lowered == "info" { return Some(INFO); }
    if lowered == "warning" { return Some(WARNING); }
    if lowered == "error" { return Some(ERROR); }
    if lowered == "fatal" { return Some(FATAL); }
    return None;
  }

  method LowerInPlace(a: array<char>)
    modifies a
    ensures a[..] == Lowered(old(a[..]))
  {
    for i := 0 to a.Length
      invariant forall k :: 0 <= k < i ==> a[k] == LowerChar(old(a[k]))
      invariant forall k :: i <= k < a.Length ==> a[k] == old(a[k])
    {
      a[i] := LowerChar(a[i]);
    }
  }

  // The names in order of severity.
  const SEVERITY: seq<string> := ["DEBUG", "INFO", "WARNING", "ERROR", "FATAL"]

  /** The five levels are numbered from zero in order of severity, each prints as its own
      upper-case name, and nothing else prints as one of them. */
  lemma LevelsByName(level: LogLevel)
    ensures Defined(level) <==> 0 <= level < 5
    ensures LevelName(level) == if 0 <= level < 5 then SEVERITY[level] else "UNKNOWN"
    ensures forall i :: 0 <= i < 5 ==> (LevelName(level) == SEVERITY[i] <==> level == i)
  {
  }

  /** Which characters count as letters and as whitespace, by their codes. */
  lemma CharacterClasses(c: char)
    ensures LowerChar(c) as int == c as int + if 65 <= c as int <= 90 then 32 else 0
    ensures IsSpace(c) <==> c as int in {9, 10, 11, 12, 13, 32}
  {
  }

  lemma LoweredNames()
    ensures Lowered(LevelName(DEBUG)) == "debug"
    ensures Lowered(LevelName(INFO)) == "info"
    ensures Lowered(LevelName(WARNING)) == "warning"
    ensures Lowered(LevelName(ERROR)) == "error"
    ensures Lowered(LevelName(FATAL)) == "fatal"
    ensures Lowered("UNKNOWN") == "unknown"
  {
  }

  /** Reading inverts naming: a text names a level exactly when the level is one of the
      five and the text is that level's name in some mix of cases. */
  lemma ParseInvertsName(s: string, level: LogLevel)
    ensures ParseLevel(s) == Some(level) <==> Defined(level) && Lowered(s) == Lowered(LevelName(level))
  {
    LoweredNames();
  }

  lemma NameParses(level: LogLevel)
    ensures ParseLevel(LevelName(level)) == if Defined(level) then Some(level) else None
  {
    LoweredNames();
  }

  lemma NameHasNoBracket(level: LogLevel)
    ensures forall c :: c in LevelName(level) ==> c != '[' && c != ']'
  {
  }

  /** A text that names a level is one word: no whitespace, no bracket. */
  lemma LevelTextIsWord(s: string)
    requires ParseLevel(s).Some?
    ensures s != "" && forall c :: c in s ==> !IsSpace(c) && c != '[' && c != ']'
  {
    var l := Lowered(s);
    forall i | 0 <= i < |s|
      ensures !IsSpace(s[i]) && s[i] != '[' && s[i] != ']'
    {
      assert l[i] == LowerChar(s[i]);
      assert 'a' <= l[i] <= 'z';
    }
  }
}
