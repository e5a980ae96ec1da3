/** `get_log_level`: a level name to the numeric level of Python's `logging`. */
module Logs {
  import opened Text

  const Debug: int := 10
  const Info: int := 20
  const Warning: int := 30
  const Error: int := 40

  /** The name as it is looked up: surrounding whitespace removed, upper case. */
  function NormalizeLevel(name: string): string {
    Upper(Strip(name, IsSpace))
  }

  /** `get_log_level`: DEBUG, INFO, WARNING and ERROR map to their numbers;
      every other name falls back to INFO. */
  function GetLogLevel(name: string): (n: int)
    ensures n == Debug || n == Info || n == Warning || n == Error
    ensures n == Debug <==> NormalizeLevel(name) == "DEBUG"
    ensures n == Warning <==> NormalizeLevel(name) == "WARNING"
    ensures n == Error <==> NormalizeLevel(name) == "ERROR"
  {
    var level := NormalizeLevel(name);
    if level == "DEBUG" then Debug
    else if level == "WARNING" then Warning
    else if level == "ERROR" then Error
    else Info
  }

  /** The four level names map to their own numbers, and the empty name
      falls back to INFO. */
  lemma LevelNames()
    ensures GetLogLevel("DEBUG") == Debug && GetLogLevel("INFO") == Info
    ensures GetLogLevel("WARNING") == Warning && GetLogLevel("ERROR") == Error
    ensures GetLogLevel("") == Info
  {
    DebugLookup("DEBUG");
    InfoLookup("INFO");
    WarningLookup("WARNING");
    ErrorLookup("ERROR");
    assert Strip("", IsSpace) == "";
  }

  lemma DebugLookup(name: string)
    requires name == "DEBUG"
    ensures GetLogLevel(name) == Debug
  {
    assert IsUpperCase(name);
    NormalName(name);
  }

  lemma InfoLookup(name: string)
    requires name == "INFO"
    ensures GetLogLevel(name) == Info
  {
    NormalName(name);
    assert name[0] == 'I';
  }

  lemma WarningLookup(name: string)
    requires name == "WARNING"
    ensures GetLogLevel(name) == Warning
  {
    assert IsUpperCase(name);
    NormalName(name);
  }

  lemma ErrorLookup(name: string)
    requires name == "ERROR"
    ensures GetLogLevel(name) == Error
  {
    assert IsUpperCase(name);
    NormalName(name);
  }

  /** Whitespace around a name does not change its level. */
  lemma LevelIgnoresPadding(name: string, a: string, w: string, b: string)
    requires name == a + w + b
    requires forall k :: 0 <= k < |a| ==> IsSpace(a[k])
    requires forall k :: 0 <= k < |b| ==> IsSpace(b[k])
    requires w == [] || (!IsSpace(w[0]) && !IsSpace(w[|w| - 1]))
    ensures GetLogLevel(name) == GetLogLevel(w)
  {
    StripFramed(a, w, b, IsSpace);
    StripNoop(w, IsSpace);
  }

  /** A name without surrounding whitespace or lower-case letters is looked up
      as it is. */
  lemma NormalName(name: string)
    requires name != [] && !IsSpace(name[0]) && !IsSpace(name[|name| - 1]) && IsUpperCase(name)
    ensures NormalizeLevel(name) == name
  {
    StripNoop(name, IsSpace);
    UpperOfUpperCase(name);
  }
}
