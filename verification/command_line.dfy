/** The pure parts of the command-line interface: the list-argument parser and
    the environment defaults that are validated before the parser is built.
    The process environment is a map parameter. */
module CommandLine {
  import opened Wrappers
  import opened Text
  import opened Configs

  // ---------------------------------------------------------------------------
  // parse_list_arg

  /** One piece of a list argument: whitespace stripped, then both quote
      characters stripped from what is left. */
  function ListItem(piece: string): (r: string)
    ensures Unquoted(r)
    ensures exists i :: TrimOf(r, piece, IsSpaceOrAnyQuote, i)
  {
    ListItemSlice(piece);
    Strip(Strip(piece, IsSpace), IsQuote)
  }

  /** Whitespace or either quote character. */
  predicate IsSpaceOrAnyQuote(c: char) {
    IsSpace(c) || IsQuote(c)
  }

  lemma ListItemSlice(piece: string)
    ensures exists i :: TrimOf(Strip(Strip(piece, IsSpace), IsQuote), piece, IsSpaceOrAnyQuote, i)
  {
    var t := Strip(piece, IsSpace);
    var r := Strip(t, IsQuote);
    var j: nat :| TrimOf(t, piece, IsSpace, j);
    var i: nat :| TrimOf(r, t, IsQuote, i);
    TrimCompose(r, t, piece, IsQuote, IsSpace, IsSpaceOrAnyQuote, i, j);
  }

  /** Neither end is a quote character. */
  predicate Unquoted(x: string) {
    x == [] || (!IsQuote(x[0]) && !IsQuote(x[|x| - 1]))
  }

  /** `parse_list_arg`: split on commas and clean each piece. Empty pieces are
      kept, so there is always one more element than there are commas, and no
      element begins or ends with a quote. */
  function ParseListArg(value: string): (r: seq<string>)
    ensures |r| == Count(value, ',') + 1
    ensures forall k :: 0 <= k < |r| ==> Unquoted(r[k])
  {
    ListItems(Split(value, ','))
  }

  /** `[clean(x) for x in pieces]`. */
  function ListItems(pieces: seq<string>): (r: seq<string>)
    ensures |r| == |pieces|
    ensures forall k :: 0 <= k < |r| ==> Unquoted(r[k])
  {
    if |pieces| == 0 then [] else [ListItem(pieces[0])] + ListItems(pieces[1..])
  }

  lemma {:induction false} ListItemsAt(pieces: seq<string>, k: nat)
    requires k < |pieces|
    ensures ListItems(pieces)[k] == ListItem(pieces[k])
    decreases k
  {
    if k > 0 {
      ListItemsAt(pieces[1..], k - 1);
      assert ListItems(pieces) == [ListItem(pieces[0])] + ListItems(pieces[1..]);
    }
  }

  /** An item `parse_list_arg` reads back unchanged. */
  predicate CleanListItem(x: string) {
    ',' !in x && (x == [] || (!IsSpace(x[0]) && !IsSpace(x[|x| - 1]) && !IsQuote(x[0]) && !IsQuote(x[|x| - 1])))
  }

  /** Clean items joined with commas are parsed back as the same list, empty
      items included. */
  lemma ParseListRoundTrip(items: seq<string>)
    requires |items| >= 1
    requires forall k :: 0 <= k < |items| ==> CleanListItem(items[k])
    ensures ParseListArg(Join(items, ',')) == items
  {
    SplitJoin(items, ',');
    ParseCleanPieces(Join(items, ','), items);
  }

  lemma ParseCleanPieces(s: string, items: seq<string>)
    requires Split(s, ',') == items
    requires forall k :: 0 <= k < |items| ==> CleanListItem(items[k])
    ensures ParseListArg(s) == items
  {
    var r := ParseListArg(s);
    forall k | 0 <= k < |items| ensures r[k] == items[k] {
      ListItemsAt(items, k);
      CleanItemKept(items[k]);
    }
  }

  lemma CleanItemKept(x: string)
    requires CleanListItem(x)
    ensures ListItem(x) == x
  {
    StripNoop(x, IsSpace);
    StripNoop(x, IsQuote);
  }

  /** The empty argument is a list holding one empty string. */
  lemma ParseListEmpty()
    ensures ParseListArg("") == [""]
  {
    assert Split("", ',') == [""];
    assert ListItem("") == "";
  }

  // ---------------------------------------------------------------------------
  // Environment defaults

  /** `os.getenv(key, default)`. */
  function EnvGet(env: map<string, string>, key: string, default: string): string {
    if key in env then env[key] else default
  }

  const EnableEmailVar := "SNOW_ENABLE_EMAIL"
  const ExportToVar := "SNOW_EXPORT_TO"
  const LogLevelVar := "SNOW_LOG_LEVEL"

  /** The spellings that switch e-mail on. */
  const EmailYes: seq<string> := ["true", "1", "yes"]

  const ValidExportTo: seq<string> := [ToAsset, ToDrive, ToAssetAndDrive]
  const ValidLogLevels: seq<string> := ["DEBUG", "INFO", "WARNING", "ERROR"]

  /** The value the e-mail switch is compared with: lower-cased, then quotes
      stripped from both ends. */
  function EmailWord(value: string): string {
    Strip(Lower(value), IsQuote)
  }

  /** The default of `--enable-email`: on iff the variable, normalised, is one
      of the accepted spellings; an unset variable reads as "false". */
  function EnableEmailDefault(env: map<string, string>): (on: bool)
    ensures on <==> EnableEmailVar in env && EmailWord(env[EnableEmailVar]) in EmailYes
  {
    EnableEmailUnsetWord();
    EmailWord(EnvGet(env, EnableEmailVar, "false")) in EmailYes
  }

  lemma EnableEmailUnsetWord()
    ensures EmailWord("false") !in EmailYes
  {
    assert IsLowerCase("false");
    LowerOfLowerCase("false");
    StripNoop("false", IsQuote);
    assert |EmailWord("false")| == 5;
  }

  /** The switch ignores letter case. */
  lemma EnableEmailCaseInsensitive(env: map<string, string>, value: string)
    ensures EnableEmailDefault(env[EnableEmailVar := Upper(value)]) == EnableEmailDefault(env[EnableEmailVar := value])
  {
    LowerUpper(value);
    assert EnvGet(env[EnableEmailVar := Upper(value)], EnableEmailVar, "false") == Upper(value);
    assert EnvGet(env[EnableEmailVar := value], EnableEmailVar, "false") == value;
  }

  lemma LowerUpper(value: string)
    ensures Lower(Upper(value)) == Lower(value)
  {
    var a, b := Lower(Upper(value)), Lower(value);
    assert |a| == |b|;
    forall k | 0 <= k < |a| ensures a[k] == b[k] {
      assert a[k] == LowerChar(UpperChar(value[k]));
    }
  }

  /** Every character is a quote character. */
  predicate AllQuotes(q: string) {
    forall k :: 0 <= k < |q| ==> IsQuote(q[k])
  }

  /** A value made of a word in any letter case framed by runs of quote
      characters (none included) switches e-mail on iff the lower-cased word
      is accepted: so `true`, `1`, `yes`, `True` and `'"YES"'` all do. */
  lemma EnableEmailQuoted(env: map<string, string>, value: string, qa: string, word: string, qb: string)
    requires value == qa + word + qb
    requires AllQuotes(qa) && AllQuotes(qb)
    requires word == [] || (!IsQuote(word[0]) && !IsQuote(word[|word| - 1]))
    ensures EnableEmailDefault(env[EnableEmailVar := value]) <==> Lower(word) in EmailYes
  {
    EmailWordFramed(qa, word, qb);
    EnableEmailSet(env, value);
  }

  /** Setting the variable makes the switch read exactly that value. */
  lemma EnableEmailSet(env: map<string, string>, value: string)
    ensures EnableEmailDefault(env[EnableEmailVar := value]) <==> EmailWord(value) in EmailYes
  {
  }

  /** The normalised word of a framed value is the lower-cased word. */
  lemma EmailWordFramed(qa: string, word: string, qb: string)
    requires AllQuotes(qa) && AllQuotes(qb)
    requires word == [] || (!IsQuote(word[0]) && !IsQuote(word[|word| - 1]))
    ensures EmailWord(qa + word + qb) == Lower(word)
  {
    LowerUnquoted(word);
    LowerFramed(qa, word, qb);
    StripFramed(qa, Lower(word), qb, IsQuote);
  }

  lemma LowerUnquoted(word: string)
    requires word == [] || (!IsQuote(word[0]) && !IsQuote(word[|word| - 1]))
    ensures Unquoted(Lower(word))
  {
  }

  /** Lower-casing leaves quote characters alone. */
  lemma LowerFramed(qa: string, word: string, qb: string)
    requires AllQuotes(qa) && AllQuotes(qb)
    ensures Lower(qa + word + qb) == qa + Lower(word) + qb
  {
    LowerAppend(qa + word, qb);
    LowerAppend(qa, word);
    LowerQuotes(qa);
    LowerQuotes(qb);
  }

  lemma LowerQuotes(q: string)
    requires AllQuotes(q)
    ensures Lower(q) == q
  {
    assert forall k :: 0 <= k < |q| ==> LowerChar(q[k]) == q[k];
  }

  /** The default of `--export-to`, validated before the parser is built:
      SystemExit unless it is one of the three destinations. */
  function ExportToDefault(env: map<string, string>): (r: Result<string>)
    ensures r.Ok? <==> EnvGet(env, ExportToVar, DefaultExportTo) in ValidExportTo
    ensures r.Ok? ==> r.value == EnvGet(env, ExportToVar, DefaultExportTo)
    ensures r.Err? ==> r.error.SystemExit?
  {
    var value := EnvGet(env, ExportToVar, DefaultExportTo);
    if value in ValidExportTo then Ok(value)
    else Err(SystemExit("Invalid export option specified. Valid options are: toAsset, toDrive, toAssetAndDrive."))
  }

  /** With the variable unset the configured default `toAsset` is used, and
      the check is case-sensitive: a variable set to `toasset` is rejected. */
  lemma ExportToExamples(unset: map<string, string>, lower: map<string, string>)
    requires ExportToVar !in unset
    requires ExportToVar in lower && lower[ExportToVar] == "toasset"
    ensures ExportToDefault(unset) == Ok(ToAsset)
    ensures ExportToDefault(lower).Err?
  {
    ExportToUnset(unset);
    LowerCaseExportTo(lower[ExportToVar]);
  }

  lemma ExportToUnset(env: map<string, string>)
    requires ExportToVar !in env
    ensures ExportToDefault(env) == Ok(ToAsset)
  {
    assert ValidExportTo[0] == DefaultExportTo;
  }

  lemma LowerCaseExportTo(value: string)
    requires value == "toasset"
    ensures value !in ValidExportTo
  {
    assert value[2] != ToAsset[2];
    assert value[2] != ToDrive[2];
    assert |value| != |ToAssetAndDrive|;
  }

  /** The default of `--log-level`, validated before the parser is built:
      SystemExit unless it is one of the four level names. */
  function LogLevelDefault(env: map<string, string>): (r: Result<string>)
    ensures r.Ok? <==> EnvGet(env, LogLevelVar, DefaultLogLevel) in ValidLogLevels
    ensures r.Ok? ==> r.value == EnvGet(env, LogLevelVar, DefaultLogLevel)
    ensures r.Err? ==> r.error.SystemExit?
  {
    var value := EnvGet(env, LogLevelVar, DefaultLogLevel);
    if value in ValidLogLevels then Ok(value)
    else Err(SystemExit("Invalid log level specified. Valid options are: DEBUG, INFO, WARNING, ERROR."))
  }

  /** With the variable unset the configured default `INFO` is used and,
      unlike `get_log_level`, the check does not fold case: a variable set to
      `debug` is rejected. */
  lemma LogLevelExamples(unset: map<string, string>, lower: map<string, string>)
    requires LogLevelVar !in unset
    requires LogLevelVar in lower && lower[LogLevelVar] == "debug"
    ensures LogLevelDefault(unset) == Ok("INFO")
    ensures LogLevelDefault(lower).Err?
  {
    LogLevelUnset(unset);
    LowerCaseLevel(lower[LogLevelVar]);
  }

  lemma LogLevelUnset(env: map<string, string>)
    requires LogLevelVar !in env
    ensures LogLevelDefault(env) == Ok("INFO")
  {
    assert ValidLogLevels[1] == DefaultLogLevel;
  }

  lemma LowerCaseLevel(value: string)
    requires value == "debug"
    ensures value !in ValidLogLevels
  {
    assert value[0] != "DEBUG"[0];
    assert |value| != |"INFO"| && |value| != |"WARNING"|;
    assert value[0] != "ERROR"[0];
  }
}
