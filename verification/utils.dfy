/** The dictionary and string helpers of the package: comma-separated lists,
    lower-casing dictionary keys, and replacing dictionary values by truthy
    overrides. */
module Utils {
  import opened Text
  import opened Seqs

  /** A configuration value: the Python values the settings dictionary holds. */
  datatype ConfigValue = NoneValue | Str(s: string) | Bool(b: bool) | Int(i: int) | List(items: seq<string>)

  /** Python truthiness of a configuration value. */
  predicate Truthy(v: ConfigValue) {
    match v
    case NoneValue => false
    case Str(s) => s != ""
    case Bool(b) => b
    case Int(i) => i != 0
    case List(items) => items != []
  }

  // ---------------------------------------------------------------------------
  // csv_to_list

  /** A piece of a comma list with spaces and both quote characters stripped
      from its ends. */
  function CsvItem(piece: string): (r: string)
    ensures Trimmed(r)
    ensures exists i :: TrimOf(r, piece, IsSpaceOrQuote, i)
  {
    Strip(piece, IsSpaceOrQuote)
  }

  /** Neither end is a space or a quote. */
  predicate Trimmed(x: string) {
    x == [] || (!IsSpaceOrQuote(x[0]) && !IsSpaceOrQuote(x[|x| - 1]))
  }

  predicate NonEmpty(x: string) {
    x != []
  }

  /** The stripped pieces of a comma list, before empty ones are dropped. */
  function CsvPieces(s: string): (r: seq<string>)
    ensures |r| == Count(s, ',') + 1
    ensures forall k :: 0 <= k < |r| ==> Trimmed(r[k])
  {
    Map(Split(s, ','), CsvItem)
  }

  /** `csv_to_list`: split on commas, strip spaces and quotes from each piece,
      drop the pieces left empty. */
  function CsvToList(s: string): (r: seq<string>)
    ensures |r| <= Count(s, ',') + 1
    ensures forall k :: 0 <= k < |r| ==> r[k] != [] && Trimmed(r[k])
    ensures forall x :: x in r <==> x != [] && x in CsvPieces(s)
  {
    var pieces := CsvPieces(s);
    var r := Filter(pieces, NonEmpty);
    FilterMembers(pieces, NonEmpty);
    forall k | 0 <= k < |r| ensures Trimmed(r[k]) {
      var j :| 0 <= j < |pieces| && pieces[j] == r[k];
    }
    r
  }

  /** The list read from two comma-joined texts is the list read from the
      first followed by the list read from the second: order is kept. */
  lemma CsvAppend(a: string, b: string)
    ensures CsvToList(a + "," + b) == CsvToList(a) + CsvToList(b)
  {
    var pa, pb := Split(a, ','), Split(b, ',');
    SplitAppend(a, b, ',');
    assert a + "," + b == a + [','] + b;
    MapAppend(pa, pb, CsvItem);
    FilterAppend(CsvPieces(a), CsvPieces(b), NonEmpty);
  }

  /** A text without commas gives its stripped self, or nothing when that is
      empty; with `CsvAppend` this fixes the result for every input. */
  lemma CsvSingle(a: string)
    requires ',' !in a
    ensures CsvToList(a) == if CsvItem(a) == [] then [] else [CsvItem(a)]
  {
    SplitJoin([a], ',');
    assert CsvPieces(a) == [CsvItem(a)];
  }

  /** An item that survives `csv_to_list` unchanged. */
  predicate CleanCsvItem(x: string) {
    x != [] && ',' !in x && !IsSpaceOrQuote(x[0]) && !IsSpaceOrQuote(x[|x| - 1])
  }

  /** Clean items joined with commas are read back as the same list. */
  lemma CsvRoundTrip(items: seq<string>)
    requires |items| >= 1
    requires forall k :: 0 <= k < |items| ==> CleanCsvItem(items[k])
    ensures CsvToList(Join(items, ',')) == items
  {
    SplitJoin(items, ',');
    CsvOfCleanPieces(Join(items, ','), items);
  }

  lemma CsvOfCleanPieces(s: string, items: seq<string>)
    requires Split(s, ',') == items
    requires forall k :: 0 <= k < |items| ==> CleanCsvItem(items[k])
    ensures CsvToList(s) == items
  {
    var pieces := CsvPieces(s);
    forall k | 0 <= k < |items| ensures pieces[k] == items[k] {
      StripNoop(items[k], IsSpaceOrQuote);
    }
    assert pieces == items;
    FilterKeepsAll(items, NonEmpty);
  }

  lemma {:induction false} FilterKeepsAll<T(!new)>(s: seq<T>, p: T -> bool)
    requires forall k :: 0 <= k < |s| ==> p(s[k])
    ensures Filter(s, p) == s
    decreases |s|
  {
    if |s| > 0 {
      FilterKeepsAll(s[1..], p);
    }
  }

  /** Empty input and a run of bare commas give the empty list. */
  lemma CsvEmpty()
    ensures CsvToList("") == []
    ensures CsvToList(",,") == []
  {
    assert CsvItem("") == "";
    assert Split("", ',') == [""];
    assert CsvPieces("") == [""];
    assert Join(["", "", ""], ',') == ",,";
    SplitJoin(["", "", ""], ',');
    assert CsvPieces(",,") == ["", "", ""];
  }

  // ---------------------------------------------------------------------------
  // keys_to_lower

  /** `{k.lower(): v for k, v in d.items()}` over the dictionary's items in
      order; when two keys lower to the same key the later item wins. */
  function KeysToLower<V>(items: seq<(string, V)>): (r: map<string, V>)
    ensures forall k :: k in r ==> IsLowerCase(k)
    ensures r.Keys == set i | 0 <= i < |items| :: Lower(items[i].0)
    decreases |items|
  {
    if |items| == 0 then map[]
    else
      var n := |items| - 1;
      var prev := KeysToLower(items[..n]);
      LowerIsLowerCase(items[n].0);
      assert forall i :: 0 <= i < n ==> items[..n][i] == items[i];
      prev[Lower(items[n].0) := items[n].1]
  }

  /** The later item wins: an item whose lowered key no later item shares
      gives the value of that key. */
  lemma {:induction false} KeysToLowerLastWins<V>(items: seq<(string, V)>, i: nat)
    requires i < |items|
    requires forall j :: i < j < |items| ==> Lower(items[j].0) != Lower(items[i].0)
    ensures KeysToLower(items)[Lower(items[i].0)] == items[i].1
    decreases |items|
  {
    var n := |items| - 1;
    var key := Lower(items[i].0);
    if i < n {
      var front := items[..n];
      assert front[i] == items[i];
      forall j | i < j < n ensures Lower(front[j].0) != Lower(front[i].0) {
        assert front[j] == items[j];
      }
      KeysToLowerLastWins(front, i);
      assert Lower(items[n].0) != key;
      assert KeysToLower(items) == KeysToLower(front)[Lower(items[n].0) := items[n].1];
    }
  }

  // ---------------------------------------------------------------------------
  // replace_values_in_dict

  /** `replace_values_in_dict`: a copy of `d` in which every key that
      `replacements` maps to a truthy value takes that value. */
  function ReplaceValues(d: map<string, ConfigValue>, replacements: map<string, ConfigValue>): (r: map<string, ConfigValue>)
    ensures r.Keys == d.Keys
    ensures forall k :: k in d && k in replacements && Truthy(replacements[k]) ==> r[k] == replacements[k]
    ensures forall k :: k in d && !(k in replacements && Truthy(replacements[k])) ==> r[k] == d[k]
  {
    map k | k in d :: if k in replacements && Truthy(replacements[k]) then replacements[k] else d[k]
  }

  /** Replacing twice with the same overrides is replacing once. */
  lemma ReplaceIdempotent(d: map<string, ConfigValue>, replacements: map<string, ConfigValue>)
    ensures ReplaceValues(ReplaceValues(d, replacements), replacements) == ReplaceValues(d, replacements)
  {
  }

  /** A value changes only when a truthy override exists for its key. */
  lemma ReplaceOnlyOverrides(d: map<string, ConfigValue>, replacements: map<string, ConfigValue>, k: string)
    requires k in d && ReplaceValues(d, replacements)[k] != d[k]
    ensures k in replacements && Truthy(replacements[k])
  {
  }
}
