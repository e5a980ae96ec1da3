/** `get_trailing_ym`: the `YYYY-MM` suffixes of asset names, validated and
    sorted newest first. */
module Assets {
  import opened Text
  import opened Sorting

  /** `name[-7:]`: the last seven characters, or the whole name when shorter. */
  function Last7(name: string): (r: string)
    ensures |r| == (if |name| < 7 then |name| else 7)
    ensures r == name[|name| - |r|..]
  {
    if |name| <= 7 then name else name[|name| - 7..]
  }

  /** `re.fullmatch(r"\d{4}-\d{2}", s)` with ASCII digits. */
  predicate IsYearMonth(s: string) {
    |s| == 7 && AllDigits(s[..4]) && s[4] == '-' && AllDigits(s[5..])
  }

  /** A year-month token whose month, read as an integer, is 1 to 12. */
  predicate AcceptedMonth(s: string) {
    IsYearMonth(s) && 1 <= DigitsValue(s[5..]) <= 12
  }

  /** The number of names whose last seven characters are `x`. */
  function CountTrailing(names: seq<string>, x: string): nat {
    if |names| == 0 then 0
    else CountTrailing(names[..|names| - 1], x) + (if Last7(names[|names| - 1]) == x then 1 else 0)
  }

  /** `get_trailing_ym`: every accepted suffix once per name that ends in it,
      in descending order; nothing else. */
  method GetTrailingYm(names: seq<string>) returns (months: seq<string>)
    ensures |months| <= |names|
    ensures SortedDesc(months)
    ensures forall k :: 0 <= k < |months| ==> AcceptedMonth(months[k])
    ensures forall x :: AcceptedMonth(x) ==> multiset(months)[x] == CountTrailing(names, x)
  {
    var found := CollectTrailing(names);
    months := SortDesc(found);
    assert |months| == |multiset(months)| == |multiset(found)| == |found|;
    forall k | 0 <= k < |months| ensures AcceptedMonth(months[k]) {
      assert months[k] in multiset(found);
    }
  }

  /** Every accepted token occurs in `found` once per name ending in it. */
  ghost predicate CountsMatch(found: seq<string>, names: seq<string>) {
    forall x :: AcceptedMonth(x) ==> multiset(found)[x] == CountTrailing(names, x)
  }

  /** Every token kept is an accepted month. */
  predicate AllAccepted(found: seq<string>) {
    forall k :: 0 <= k < |found| ==> AcceptedMonth(found[k])
  }

  /** The accepted suffixes of `names`, in name order. */
  function TrailingMonths(names: seq<string>): (r: seq<string>)
    ensures |r| <= |names|
  {
    if |names| == 0 then []
    else
      var ym := Last7(names[|names| - 1]);
      TrailingMonths(names[..|names| - 1]) + (if AcceptedMonth(ym) then [ym] else [])
  }

  /** Only accepted tokens are kept. */
  lemma {:induction false} TrailingMonthsAccepted(names: seq<string>)
    ensures AllAccepted(TrailingMonths(names))
    decreases |names|
  {
    if |names| > 0 {
      TrailingMonthsAccepted(names[..|names| - 1]);
    }
  }

  /** Each accepted token is kept once per name ending in it. */
  lemma {:induction false} TrailingMonthsCount(names: seq<string>)
    ensures CountsMatch(TrailingMonths(names), names)
    decreases |names|
  {
    if |names| > 0 {
      var init := names[..|names| - 1];
      TrailingMonthsCount(init);
      var ym := Last7(names[|names| - 1]);
      var tail := if AcceptedMonth(ym) then [ym] else [];
      assert TrailingMonths(names) == TrailingMonths(init) + tail;
      forall x | AcceptedMonth(x)
        ensures multiset(TrailingMonths(names))[x] == CountTrailing(names, x)
      {
        assert multiset(tail)[x] == if ym == x then 1 else 0;
      }
    }
  }

  /** The loop of `get_trailing_ym`: the accepted suffixes in name order. */
  method CollectTrailing(names: seq<string>) returns (found: seq<string>)
    ensures |found| <= |names|
    ensures AllAccepted(found)
    ensures CountsMatch(found, names)
  {
    found := [];
    var i := 0;
    while i < |names|
      invariant 0 <= i <= |names|
      invariant found == TrailingMonths(names[..i])
    {
      var ym := Last7(names[i]);
      assert names[..i + 1][..i] == names[..i];
      found := if AcceptedMonth(ym) then found + [ym] else found;
      i := i + 1;
    }
    assert names[..i] == names;
    TrailingMonthsAccepted(names);
    TrailingMonthsCount(names);
  }

  /** Names shorter than seven characters never contribute. */
  lemma ShortNamesDropped(name: string)
    requires |name| < 7
    ensures !AcceptedMonth(Last7(name))
  {
  }
}
