/** Character and string primitives with Python `str` semantics: ASCII case
    mapping, `str.isspace`, `strip`, `split`, decimal digits and numbers. */
module Text {

  predicate IsDigit(c: char) {
    '0' <= c <= '9'
  }

  predicate AllDigits(s: string) {
    forall k :: 0 <= k < |s| ==> IsDigit(s[k])
  }

  function DigitValue(c: char): nat
    requires IsDigit(c)
  {
    (c as int - '0' as int) as nat
  }

  function DigitChar(d: nat): (c: char)
    requires d < 10
    ensures IsDigit(c) && DigitValue(c) == d
  {
    ('0' as int + d) as char
  }

  /** The number a string of ASCII digits denotes (leading zeros allowed). */
  function DigitsValue(s: string): nat
    requires AllDigits(s)
  {
    if |s| == 0 then 0 else 10 * DigitsValue(s[..|s| - 1]) + DigitValue(s[|s| - 1])
  }

  /** `str(n)` for a non-negative integer: decimal, no leading zeros. */
  function NatToString(n: nat): (r: string)
    ensures |r| >= 1 && AllDigits(r)
    ensures DigitsValue(r) == n
    ensures |r| > 1 ==> r[0] != '0'
    decreases n
  {
    if n < 10 then [DigitChar(n)]
    else
      var p := NatToString(n / 10);
      var r := p + [DigitChar(n % 10)];
      assert r[..|r| - 1] == p;
      r
  }

  /** `"%0*d"`: the decimal digits of `n`, left-padded with zeros to `width`. */
  function PadNat(n: nat, width: nat): (r: string)
    ensures AllDigits(r) && DigitsValue(r) == n
    ensures |r| >= width
  {
    ZeroPadded(NatToString(n), width)
  }

  function ZeroPadded(s: string, width: nat): (r: string)
    requires AllDigits(s)
    ensures AllDigits(r) && DigitsValue(r) == DigitsValue(s)
    ensures |r| >= width && |r| >= |s|
    ensures |s| >= width ==> r == s
    decreases width - |s|
  {
    if |s| >= width then s
    else
      LeadingZeroValue(s);
      ZeroPadded("0" + s, width)
  }

  lemma {:induction false} LeadingZeroValue(s: string)
    requires AllDigits(s)
    ensures AllDigits("0" + s) && DigitsValue("0" + s) == DigitsValue(s)
    decreases |s|
  {
    var z := "0" + s;
    assert AllDigits(z) by {
      forall k | 0 <= k < |z| ensures IsDigit(z[k]) {
        if k > 0 { assert z[k] == s[k - 1]; }
      }
    }
    if |s| > 0 {
      var init := s[..|s| - 1];
      LeadingZeroValue(init);
      assert z[..|z| - 1] == "0" + init;
      assert z[|z| - 1] == s[|s| - 1];
    }
  }

  /** Two-digit or wider strings of the same digits that denote the same value
      and have the same length are equal. */
  lemma {:induction false} DigitsInjective(a: string, b: string)
    requires AllDigits(a) && AllDigits(b) && |a| == |b|
    requires DigitsValue(a) == DigitsValue(b)
    ensures a == b
    decreases |a|
  {
    if |a| > 0 {
      var n := |a| - 1;
      assert DigitValue(a[n]) == DigitsValue(a) % 10;
      assert DigitValue(b[n]) == DigitsValue(b) % 10;
      DigitsInjective(a[..n], b[..n]);
      assert a[n] == b[n];
      assert a == a[..n] + [a[n]] && b == b[..n] + [b[n]];
    }
  }

  /** Digit strings of length `w` denote values below 10^w. */
  function Pow10(w: nat): nat {
    if w == 0 then 1 else 10 * Pow10(w - 1)
  }

  lemma {:induction false} DigitsBound(s: string)
    requires AllDigits(s)
    ensures DigitsValue(s) < Pow10(|s|)
    decreases |s|
  {
    if |s| > 0 {
      DigitsBound(s[..|s| - 1]);
    }
  }

  // ---------------------------------------------------------------------------
  // Case mapping (ASCII letters only)

  function LowerChar(c: char): char {
    if 'A' <= c <= 'Z' then (c as int + 32) as char else c
  }

  function UpperChar(c: char): char {
    if 'a' <= c <= 'z' then (c as int - 32) as char else c
  }

  /** `str.lower()` restricted to ASCII letters. */
  function Lower(s: string): (r: string)
    ensures |r| == |s|
    ensures forall k {:trigger r[k]} :: 0 <= k < |s| ==> r[k] == LowerChar(s[k])
  {
    if |s| == 0 then "" else [LowerChar(s[0])] + Lower(s[1..])
  }

  /** `str.upper()` restricted to ASCII letters. */
  function Upper(s: string): (r: string)
    ensures |r| == |s|
    ensures forall k {:trigger r[k]} :: 0 <= k < |s| ==> r[k] == UpperChar(s[k])
  {
    if |s| == 0 then "" else [UpperChar(s[0])] + Upper(s[1..])
  }

  /** Lower-casing works character by character. */
  lemma LowerAppend(a: string, b: string)
    ensures Lower(a + b) == Lower(a) + Lower(b)
  {
    var l, r := Lower(a + b), Lower(a) + Lower(b);
    forall k | 0 <= k < |l| ensures l[k] == r[k] {
      if k >= |a| { assert (a + b)[k] == b[k - |a|]; }
    }
  }

  predicate IsLowerCase(s: string) {
    forall k :: 0 <= k < |s| ==> !('A' <= s[k] <= 'Z')
  }

  predicate IsUpperCase(s: string) {
    forall k :: 0 <= k < |s| ==> !('a' <= s[k] <= 'z')
  }

  lemma LowerIsLowerCase(s: string)
    ensures IsLowerCase(Lower(s))
  {
  }

  lemma UpperIsUpperCase(s: string)
    ensures IsUpperCase(Upper(s))
  {
  }

  lemma UpperOfUpperCase(s: string)
    requires IsUpperCase(s)
    ensures Upper(s) == s
  {
  }

  lemma LowerOfLowerCase(s: string)
    requires IsLowerCase(s)
    ensures Lower(s) == s
  {
  }

  // ---------------------------------------------------------------------------
  // Whitespace and stripping

  /** Python's `str.isspace` for a single character. */
  predicate IsSpace(c: char) {
    var n := c as int;
    || 0x09 <= n <= 0x0D
    || 0x1C <= n <= 0x20
    || n == 0x85
    || n == 0xA0
    || n == 0x1680
    || 0x2000 <= n <= 0x200A
    || n == 0x2028
    || n == 0x2029
    || n == 0x202F
    || n == 0x205F
    || n == 0x3000
  }

  predicate IsQuote(c: char) {
    c == '\'' || c == '"'
  }

  /** The character set `" \"'"` given to `strip` in the CSV helpers. */
  predicate IsSpaceOrQuote(c: char) {
    c == ' ' || IsQuote(c)
  }

  /** `lstrip`: drops the longest prefix whose characters satisfy `p`. */
  function StripLeft(s: string, p: char -> bool): (r: string)
    ensures |r| <= |s|
    ensures forall k :: 0 <= k < |s| - |r| ==> p(s[k])
    ensures r == [] || !p(r[0])
  {
    if |s| > 0 && p(s[0]) then StripLeft(s[1..], p) else s
  }

  /** What `lstrip` leaves is a suffix of its argument. */
  lemma {:induction false} StripLeftSuffix(s: string, p: char -> bool)
    ensures StripLeft(s, p) == s[|s| - |StripLeft(s, p)|..]
    decreases |s|
  {
    if |s| > 0 && p(s[0]) {
      StripLeftSuffix(s[1..], p);
    }
  }

  /** `rstrip`: drops the longest suffix whose characters satisfy `p`. */
  function StripRight(s: string, p: char -> bool): (r: string)
    ensures |r| <= |s| && r == s[..|r|]
    ensures forall k :: |r| <= k < |s| ==> p(s[k])
    ensures r == [] || !p(r[|r| - 1])
  {
    if |s| > 0 && p(s[|s| - 1]) then StripRight(s[..|s| - 1], p) else s
  }

  /** `r` is the slice of `s` starting at `i`, and everything of `s` outside
      that slice satisfies `p`. */
  predicate TrimOf(r: string, s: string, p: char -> bool, i: nat) {
    && i + |r| <= |s|
    && r == s[i..i + |r|]
    && (forall k :: 0 <= k < i ==> p(s[k]))
    && (forall k :: i + |r| <= k < |s| ==> p(s[k]))
  }

  /** `strip`: both ends. Only characters satisfying `p` are removed, and
      only from the ends. */
  function Strip(s: string, p: char -> bool): (r: string)
    ensures r == [] || (!p(r[0]) && !p(r[|r| - 1]))
    ensures |r| <= |s|
    ensures exists i :: TrimOf(r, s, p, i)
  {
    StripSlice(s, p);
    StripRight(StripLeft(s, p), p)
  }

  lemma StripSlice(s: string, p: char -> bool)
    ensures TrimOf(StripRight(StripLeft(s, p), p), s, p, |s| - |StripLeft(s, p)|)
  {
    var t := StripLeft(s, p);
    var r := StripRight(t, p);
    var i := |s| - |t|;
    StripLeftSuffix(s, p);
    assert t == s[i..];
    assert r == s[i..i + |r|];
    forall k | i + |r| <= k < |s| ensures p(s[k]) {
      assert s[k] == t[k - i];
    }
  }

  /** Stripping a text framed by runs of `p`-characters, whose own ends fail
      `p`, gives back the text. */
  lemma StripFramed(a: string, x: string, b: string, p: char -> bool)
    requires forall k :: 0 <= k < |a| ==> p(a[k])
    requires forall k :: 0 <= k < |b| ==> p(b[k])
    requires x == [] || (!p(x[0]) && !p(x[|x| - 1]))
    ensures Strip(a + x + b, p) == x
  {
    var s := a + x + b;
    var r := Strip(s, p);
    var i: nat :| TrimOf(r, s, p, i);
    if x != [] {
      assert s[|a|] == x[0] && s[|a| + |x| - 1] == x[|x| - 1];
      assert r[0] == s[i];
      var e := i + |r| - 1;
      assert r[|r| - 1] == s[e];
      assert i == |a| && e == |a| + |x| - 1;
      assert r == s[|a|..|a| + |x|];
    }
  }

  /** Trimming the trimmed string again removes, from `s`, only characters
      satisfying `u` when both trims remove only such characters. */
  lemma TrimCompose(r: string, t: string, s: string, p: char -> bool, q: char -> bool, u: char -> bool, i: nat, j: nat)
    requires TrimOf(r, t, p, i) && TrimOf(t, s, q, j)
    requires forall c :: p(c) ==> u(c)
    requires forall c :: q(c) ==> u(c)
    ensures TrimOf(r, s, u, j + i)
  {
    assert t == s[j..j + |t|];
    assert r == t[i..i + |r|];
    assert |r| == |s[j + i..j + i + |r|]|;
    forall k | 0 <= k < |r| ensures r[k] == s[j + i + k] {
      assert r[k] == t[i + k];
    }
    forall k | 0 <= k < j + i ensures u(s[k]) {
      if k >= j { assert s[k] == t[k - j]; }
    }
    forall k | j + i + |r| <= k < |s| ensures u(s[k]) {
      if k < j + |t| { assert s[k] == t[k - j]; }
    }
  }

  /** Stripping a string whose ends already fail `p` changes nothing. */
  lemma StripNoop(s: string, p: char -> bool)
    requires s == [] || (!p(s[0]) && !p(s[|s| - 1]))
    ensures Strip(s, p) == s
  {
  }

  // ---------------------------------------------------------------------------
  // Splitting on a separator character

  function Count(s: string, c: char): nat {
    if |s| == 0 then 0 else (if s[0] == c then 1 else 0) + Count(s[1..], c)
  }

  /** The inverse of `Split`: pieces glued back with the separator. */
  function Join(parts: seq<string>, c: char): string
    requires |parts| >= 1
  {
    if |parts| == 1 then parts[0] else parts[0] + [c] + Join(parts[1..], c)
  }

  /** `str.split(c)` for a one-character separator: always one more piece than
      separators, and no piece contains the separator. */
  function Split(s: string, c: char): (r: seq<string>)
    ensures |r| == Count(s, c) + 1
    ensures forall k :: 0 <= k < |r| ==> c !in r[k]
  {
    if |s| == 0 then [""]
    else if s[0] == c then [""] + Split(s[1..], c)
    else
      var t := Split(s[1..], c);
      var r := [[s[0]] + t[0]] + t[1..];
      assert r[1..] == t[1..];
      r
  }

  /** Joining the pieces of a split with the separator gives back the string. */
  lemma {:induction false} JoinSplit(s: string, c: char)
    ensures Join(Split(s, c), c) == s
    decreases |s|
  {
    if |s| > 0 {
      JoinSplit(s[1..], c);
      var t := Split(s[1..], c);
      if s[0] == c {
        assert Split(s, c) == [""] + t;
        assert s == [c] + s[1..];
      } else {
        JoinHead(t, c, [s[0]]);
        assert s == [s[0]] + s[1..];
      }
    }
  }

  /** Joining two piece lists is joining each and putting a separator between. */
  lemma {:induction false} JoinAppend(p: seq<string>, q: seq<string>, c: char)
    requires |p| >= 1 && |q| >= 1
    ensures Join(p + q, c) == Join(p, c) + [c] + Join(q, c)
    decreases |p|
  {
    if |p| > 1 {
      JoinAppend(p[1..], q, c);
      assert (p + q)[1..] == p[1..] + q;
    } else {
      assert (p + q)[1..] == q;
    }
  }

  /** Splitting at one separator splits each side separately. */
  lemma SplitAppend(a: string, b: string, c: char)
    ensures Split(a + [c] + b, c) == Split(a, c) + Split(b, c)
  {
    var pa, pb := Split(a, c), Split(b, c);
    JoinSplit(a, c);
    JoinSplit(b, c);
    JoinAppend(pa, pb, c);
    SplitJoin(pa + pb, c);
  }

  lemma JoinHead(t: seq<string>, c: char, h: string)
    requires |t| >= 1
    ensures Join([h + t[0]] + t[1..], c) == h + Join(t, c)
  {
    var r := [h + t[0]] + t[1..];
    if |t| > 1 {
      assert r[1..] == t[1..];
    }
  }

  /** `Split` inverts `Join` on separator-free pieces. */
  lemma SplitJoin(parts: seq<string>, c: char)
    requires |parts| >= 1
    requires forall k :: 0 <= k < |parts| ==> c !in parts[k]
    ensures Split(Join(parts, c), c) == parts
  {
    JoinSplit(Join(parts, c), c);
    JoinUnique(Split(Join(parts, c), c), parts, c);
  }

  lemma SplitJoinTwo(a: string, b: string, c: char)
    requires c !in a && c !in b
    ensures Split(a + [c] + b, c) == [a, b]
  {
    assert Join([a, b], c) == a + [c] + b;
    SplitJoin([a, b], c);
  }

  /** Separator-free pieces are determined by their join. */
  lemma {:induction false} JoinUnique(p: seq<string>, q: seq<string>, c: char)
    requires |p| >= 1 && |q| >= 1
    requires forall k :: 0 <= k < |p| ==> c !in p[k]
    requires forall k :: 0 <= k < |q| ==> c !in q[k]
    requires Join(p, c) == Join(q, c)
    ensures p == q
    decreases |p|
  {
    if |p| == 1 && |q| > 1 {
      JoinHasSeparator(q, c);
      assert false;
    } else if |p| > 1 && |q| == 1 {
      JoinHasSeparator(p, c);
      assert false;
    } else if |p| > 1 {
      var jp := Join(p[1..], c);
      var jq := Join(q[1..], c);
      assert p[0] + [c] + jp == q[0] + [c] + jq;
      FirstPieceEqual(p[0], jp, q[0], jq, c);
      assert jp == (p[0] + [c] + jp)[|p[0]| + 1..];
      assert jq == (q[0] + [c] + jq)[|q[0]| + 1..];
      JoinUnique(p[1..], q[1..], c);
      assert p == [p[0]] + p[1..] && q == [q[0]] + q[1..];
    }
  }

  lemma JoinHasSeparator(p: seq<string>, c: char)
    requires |p| > 1
    ensures c in Join(p, c)
  {
    assert Join(p, c)[|p[0]|] == c;
  }

  /** Two separator-free prefixes followed by the separator, in the same
      string, are the same prefix. */
  lemma FirstPieceEqual(a: string, x: string, b: string, y: string, c: char)
    requires c !in a && c !in b
    requires a + [c] + x == b + [c] + y
    ensures a == b
  {
    var s := a + [c] + x;
    if |a| < |b| {
      PieceChar(b, c, y, |a|);
      assert false;
    } else if |b| < |a| {
      PieceChar(a, c, x, |b|);
      assert false;
    } else {
      assert a == s[..|a|] && b == s[..|b|];
    }
  }

  lemma PieceChar(a: string, c: char, x: string, i: nat)
    requires i < |a|
    ensures (a + [c] + x)[i] == a[i] && a[i] in a
    ensures (a + [c] + x)[|a|] == c
  {
  }

  // ---------------------------------------------------------------------------
  // Paths

  /** `Path(name).name`: what follows the last `/`. */
  function Basename(path: string): (r: string)
    ensures '/' !in r
    ensures |r| <= |path|
    ensures r == path[|path| - |r|..]
    ensures |r| < |path| ==> path[|path| - |r| - 1] == '/'
  {
    if |path| == 0 then ""
    else if path[|path| - 1] == '/' then ""
    else
      var init := path[..|path| - 1];
      var c := path[|path| - 1];
      var b := Basename(init);
      assert path == init + [c];
      assert path[|path| - |b| - 1..] == init[|init| - |b|..] + [c];
      b + [c]
  }
}
