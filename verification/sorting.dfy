/** Python's ordering of `str` values (lexicographic by code point) and the two
    sorts the modelled code performs: `list.sort()` and `list.sort(reverse=True)`. */
module Sorting {

  /** `a <= b` on Python strings. */
  predicate LexLe(a: string, b: string) {
    |a| == 0 || (|b| > 0 && (a[0] < b[0] || (a[0] == b[0] && LexLe(a[1..], b[1..]))))
  }

  predicate LexLt(a: string, b: string) {
    LexLe(a, b) && a != b
  }

  lemma LexLeReflexive(a: string)
    ensures LexLe(a, a)
  {
  }

  lemma {:induction false} LexLeAntisymmetric(a: string, b: string)
    requires LexLe(a, b) && LexLe(b, a)
    ensures a == b
    decreases |a|
  {
    if |a| > 0 {
      LexLeAntisymmetric(a[1..], b[1..]);
      assert a == [a[0]] + a[1..] && b == [b[0]] + b[1..];
    }
  }

  lemma {:induction false} LexLeTransitive(a: string, b: string, c: string)
    requires LexLe(a, b) && LexLe(b, c)
    ensures LexLe(a, c)
    decreases |a|
  {
    if |a| > 0 && a[0] == b[0] && b[0] == c[0] {
      LexLeTransitive(a[1..], b[1..], c[1..]);
    }
  }

  lemma {:induction false} LexLeTotal(a: string, b: string)
    ensures LexLe(a, b) || LexLe(b, a)
    decreases |a|
  {
    if |a| > 0 && |b| > 0 && a[0] == b[0] {
      LexLeTotal(a[1..], b[1..]);
    }
  }

  predicate SortedAsc(s: seq<string>) {
    forall i, j :: 0 <= i < j < |s| ==> LexLe(s[i], s[j])
  }

  predicate SortedDesc(s: seq<string>) {
    forall i, j :: 0 <= i < j < |s| ==> LexLe(s[j], s[i])
  }

  predicate StrictlyAsc(s: seq<string>) {
    forall i, j :: 0 <= i < j < |s| ==> LexLt(s[i], s[j])
  }

  function Insert(x: string, s: seq<string>): (r: seq<string>)
    requires SortedAsc(s)
    ensures SortedAsc(r)
    ensures multiset(r) == multiset(s) + multiset{x}
  {
    if |s| == 0 then [x]
    else if LexLe(x, s[0]) then
      forall j | 0 <= j < |s| ensures LexLe(x, s[j]) {
        if j > 0 { LexLeTransitive(x, s[0], s[j]); }
      }
      [x] + s
    else
      var t := Insert(x, s[1..]);
      LexLeTotal(x, s[0]);
      assert s == [s[0]] + s[1..];
      forall j | 0 <= j < |t| ensures LexLe(s[0], t[j]) {
        assert t[j] in multiset(t);
        if t[j] != x {
          assert t[j] in multiset(s[1..]);
          var k :| 0 <= k < |s[1..]| && s[1..][k] == t[j];
          assert s[k + 1] == t[j];
        }
      }
      [s[0]] + t
  }

  /** `sorted(s)`: ascending, and a permutation of `s`. */
  function SortAsc(s: seq<string>): (r: seq<string>)
    ensures SortedAsc(r)
    ensures multiset(r) == multiset(s)
  {
    if |s| == 0 then []
    else
      assert s == [s[0]] + s[1..];
      Insert(s[0], SortAsc(s[1..]))
  }

  function Reverse<T>(s: seq<T>): (r: seq<T>)
    ensures |r| == |s|
    ensures forall k :: 0 <= k < |s| ==> r[k] == s[|s| - 1 - k]
    ensures multiset(r) == multiset(s)
  {
    if |s| == 0 then []
    else
      assert s == s[..|s| - 1] + [s[|s| - 1]];
      [s[|s| - 1]] + Reverse(s[..|s| - 1])
  }

  /** `sorted(s, reverse=True)`: descending, and a permutation of `s`. Equal
      strings are identical, so stability does not affect the result. */
  function SortDesc(s: seq<string>): (r: seq<string>)
    ensures SortedDesc(r)
    ensures multiset(r) == multiset(s)
  {
    Reverse(SortAsc(s))
  }

  /** Collapses runs of equal neighbours of an ascending sequence. */
  function Dedup(s: seq<string>): (r: seq<string>)
    requires SortedAsc(s)
    ensures StrictlyAsc(r)
    ensures forall x :: x in r <==> x in s
  {
    if |s| <= 1 then s
    else if s[0] == s[1] then Dedup(s[1..])
    else
      var t := Dedup(s[1..]);
      forall j | 0 <= j < |t| ensures LexLt(s[0], t[j]) {
        assert t[j] in s[1..];
        var k :| 0 <= k < |s| - 1 && s[1..][k] == t[j];
        assert s[k + 1] == t[j];
        if s[0] == t[j] {
          if k > 0 {
            assert LexLe(s[1], s[k + 1]);
          }
          LexLeAntisymmetric(s[0], s[1]);
        }
      }
      [s[0]] + t
  }

  /** A strictly ascending sequence is determined by its set of elements, so it
      is the one `sorted(set(...))` produces. */
  lemma {:induction false} StrictlyAscUnique(a: seq<string>, b: seq<string>)
    requires StrictlyAsc(a) && StrictlyAsc(b)
    requires forall x :: x in a <==> x in b
    ensures a == b
    decreases |a|
  {
    if |a| > 0 {
      assert a[0] in b;
      assert b[0] in a;
      var i :| 0 <= i < |b| && b[i] == a[0];
      var j :| 0 <= j < |a| && a[j] == b[0];
      if i > 0 && j > 0 {
        LexLeAntisymmetric(a[0], b[0]);
        assert false;
      }
      assert a[0] == b[0];
      forall x ensures x in a[1..] <==> x in b[1..] {
        if x in a[1..] {
          var k :| 0 <= k < |a| - 1 && a[1..][k] == x;
          assert LexLt(a[0], a[k + 1]);
          assert a[k + 1] in a;
          var m :| 0 <= m < |b| && b[m] == x;
          assert m != 0;
          assert b[1..][m - 1] == x;
        }
        if x in b[1..] {
          var k :| 0 <= k < |b| - 1 && b[1..][k] == x;
          assert LexLt(b[0], b[k + 1]);
          assert b[k + 1] in b;
          var m :| 0 <= m < |a| && a[m] == x;
          assert m != 0;
          assert a[1..][m - 1] == x;
        }
      }
      StrictlyAscUnique(a[1..], b[1..]);
      assert a == [a[0]] + a[1..] && b == [b[0]] + b[1..];
    } else if |b| > 0 {
      HeadIn(b);
      assert false;
    }
  }

  lemma HeadIn(b: seq<string>)
    requires |b| > 0
    ensures b[0] in b
  {
  }
}
