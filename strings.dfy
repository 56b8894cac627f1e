/** The pieces of Rust's `str` API the editor relies on, over `seq<char>`: `find`, `rfind`,
    `contains`, `split("::")` and ASCII lower-casing. Indices are character indices. */
module Strings {
  import opened Geometry
  import opened Seqs

  /** The namespace separator of Rust type paths. */
  const PathSep: string := "::"

  predicate IsMatchAt(s: string, pat: string, i: nat)
  {
    i + |pat| <= |s| && s[i..i + |pat|] == pat
  }

  function FindFrom(s: string, pat: string, i: nat): (r: Option<nat>)
    ensures r.Some? ==> i <= r.value && IsMatchAt(s, pat, r.value)
    ensures r.Some? ==> forall j :: i <= j < r.value ==> !IsMatchAt(s, pat, j)
    ensures r.None? ==> forall j :: i <= j ==> !IsMatchAt(s, pat, j)
    decreases |s| - i
  {
    if i + |pat| > |s| then None
    else if IsMatchAt(s, pat, i) then Some(i)
    else FindFrom(s, pat, i + 1)
  }

  /** `s.find(pat)`: the leftmost position where `pat` occurs. */
  function Find(s: string, pat: string): (r: Option<nat>)
    ensures r.Some? ==> IsMatchAt(s, pat, r.value) && forall j :: 0 <= j < r.value ==> !IsMatchAt(s, pat, j)
    ensures r.None? ==> forall j :: 0 <= j ==> !IsMatchAt(s, pat, j)
  {
    FindFrom(s, pat, 0)
  }

  function RFindFrom(s: string, pat: string, i: int): (r: Option<nat>)
    ensures r.Some? ==> r.value <= i && IsMatchAt(s, pat, r.value)
    ensures r.Some? ==> forall j :: r.value < j <= i ==> !IsMatchAt(s, pat, j)
    ensures r.None? ==> forall j :: 0 <= j <= i ==> !IsMatchAt(s, pat, j)
    decreases i + 1
  {
    if i < 0 then None
    else if IsMatchAt(s, pat, i) then Some(i)
    else RFindFrom(s, pat, i - 1)
  }

  /** `s.rfind(pat)`: the rightmost position where `pat` occurs. */
  function RFind(s: string, pat: string): (r: Option<nat>)
    ensures r.Some? ==> IsMatchAt(s, pat, r.value) && forall j :: r.value < j ==> !IsMatchAt(s, pat, j)
    ensures r.None? ==> forall j :: !IsMatchAt(s, pat, j)
  {
    RFindFrom(s, pat, |s| - |pat|)
  }

  predicate Contains(s: string, pat: string) { Find(s, pat).Some? }

  /** `s.split("::")`: the pieces between non-overlapping separators found left to right. */
  function Split(s: string): (parts: seq<string>)
    ensures |parts| >= 1
    decreases |s|
  {
    match Find(s, PathSep)
    case None => [s]
    case Some(i) => [s[..i]] + Split(s[i + 2..])
  }

  /** Joins pieces with the separator, the inverse of `Split`. */
  function Join(parts: seq<string>): string
    requires |parts| >= 1
  {
    if |parts| == 1 then parts[0] else parts[0] + PathSep + Join(parts[1..])
  }

  /** `s.split("::").last()`. */
  function LastSegment(s: string): string
  {
    var parts := Split(s);
    parts[|parts| - 1]
  }

  /** The text after the last `"::"` found by `rfind`, or the whole text when there is none. */
  function AfterLastSep(s: string): string
  {
    match RFind(s, PathSep)
    case None => s
    case Some(i) => s[i + 2..]
  }

  lemma {:induction false} SplitJoin(s: string)
    ensures Join(Split(s)) == s
    decreases |s|
  {
    match Find(s, PathSep)
    case None =>
    case Some(i) =>
      var rest := s[i + 2..];
      SplitJoin(rest);
      assert Split(s) == [s[..i]] + Split(rest);
      assert Split(s)[1..] == Split(rest);
      assert s[i..i + 2] == PathSep;
      calc {
        Join(Split(s));
        s[..i] + PathSep + Join(Split(rest));
        s[..i] + s[i..i + 2] + s[i + 2..];
        { assert s == s[..i] + s[i..i + 2] + s[i + 2..]; }
        s;
      }
  }

  lemma MatchInSuffix(s: string, k: nat, j: nat)
    requires k <= |s|
    requires IsMatchAt(s[k..], PathSep, j)
    ensures IsMatchAt(s, PathSep, k + j)
  {
    assert s[k..][j..j + 2] == s[k + j..k + j + 2];
  }

  lemma MatchInPrefix(s: string, k: nat, j: nat)
    requires k <= |s|
    requires IsMatchAt(s[..k], PathSep, j)
    ensures IsMatchAt(s, PathSep, j)
  {
    assert s[..k][j..j + 2] == s[j..j + 2];
  }

  /** No piece produced by `split("::")` contains the separator. */
  lemma {:induction false} SplitPartsHaveNoSep(s: string)
    ensures forall k :: 0 <= k < |Split(s)| ==> !Contains(Split(s)[k], PathSep)
    decreases |s|
  {
    match Find(s, PathSep)
    case None =>
    case Some(i) =>
      var rest := s[i + 2..];
      SplitPartsHaveNoSep(rest);
      assert Split(s) == [s[..i]] + Split(rest);
      if Contains(s[..i], PathSep) {
        var j := Find(s[..i], PathSep).value;
        MatchInPrefix(s, i, j);
        assert false;
      }
  }

  lemma LastSegmentHasNoSep(s: string)
    ensures !Contains(LastSegment(s), PathSep)
  {
    SplitPartsHaveNoSep(s);
  }

  /** The text after the last separator never contains another separator. */
  lemma AfterLastSepHasNoSep(s: string)
    ensures !Contains(AfterLastSep(s), PathSep)
  {
    match RFind(s, PathSep)
    case None =>
    case Some(i) =>
      var r := s[i + 2..];
      if Contains(r, PathSep) {
        var j := Find(r, PathSep).value;
        MatchInSuffix(s, i + 2, j);
        assert false;
      }
  }

  /** A witness that the two readings of "last segment" differ: on a run of three colons
      `split` consumes the first two, while `rfind` picks the last two. */
  lemma LastSegmentDiffersFromAfterLastSep()
    ensures LastSegment("a:::b") == ":b"
    ensures AfterLastSep("a:::b") == "b"
  {
    var s := "a:::b";
    assert IsMatchAt(s, PathSep, 1);
    assert s[0..2][0] == 'a';
    assert !IsMatchAt(s, PathSep, 0);
    assert Find(s, PathSep) == Some(1);
    assert s[3..] == ":b";
    assert ":b"[0..2][1] == 'b';
    assert !IsMatchAt(":b", PathSep, 0);
    assert Find(":b", PathSep) == None;
    assert Split(":b") == [":b"];
    assert s[..1] == "a";
    assert Split(s) == [s[..1]] + Split(s[3..]);
    assert IsMatchAt(s, PathSep, 2);
    assert s[3..5][1] == 'b';
    assert !IsMatchAt(s, PathSep, 3);
    assert RFind(s, PathSep) == Some(2);
  }

  function LowerChar(c: char): char
  {
    if 'A' <= c <= 'Z' then (c as int + 32) as char else c
  }

  /** `str::to_lowercase`, for ASCII letters. */
  function ToLower(s: string): (r: string)
    ensures |r| == |s|
    ensures forall i :: 0 <= i < |s| ==> r[i] == LowerChar(s[i])
  {
    seq(|s|, i requires 0 <= i < |s| => LowerChar(s[i]))
  }

  /** `String`'s ordering: character by character, a proper prefix first. */
  predicate LexLe(a: string, b: string)
  {
    |a| == 0 || (|b| > 0 && (a[0] < b[0] || (a[0] == b[0] && LexLe(a[1..], b[1..]))))
  }

  lemma {:induction false} LexLeTotal(a: string, b: string)
    ensures LexLe(a, b) || LexLe(b, a)
  {
    if |a| > 0 && |b| > 0 && a[0] == b[0] {
      LexLeTotal(a[1..], b[1..]);
    }
  }

  lemma {:induction false} LexLeTransitive(a: string, b: string, c: string)
    requires LexLe(a, b) && LexLe(b, c)
    ensures LexLe(a, c)
  {
    if |a| > 0 && a[0] == b[0] && b[0] == c[0] {
      LexLeTransitive(a[1..], b[1..], c[1..]);
    }
  }

  lemma {:induction false} LexLeAntisymmetric(a: string, b: string)
    requires LexLe(a, b) && LexLe(b, a)
    ensures a == b
  {
    if |a| > 0 {
      LexLeAntisymmetric(a[1..], b[1..]);
      assert a == [a[0]] + a[1..] && b == [b[0]] + b[1..];
    }
  }

  /** The string order is a total preorder, so sorting by it yields a sorted list. */
  lemma LexLeIsTotalPreorder()
    ensures TotalPreorder(LexLe)
  {
    forall a, b
      ensures LexLe(a, b) || LexLe(b, a)
    {
      LexLeTotal(a, b);
    }
    forall a, b, c | LexLe(a, b) && LexLe(b, c)
      ensures LexLe(a, c)
    {
      LexLeTransitive(a, b, c);
    }
  }

  /** Sorting a repeat-free list of names gives a sorted, repeat-free list of the same names. */
  lemma SortNamesKeepsThem(names: seq<string>)
    requires Distinct(names)
    ensures SortedBy(SortBy(names, LexLe), LexLe) && Distinct(SortBy(names, LexLe))
    ensures forall x :: x in SortBy(names, LexLe) <==> x in names
  {
    LexLeIsTotalPreorder();
    SortBySorted(names, LexLe);
    var sorted := SortBy(names, LexLe);
    DistinctPermutation(names, sorted);
    forall x
      ensures x in sorted <==> x in names
    {
      assert x in sorted <==> x in multiset(sorted);
      assert x in names <==> x in multiset(names);
    }
  }

  /** A list of distinct strings sorted by `LexLe` is strictly increasing. */
  lemma SortedDistinctIsStrict(s: seq<string>)
    requires SortedBy(s, LexLe) && Distinct(s)
    ensures forall i, j :: 0 <= i < j < |s| ==> !LexLe(s[j], s[i])
  {
    forall i, j | 0 <= i < j < |s|
      ensures !LexLe(s[j], s[i])
    {
      if LexLe(s[j], s[i]) {
        LexLeAntisymmetric(s[i], s[j]);
      }
    }
  }
}
