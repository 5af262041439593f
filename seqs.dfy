/** Sequence and string utilities that the JavaScript and pandas code relies on:
    first-seen de-duplication, `String.prototype.split`, `str.join`, decimal
    rendering of integers, and order-preserving filtering. */
module Seqs {
  import opened Basics

  /** The smaller of two integers. */
  function Min(a: int, b: int): int { if a <= b then a else b }

  ghost predicate NoDuplicates<T>(s: seq<T>) {
    forall i, j :: 0 <= i < j < |s| ==> s[i] != s[j]
  }

  /** The elements of `s` without repeats, each at its first occurrence:
      JavaScript `[...new Set(s)]` and pandas `Series.unique()`. */
  function Distinct<T(==)>(s: seq<T>): (r: seq<T>)
    ensures NoDuplicates(r)
    ensures forall i :: 0 <= i < |r| ==> r[i] in s
    ensures forall i :: 0 <= i < |s| ==> s[i] in r
    ensures |r| <= |s|
  {
    if s == [] then []
    else
      var d := Distinct(s[..|s| - 1]);
      if s[|s| - 1] in d then d else d + [s[|s| - 1]]
  }

  /** Index of the first element of `s` that differs from `s[0]`, if any. */
  function FirstOther<T(==)>(s: seq<T>): (k: Option<nat>)
    requires |s| > 0
    ensures k.Some? ==>
      && 0 < k.value < |s| && s[k.value] != s[0]
      && forall j :: 0 <= j < k.value ==> s[j] == s[0]
    ensures k.None? ==> forall j :: 0 <= j < |s| ==> s[j] == s[0]
  {
    if |s| == 1 then None
    else
      var k := FirstOther(s[..|s| - 1]);
      if k.Some? then k
      else if s[|s| - 1] != s[0] then Some(|s| - 1)
      else None
  }

  /** The first distinct element is the first element; the second, when there is
      one, is the first element that differs from it: encounter order. */
  lemma {:induction false} DistinctHead<T>(s: seq<T>)
    requires |s| > 0
    ensures |Distinct(s)| >= 1 && Distinct(s)[0] == s[0]
    ensures |Distinct(s)| >= 2 <==> FirstOther(s).Some?
    ensures |Distinct(s)| >= 2 ==> Distinct(s)[1] == s[FirstOther(s).value]
  {
    if |s| > 1 {
      var p := s[..|s| - 1];
      DistinctHead(p);
      assert p[0] == s[0];
      if FirstOther(p).None? {
        assert Distinct(p) == [s[0]];
      }
    }
  }

  /** JavaScript `s.split(sep)` for a non-empty string separator: the pieces
      between the leftmost non-overlapping occurrences of `sep`. */
  function Split(s: string, sep: string): (r: seq<string>)
    requires |sep| > 0
    ensures |r| >= 1
    decreases |s|
  {
    if |s| < |sep| then [s]
    else if s[..|sep|] == sep then [""] + Split(s[|sep|..], sep)
    else
      var rest := Split(s[1..], sep);
      [[s[0]] + rest[0]] + rest[1..]
  }

  predicate OccursAt(s: string, i: nat, sep: string) {
    i + |sep| <= |s| && s[i..i + |sep|] == sep
  }

  predicate Contains(s: string, sep: string) {
    exists i: nat | i <= |s| :: OccursAt(s, i, sep)
  }

  /** A string without the separator splits into itself alone. */
  lemma {:induction false} SplitWithoutSeparator(s: string, sep: string)
    requires |sep| > 0 && !Contains(s, sep)
    ensures Split(s, sep) == [s]
    decreases |s|
  {
    if |s| >= |sep| {
      assert !OccursAt(s, 0, sep);
      assert s[..|sep|] != sep;
      forall i: nat ensures !OccursAt(s[1..], i, sep) {
        if OccursAt(s[1..], i, sep) {
          assert s[1..][i..i + |sep|] == s[i + 1..i + 1 + |sep|];
          assert OccursAt(s, i + 1, sep);
        }
      }
      SplitWithoutSeparator(s[1..], sep);
      assert [s[0]] + s[1..] == s;
    }
  }

  /** When the first occurrence of `sep` in `a + sep + rest` is the one right
      after `a`, splitting yields `a` followed by the pieces of `rest`. */
  lemma {:induction false} SplitAfterPrefix(a: string, sep: string, rest: string)
    requires |sep| > 0
    requires forall i: nat :: i < |a| ==> !OccursAt(a + sep, i, sep)
    ensures Split(a + sep + rest, sep) == [a] + Split(rest, sep)
    decreases |a|
  {
    var s := a + sep + rest;
    if |a| == 0 {
      assert s == sep + rest;
      assert s[..|sep|] == sep;
      assert s[|sep|..] == rest;
    } else {
      PrefixNotAtStart(a, sep, rest);
      PrefixTailClean(a, sep);
      SplitAfterPrefix(a[1..], sep, rest);
      assert s[1..] == a[1..] + sep + rest;
      assert [a[0]] + a[1..] == a;
    }
  }

  lemma PrefixNotAtStart(a: string, sep: string, rest: string)
    requires |sep| > 0 && |a| > 0
    requires forall i: nat :: i < |a| ==> !OccursAt(a + sep, i, sep)
    ensures (a + sep + rest)[..|sep|] != sep
  {
    assert !OccursAt(a + sep, 0, sep);
    assert (a + sep)[0..|sep|] == (a + sep + rest)[..|sep|];
  }

  lemma PrefixTailClean(a: string, sep: string)
    requires |a| > 0
    requires forall i: nat :: i < |a| ==> !OccursAt(a + sep, i, sep)
    ensures forall i: nat :: i < |a[1..]| ==> !OccursAt(a[1..] + sep, i, sep)
  {
    forall i: nat | i < |a[1..]| ensures !OccursAt(a[1..] + sep, i, sep) {
      assert !OccursAt(a + sep, i + 1, sep);
      if i + |sep| <= |a[1..] + sep| {
        assert (a[1..] + sep)[i..i + |sep|] == (a + sep)[i + 1..i + 1 + |sep|];
      }
    }
  }

  /** A string containing the separator splits into at least two parts. */
  lemma {:induction false} SplitHasTwoParts(s: string, sep: string)
    requires |sep| > 0 && Contains(s, sep)
    ensures |Split(s, sep)| >= 2
    decreases |s|
  {
    var i: nat :| i <= |s| && OccursAt(s, i, sep);
    if s[..|sep|] != sep {
      assert i > 0;
      assert OccursAt(s[1..], i - 1, sep) by {
        assert s[1..][i - 1..i - 1 + |sep|] == s[i..i + |sep|];
      }
      SplitHasTwoParts(s[1..], sep);
    }
  }

  /** Position of the leftmost occurrence of `sep` in `s`, if any. */
  function FirstOccurrence(s: string, sep: string): (k: Option<nat>)
    requires |sep| > 0
    ensures k.Some? ==> OccursAt(s, k.value, sep) && forall i: nat :: i < k.value ==> !OccursAt(s, i, sep)
    ensures k.None? ==> !Contains(s, sep)
    decreases |s|
  {
    if |s| < |sep| then None
    else if s[..|sep|] == sep then Some(0)
    else
      OccursShift(s, sep);
      match FirstOccurrence(s[1..], sep)
      case None => None
      case Some(j) => Some(j + 1)
  }

  lemma OccursShift(s: string, sep: string)
    requires |s| > 0
    ensures forall i: nat :: OccursAt(s[1..], i, sep) <==> OccursAt(s, i + 1, sep)
    ensures forall i: nat :: i >= 1 ==> (OccursAt(s, i, sep) <==> OccursAt(s[1..], i - 1, sep))
  {
    forall i: nat ensures OccursAt(s[1..], i, sep) <==> OccursAt(s, i + 1, sep) {
      if i + 1 + |sep| <= |s| {
        assert s[1..][i..i + |sep|] == s[i + 1..i + 1 + |sep|];
      }
    }
  }

  /** The text before the first occurrence of `sep`, or all of `s`. */
  function PrefixBefore(s: string, sep: string): (r: string)
    requires |sep| > 0
    ensures !Contains(r, sep)
  {
    match FirstOccurrence(s, sep)
    case None => s
    case Some(k) =>
      assert forall i: nat :: OccursAt(s[..k], i, sep) ==> OccursAt(s, i, sep) by {
        forall i: nat | OccursAt(s[..k], i, sep) ensures OccursAt(s, i, sep) {
          OccursInPrefix(s, s[..k], i, sep);
        }
      }
      s[..k]
  }

  /** Splitting at the leftmost occurrence: the first part is the text
      before it, and the rest is the split of the text after it. */
  lemma SplitAtFirst(s: string, sep: string, k: nat)
    requires |sep| > 0 && FirstOccurrence(s, sep) == Some(k)
    ensures k + |sep| <= |s| && Split(s, sep) == [s[..k]] + Split(s[k + |sep|..], sep)
  {
    var a, rest := s[..k], s[k + |sep|..];
    assert s == a + sep + rest;
    forall i: nat | i < |a| ensures !OccursAt(a + sep, i, sep) {
      OccursInPrefix(s, a + sep, i, sep);
    }
    SplitAfterPrefix(a, sep, rest);
  }

  /** An occurrence that fits inside a prefix is an occurrence in the prefix. */
  lemma OccursInPrefix(s: string, t: string, i: nat, sep: string)
    requires |t| <= |s| && s[..|t|] == t && i + |sep| <= |t|
    ensures OccursAt(t, i, sep) <==> OccursAt(s, i, sep)
  {
    assert t[i..i + |sep|] == s[i..i + |sep|];
  }

  /** The first two parts of a split, read off the occurrences of `sep`:
      the text before the first one and the text after it up to the next
      one; there are exactly two parts when no occurrence follows. */
  lemma SplitAtOccurrence(s: string, sep: string, k: nat)
    requires |sep| > 0 && FirstOccurrence(s, sep) == Some(k)
    ensures k + |sep| <= |s|
    ensures |Split(s, sep)| >= 2 && Split(s, sep)[0] == s[..k]
    ensures Split(s, sep)[1] == PrefixBefore(s[k + |sep|..], sep)
    ensures |Split(s, sep)| == 2 <==> !Contains(s[k + |sep|..], sep)
  {
    var rest := s[k + |sep|..];
    SplitAtFirst(s, sep, k);
    SplitHead(rest, sep);
    ConsParts(Split(s, sep), s[..k], Split(rest, sep));
  }

  lemma ConsParts(parts: seq<string>, first: string, tail: seq<string>)
    requires parts == [first] + tail && |tail| >= 1
    ensures |parts| >= 2 && parts[0] == first && parts[1] == tail[0]
    ensures |parts| == 2 <==> |tail| < 2
  {
  }

  /** The first part of a split is the text before the first occurrence, and
      there is a second part exactly when an occurrence exists. */
  lemma SplitHead(s: string, sep: string)
    requires |sep| > 0
    ensures Split(s, sep)[0] == PrefixBefore(s, sep)
    ensures |Split(s, sep)| >= 2 <==> Contains(s, sep)
  {
    var first := FirstOccurrence(s, sep);
    if first.None? {
      SplitWithoutSeparator(s, sep);
    } else {
      SplitAtFirst(s, sep, first.value);
      assert OccursAt(s, first.value, sep);
      SplitHasTwoParts(s, sep);
    }
  }

  /** `' '.join(parts)` and friends. */
  function Join(parts: seq<string>, sep: string): string {
    if parts == [] then ""
    else if |parts| == 1 then parts[0]
    else Join(parts[..|parts| - 1], sep) + sep + parts[|parts| - 1]
  }

  /** `c * n` on a one-character Python string. */
  function Repeat(c: char, n: nat): (r: string)
    ensures |r| == n && forall i :: 0 <= i < n ==> r[i] == c
  {
    if n == 0 then "" else Repeat(c, n - 1) + [c]
  }

  function CountChar(s: string, c: char): nat {
    if s == [] then 0 else CountChar(s[..|s| - 1], c) + (if s[|s| - 1] == c then 1 else 0)
  }

  lemma {:induction false} CountCharAppend(a: string, b: string, c: char)
    ensures CountChar(a + b, c) == CountChar(a, c) + CountChar(b, c)
    decreases |b|
  {
    if b == [] {
      assert a + b == a;
    } else {
      assert (a + b)[..|a + b| - 1] == a + b[..|b| - 1];
      CountCharAppend(a, b[..|b| - 1], c);
    }
  }

  predicate IsDigit(c: char) { '0' <= c <= '9' }

  function DigitChar(d: nat): (c: char)
    requires d < 10
    ensures IsDigit(c)
  {
    ('0' as int + d) as char
  }

  /** The decimal text of a non-negative integer, as JavaScript template
      literals and Python `str` render it. */
  function NatToString(n: nat): (s: string)
    ensures |s| >= 1 && forall i :: 0 <= i < |s| ==> IsDigit(s[i])
  {
    if n < 10 then [DigitChar(n)] else NatToString(n / 10) + [DigitChar(n % 10)]
  }

  /** Python `int(s)` on a non-empty string of decimal digits. */
  function ParseDigits(s: string): nat
    requires forall i :: 0 <= i < |s| ==> IsDigit(s[i])
  {
    if s == [] then 0 else 10 * ParseDigits(s[..|s| - 1]) + DigitValue(s[|s| - 1])
  }

  function DigitValue(c: char): nat
    requires IsDigit(c)
  {
    c as int - '0' as int
  }

  /** Rendering then parsing a non-negative integer gives it back. */
  lemma {:induction false} ParseNatToString(n: nat)
    ensures ParseDigits(NatToString(n)) == n
  {
    if n >= 10 {
      ParseNatToString(n / 10);
      var s := NatToString(n);
      assert s[..|s| - 1] == NatToString(n / 10);
    }
  }

  /** The elements of `s` satisfying `p`, in order: a list comprehension with a
      condition, or a boolean mask on a DataFrame. */
  function Filter<T>(s: seq<T>, p: T -> bool): (r: seq<T>)
    ensures |r| <= |s|
    ensures forall i :: 0 <= i < |r| ==> r[i] in s && p(r[i])
    ensures forall i :: 0 <= i < |s| && p(s[i]) ==> s[i] in r
  {
    if s == [] then []
    else Filter(s[..|s| - 1], p) + (if p(s[|s| - 1]) then [s[|s| - 1]] else [])
  }

  lemma {:induction false} FilterAppend<T>(a: seq<T>, b: seq<T>, p: T -> bool)
    ensures Filter(a + b, p) == Filter(a, p) + Filter(b, p)
    decreases |b|
  {
    if b == [] {
      assert a + b == a;
    } else {
      assert (a + b)[..|a + b| - 1] == a + b[..|b| - 1];
      FilterAppend(a, b[..|b| - 1], p);
    }
  }

  /** The elements of `s` failing `p`, in order: the complement of `Filter`. */
  function Reject<T>(s: seq<T>, p: T -> bool): (r: seq<T>)
    ensures |r| <= |s|
    ensures forall i :: 0 <= i < |r| ==> r[i] in s && !p(r[i])
    ensures forall i :: 0 <= i < |s| && !p(s[i]) ==> s[i] in r
  {
    if s == [] then []
    else Reject(s[..|s| - 1], p) + (if p(s[|s| - 1]) then [] else [s[|s| - 1]])
  }

  /** When no element satisfies `p`, filtering keeps nothing and rejecting
      keeps everything. */
  lemma {:induction false} FilterNone<T>(s: seq<T>, p: T -> bool)
    requires forall i :: 0 <= i < |s| ==> !p(s[i])
    ensures Filter(s, p) == [] && Reject(s, p) == s
  {
    if s != [] {
      FilterNone(s[..|s| - 1], p);
      assert s == s[..|s| - 1] + [s[|s| - 1]];
    }
  }

  lemma {:induction false} FilterRejectSnoc<T>(t: seq<T>, x: T, p: T -> bool)
    ensures Filter(t + [x], p) == Filter(t, p) + (if p(x) then [x] else [])
    ensures Reject(t + [x], p) == Reject(t, p) + (if p(x) then [] else [x])
  {
    assert (t + [x])[..|t|] == t;
  }

  lemma MultisetSnocSplit<T>(f: seq<T>, r: seq<T>, t: seq<T>, x: T)
    requires multiset(f) + multiset(r) == multiset(t)
    ensures multiset(f + [x]) + multiset(r) == multiset(t + [x])
    ensures multiset(f) + multiset(r + [x]) == multiset(t + [x])
  {
  }

  lemma {:induction false} FilterRejectMultiset<T>(s: seq<T>, p: T -> bool)
    ensures multiset(Filter(s, p)) + multiset(Reject(s, p)) == multiset(s)
  {
    if s != [] {
      var t, x := s[..|s| - 1], s[|s| - 1];
      FilterRejectMultiset(t, p);
      assert s == t + [x];
      FilterRejectSnoc(t, x, p);
      MultisetSnocSplit(Filter(t, p), Reject(t, p), t, x);
    }
  }

  /** A condition splits a sequence into two order-preserving parts that
      together hold every element exactly as often as `s` does. */
  lemma FilterPartition<T>(s: seq<T>, p: T -> bool)
    ensures |Filter(s, p)| + |Reject(s, p)| == |s|
    ensures multiset(Filter(s, p)) + multiset(Reject(s, p)) == multiset(s)
  {
    FilterRejectMultiset(s, p);
    assert |multiset(Filter(s, p)) + multiset(Reject(s, p))| == |multiset(s)|;
  }
}
