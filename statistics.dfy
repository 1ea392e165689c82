/** find_min, find_max and calculate_mean of weather.py. */
module Statistics {

  /** One element of a list handed to find_min or find_max: the empty string
      '', None, or a temperature. */
  datatype Entry = Blank | Absent | Reading(value: int)

  /** What find_min and find_max return: the empty tuple () when nothing is
      left after filtering, otherwise (value, index). */
  datatype Extreme = NoResult | Found(value: int, index: nat)

  /** Every entry is '' or None (in particular, the empty list). */
  predicate AllMissing(data: seq<Entry>) {
    forall k :: 0 <= k < |data| ==> !data[k].Reading?
  }

  /** A list of temperatures as entries, none of them '' or None. */
  function Readings(s: seq<int>): seq<Entry> {
    seq(|s|, k requires 0 <= k < |s| => Reading(s[k]))
  }

  /** The list comprehension `cleaned`: the entries that are neither '' nor
      None, in their original order. */
  function Cleaned(data: seq<Entry>): (r: seq<int>)
    ensures |r| <= |data|
    ensures r == [] <==> AllMissing(data)
  {
    if data == [] then []
    else (if data[0].Reading? then [data[0].value] else []) + Cleaned(data[1..])
  }

  /** s[::-1] */
  function Reversed<T>(s: seq<T>): (r: seq<T>)
    ensures |r| == |s|
    ensures forall k :: 0 <= k < |s| ==> r[k] == s[|s| - 1 - k]
  {
    if s == [] then [] else Reversed(s[1..]) + [s[0]]
  }

  /** list.index(v): the first position that holds v. */
  function IndexOf<T(==)>(s: seq<T>, v: T): (i: nat)
    requires v in s
    ensures i < |s| && s[i] == v
    ensures forall k :: 0 <= k < i ==> s[k] != v
  {
    if s[0] == v then 0 else 1 + IndexOf(s[1..], v)
  }

  /** Built-in min() of a non-empty list. */
  function SeqMin(s: seq<int>): (m: int)
    requires s != []
    ensures m in s
    ensures forall k :: 0 <= k < |s| ==> m <= s[k]
  {
    if |s| == 1 then s[0]
    else
      var rest := SeqMin(s[1..]);
      if s[0] <= rest then s[0] else rest
  }

  /** Built-in max() of a non-empty list. */
  function SeqMax(s: seq<int>): (m: int)
    requires s != []
    ensures m in s
    ensures forall k :: 0 <= k < |s| ==> s[k] <= m
  {
    if |s| == 1 then s[0]
    else
      var rest := SeqMax(s[1..]);
      if rest <= s[0] then s[0] else rest
  }

  /** i is the position of a smallest element of s, and the last such. */
  predicate IsLastMin(s: seq<int>, i: int) {
    && 0 <= i < |s|
    && (forall k :: 0 <= k < |s| ==> s[i] <= s[k])
    && (forall k :: i < k < |s| ==> s[k] != s[i])
  }

  /** i is the position of a largest element of s, and the last such. */
  predicate IsLastMax(s: seq<int>, i: int) {
    && 0 <= i < |s|
    && (forall k :: 0 <= k < |s| ==> s[k] <= s[i])
    && (forall k :: i < k < |s| ==> s[k] != s[i])
  }

  /** Reference definition of the tie-break: a left-to-right scan that moves
      to every element not larger than the best so far. */
  function LastMinIndex(s: seq<int>): (i: nat)
    requires s != []
    ensures IsLastMin(s, i)
  {
    if |s| == 1 then 0
    else
      var k := LastMinIndex(s[..|s| - 1]);
      if s[|s| - 1] <= s[k] then |s| - 1 else k
  }

  /** The same scan for the largest element. */
  function LastMaxIndex(s: seq<int>): (i: nat)
    requires s != []
    ensures IsLastMax(s, i)
  {
    if |s| == 1 then 0
    else
      var k := LastMaxIndex(s[..|s| - 1]);
      if s[k] <= s[|s| - 1] then |s| - 1 else k
  }

  /** `len(s) - 1 - s[::-1].index(v)` is the last position holding v. */
  lemma LastOccurrence(s: seq<int>, v: int)
    requires v in s
    ensures v in Reversed(s)
    ensures var i := |s| - 1 - IndexOf(Reversed(s), v);
      0 <= i < |s| && s[i] == v && forall k :: i < k < |s| ==> s[k] != v
  {
    var j :| 0 <= j < |s| && s[j] == v;
    assert Reversed(s)[|s| - 1 - j] == v;
    var m := IndexOf(Reversed(s), v);
    forall k | |s| - 1 - m < k < |s|
      ensures s[k] != v
    {
      assert Reversed(s)[|s| - 1 - k] == s[k];
    }
  }

  /** `len(s) - 1 - s[::-1].index(v)`: the last position that holds v. */
  function LastIndexOf(s: seq<int>, v: int): (i: nat)
    requires v in s
    ensures i < |s| && s[i] == v
    ensures forall k :: i < k < |s| ==> s[k] != v
  {
    LastOccurrence(s, v);
    |s| - 1 - IndexOf(Reversed(s), v)
  }

  /** find_min: the smallest temperature left after dropping '' and None,
      with its position among the ones left; on ties the last position. */
  function FindMin(data: seq<Entry>): (r: Extreme)
    ensures r.NoResult? <==> Cleaned(data) == []
    ensures r.Found? ==> IsLastMin(Cleaned(data), r.index) && r.value == Cleaned(data)[r.index]
  {
    var cleaned := Cleaned(data);
    if cleaned == [] then NoResult
    else
      var v := SeqMin(cleaned);
      Found(v, LastIndexOf(cleaned, v))
  }

  /** find_max: the largest temperature left after dropping '' and None,
      with its position among the ones left; on ties the last position. */
  function FindMax(data: seq<Entry>): (r: Extreme)
    ensures r.NoResult? <==> Cleaned(data) == []
    ensures r.Found? ==> IsLastMax(Cleaned(data), r.index) && r.value == Cleaned(data)[r.index]
  {
    var cleaned := Cleaned(data);
    if cleaned == [] then NoResult
    else
      var v := SeqMax(cleaned);
      Found(v, LastIndexOf(cleaned, v))
  }

  lemma LastMinUnique(s: seq<int>, i: int, j: int)
    requires IsLastMin(s, i) && IsLastMin(s, j)
    ensures i == j
  {
    assert s[i] <= s[j] && s[j] <= s[i];
  }

  lemma LastMaxUnique(s: seq<int>, i: int, j: int)
    requires IsLastMax(s, i) && IsLastMax(s, j)
    ensures i == j
  {
    assert s[i] <= s[j] && s[j] <= s[i];
  }

  /** The reversed-list lookup of find_min picks the same position as the
      left-to-right scan. */
  lemma FindMinMatchesScan(data: seq<Entry>)
    requires !AllMissing(data)
    ensures var s := Cleaned(data);
      FindMin(data) == Found(s[LastMinIndex(s)], LastMinIndex(s))
  {
  }

  /** The reversed-list lookup of find_max picks the same position as the
      left-to-right scan. */
  lemma FindMaxMatchesScan(data: seq<Entry>)
    requires !AllMissing(data)
    ensures var s := Cleaned(data);
      FindMax(data) == Found(s[LastMaxIndex(s)], LastMaxIndex(s))
  {
  }

  /** Filtering keeps order: filtering two lists one after the other is
      filtering their concatenation. */
  lemma {:induction false} CleanedAppend(a: seq<Entry>, b: seq<Entry>)
    ensures Cleaned(a + b) == Cleaned(a) + Cleaned(b)
  {
    if a == [] {
      assert a + b == b;
    } else {
      var head := if a[0].Reading? then [a[0].value] else [];
      assert (a + b)[0] == a[0];
      assert (a + b)[1..] == a[1..] + b;
      assert Cleaned(a + b) == head + Cleaned(a[1..] + b);
      CleanedAppend(a[1..], b);
      assert Cleaned(a) == head + Cleaned(a[1..]);
    }
  }

  /** A list of plain temperatures loses nothing to the filter, so a position
      in `cleaned` is a position in the list itself. */
  lemma {:induction false} CleanedReadings(s: seq<int>)
    ensures Cleaned(Readings(s)) == s
  {
    if s != [] {
      assert Readings(s)[1..] == Readings(s[1..]);
      CleanedReadings(s[1..]);
    }
  }

  /** The tie-break example from the doc comment of find_max. */
  lemma FindMaxTieExample()
    ensures FindMax([Reading(5), Reading(5), Reading(3), Reading(5)]) == Found(5, 3)
  {
  }

  /** The all-empty case returns the empty tuple rather than raising. */
  lemma FindMinAllEmptyExample()
    ensures FindMin([Blank, Blank, Absent]) == NoResult
  {
  }

  function Sum(s: seq<int>): int {
    if s == [] then 0 else s[0] + Sum(s[1..])
  }

  /** calculate_mean: sum divided by length; the source divides by len()
      unguarded, so an empty list raises ZeroDivisionError. */
  function Mean(s: seq<int>): real
    requires s != []
  {
    Sum(s) as real / |s| as real
  }

  lemma {:induction false} SumAppend(a: seq<int>, b: seq<int>)
    ensures Sum(a + b) == Sum(a) + Sum(b)
  {
    if a == [] {
      assert a + b == b;
    } else {
      assert (a + b)[1..] == a[1..] + b;
      SumAppend(a[1..], b);
    }
  }

  /** Taking the element at k out of a list takes it out of the sum. */
  lemma SumRemove(b: seq<int>, k: nat)
    requires k < |b|
    ensures Sum(b) == b[k] + Sum(b[..k] + b[k + 1..])
  {
    assert b == b[..k] + b[k..];
    SumAppend(b[..k], b[k..]);
    assert b[k..][1..] == b[k + 1..];
    assert Sum(b[k..]) == b[k] + Sum(b[k + 1..]);
    SumAppend(b[..k], b[k + 1..]);
  }

  lemma {:induction false} SumPermutation(a: seq<int>, b: seq<int>)
    requires multiset(a) == multiset(b)
    ensures Sum(a) == Sum(b)
  {
    if a == [] {
      assert |b| == |multiset(b)| == 0;
    } else {
      assert a[0] in multiset(b);
      var k := IndexOf(b, a[0]);
      var rest := b[..k] + b[k + 1..];
      assert b == b[..k] + [b[k]] + b[k + 1..];
      assert a == [a[0]] + a[1..];
      assert multiset(a[1..]) == multiset(a) - multiset([a[0]]);
      assert multiset(rest) == multiset(b) - multiset([b[k]]);
      SumPermutation(a[1..], rest);
      SumRemove(b, k);
    }
  }

  /** The mean does not depend on the order of the list. */
  lemma MeanPermutation(a: seq<int>, b: seq<int>)
    requires a != [] && multiset(a) == multiset(b)
    ensures b != [] && Mean(a) == Mean(b)
  {
    assert |a| == |multiset(a)| == |multiset(b)| == |b|;
    SumPermutation(a, b);
  }

  /** A sum of |s| terms, each between lo and hi, lies between |s| * lo and
      |s| * hi. */
  lemma {:induction false} SumBounds(s: seq<int>, lo: int, hi: int)
    requires forall k :: 0 <= k < |s| ==> lo <= s[k] <= hi
    ensures |s| * lo <= Sum(s) <= |s| * hi
  {
    if s != [] {
      assert forall k :: 0 <= k < |s| - 1 ==> s[1..][k] == s[k + 1];
      SumBounds(s[1..], lo, hi);
    }
  }

  /** The mean lies between the smallest and the largest element: a
      reported average is never below the lowest or above the highest
      temperature. */
  lemma MeanBetween(s: seq<int>)
    requires s != []
    ensures SeqMin(s) as real <= Mean(s) <= SeqMax(s) as real
  {
    var lo, hi := SeqMin(s), SeqMax(s);
    SumBounds(s, lo, hi);
    QuotientBounds(Sum(s), |s|, lo, hi);
  }

  /** Dividing by a positive n keeps x / n between lo and hi when x lies
      between n * lo and n * hi. */
  lemma QuotientBounds(x: int, n: int, lo: int, hi: int)
    requires n > 0 && n * lo <= x <= n * hi
    ensures lo as real <= x as real / n as real <= hi as real
  {
    var q := x as real / n as real;
    assert q * n as real == x as real;
    assert (n * lo) as real == n as real * lo as real;
    assert (n * hi) as real == n as real * hi as real;
  }

  lemma MeanExample()
    ensures Mean([0, 10]) == 5.0
  {
  }
}
