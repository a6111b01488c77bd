/**
 * src/lib/stats.ts: the median and percentiles of a list of numbers, both
 * read from a sorted copy of the input. Numbers are integers here and the
 * percentile index is computed exactly; `Math.round(x)` is `floor(x + 1/2)`.
 */
module Stats {
  import opened Wrappers

  predicate Sorted(s: seq<int>) {
    forall i, j :: 0 <= i < j < |s| ==> s[i] <= s[j]
  }

  /** `s` holds the same values as `values`, in ascending order. */
  predicate SortedPermutation(s: seq<int>, values: seq<int>) {
    Sorted(s) && multiset(s) == multiset(values)
  }

  /** One step of insertion sort: `x` goes before the first element not below it. */
  function Insert(x: int, s: seq<int>): (r: seq<int>)
    ensures multiset(r) == multiset(s) + multiset{x}
  {
    if s == [] || x <= s[0] then [x] + s
    else
      assert s == [s[0]] + s[1..];
      [s[0]] + Insert(x, s[1..])
  }

  /** Inserting into an ascending list keeps it ascending. */
  lemma {:induction false} InsertSorted(x: int, s: seq<int>)
    requires Sorted(s)
    ensures Sorted(Insert(x, s))
  {
    if s != [] && x > s[0] {
      var rest := Insert(x, s[1..]);
      InsertSorted(x, s[1..]);
      forall k | 0 <= k < |rest| ensures s[0] <= rest[k] {
        assert rest[k] in multiset(rest);
        assert rest[k] == x || rest[k] in s[1..];
      }
      assert Insert(x, s) == [s[0]] + rest;
    }
  }

  /** `[...values].sort((a, b) => a - b)`: a fresh ascending copy. */
  function SortedCopy(values: seq<int>): (r: seq<int>)
    ensures SortedPermutation(r, values)
  {
    if values == [] then []
    else
      assert values == [values[0]] + values[1..];
      InsertSorted(values[0], SortedCopy(values[1..]));
      Insert(values[0], SortedCopy(values[1..]))
  }

  /** There is only one ascending arrangement of a multiset of values. */
  lemma {:induction false} SortedUnique(a: seq<int>, b: seq<int>)
    requires Sorted(a) && Sorted(b) && multiset(a) == multiset(b)
    ensures a == b
  {
    if a != [] {
      assert |b| == |multiset(b)| == |a|;
      SameLeast(a, b);
      SameRest(a, b);
      SortedUnique(a[1..], b[1..]);
      assert a == [a[0]] + a[1..] && b == [b[0]] + b[1..];
    }
  }

  /** Two ascending arrangements of the same values start alike. */
  lemma SameLeast(a: seq<int>, b: seq<int>)
    requires Sorted(a) && Sorted(b) && multiset(a) == multiset(b) && a != [] && b != []
    ensures a[0] == b[0]
  {
    assert a[0] in multiset(b);
    assert b[0] in multiset(a);
    var i :| 0 <= i < |a| && a[i] == b[0];
    var j :| 0 <= j < |b| && b[j] == a[0];
    assert a[0] <= a[i] && b[0] <= b[j];
  }

  /** Removing equal first elements leaves equal multisets of ascending rests. */
  lemma SameRest(a: seq<int>, b: seq<int>)
    requires Sorted(a) && Sorted(b) && multiset(a) == multiset(b) && a != [] && b != [] && a[0] == b[0]
    ensures Sorted(a[1..]) && Sorted(b[1..]) && multiset(a[1..]) == multiset(b[1..])
  {
    assert a == [a[0]] + a[1..] && b == [b[0]] + b[1..];
    assert multiset(a[1..]) == multiset(a) - multiset{a[0]};
    assert multiset(b[1..]) == multiset(b) - multiset{b[0]};
  }

  /** The result of sorting depends only on which values there are. */
  lemma SortedCopyOfPermutation(values: seq<int>, s: seq<int>)
    requires SortedPermutation(s, values)
    ensures SortedCopy(values) == s
  {
    SortedUnique(SortedCopy(values), s);
  }

  /** The least of the values, as `Math.min` gives it. */
  function Minimum(values: seq<int>): (m: int)
    requires values != []
    ensures m in values && forall x :: x in values ==> m <= x
  {
    if |values| == 1 then values[0]
    else
      var rest := Minimum(values[1..]);
      assert forall x :: x in values ==> x == values[0] || x in values[1..];
      if values[0] <= rest then values[0] else rest
  }

  /** The greatest of the values, as `Math.max` gives it. */
  function Maximum(values: seq<int>): (m: int)
    requires values != []
    ensures m in values && forall x :: x in values ==> x <= m
  {
    if |values| == 1 then values[0]
    else
      var rest := Maximum(values[1..]);
      assert forall x :: x in values ==> x == values[0] || x in values[1..];
      if values[0] >= rest then values[0] else rest
  }

  /** A sorted arrangement starts with the minimum and ends with the maximum. */
  lemma SortedEnds(values: seq<int>, s: seq<int>)
    requires values != [] && SortedPermutation(s, values)
    ensures |s| == |values|
    ensures s[0] == Minimum(values) && s[|s| - 1] == Maximum(values)
  {
    assert |s| == |multiset(s)| == |values|;
    assert forall x :: x in values <==> x in multiset(s);
    var lo := Minimum(values);
    var hi := Maximum(values);
    assert s[0] in multiset(values) && s[|s| - 1] in multiset(values);
    var i :| 0 <= i < |s| && s[i] == lo;
    var j :| 0 <= j < |s| && s[j] == hi;
    assert s[0] <= s[i] && s[j] <= s[|s| - 1];
  }

  /** Every element of a sorted arrangement lies between the extremes. */
  lemma SortedBetween(values: seq<int>, s: seq<int>, k: int)
    requires values != [] && SortedPermutation(s, values)
    requires 0 <= k < |s|
    ensures Minimum(values) <= s[k] <= Maximum(values)
  {
    SortedEnds(values, s);
  }

  /** `Math.round(x / 2)` for an integer `x`: halves round up. */
  function RoundHalf(x: int): int {
    (x + 1) / 2
  }

  /** `median`: 0 for no values, the middle value of the sorted copy for an
      odd count, and the rounded mean of the two middle values otherwise. */
  function Median(values: seq<int>): int {
    if |values| == 0 then 0
    else
      var sorted := SortedCopy(values);
      assert |sorted| == |multiset(sorted)| == |values|;
      var mid := |sorted| / 2;
      if |sorted| % 2 != 0 then sorted[mid] else RoundHalf(sorted[mid - 1] + sorted[mid])
  }

  /** The median read off any ascending arrangement of the values. */
  lemma MedianOfSorted(values: seq<int>, s: seq<int>)
    requires values != [] && SortedPermutation(s, values)
    ensures |s| == |values|
    ensures |s| % 2 == 1 ==> Median(values) == s[|s| / 2]
    ensures |s| % 2 == 0 ==> 2 * Median(values) - 1 <= s[|s| / 2 - 1] + s[|s| / 2] <= 2 * Median(values)
  {
    SortedCopyOfPermutation(values, s);
    assert |s| == |multiset(s)| == |values|;
  }

  /** The median of no values is 0 and of one value that value. */
  lemma MedianSmall(x: int)
    ensures Median([]) == 0 && Median([x]) == x
  {
    assert SortedCopy([x]) == [x] by { SortedCopyOfPermutation([x], [x]); }
  }

  /** The median lies between the least and the greatest value. */
  lemma MedianBounds(values: seq<int>)
    requires values != []
    ensures Minimum(values) <= Median(values) <= Maximum(values)
  {
    var s := SortedCopy(values);
    SortedEnds(values, s);
    var mid := |s| / 2;
    SortedBetween(values, s, mid);
    if |s| % 2 == 0 {
      SortedBetween(values, s, mid - 1);
    }
  }

  /** Reordering the input does not change the median. */
  lemma MedianOrderIndependent(a: seq<int>, b: seq<int>)
    requires multiset(a) == multiset(b)
    ensures Median(a) == Median(b)
  {
    SortedCopyOfPermutation(b, SortedCopy(a));
  }

  /** `Math.round(a + (r / 100) * (b - a))` for `0 < r < 100`. */
  function Interpolate(a: int, b: int, r: int): int {
    (200 * a + 2 * r * (b - a) + 100) / 200
  }

  /** Interpolating between two ordered values stays between them. */
  lemma InterpolateBetween(a: int, b: int, r: int)
    requires a <= b && 0 < r < 100
    ensures a <= Interpolate(a, b, r) <= b
  {
    var d := b - a;
    assert 0 <= 2 * r * d <= 198 * d;
    assert 200 * a + 100 <= 200 * a + 2 * r * d + 100 < 200 * b + 200;
  }

  /** The percentile at position `scaled / 100` of an ascending list. An
      index outside the list reads `undefined`, and interpolating with it
      gives `NaN`: both are `None`. */
  function PercentileAt(sorted: seq<int>, scaled: int): Option<int> {
    var lower := scaled / 100;
    var upper := if scaled % 100 == 0 then lower else lower + 1;
    if lower == upper then
      if 0 <= lower < |sorted| then Some(sorted[lower]) else None
    else if 0 <= lower && upper < |sorted| then
      Some(Interpolate(sorted[lower], sorted[upper], scaled % 100))
    else None
  }

  /** `percentile`: 0 for no values; otherwise the value at position
      `p / 100 * (n - 1)` of the sorted copy, interpolated and rounded when
      that position falls between two values. */
  function Percentile(values: seq<int>, p: int): Option<int> {
    if |values| == 0 then Some(0)
    else
      var sorted := SortedCopy(values);
      PercentileAt(sorted, p * (|sorted| - 1))
  }

  /** A sorted permutation is as long as the input. */
  lemma PermutationLength(values: seq<int>, s: seq<int>)
    requires multiset(s) == multiset(values)
    ensures |s| == |values|
  {
    assert |s| == |multiset(s)| == |values|;
  }

  /** The scaled position of `p` from 0 to 100 lies within the list. */
  lemma ScaledInRange(p: int, n: nat)
    requires 0 <= p <= 100 && n >= 1
    ensures 0 <= p * (n - 1) <= 100 * (n - 1)
  {
  }

  /** The last position is a whole index. */
  lemma WholeScale(m: nat)
    ensures (100 * m) % 100 == 0 && (100 * m) / 100 == m
  {
  }

  /** A `p` outside 0..100 scales to a position outside the list. */
  lemma ScaledOutside(p: int, m: int)
    requires m >= 1 && (p < 0 || p > 100)
    ensures p * m < 0 || p * m > 100 * m
  {
    if p < 0 {
      assert p * m <= -m;
    } else {
      assert p * m >= 101 * m;
    }
  }

  /** A whole position reads the value there; a position between two
      indices interpolates their values by its fractional part. */
  lemma PercentileAtPosition(s: seq<int>, scaled: int)
    requires s != [] && 0 <= scaled <= 100 * (|s| - 1)
    ensures scaled % 100 == 0 ==> 0 <= scaled / 100 < |s| && PercentileAt(s, scaled) == Some(s[scaled / 100])
    ensures scaled % 100 != 0 ==>
      (0 <= scaled / 100 && scaled / 100 + 1 < |s| &&
       PercentileAt(s, scaled) == Some(Interpolate(s[scaled / 100], s[scaled / 100 + 1], scaled % 100)))
  {
  }

  /** A percentile whose position is a whole index is the value there, in
      any ascending arrangement of the values. */
  lemma PercentileAtIndex(values: seq<int>, s: seq<int>, p: int)
    requires values != [] && SortedPermutation(s, values)
    requires 0 <= p <= 100 && (p * (|values| - 1)) % 100 == 0
    ensures |s| == |values|
    ensures 0 <= p * (|values| - 1) / 100 < |s|
    ensures Percentile(values, p) == Some(s[p * (|values| - 1) / 100])
  {
    SortedCopyOfPermutation(values, s);
    PermutationLength(values, s);
    ScaledInRange(p, |values|);
    PercentileAtPosition(s, p * (|values| - 1));
  }

  /** Between two indices the percentile interpolates their values by the
      fractional part of the position. */
  lemma PercentileBetween(values: seq<int>, s: seq<int>, p: int)
    requires values != [] && SortedPermutation(s, values)
    requires 0 <= p <= 100 && (p * (|values| - 1)) % 100 != 0
    ensures |s| == |values|
    ensures var k := p * (|values| - 1) / 100;
      && 0 <= k && k + 1 < |s|
      && Percentile(values, p) == Some(Interpolate(s[k], s[k + 1], (p * (|values| - 1)) % 100))
  {
    SortedCopyOfPermutation(values, s);
    PermutationLength(values, s);
    var scaled := p * (|values| - 1);
    ScaledInRange(p, |values|);
    assert Percentile(values, p) == PercentileAt(s, scaled);
    PercentileAtPosition(s, scaled);
  }

  /** The 0th percentile is the minimum. */
  lemma PercentileMin(values: seq<int>)
    requires values != []
    ensures Percentile(values, 0) == Some(Minimum(values))
  {
    var s := SortedCopy(values);
    SortedEnds(values, s);
    assert 0 * (|s| - 1) == 0;
    PercentileAtPosition(s, 0);
  }

  /** The 100th percentile is the maximum. */
  lemma PercentileMax(values: seq<int>)
    requires values != []
    ensures Percentile(values, 100) == Some(Maximum(values))
  {
    var s := SortedCopy(values);
    assert Percentile(values, 100) == PercentileAt(s, 100 * (|s| - 1));
    LastPosition(s);
    SortedEnds(values, s);
  }

  /** The last position reads the last value. */
  lemma LastPosition(s: seq<int>)
    requires s != []
    ensures PercentileAt(s, 100 * (|s| - 1)) == Some(s[|s| - 1])
  {
    WholeScale(|s| - 1);
    PercentileAtPosition(s, 100 * (|s| - 1));
  }

  /** Every percentile of one value is that value, and of no values 0. */
  lemma PercentileSmall(x: int, p: int)
    ensures Percentile([], p) == Some(0) && Percentile([x], p) == Some(x)
  {
    assert SortedCopy([x]) == [x] by { SortedCopyOfPermutation([x], [x]); }
  }

  /** For `p` from 0 to 100 the percentile lies between the least and the
      greatest value. */
  lemma PercentileBounds(values: seq<int>, p: int)
    requires values != [] && 0 <= p <= 100
    ensures Percentile(values, p).Some?
    ensures Minimum(values) <= Percentile(values, p).value <= Maximum(values)
  {
    var s := SortedCopy(values);
    var n := |values|;
    if (p * (n - 1)) % 100 == 0 {
      PercentileAtIndex(values, s, p);
      SortedBetween(values, s, p * (n - 1) / 100);
    } else {
      PercentileBetween(values, s, p);
      var k := p * (n - 1) / 100;
      InterpolateBetween(s[k], s[k + 1], (p * (n - 1)) % 100);
      SortedBetween(values, s, k);
      SortedBetween(values, s, k + 1);
    }
  }

  /** A position below 0 or past the end of a list of two or more values
      reads outside it and gives no number. */
  lemma PercentileAtOutside(s: seq<int>, scaled: int)
    requires |s| >= 2 && (scaled < 0 || scaled > 100 * (|s| - 1))
    ensures PercentileAt(s, scaled) == None
  {
  }

  /** With two or more values, a `p` outside 0..100 reads outside the sorted
      copy and gives no number. */
  lemma PercentileOutOfRange(values: seq<int>, p: int)
    requires |values| >= 2 && (p < 0 || p > 100)
    ensures Percentile(values, p) == None
  {
    var s := SortedCopy(values);
    PermutationLength(values, s);
    var n := |values|;
    ScaledOutside(p, n - 1);
    PercentileAtOutside(s, p * (n - 1));
  }

  /** Reordering the input does not change any percentile. */
  lemma PercentileOrderIndependent(a: seq<int>, b: seq<int>, p: int)
    requires multiset(a) == multiset(b)
    ensures Percentile(a, p) == Percentile(b, p)
  {
    SortedCopyOfPermutation(b, SortedCopy(a));
    PermutationLength(a, b);
  }
}
