/** Numeric building blocks of the report: the running sum of request
    times, `max`, the median of `statistics.median`, and `round(x, 3)`.
    Request times are modelled as exact reals. */
module Numeric {

  /** Sum of a sequence of request times, added left to right. */
  function Sum(s: seq<real>): real
  {
    if s == [] then 0.0 else Sum(s[..|s| - 1]) + s[|s| - 1]
  }

  /** Largest element, as Python's `max`. */
  function Max(s: seq<real>): (m: real)
    requires s != []
    ensures m in s
    ensures forall i :: 0 <= i < |s| ==> s[i] <= m
  {
    if |s| == 1 then s[0]
    else
      var rest := Max(s[..|s| - 1]);
      assert forall i :: 0 <= i < |s| - 1 ==> s[i] == s[..|s| - 1][i];
      if s[|s| - 1] > rest then s[|s| - 1] else rest
  }

  /** Smallest element (used only to state bounds). */
  function Min(s: seq<real>): (m: real)
    requires s != []
    ensures m in s
    ensures forall i :: 0 <= i < |s| ==> m <= s[i]
  {
    if |s| == 1 then s[0]
    else
      var rest := Min(s[..|s| - 1]);
      assert forall i :: 0 <= i < |s| - 1 ==> s[i] == s[..|s| - 1][i];
      if s[|s| - 1] < rest then s[|s| - 1] else rest
  }

  /** The mean of a non-empty sample lies between its minimum and maximum. */
  lemma MeanBetweenMinMax(s: seq<real>)
    requires s != []
    ensures Min(s) <= Sum(s) / |s| as real <= Max(s)
  {
    MeanBetween(s, Min(s), Max(s));
  }

  lemma MeanBetween(s: seq<real>, lo: real, hi: real)
    requires s != []
    requires forall i :: 0 <= i < |s| ==> lo <= s[i] <= hi
    ensures lo <= Sum(s) / |s| as real <= hi
  {
    SumBetween(s, lo, hi);
    DivideBounds(lo, Sum(s), hi, |s| as real);
  }

  /** Bounds on every element bound the sum by the same multiple. */
  lemma {:induction false} SumBetween(s: seq<real>, lo: real, hi: real)
    requires forall i :: 0 <= i < |s| ==> lo <= s[i] <= hi
    ensures lo * |s| as real <= Sum(s) <= hi * |s| as real
  {
    if s != [] {
      var init := s[..|s| - 1];
      SumBetween(init, lo, hi);
      var c := |init| as real;
      assert lo * (c + 1.0) == lo * c + lo;
      assert hi * (c + 1.0) == hi * c + hi;
    }
  }

  lemma DivideBounds(lo: real, x: real, hi: real, n: real)
    requires 0.0 < n && lo * n <= x <= hi * n
    ensures lo <= x / n <= hi
  {
    assert x / n * n == x;
  }

  ghost predicate IsSorted(s: seq<real>)
  {
    forall i, j :: 0 <= i < j < |s| ==> s[i] <= s[j]
  }

  /** Inserts `x` into a sorted sequence, keeping it sorted. */
  function Insert(x: real, s: seq<real>): (r: seq<real>)
    requires IsSorted(s)
    ensures IsSorted(r)
    ensures |r| == |s| + 1
    ensures r[0] == if s == [] || x <= s[0] then x else s[0]
    ensures multiset(r) == multiset(s) + multiset{x}
  {
    if s == [] then [x]
    else if x <= s[0] then
      SortedCons(x, s);
      [x] + s
    else
      var tail := Insert(x, s[1..]);
      assert s == [s[0]] + s[1..];
      SortedCons(s[0], tail);
      [s[0]] + tail
  }

  /** A head no larger than the first element of a sorted tail keeps it sorted. */
  lemma SortedCons(h: real, t: seq<real>)
    requires IsSorted(t) && (t != [] ==> h <= t[0])
    ensures IsSorted([h] + t)
  {
    var r := [h] + t;
    forall i, j | 0 <= i < j < |r| ensures r[i] <= r[j] {
      if i == 0 && j > 1 {
        assert r[1] <= r[j];
      }
    }
  }

  /** The sorted copy of a sample that `statistics.median` works on. */
  function SortedCopy(s: seq<real>): (r: seq<real>)
    ensures IsSorted(r)
    ensures |r| == |s|
    ensures multiset(r) == multiset(s)
  {
    if s == [] then []
    else
      assert s == s[..|s| - 1] + [s[|s| - 1]];
      Insert(s[|s| - 1], SortedCopy(s[..|s| - 1]))
  }

  /** The middle of a sorted, non-empty sequence: its middle element when
      its size is odd, the mean of its two middle elements when it is even. */
  function Middle(t: seq<real>): real
    requires t != []
  {
    var n := |t|;
    if n % 2 == 1 then t[n / 2] else (t[n / 2 - 1] + t[n / 2]) / 2.0
  }

  /** The middle lies between the two middle elements (the same element
      when the size is odd). */
  lemma MiddleBetween(t: seq<real>)
    requires t != [] && IsSorted(t)
    ensures var k := |t| / 2;
      t[if |t| % 2 == 1 then k else k - 1] <= Middle(t) <= t[k]
  {
    var k := |t| / 2;
    if |t| % 2 == 0 {
      assert t[k - 1] <= t[k];
    }
  }

  /** `statistics.median`: the middle of the sorted sample. */
  function Median(s: seq<real>): (m: real)
    requires s != []
    ensures Min(s) <= m <= Max(s)
  {
    var t := SortedCopy(s);
    var k := |t| / 2;
    var lo := if |t| % 2 == 1 then k else k - 1;
    MiddleBetween(t);
    assert t[lo] in multiset(s) && t[k] in multiset(s);
    Middle(t)
  }

  /** `y` lies on the given side of `x`: at most `x` when `below`, at
      least `x` otherwise. */
  predicate OnSide(y: real, x: real, below: bool)
  {
    if below then y <= x else y >= x
  }

  /** Number of elements of `s` on the given side of `x`. */
  function CountOnSide(s: seq<real>, x: real, below: bool): nat
  {
    if s == [] then 0
    else CountOnSide(s[..|s| - 1], x, below) + (if OnSide(s[|s| - 1], x, below) then 1 else 0)
  }

  lemma {:induction false} CountOnSideAppend(a: seq<real>, b: seq<real>, x: real, below: bool)
    ensures CountOnSide(a + b, x, below) == CountOnSide(a, x, below) + CountOnSide(b, x, below)
  {
    if b == [] {
      assert a + b == a;
    } else {
      CountOnSideAppend(a, b[..|b| - 1], x, below);
      assert (a + b)[..|a + b| - 1] == a + b[..|b| - 1];
    }
  }

  /** The count depends only on the multiset of elements. */
  lemma {:induction false} CountOnSidePermutation(a: seq<real>, b: seq<real>, x: real, below: bool)
    requires multiset(a) == multiset(b)
    ensures CountOnSide(a, x, below) == CountOnSide(b, x, below)
  {
    if a != [] {
      var last := a[|a| - 1];
      var init := a[..|a| - 1];
      assert a == init + [last];
      assert multiset(init) == multiset(a) - multiset{last};
      assert last in multiset(b);
      var j :| 0 <= j < |b| && b[j] == last;
      var rest := RemoveAt(b, j);
      CountOnSidePermutation(init, rest, x, below);
      CountOnSideRemoveAt(b, j, x, below);
    }
  }

  /** `s` without its element at index `j`. */
  function RemoveAt(s: seq<real>, j: nat): (r: seq<real>)
    requires j < |s|
    ensures |r| == |s| - 1
    ensures multiset(r) == multiset(s) - multiset{s[j]}
  {
    assert s == s[..j] + [s[j]] + s[j + 1..];
    s[..j] + s[j + 1..]
  }

  lemma CountOnSideRemoveAt(s: seq<real>, j: nat, x: real, below: bool)
    requires j < |s|
    ensures CountOnSide(s, x, below) ==
            CountOnSide(RemoveAt(s, j), x, below) + (if OnSide(s[j], x, below) then 1 else 0)
  {
    CountOnSideAppend(s[..j], [s[j]] + s[j + 1..], x, below);
    CountOnSideAppend([s[j]], s[j + 1..], x, below);
    CountOnSideAppend(s[..j], s[j + 1..], x, below);
    assert s[..j] + ([s[j]] + s[j + 1..]) == s;
    assert [s[j]][..0] == [];
  }

  /** When every element from index `lo` on is on the side, at least
      `|s| - lo` elements are. */
  lemma CountOnSideOfSuffix(s: seq<real>, lo: nat, x: real, below: bool)
    requires lo <= |s|
    requires forall k :: lo <= k < |s| ==> OnSide(s[k], x, below)
    ensures CountOnSide(s, x, below) >= |s| - lo
  {
    assert s == s[..lo] + s[lo..];
    CountOnSideAppend(s[..lo], s[lo..], x, below);
    AllOnSide(s[lo..], x, below);
  }

  /** When every element before index `hi` is on the side, at least `hi`
      elements are. */
  lemma CountOnSideOfPrefix(s: seq<real>, hi: nat, x: real, below: bool)
    requires hi <= |s|
    requires forall k :: 0 <= k < hi ==> OnSide(s[k], x, below)
    ensures CountOnSide(s, x, below) >= hi
  {
    assert s == s[..hi] + s[hi..];
    CountOnSideAppend(s[..hi], s[hi..], x, below);
    AllOnSide(s[..hi], x, below);
  }

  lemma {:induction false} AllOnSide(s: seq<real>, x: real, below: bool)
    requires forall k :: 0 <= k < |s| ==> OnSide(s[k], x, below)
    ensures CountOnSide(s, x, below) == |s|
  {
    if s != [] {
      AllOnSide(s[..|s| - 1], x, below);
    }
  }

  /** The median splits the sample: at least half of the values are at most
      the median, and at least half are at least the median. */
  lemma MedianSplitsSample(s: seq<real>)
    requires s != []
    ensures 2 * CountOnSide(s, Median(s), true) >= |s|
    ensures 2 * CountOnSide(s, Median(s), false) >= |s|
  {
    var t := SortedCopy(s);
    var m := Median(s);
    var k := |t| / 2;
    var lo := if |t| % 2 == 1 then k + 1 else k;
    MiddleBetween(t);
    SortedSplit(t, m, lo, k);
    CountOnSidePermutation(t, s, m, true);
    CountOnSidePermutation(t, s, m, false);
  }

  /** In a sorted sequence, a value between `t[lo - 1]` and `t[hi]` has at
      least `lo` elements at most it and `|t| - hi` at least it. */
  lemma SortedSplit(t: seq<real>, m: real, lo: nat, hi: nat)
    requires IsSorted(t) && 0 < lo <= |t| && hi < |t|
    requires t[lo - 1] <= m <= t[hi]
    ensures CountOnSide(t, m, true) >= lo
    ensures CountOnSide(t, m, false) >= |t| - hi
  {
    assert forall q :: 0 <= q < lo ==> OnSide(t[q], m, true);
    assert forall q :: hi <= q < |t| ==> OnSide(t[q], m, false);
    CountOnSideOfPrefix(t, lo, m, true);
    CountOnSideOfSuffix(t, hi, m, false);
  }

  /** Nearest integer, ties to the even neighbour, as Python's `round`. */
  function RoundHalfEven(x: real): (k: int)
    ensures x - 0.5 <= k as real <= x + 0.5
    ensures (k as real - x == 0.5 || x - k as real == 0.5) ==> k % 2 == 0
  {
    var f := x.Floor;
    var frac := x - f as real;
    if frac < 0.5 then f
    else if frac > 0.5 then f + 1
    else if f % 2 == 0 then f
    else f + 1
  }

  /** `round(x, 3)`: the nearest multiple of 0.001, ties to even. */
  function Round3(x: real): (r: real)
    ensures x - 0.0005 <= r <= x + 0.0005
  {
    RoundHalfEven(x * 1000.0) as real / 1000.0
  }

  /** Rounding never reverses the order of two values. */
  lemma RoundHalfEvenMonotone(x: real, y: real)
    requires x <= y
    ensures RoundHalfEven(x) <= RoundHalfEven(y)
  {
    var fx, fy := x.Floor, y.Floor;
    if fx < fy {
      assert RoundHalfEven(x) <= fx + 1 <= fy <= RoundHalfEven(y);
    }
  }

  lemma Round3Monotone(x: real, y: real)
    requires x <= y
    ensures Round3(x) <= Round3(y)
  {
    RoundHalfEvenMonotone(x * 1000.0, y * 1000.0);
  }
}
