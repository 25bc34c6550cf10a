/** What a cursor over an integer array visits, as a sequence of row indices. */
module Scan {
  import opened CInts
  import opened Bounds

  /** The array a cursor reads, with the flags its owner declared. */
  datatype View = View(a: seq<int64>, ordered: bool, unique: bool)

  const MAX_ORDERED := 0x4000_0000   // the largest ordered array whose binary search does not overflow an int
  const BSEARCH_THRESHOLD := 7

  ghost predicate Sorted(a: seq<int64>) {
    forall i, j :: 0 <= i < j < |a| ==> a[i] <= a[j]
  }

  ghost predicate Distinct(a: seq<int64>) {
    forall i, j :: 0 <= i < j < |a| ==> a[i] != a[j]
  }

  /** The flags say the truth about the contents, as sqlite3_intarray_bind demands. */
  ghost predicate Truthful(v: View) {
    && |v.a| <= INT32_MAX
    && (v.ordered ==> |v.a| <= MAX_ORDERED && Sorted(v.a))
    && (v.unique ==> Distinct(v.a))
  }

  // ---------------------------------------------------------------- the rows wanted

  /** Row k lies in the interval: its rowid k in mode 1, its value in mode 2. */
  predicate Selects(v: View, b: Bounds, k: int)
    requires 0 <= k < |v.a|
  {
    match b.mode
    case 0 => true
    case 1 => Admits(b, k)
    case 2 => Admits(b, v.a[k])
    case _ => false
  }

  /** The wanted rows from lo on, in index order. */
  function Wanted(v: View, b: Bounds, lo: nat): (s: seq<int>)
    requires lo <= |v.a|
    decreases |v.a| - lo
  {
    if lo == |v.a| then []
    else (if Selects(v, b, lo) then [lo] else []) + Wanted(v, b, lo + 1)
  }

  // ---------------------------------------------------------------- the rows visited

  /** The test intarrayNextMatch applies to row k once the scan has begun. */
  predicate Passes(v: View, b: Bounds, k: int)
    requires 0 <= k < |v.a|
  {
    match b.mode
    case 0 => true
    case 1 => b.hasMax ==> k <= b.max
    case 2 => if v.ordered then b.hasMax ==> v.a[k] <= b.max else Admits(b, v.a[k])
    case _ => false
  }

  function Visited(v: View, b: Bounds, lo: nat): (s: seq<int>)
    requires lo <= |v.a|
    decreases |v.a| - lo
  {
    if lo == |v.a| then []
    else (if Passes(v, b, lo) then [lo] else []) + Visited(v, b, lo + 1)
  }

  predicate Empty(b: Bounds) {
    b.mode < 0 || (b.hasMin && b.hasMax && b.min > b.max)
  }

  /** The first index at or after lo whose element is at least x, or the length. */
  function FirstAtLeast(a: seq<int64>, x: int, lo: nat): (r: nat)
    requires lo <= |a|
    ensures lo <= r <= |a|
    ensures forall k :: lo <= k < r ==> a[k] < x
    ensures r < |a| ==> a[r] >= x
    decreases |a| - lo
  {
    if lo == |a| || a[lo] >= x then lo else FirstAtLeast(a, x, lo + 1)
  }

  /** The sum of two indices of the binary search fits in an int exactly up to that size. */
  lemma MidpointFits(n: nat)
    requires n <= INT32_MAX
    ensures (forall lo, hi :: 0 <= lo <= hi < n ==> SumFits(lo, hi)) <==> n <= MAX_ORDERED
  {
    if n > MAX_ORDERED { assert !SumFits(n - 1, n - 1); }
  }

  predicate SumFits(lo: int, hi: int) { Wrap32(lo + hi) == lo + hi }

  /** Only one index parts the smaller elements from the others. */
  lemma LowerBound(a: seq<int64>, x: int, r: nat)
    requires r <= |a| && (forall k :: 0 <= k < r ==> a[k] < x) && (forall k :: r <= k < |a| ==> a[k] >= x)
    ensures r == FirstAtLeast(a, x, 0)
  {
    var f := FirstAtLeast(a, x, 0);
    assert forall k :: 0 <= k < f ==> a[k] < x;
    assert f < |a| ==> a[f] >= x;
    assert r < |a| ==> a[r] >= x;
  }

  /** Where intarrayFilter starts. */
  function StartIndex(v: View, b: Bounds): nat {
    if b.hasMin && b.mode == ROWID then
      var s := Wrap32(b.min);
      if s < 0 then 0 else s
    else if b.hasMin && b.mode == VALUE && v.ordered && |v.a| > BSEARCH_THRESHOLD then FirstAtLeast(v.a, b.min, 0)
    else 0
  }

  /** The rows a cursor visits after intarrayFilter has computed the interval b. */
  function Scanned(v: View, b: Bounds): (s: seq<int>) {
    if Empty(b) || StartIndex(v, b) > |v.a| then [] else Visited(v, b, StartIndex(v, b))
  }

  // ---------------------------------------------------------------- sequences of indices

  lemma {:induction false} WantedElements(v: View, b: Bounds, lo: nat)
    requires lo <= |v.a|
    ensures forall k :: k in Wanted(v, b, lo) <==> lo <= k < |v.a| && Selects(v, b, k)
    ensures forall i, j :: 0 <= i < j < |Wanted(v, b, lo)| ==> Wanted(v, b, lo)[i] < Wanted(v, b, lo)[j]
    decreases |v.a| - lo
  {
    if lo < |v.a| {
      WantedElements(v, b, lo + 1);
      var rest := Wanted(v, b, lo + 1);
      forall i | 0 <= i < |rest| ensures lo < rest[i] { assert rest[i] in rest; }
    }
  }

  /** No row from lo on passes exactly when nothing more is visited. */
  lemma {:induction false} NothingPasses(v: View, b: Bounds, lo: nat)
    requires lo <= |v.a|
    requires forall k :: lo <= k < |v.a| ==> !Passes(v, b, k)
    ensures Visited(v, b, lo) == []
    decreases |v.a| - lo
  {
    if lo < |v.a| { NothingPasses(v, b, lo + 1); }
  }

  lemma {:induction false} SkipTo(v: View, b: Bounds, lo: nat, hi: nat)
    requires lo <= hi <= |v.a|
    requires forall k :: lo <= k < hi ==> !Passes(v, b, k)
    ensures Visited(v, b, lo) == Visited(v, b, hi)
    decreases hi - lo
  {
    if lo < hi { SkipTo(v, b, lo + 1, hi); }
  }

  lemma {:induction false} SameTail(v: View, b: Bounds, lo: nat)
    requires lo <= |v.a|
    requires forall k :: lo <= k < |v.a| ==> (Passes(v, b, k) <==> Selects(v, b, k))
    ensures Visited(v, b, lo) == Wanted(v, b, lo)
    decreases |v.a| - lo
  {
    if lo < |v.a| { SameTail(v, b, lo + 1); }
  }

  lemma {:induction false} VisitedElements(v: View, b: Bounds, lo: nat)
    requires lo <= |v.a|
    ensures forall k :: k in Visited(v, b, lo) <==> lo <= k < |v.a| && Passes(v, b, k)
    decreases |v.a| - lo
  {
    if lo < |v.a| { VisitedElements(v, b, lo + 1); }
  }

  lemma {:induction false} SkipWanted(v: View, b: Bounds, lo: nat, hi: nat)
    requires lo <= hi <= |v.a|
    requires forall k :: lo <= k < hi ==> !Selects(v, b, k)
    ensures Wanted(v, b, lo) == Wanted(v, b, hi)
    decreases hi - lo
  {
    if lo < hi { SkipWanted(v, b, lo + 1, hi); }
  }

  // ---------------------------------------------------------------- exactness

  /** The interval is well formed: it comes from at most a scan, a rowid or a value search. */
  predicate IsSearch(b: Bounds) {
    ZEROSET <= b.mode <= VALUE && (b.mode == SCAN ==> !b.hasMin && !b.hasMax)
  }

  /** The start index loses and adds nothing. Two guards can break it: a rowid minimum that
      does not survive the cast to int, and an ordered array too short for the binary search,
      whose lower bound is then never tested. */
  predicate StartsRight(v: View, b: Bounds) {
    if Empty(b) then true
    else if b.mode == ROWID && b.hasMin then
      var s := if Wrap32(b.min) < 0 then 0 else Wrap32(b.min);
      var m := if b.min < 0 then 0 else b.min;
      var low := if s < m then s else m;
      s == m || low >= |v.a| || (b.hasMax && low > b.max)
    else if b.mode == VALUE && b.hasMin && v.ordered && |v.a| <= 7 then
      |v.a| == 0 || v.a[0] >= b.min
    else true
  }

  lemma EmptyInterval(v: View, b: Bounds)
    requires IsSearch(b) && Empty(b)
    ensures Wanted(v, b, 0) == []
  {
    SkipWanted(v, b, 0, |v.a|);
  }

  lemma ScannedElements(v: View, b: Bounds, k: int)
    requires 0 <= k < |v.a|
    ensures k in Scanned(v, b) <==> !Empty(b) && StartIndex(v, b) <= k && Passes(v, b, k)
  {
    if StartIndex(v, b) <= |v.a| { VisitedElements(v, b, StartIndex(v, b)); }
  }

  /** A scan that starts right visits exactly the wanted rows, in index order, without repeats. */
  lemma ScanIsExact(v: View, b: Bounds)
    requires Truthful(v) && IsSearch(b) && StartsRight(v, b)
    ensures Scanned(v, b) == Wanted(v, b, 0)
  {
    if Empty(b) {
      EmptyInterval(v, b);
    } else {
      var s := StartIndex(v, b);
      var n := |v.a|;
      if s >= n {
        SkipWanted(v, b, 0, n);
      } else if b.mode == ROWID && b.hasMin && s != (if b.min < 0 then 0 else b.min) {
        NothingPasses(v, b, s);
        SkipWanted(v, b, 0, n);
      } else {
        SkipWanted(v, b, 0, s);
        SameTail(v, b, s);
      }
    }
  }

  /** ... and a scan that does not start right visits a different set of rows. */
  lemma ScanIsWrong(v: View, b: Bounds) returns (k: int)
    requires Truthful(v) && IsSearch(b) && !StartsRight(v, b)
    ensures 0 <= k < |v.a| && (k in Scanned(v, b) <==> k !in Wanted(v, b, 0))
  {
    WantedElements(v, b, 0);
    if b.mode == ROWID {
      var s := StartIndex(v, b);
      var m := if b.min < 0 then 0 else b.min;
      k := if s < m then s else m;
    } else {
      k := 0;
    }
    ScannedElements(v, b, k);
  }

  /** Cursor exactness: for every truthful array and every interval, the visited rows are the
      wanted rows if and only if the scan starts right. */
  lemma CursorExact(v: View, b: Bounds)
    requires Truthful(v) && IsSearch(b)
    ensures Scanned(v, b) == Wanted(v, b, 0) <==> StartsRight(v, b)
  {
    if StartsRight(v, b) {
      ScanIsExact(v, b);
    } else {
      var k := ScanIsWrong(v, b);
    }
  }

  // ---------------------------------------------------------------- early stop

  /** Distinct integers from [lo, hi] are at most hi - lo + 1 many. */
  lemma {:induction false} Pigeonhole(s: set<int>, lo: int, hi: int)
    requires forall x :: x in s ==> lo <= x <= hi
    requires lo <= hi + 1
    ensures |s| <= hi - lo + 1
    decreases hi - lo + 1
  {
    if lo <= hi {
      Pigeonhole(s - {hi}, lo, hi - 1);
      assert s == if hi in s then (s - {hi}) + {hi} else s - {hi};
    } else {
      assert forall x :: x !in s;
      assert |s| == 0;
    }
  }

  function ValuesFrom(v: View, b: Bounds, lo: nat): (s: set<int>)
    requires lo <= |v.a|
  {
    set k | lo <= k < |v.a| && Passes(v, b, k) :: v.a[k]
  }

  lemma {:induction false} DistinctCount(v: View, b: Bounds, lo: nat)
    requires lo <= |v.a| && Distinct(v.a)
    ensures |Visited(v, b, lo)| == |ValuesFrom(v, b, lo)|
    decreases |v.a| - lo
  {
    hide Passes;
    if lo == |v.a| {
      assert ValuesFrom(v, b, lo) == {};
    } else {
      DistinctCount(v, b, lo + 1);
      var rest := ValuesFrom(v, b, lo + 1);
      assert ValuesFrom(v, b, lo) == if Passes(v, b, lo) then rest + {v.a[lo]} else rest;
    }
  }

  /** The budget of a unique array: no more rows can match than the interval has integers. */
  lemma UniqueBudget(v: View, b: Bounds)
    requires Distinct(v.a) && !v.ordered && b.mode == VALUE && b.hasMin && b.hasMax && b.min <= b.max
    ensures |Visited(v, b, 0)| <= b.max - b.min + 1
  {
    DistinctCount(v, b, 0);
    Pigeonhole(ValuesFrom(v, b, 0), b.min, b.max);
  }

  /** The guard on the wrapped width lets a value through only when it is the true width. */
  lemma WidthGuard(min: int64, max: int64)
    requires min <= max
    ensures var w := Wrap64(max - min + 1); 0 < w < INT32_MAX <==> max - min + 1 < INT32_MAX
    ensures var w := Wrap64(max - min + 1); 0 < w < INT32_MAX ==> w == max - min + 1
  {
    var t := max - min + 1;
    assert 1 <= t <= 0x1_0000_0000_0000_0000;
    var k :| Wrap64(t) == t + k * 0x1_0000_0000_0000_0000;
    assert k == 0 || k == -1;
  }
}
