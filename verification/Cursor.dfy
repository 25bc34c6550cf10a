/** The INTARRAY virtual table itself: the array object with its life cycle, the cursors that
    walk it, and the query planner, as they update their fields in place. */
module Cursor {
  import opened CInts
  import opened Bounds
  import opened Scan
  import opened Plan
  import Lifecycle

  datatype Rc = OK | NOMEM | INUSE | SQL_ERROR

  /** sqlite3_intarray. A bound buffer is identified by its address `block`. */
  class IntArray {
    var a: seq<int64>
    var block: nat
    var hasFree: bool
    var ordered: bool
    var unique: bool
    var useCount: int

    ghost var open: set<Cursor>       // the open cursors
    ghost var accepted: seq<nat>      // buffers handed over with a destructor, in bind order
    ghost var released: seq<nat>      // buffers whose destructor has run, in order

    function View(): View
      reads `a, `ordered, `unique
    {
      Scan.View(a, ordered, unique)
    }

    ghost function Life(): Lifecycle.Life
      reads this
    {
      Lifecycle.Life(View(), block, hasFree, useCount, accepted, released)
    }

    ghost predicate Valid()
      reads this, open
    {
      && useCount == |open|
      && Truthful(View())
      && Lifecycle.Outstanding(Life())
      && forall c :: c in open ==> c.arr == this && c.Ok()
    }

    constructor ()
      ensures Valid() && open == {} && Lifecycle.Initial(Life())
    {
      a, block, hasFree, ordered, unique, useCount := [], 0, false, false, false, 0;
      open, accepted, released := {}, [], [];
    }

    /** intarrayOpen; allocOk is the outcome of sqlite3_malloc. */
    method Open(allocOk: bool) returns (rc: Rc, c: Cursor?)
      requires Valid()
      modifies this
      ensures Valid() && (if allocOk then Lifecycle.Opened(old(Life()), Life()) else Life() == old(Life()))
      ensures if allocOk then rc == OK && c != null && fresh(c) && open == old(open) + {c}
                              && c.Rest() == Wanted(View(), Bounds(0, false, 0, false, 0), 0)
              else rc == NOMEM && c == null && open == old(open)
    {
      hide Wanted, Passes, Visited, Truthful, Cursor.Ok, Cursor.Rest;
      if !allocOk { return NOMEM, null; }
      c := new Cursor(this);
      useCount := useCount + 1;
      open := open + {c};
      c.NewCursor();
      rc := OK;
    }

    /** intarrayClose. */
    method Close(c: Cursor)
      requires Valid() && c in open
      modifies this
      ensures Valid() && Lifecycle.Closed(old(Life()), Life())
      ensures open == old(open) - {c}
    {
      useCount := useCount - 1;
      open := open - {c};
    }

    /** drop_array_content. */
    method DropContent() returns (rc: Rc)
      requires Valid()
      modifies this
      ensures Valid() && open == old(open)
      ensures rc == (if old(open) == {} then OK else INUSE)
      ensures rc == OK ==> View() == Scan.View([], false, false) && Lifecycle.Destroyed(old(Life()), Life())
      ensures rc == OK ==> released == old(released) + if old(hasFree) then [old(block)] else []
      ensures rc == INUSE ==> Life() == old(Life())
    {
      assert useCount == 0 <==> open == {};
      if useCount != 0 { return INUSE; }
      if hasFree { released := released + [block]; }
      hasFree, block, a, ordered, unique := false, 0, [], false, false;
      rc := OK;
    }

    /** sqlite3_intarray_bind, without the re-creation of the SQL table. */
    method Bind(elements: seq<int64>, addr: nat, withFree: bool, isOrdered: bool, isUnique: bool) returns (rc: Rc)
      requires Valid() && Truthful(Scan.View(elements, isOrdered, isUnique))
      modifies this
      ensures Valid() && open == old(open)
      ensures rc == (if old(open) == {} then OK else INUSE)
      ensures rc == OK ==> Lifecycle.Rebound(old(Life()), Life())
                           && View() == Scan.View(elements, isOrdered, isUnique) && block == addr && hasFree == withFree
      ensures rc == OK ==> released == old(released) + if old(hasFree) then [old(block)] else []
      ensures rc == OK ==> accepted == old(accepted) + if withFree then [addr] else []
      ensures rc == INUSE ==> Life() == old(Life())
    {
      rc := DropContent();
      if rc != OK { return; }
      a, block, hasFree, ordered, unique := elements, addr, withFree, isOrdered, isUnique;
      if withFree { accepted := accepted + [addr]; }
    }

    /** sqlite3_intarray_destroy, up to the removal from the name table; dropOk is the outcome of dropping the SQL
        table. The contents are gone even when that fails. */
    method Destroy(dropOk: bool) returns (rc: Rc)
      requires Valid()
      modifies this
      ensures Valid() && open == old(open)
      ensures rc == if old(open) != {} then INUSE else if dropOk then OK else SQL_ERROR
      ensures rc != INUSE ==> View() == Scan.View([], false, false) && Lifecycle.Destroyed(old(Life()), Life())
      ensures rc != INUSE ==> released == old(released) + if old(hasFree) then [old(block)] else []
      ensures rc == INUSE ==> Life() == old(Life())
    {
      rc := DropContent();
      if rc == OK && !dropOk { return SQL_ERROR; }
    }
  }

  /** intarray_bsearch. It finds the first element not below the value whether or not the first
      of several equal elements has to be located: a unique array has only one. */
  method BSearch(value: int64, a: seq<int64>, first: int, end: int, locateFirst: bool) returns (r: int)
    requires |a| <= MAX_ORDERED && Sorted(a) && (!locateFirst ==> Distinct(a))
    requires 0 <= first <= end <= |a|
    ensures first <= r <= end
    ensures forall k :: first <= k < r ==> a[k] < value
    ensures forall k :: r <= k < end ==> a[k] >= value
  {
    var lo, hi := first, end - 1;
    while lo <= hi
      invariant first <= lo <= hi + 1 <= end
      invariant forall k :: first <= k < lo ==> a[k] < value
      invariant forall k :: hi < k < end ==> a[k] >= value
    {
      assert Wrap32(lo + hi) == lo + hi;
      var i := Wrap32(lo + hi) / 2;
      var mid := a[i];
      if mid < value {
        lo := i + 1;
      } else if mid > value || locateFirst {
        hi := i - 1;
      } else {
        assert forall k :: first <= k < i ==> a[k] < value;
        return i;
      }
    }
    return lo;
  }

  /** intarray_cursor. */
  class Cursor {
    const arr: IntArray
    var mode: int
    var hasMin: bool
    var min: int64
    var hasMax: bool
    var max: int64
    var i: int
    var uniqueLeft: int

    constructor (table: IntArray)
      ensures arr == table && B() == Bounds(0, false, 0, false, 0) && i == 0 && uniqueLeft == 0
    {
      arr := table;
      mode, hasMin, min, hasMax, max, i, uniqueLeft := 0, false, 0, false, 0, 0, 0;
    }

    function B(): Bounds
      reads this
    {
      Bounds(mode, hasMin, min, hasMax, max)
    }

    /** While the matches of a unique unordered array are being counted, the count left covers every
        match still to come. */
    ghost predicate Budget(next: int)
      requires 0 <= next
      reads this, arr`a, arr`ordered, arr`unique
    {
      mode == VALUE && !arr.ordered && arr.unique && uniqueLeft >= 0 && next <= |arr.a| ==>
        |Visited(arr.View(), B(), next)| <= uniqueLeft
    }

    /** The cursor stands at the end or on a row that passes. */
    ghost predicate Ok()
      reads this, arr`a, arr`ordered, arr`unique
    {
      && -1 <= uniqueLeft
      && 0 <= i <= |arr.a|
      && (i < |arr.a| ==> Passes(arr.View(), B(), i))
      && Budget(i + 1)
    }

    /** The rows the cursor has still to deliver, the current one first. */
    ghost function Rest(): seq<int>
      reads this, arr`a, arr`ordered, arr`unique
    {
      if 0 <= i <= |arr.a| then Visited(arr.View(), B(), i) else []
    }

    /** intarrayNextMatch. */
    method NextMatch(startIndex: int) returns (r: int)
      requires 0 <= startIndex && Truthful(arr.View()) && -1 <= uniqueLeft && Budget(startIndex)
      modifies this`uniqueLeft
      ensures -1 <= uniqueLeft && 0 <= r <= |arr.a| && Budget(r + 1)
      ensures r < |arr.a| ==> Passes(arr.View(), B(), r)
      ensures uniqueLeft == old(uniqueLeft) -
                if mode == VALUE && !arr.ordered && arr.unique && old(uniqueLeft) > 0 && r < |arr.a| then 1 else 0
      ensures Visited(arr.View(), B(), r) == if startIndex > |arr.a| then [] else Visited(arr.View(), B(), startIndex)
    {
      ghost var v, b := arr.View(), B();
      var n := |arr.a|;
      if startIndex >= n || mode < 0 {
        if startIndex < n { NothingPasses(v, b, startIndex); }
        return n;
      }
      if mode == ROWID {
        r := if hasMax && startIndex > max then n else startIndex;
        if r == n { NothingPasses(v, b, startIndex); }
        return;
      } else if mode == VALUE {
        if arr.ordered {
          r := if hasMax && arr.a[startIndex] > max then n else startIndex;
          if r == n { NothingPasses(v, b, startIndex); }
          return;
        }
        if arr.unique && uniqueLeft == 0 {
          return n;
        }
        var k := startIndex;
        while k < n && ((hasMin && min > arr.a[k]) || (hasMax && max < arr.a[k]))
          invariant startIndex <= k <= n
          invariant forall m :: startIndex <= m < k ==> !Passes(v, b, m)
        {
          k := k + 1;
        }
        SkipTo(v, b, startIndex, k);
        if arr.unique && uniqueLeft > 0 && k < n {
          uniqueLeft := uniqueLeft - 1;
        }
        return k;
      }
      if mode > VALUE { NothingPasses(v, b, startIndex); return n; }
      return startIndex;
    }

    /** INTARRAY_MIN and INTARRAY_MAX, chosen by the operator: intarrayBoundary. */
    method SetBoundary(op: bv8, intValue: int64, exactInt: bool)
      modifies this`mode, this`hasMin, this`min, this`hasMax, this`max
      ensures B() == Boundary(op, old(B()), intValue, exactInt)
    {
      if op & LOWER != 0 {
        Raise(intValue, exactInt && op & EQ == 0);
      } else if op & UPPER != 0 {
        Lower(intValue, exactInt && op & EQ == 0);
      } else if op & EQ != 0 {
        if !exactInt {
          mode := ZEROSET;
        } else {
          Raise(intValue, false);
          Lower(intValue, false);
        }
      }
    }

    method Raise(val: int64, exclusive: bool)
      modifies this`hasMin, this`min
      ensures B() == WithMin(old(B()), val, exclusive)
    {
      var v: int64 := if exclusive && val < INT64_MAX then val + 1 else val;
      if !hasMin || min < v { min, hasMin := v, true; }
    }

    method Lower(val: int64, exclusive: bool)
      modifies this`hasMax, this`max
      ensures B() == WithMax(old(B()), val, exclusive)
    {
      var v: int64 := if exclusive && val > INT64_MIN then val - 1 else val;
      if !hasMax || max > v { max, hasMax := v, true; }
    }

    /** intarrayConstrainCursor. */
    method ConstrainCursor(op: bv8, value: Operand)
      modifies this`mode, this`hasMin, this`min, this`hasMax, this`max
      ensures B() == Constrain(op, value, old(B()))
    {
      match value
      case Text =>
        if op & UPPER == 0 { mode := ZEROSET; }
      case Real(d) =>
        if d > TWO63 {
          if op & UPPER == 0 || op & LOWER != 0 { mode := ZEROSET; }
        } else if d < -TWO63 {
          if op & LOWER == 0 || op & UPPER != 0 { mode := ZEROSET; }
        } else {
          var intValue :=
            CastToInt64(if op & LOWER != 0 then Ceil(d) else if op & UPPER != 0 then Floor(d) else Truncate(d));
          SetBoundary(op, intValue, intValue as real == d);
        }
      case Integer(n) => SetBoundary(op, n, true);
      case Null => mode := ZEROSET;
      case Blob => mode := ZEROSET;
    }

    /** The first half of intarrayFilter: the search parameters. */
    method SetParameters(idxNum: bv8, argv: seq<Operand>)
      modifies this
      ensures B() == FilterBounds(idxNum, argv) && uniqueLeft == -1
    {
      var op1, op2 := Op1Of(idxNum), Op2Of(idxNum);
      mode := ModeInt(ModeOf(idxNum));
      hasMin, hasMax, min, max, uniqueLeft := false, false, 0, 0, -1;
      if mode > 0 && |argv| > 0 && op1 != 0 { ConstrainCursor(op1, argv[0]); }
      if mode > 0 && |argv| > 1 && op2 != 0 { ConstrainCursor(op2, argv[1]); }
    }

    /** The second half of intarrayFilter: the start position and the budget of a unique array. */
    method Start()
      requires IsSearch(B()) && uniqueLeft == -1 && Truthful(arr.View())
      modifies this`i, this`uniqueLeft
      ensures Ok() && Rest() == Scanned(arr.View(), B())
    {
      if mode < 0 || (hasMin && hasMax && min > max) {
        i := |arr.a|;
        return;
      }
      var startIndex := FirstIndex();
      SetBudget();
      i := NextMatch(startIndex);
    }

    method FirstIndex() returns (startIndex: int)
      requires Truthful(arr.View())
      ensures startIndex == StartIndex(arr.View(), B())
    {
      startIndex := 0;
      if hasMin && mode == ROWID {
        startIndex := Wrap32(min);
        if startIndex < 0 { startIndex := 0; }
      } else if hasMin && mode == VALUE && arr.ordered && |arr.a| > BSEARCH_THRESHOLD {
        startIndex := BSearch(min, arr.a, 0, |arr.a|, !arr.unique);
        LowerBound(arr.a, min, startIndex);
      }
    }

    method SetBudget()
      requires uniqueLeft == -1 && Truthful(arr.View()) && !Empty(B())
      modifies this`uniqueLeft
      ensures -1 <= uniqueLeft && Budget(StartIndex(arr.View(), B()))
      ensures uniqueLeft == if arr.unique && mode == VALUE && hasMin && hasMax && max - min + 1 < 0x7FFF_FFFF
                            then max - min + 1 else -1
    {
      if arr.unique && mode == VALUE && hasMin && hasMax {
        var w := Wrap64(max - min + 1);
        WidthGuard(min, max);
        if w > 0 && w < INT32_MAX {
          uniqueLeft := w;
          if !arr.ordered { UniqueBudget(arr.View(), B()); }
        }
      }
    }

    /** intarrayFilter: afterwards the cursor is about to deliver exactly the scanned rows. */
    method Filter(idxNum: bv8, argv: seq<Operand>)
      requires IsIdxNum(idxNum) && arr.Valid() && this in arr.open
      modifies this
      ensures arr.Valid() && B() == FilterBounds(idxNum, argv)
      ensures Rest() == Scanned(arr.View(), FilterBounds(idxNum, argv))
    {
      SetParameters(idxNum, argv);
      FilterMode(idxNum, argv);
      Start();
    }

    /** intarrayNext: drops the current row from what is left. */
    method Next()
      requires arr.Valid() && this in arr.open && Rest() != []
      modifies this`i, this`uniqueLeft
      ensures arr.Valid() && B() == old(B())
      ensures Rest() == old(Rest())[1..]
    {
      hide Passes, Visited, Truthful;
      RestHead();
      i := NextMatch(i + 1);
    }

    lemma NewCursor()
      requires B() == Bounds(0, false, 0, false, 0) && i == 0 && uniqueLeft == 0
      ensures Ok() && Rest() == Wanted(arr.View(), B(), 0)
    {
      SameTail(arr.View(), B(), 0);
    }

    lemma RestHead()
      requires Ok()
      ensures Rest() == [] <==> i == |arr.a|
      ensures Rest() != [] ==> Rest()[0] == i && Rest()[1..] == Visited(arr.View(), B(), i + 1)
    {
      if i < |arr.a| { assert Rest() == [i] + Visited(arr.View(), B(), i + 1); }
    }

    /** intarrayEof. */
    method Eof() returns (r: bool)
      requires Ok()
      ensures r <==> Rest() == []
    {
      RestHead();
      r := i >= |arr.a|;
    }

    /** intarrayRowid and intarrayColumn. */
    method Row() returns (rowid: int, value: int64)
      requires Ok() && Rest() != []
      ensures rowid == Rest()[0] && 0 <= rowid < |arr.a| && value == arr.a[rowid]
    {
      RestHead();
      rowid, value := i, arr.a[i];
    }
  }

  /** The calling protocol of SQLite (xFilter, then xEof, xRowid, xNext until the end): it yields the
      scanned rows. */
  method Walk(c: Cursor, idxNum: bv8, argv: seq<Operand>) returns (rows: seq<int>)
    requires IsIdxNum(idxNum) && c.arr.Valid() && c in c.arr.open
    modifies c
    ensures c.arr.Valid()
    ensures rows == Scanned(c.arr.View(), FilterBounds(idxNum, argv))
  {
    hide FilterBounds, Scanned, IsIdxNum, Truthful, Cursor.Ok, Cursor.Rest;
    c.Filter(idxNum, argv);
    rows := [];
    var done := c.Eof();
    while !done
      invariant c.arr.Valid() && c in c.arr.open && (done <==> c.Rest() == [])
      invariant rows + c.Rest() == Scanned(c.arr.View(), FilterBounds(idxNum, argv))
      decreases |c.Rest()|
    {
      var rowid, _ := c.Row();
      rows := rows + [rowid];
      c.Next();
      done := c.Eof();
    }
  }
}
