/** When a planned query is answered right: the exact conditions, row by row, for every list of constraints. */
module Exactness {
  import opened CInts
  import opened Bounds
  import opened Scan
  import opened Plan

  // ---------------------------------------------------------------- one row

  /** The two consumed comparisons together are translated right at x: both exactly, or an exact one that fails hides
      the other, or two wrong ones cancel out. */
  predicate RightPair(x: int, op1: bv8, v1: Operand, op2: bv8, v2: Operand) {
    var f1, f2 := FaithfulAt(x, op1, v1), FaithfulAt(x, op2, v2);
    var c1, c2 := Compares(x, op1, v1), Compares(x, op2, v2);
    (f1 && f2) || (f1 && !c1) || (f2 && !c2) || (!f1 && !f2 && c1 != c2)
  }

  /** The consumed constraints are translated right as far as row k is concerned. */
  predicate RowRight(v: View, cs: seq<Constraint>, operands: seq<Operand>, k: int)
    requires |operands| == |cs| && 0 <= k < |v.a|
  {
    var p := Choose(cs);
    if p.first < 0 then true
    else if p.second < 0 then FaithfulRow(v, cs, operands, p.first, k)
    else RightPair(Subject(v, cs[p.first], k), Opbit(cs[p.first].op), operands[p.first],
                   Opbit(cs[p.second].op), operands[p.second])
  }

  /** The start index is right as far as row k is concerned: a rowid minimum survives the cast to int or does not
      matter here, and a lower bound that is never tested is met. */
  predicate StartRightAt(v: View, b: Bounds, k: int)
    requires 0 <= k < |v.a|
  {
    if Empty(b) then true
    else if b.mode == ROWID && b.hasMin then (Wrap32(b.min) <= k <==> b.min <= k) || (b.hasMax && k > b.max)
    else if b.mode == VALUE && b.hasMin && v.ordered && |v.a| <= 7 then
      v.a[k] >= b.min || (b.hasMax && v.a[k] > b.max)
    else true
  }

  lemma StartRightAtIs(v: View, b: Bounds, k: int)
    requires Truthful(v) && IsSearch(b) && 0 <= k < |v.a|
    ensures StartRightAt(v, b, k) <==> (k in Scanned(v, b) <==> Selects(v, b, k))
  {
    ScannedElements(v, b, k);
  }

  /** A scan starts right if and only if it does for every row. */
  lemma StartsRightIs(v: View, b: Bounds)
    requires Truthful(v) && IsSearch(b)
    ensures StartsRight(v, b) <==> forall k :: 0 <= k < |v.a| ==> StartRightAt(v, b, k)
  {
    WantedElements(v, b, 0);
    if StartsRight(v, b) {
      CursorExact(v, b);
      forall k | 0 <= k < |v.a| ensures StartRightAt(v, b, k) { StartRightAtIs(v, b, k); }
    } else {
      var k := ScanIsWrong(v, b);
      StartRightAtIs(v, b, k);
    }
  }

  ghost predicate SatisfiesConsumed(
    v: View, cs: seq<Constraint>, operands: seq<Operand>, other: (int, int) -> bool, k: int)
    requires |operands| == |cs| && 0 <= k < |v.a|
  {
    forall j :: 0 <= j < |cs| && UsageOf(cs, j).omit ==> Holds(v, cs, operands, other, j, k)
  }

  ghost predicate Planned(v: View, cs: seq<Constraint>, operands: seq<Operand>) {
    |operands| == |cs| && Truthful(v) && forall j :: 0 <= j < |cs| && cs[j].usable ==> IsSqliteOp(cs[j].op)
  }

  lemma PairIsRight(x: int64, op1: bv8, v1: Operand, op2: bv8, v2: Operand)
    requires IsOp(op1) && IsOp(op2)
    ensures RightPair(x, op1, v1, op2, v2) <==>
            (Admitted(x, op1, v1) && Admitted(x, op2, v2) <==> Compares(x, op1, v1) && Compares(x, op2, v2))
  {
    hide Admitted, Compares, FaithfulAt;
    FaithfulAtIsExact(op1, v1, x);
    FaithfulAtIsExact(op2, v2, x);
  }

  /** Whether the interval decides row k as the consumed constraints do. */
  lemma RowRightIs(v: View, cs: seq<Constraint>, operands: seq<Operand>, other: (int, int) -> bool, k: int)
    requires Planned(v, cs, operands) && 0 <= k < |v.a|
    ensures RowRight(v, cs, operands, k) <==>
            var b := FilterBounds(IdxNum(cs), Argv(cs, operands));
            (Selects(v, b, k) <==> SatisfiesConsumed(v, cs, operands, other, k))
  {
    hide Admitted, Compares, SqlCompares, FaithfulAt, FilterBounds, Constrain, RightPair, Truthful;
    TruthfulSize(v);
    ChosenAreComparisons(cs);
    PlanDecodes(cs);
    FilterMeaning(v, IdxNum(cs), Argv(cs, operands), k);
    var p := Choose(cs);
    assert forall j :: 0 <= j < |cs| && UsageOf(cs, j).omit ==> j == p.first || j == p.second;
    if p.first >= 0 {
      assert UsageOf(cs, p.first).omit;
      var x: int := if p.mode == 1 then k else v.a[k];
      FaithfulAtIsExact(OpAt(cs, p.first), operands[p.first], x);
      OpbitMeaning(x, cs[p.first].op, operands[p.first]);
      if p.second >= 0 {
        assert UsageOf(cs, p.second).omit;
        OpbitMeaning(x, cs[p.second].op, operands[p.second]);
        PairIsRight(x, OpAt(cs, p.first), operands[p.first], OpAt(cs, p.second), operands[p.second]);
      }
    }
  }

  lemma TruthfulSize(v: View)
    requires Truthful(v)
    ensures |v.a| <= INT32_MAX
  {
  }

  // ---------------------------------------------------------------- all rows

  ghost predicate Ascending(s: seq<int>) { forall i, j :: 0 <= i < j < |s| ==> s[i] < s[j] }

  lemma {:induction false} KeepElements(s: seq<int>, p: int -> bool)
    ensures forall k :: k in Keep(s, p) <==> k in s && p(k)
    ensures Ascending(s) ==> Ascending(Keep(s, p))
  {
    if s != [] {
      KeepElements(s[1..], p);
      assert s == [s[0]] + s[1..];
      var rest := Keep(s[1..], p);
      if Ascending(s) {
        forall i | 0 <= i < |rest| ensures s[0] < rest[i] {
          assert rest[i] in rest;
          var j :| 0 <= j < |s[1..]| && s[1..][j] == rest[i];
          assert s[j + 1] == rest[i];
        }
      }
    }
  }

  /** An ascending sequence is determined by its elements. */
  lemma {:induction false} SameElements(s: seq<int>, t: seq<int>)
    requires Ascending(s) && Ascending(t) && forall k :: k in s <==> k in t
    ensures s == t
  {
    if s == [] || t == [] {
      HasElement(s);
      HasElement(t);
    } else {
      assert s[0] in s && t[0] in t;
      assert s[0] in t && t[0] in s;
      assert s[0] == t[0];
      forall k ensures k in s[1..] <==> k in t[1..] {
        TailElements(s, k);
        TailElements(t, k);
      }
      SameElements(s[1..], t[1..]);
      assert s == [s[0]] + s[1..] && t == [t[0]] + t[1..];
    }
  }

  lemma HasElement(s: seq<int>)
    ensures s != [] ==> s[0] in s
  {
  }

  lemma TailElements(s: seq<int>, k: int)
    requires s != [] && Ascending(s)
    ensures k in s[1..] <==> k in s && k != s[0]
  {
    assert s == [s[0]] + s[1..];
    if k in s[1..] {
      var j :| 0 <= j < |s[1..]| && s[1..][j] == k;
      assert s[j + 1] == k;
    }
  }

  lemma {:induction false} VisitedAscending(v: View, b: Bounds, lo: nat)
    requires lo <= |v.a|
    ensures Ascending(Visited(v, b, lo))
    decreases |v.a| - lo
  {
    if lo < |v.a| {
      VisitedAscending(v, b, lo + 1);
      VisitedElements(v, b, lo + 1);
      var rest := Visited(v, b, lo + 1);
      forall i | 0 <= i < |rest| ensures lo < rest[i] { assert rest[i] in rest; }
    }
  }

  lemma ScannedAscending(v: View, b: Bounds)
    ensures Ascending(Scanned(v, b)) && forall k :: k in Scanned(v, b) ==> 0 <= k < |v.a|
  {
    if !Empty(b) && StartIndex(v, b) <= |v.a| {
      VisitedAscending(v, b, StartIndex(v, b));
      VisitedElements(v, b, StartIndex(v, b));
    }
  }

  lemma AllRowsElements(n: nat)
    ensures Ascending(AllRows(n)) && forall k :: k in AllRows(n) <==> 0 <= k < n
  {
    forall k | 0 <= k < n ensures k in AllRows(n) { assert AllRows(n)[k] == k; }
  }

  /** A query is answered right if and only if every row that passes the re-check is visited exactly when it satisfies
      the consumed constraints. */
  lemma ExactMembers(v: View, cs: seq<Constraint>, operands: seq<Operand>, other: (int, int) -> bool)
    requires |operands| == |cs|
    ensures Exact(v, cs, operands, other) <==>
            var b := FilterBounds(IdxNum(cs), Argv(cs, operands));
            forall k :: 0 <= k < |v.a| && SatisfiesRest(v, cs, operands, other, k) ==>
              (k in Scanned(v, b) <==> SatisfiesConsumed(v, cs, operands, other, k))
  {
    hide Scanned, FilterBounds, IdxNum, Argv, UsageOf, Holds;
    var scanned := Scanned(v, FilterBounds(IdxNum(cs), Argv(cs, operands)));
    var rest := k => SatisfiesRest(v, cs, operands, other, k);
    var all := k => SatisfiesAll(v, cs, operands, other, k);
    ScannedAscending(v, FilterBounds(IdxNum(cs), Argv(cs, operands)));
    AllRowsElements(|v.a|);
    KeepElements(scanned, rest);
    KeepElements(AllRows(|v.a|), all);
    var got, want := Keep(scanned, rest), Keep(AllRows(|v.a|), all);
    forall k | 0 <= k < |v.a|
      ensures all(k) <==> rest(k) && SatisfiesConsumed(v, cs, operands, other, k)
    {
    }
    if forall k :: 0 <= k < |v.a| && rest(k) ==> (k in scanned <==> SatisfiesConsumed(v, cs, operands, other, k)) {
      SameElements(got, want);
    } else {
      var k :| 0 <= k < |v.a| && rest(k) && !(k in scanned <==> SatisfiesConsumed(v, cs, operands, other, k));
      assert !(k in got <==> k in want);
    }
  }

  // ---------------------------------------------------------------- both conditions together

  /** A real so large that as a lower bound it becomes the smallest integer. */
  predicate Huge(op: bv8, v: Operand) { op & LOWER != 0 && v.Real? && TWO63 - 1.0 < v.r <= TWO63 }

  /** A comparison that puts the minimum above x is translated right at x, and false there. */
  lemma CutsRight(op: bv8, v: Operand, b: Bounds, x: int64)
    requires IsOp(op) && Constrain(op, v, b).mode != ZEROSET
    requires Constrain(op, v, b).hasMin && x < Constrain(op, v, b).min && !(b.hasMin && x < b.min)
    ensures FaithfulAt(x, op, v) && !Compares(x, op, v)
  {
  }

  /** A comparison that lets a rowid through is translated right there, unless it is a huge lower bound. */
  lemma AdmitsRight(op: bv8, v: Operand, b: Bounds, x: int64)
    requires IsOp(op) && b.mode != ZEROSET && Admits(Constrain(op, v, b), x) && 0 <= x <= INT32_MAX
    ensures FaithfulAt(x, op, v) || Huge(op, v)
    ensures !Huge(op, v) ==> Compares(x, op, v)
    ensures Constrain(op, v, b).hasMin && Huge(op, v) ==>
              Constrain(op, v, b).min == if b.hasMin then b.min else INT64_MIN
    ensures op & LOWER == 0 && op & UPPER != 0 ==>
              Constrain(op, v, b).hasMin == b.hasMin && Constrain(op, v, b).min == b.min
    ensures op == EQ ==> Constrain(op, v, b).hasMin && Constrain(op, v, b).min == x
    ensures op == EQ ==> Constrain(op, v, b).hasMax && Constrain(op, v, b).max == x
  {
  }

  /** A row below the minimum. */
  lemma CutRow(b: Bounds, op1: bv8, v1: Operand, op2: bv8, v2: Operand, x: int64)
    requires IsOp(op1) && IsOp(op2) && !b.hasMin && Constrain(op2, v2, Constrain(op1, v1, b)).mode != ZEROSET
    requires var r := Constrain(op2, v2, Constrain(op1, v1, b)); r.hasMin && x < r.min
    ensures RightPair(x, op1, v1, op2, v2)
  {
    hide FaithfulAt, Compares;
    var b1 := Constrain(op1, v1, b);
    ConstrainMode(op2, v2, b1);
    if b1.hasMin && x < b1.min {
      CutsRight(op1, v1, b, x);
    } else {
      CutsRight(op2, v2, b1, x);
    }
  }

  /** A row that passes although its start index was truncated. */
  lemma PassedRow(b: Bounds, op1: bv8, v1: Operand, op2: bv8, v2: Operand, x: int64)
    requires IsOp(op1) && IsOp(op2) && !SameSide(op1, op2) && !b.hasMin && b.mode != ZEROSET && 0 <= x <= INT32_MAX
    requires var r := Constrain(op2, v2, Constrain(op1, v1, b));
             Admits(r, x) && r.hasMin && r.min < 0 && r.min != INT64_MIN
    ensures RightPair(x, op1, v1, op2, v2)
  {
    hide FaithfulAt, Compares, Constrain;
    var b1 := Constrain(op1, v1, b);
    ConstrainMeaning(op2, v2, b1, x);
    AdmitsRight(op1, v1, b, x);
    AdmitsRight(op2, v2, b1, x);
  }

  /** A row that the start index decides wrong lies below the minimum, or the minimum is a truncated negative one. */
  lemma WrongStart(v: View, b: Bounds, k: int)
    requires Truthful(v) && 0 <= k < |v.a| && !StartRightAt(v, b, k)
    ensures b.mode in {ROWID, VALUE} && b.hasMin
    ensures var x: int := if b.mode == ROWID then k else v.a[k];
            x < b.min || (b.mode == ROWID && Admits(b, x) && b.min < 0 && b.min != INT64_MIN)
  {
    assert Wrap32(INT64_MIN) == 0;
  }

  lemma FilterSteps(cs: seq<Constraint>, operands: seq<Operand>)
    requires |operands| == |cs| && forall j :: 0 <= j < |cs| && cs[j].usable ==> IsSqliteOp(cs[j].op)
    ensures var p := Choose(cs); var b := FilterBounds(IdxNum(cs), Argv(cs, operands)); var b0 := Fresh(IdxNum(cs));
            && b0.mode == (if p.mode == 0 then SCAN else if p.mode == 1 then ROWID else VALUE) && !b0.hasMin
            && (p.first < 0 ==> b == b0)
            && (p.first >= 0 && p.second < 0 ==> b == Constrain(OpAt(cs, p.first), operands[p.first], b0))
            && (p.second >= 0 ==>
                  !SameSide(OpAt(cs, p.first), OpAt(cs, p.second)) &&
                  var b1 := Constrain(OpAt(cs, p.first), operands[p.first], b0);
                  b == if b1.mode > 0 then Constrain(OpAt(cs, p.second), operands[p.second], b1) else b1)
            && (p.mode != 0 ==> b.mode == b0.mode || b.mode == ZEROSET)
  {
    hide Constrain, IsStrange;
    ChosenAreComparisons(cs);
    PlanDecodes(cs);
    FilterMode(IdxNum(cs), Argv(cs, operands));
    var p := Choose(cs);
    if p.first >= 0 { ConstrainMode(OpAt(cs, p.first), operands[p.first], Fresh(IdxNum(cs))); }
  }

  /** A row that the start index decides wrong is one that the operands decide right. */
  lemma NeverBothWrong(v: View, cs: seq<Constraint>, operands: seq<Operand>, k: int)
    requires Planned(v, cs, operands) && 0 <= k < |v.a|
    requires !StartRightAt(v, FilterBounds(IdxNum(cs), Argv(cs, operands)), k)
    ensures RowRight(v, cs, operands, k)
  {
    hide FaithfulAt, Compares, Choose, RightPair, Constrain, IsStrange, FilterBounds, IdxNum, Argv, StartRightAt, Fresh;
    hide Opbit, SameSide;
    var p := Choose(cs);
    ChosenAreComparisons(cs);
    FilterSteps(cs, operands);
    var b := FilterBounds(IdxNum(cs), Argv(cs, operands));
    var b0 := Fresh(IdxNum(cs));
    WrongStart(v, b, k);
    var op1, v1 := OpAt(cs, p.first), operands[p.first];
    var x := Subject(v, cs[p.first], k);
    if p.second < 0 {
      if x < b.min { CutsRight(op1, v1, b0, x); } else { AdmitsRight(op1, v1, b0, x); }
    } else {
      var op2, v2 := OpAt(cs, p.second), operands[p.second];
      if x < b.min { CutRow(b0, op1, v1, op2, v2, x); } else { PassedRow(b0, op1, v1, op2, v2, x); }
    }
  }

  /** The exact condition, for every array, every list of constraints and all operands: a planned query is answered
      right if and only if, for every row that passes the re-check, both the operands of the consumed constraints and
      the start index decide the row right. */
  lemma ExactWhen(v: View, cs: seq<Constraint>, operands: seq<Operand>, other: (int, int) -> bool)
    requires Planned(v, cs, operands)
    ensures Exact(v, cs, operands, other) <==>
            forall k :: 0 <= k < |v.a| && SatisfiesRest(v, cs, operands, other, k) ==>
              RowRight(v, cs, operands, k) && StartRightAt(v, FilterBounds(IdxNum(cs), Argv(cs, operands)), k)
  {
    hide RowRight, StartRightAt, FilterBounds, IdxNum, Argv, SatisfiesRest, SatisfiesConsumed, Exact, Scanned, Selects;
    var b := FilterBounds(IdxNum(cs), Argv(cs, operands));
    ExactMembers(v, cs, operands, other);
    PlanDecodes(cs);
    FilterMode(IdxNum(cs), Argv(cs, operands));
    forall k | 0 <= k < |v.a|
      ensures RowRight(v, cs, operands, k) && StartRightAt(v, b, k) <==>
              (k in Scanned(v, b) <==> SatisfiesConsumed(v, cs, operands, other, k))
    {
      RowRightIs(v, cs, operands, other, k);
      StartRightAtIs(v, b, k);
      if !StartRightAt(v, b, k) { NeverBothWrong(v, cs, operands, k); }
    }
  }

  // ---------------------------------------------------------------- ordinary queries

  /** An operand away from the ends of its range: int64 for values, int for rowids; and no blob as an upper bound. */
  predicate Ordinary(c: Constraint, v: Operand) {
    match v
    case Integer(i) =>
      if c.iColumn < 0 then -0x8000_0000 < i < 0x7FFF_FFFF else -0x8000_0000_0000_0000 < i < 0x7FFF_FFFF_FFFF_FFFF
    case Real(r) =>
      if c.iColumn < 0 then -2147483648.0 < r < 2147483646.0
      else -9223372036854775808.0 < r < 9223372036854775807.0
    case Blob => c.op != 8 && c.op != 16
    case Text => true
    case Null => true
  }

  /** Comparisons and other constraints with ordinary operands; and an ordered array has more than seven elements,
      unless only rowids are asked for. */
  ghost predicate OrdinaryQuery(v: View, cs: seq<Constraint>, operands: seq<Operand>) {
    && Planned(v, cs, operands)
    && (forall j :: 0 <= j < |cs| && cs[j].usable ==> Ordinary(cs[j], operands[j]))
    && (v.ordered && |v.a| <= 7 ==> forall j :: 0 <= j < |cs| && cs[j].usable ==> cs[j].iColumn < 0)
  }

  lemma OrdinaryIsFaithful(c: Constraint, v: Operand, x: int64)
    requires IsComparison(c.op) && Ordinary(c, v)
    ensures FaithfulAt(x, Opbit(c.op), v)
  {
  }

  /** An ordinary comparison of the rowid keeps the minimum in the range of an int. */
  lemma OrdinaryMinimum(c: Constraint, v: Operand, b: Bounds)
    requires IsComparison(c.op) && c.iColumn < 0 && Ordinary(c, v)
    requires b.hasMin ==> INT32_MIN <= b.min <= INT32_MAX
    ensures var r := Constrain(Opbit(c.op), v, b); r.hasMin ==> INT32_MIN <= r.min <= INT32_MAX
  {
  }

  lemma SmallMinimumIsRight(v: View, b: Bounds, k: int)
    requires 0 <= k < |v.a| && (b.mode == ROWID && b.hasMin ==> INT32_MIN <= b.min <= INT32_MAX)
    requires b.mode == VALUE ==> !v.ordered || |v.a| > 7
    ensures StartRightAt(v, b, k)
  {
  }

  lemma OrdinaryStart(v: View, cs: seq<Constraint>, operands: seq<Operand>, k: int)
    requires OrdinaryQuery(v, cs, operands) && 0 <= k < |v.a|
    ensures StartRightAt(v, FilterBounds(IdxNum(cs), Argv(cs, operands)), k)
  {
    hide Choose, Constrain, Opbit, FilterBounds, IdxNum, Argv, StartRightAt, Ordinary, Truthful, Fresh, SameSide;
    ChosenAreComparisons(cs);
    FilterSteps(cs, operands);
    var p := Choose(cs);
    if p.mode == 1 {
      var b0 := Fresh(IdxNum(cs));
      OrdinaryMinimum(cs[p.first], operands[p.first], b0);
      if p.second >= 0 {
        OrdinaryMinimum(cs[p.second], operands[p.second], Constrain(OpAt(cs, p.first), operands[p.first], b0));
      }
    }
    SmallMinimumIsRight(v, FilterBounds(IdxNum(cs), Argv(cs, operands)), k);
  }

  lemma OrdinaryRow(v: View, cs: seq<Constraint>, operands: seq<Operand>, k: int)
    requires OrdinaryQuery(v, cs, operands) && 0 <= k < |v.a|
    ensures RowRight(v, cs, operands, k)
  {
    hide Choose, Opbit, Ordinary, FaithfulAt, Compares, Truthful;
    TruthfulSize(v);
    ChosenAreComparisons(cs);
    var p := Choose(cs);
    if p.first >= 0 { OrdinaryIsFaithful(cs[p.first], operands[p.first], Subject(v, cs[p.first], k)); }
    if p.second >= 0 { OrdinaryIsFaithful(cs[p.second], operands[p.second], Subject(v, cs[p.second], k)); }
  }

  /** Ordinary queries are answered right. */
  lemma OrdinaryIsRight(v: View, cs: seq<Constraint>, operands: seq<Operand>, other: (int, int) -> bool)
    requires OrdinaryQuery(v, cs, operands)
    ensures Exact(v, cs, operands, other)
    ensures forall k :: 0 <= k < |v.a| ==>
              RowRight(v, cs, operands, k) && StartRightAt(v, FilterBounds(IdxNum(cs), Argv(cs, operands)), k)
  {
    hide RowRight, StartRightAt, FilterBounds, IdxNum, Argv, Exact, SatisfiesRest;
    ExactWhen(v, cs, operands, other);
    forall k | 0 <= k < |v.a|
      ensures RowRight(v, cs, operands, k) && StartRightAt(v, FilterBounds(IdxNum(cs), Argv(cs, operands)), k)
    {
      OrdinaryStart(v, cs, operands, k);
      OrdinaryRow(v, cs, operands, k);
    }
  }

  // ---------------------------------------------------------------- one comparison

  lemma SinglePlan(c: Constraint)
    requires c.usable && IsComparison(c.op)
    ensures Choose([c]) == Chosen(if c.iColumn < 0 then 1 else 2, 0, -1) && UsageOf([c], 0).omit
  {
    StrangeOps(c.op);
    assert NextOf([c], true, 1, 1) == -1 && NextOf([c], false, 1, 1) == -1;
    assert NextOf([c], c.iColumn < 0, 0, 1) == 0 && NextOf([c], c.iColumn >= 0, 0, 1) == -1;
    assert !IsStrange([c][0]);
  }

  /** A query with a single comparison, of the value or of the rowid, is answered right on an array if and only if its
      operand is faithful at every row and the scan starts right. */
  lemma SingleComparisonExact(v: View, c: Constraint, operand: Operand, other: (int, int) -> bool)
    requires Truthful(v) && c.usable && IsComparison(c.op)
    ensures Exact(v, [c], [operand], other) <==>
            (forall k :: 0 <= k < |v.a| ==> FaithfulRow(v, [c], [operand], 0, k))
            && StartsRight(v, FilterBounds(IdxNum([c]), Argv([c], [operand])))
  {
    hide StartRightAt, StartsRight, FilterBounds, IdxNum, Argv, Exact, Truthful, Choose;
    var cs, operands := [c], [operand];
    var b := FilterBounds(IdxNum(cs), Argv(cs, operands));
    SinglePlan(c);
    PlanDecodes(cs);
    FilterMode(IdxNum(cs), Argv(cs, operands));
    StartsRightIs(v, b);
    ExactWhen(v, cs, operands, other);
    forall k | 0 <= k < |v.a|
      ensures SatisfiesRest(v, cs, operands, other, k)
      ensures RowRight(v, cs, operands, k) <==> FaithfulRow(v, cs, operands, 0, k)
    {
    }
  }

  /** Both kinds of wrong start occur: the ordered array [1, 2] asked for values from 2 on also yields 1, and the
      array [1] asked for rowids from 2^32 on yields row 0. */
  lemma WrongStarts(other: (int, int) -> bool)
    ensures !Exact(View([1, 2], true, true), [Constraint(0, CONSTRAINT_GE, true)], [Integer(2)], other)
    ensures !Exact(View([1], false, false), [Constraint(-1, CONSTRAINT_GE, true)], [Integer(0x1_0000_0000)], other)
  {
    hide Exact;
    var v, c, o := View([1, 2], true, true), Constraint(0, CONSTRAINT_GE, true), Integer(2);
    SinglePlan(c);
    FilterSteps([c], [o]);
    SingleComparisonExact(v, c, o, other);
    assert !StartsRight(v, FilterBounds(IdxNum([c]), Argv([c], [o])));
    var w, d, q := View([1], false, false), Constraint(-1, CONSTRAINT_GE, true), Integer(0x1_0000_0000);
    SinglePlan(d);
    FilterSteps([d], [q]);
    SingleComparisonExact(w, d, q, other);
    assert Wrap32(0x1_0000_0000) == 0;
    assert !StartsRight(w, FilterBounds(IdxNum([d]), Argv([d], [q])));
  }

  /** ... and on all unordered arrays, when it compares the value, if and only if the operand is faithful. */
  lemma SingleComparison(c: Constraint, operand: Operand, other: (int, int) -> bool)
    requires c.usable && IsComparison(c.op) && c.iColumn >= 0
    ensures (forall v: View :: Truthful(v) && !v.ordered ==> Exact(v, [c], [operand], other))
            <==> Faithful(Opbit(c.op), operand)
  {
    hide Exact, StartsRight, FilterBounds, IdxNum, Argv, Compares, Admitted, Faithful;
    FaithfulIsExact(Opbit(c.op), operand);
    forall v: View | Truthful(v) && !v.ordered
      ensures Exact(v, [c], [operand], other) <==> forall k :: 0 <= k < |v.a| ==> FaithfulRow(v, [c], [operand], 0, k)
    {
      SingleComparisonExact(v, c, operand, other);
      UnorderedStartsRight(v, [c], [operand]);
    }
    if Faithful(Opbit(c.op), operand) {
      forall v: View, k | Truthful(v) && !v.ordered && 0 <= k < |v.a| ensures FaithfulRow(v, [c], [operand], 0, k) {
        FaithfulAtIsExact(Opbit(c.op), operand, v.a[k]);
      }
    } else {
      var x: int64 :| !(Admitted(x, Opbit(c.op), operand) <==> Compares(x, Opbit(c.op), operand));
      FaithfulAtIsExact(Opbit(c.op), operand, x);
      var v := View([x], false, false);
      assert Truthful(v) && !FaithfulRow(v, [c], [operand], 0, 0);
    }
  }

  /** Comparisons of the value on an unordered array begin at its first element. */
  lemma UnorderedStartsRight(v: View, cs: seq<Constraint>, operands: seq<Operand>)
    requires |operands| == |cs| && !v.ordered && Choose(cs).mode == 2
    requires forall j :: 0 <= j < |cs| && cs[j].usable ==> IsSqliteOp(cs[j].op)
    ensures StartsRight(v, FilterBounds(IdxNum(cs), Argv(cs, operands)))
    ensures forall k :: 0 <= k < |v.a| ==> StartRightAt(v, FilterBounds(IdxNum(cs), Argv(cs, operands)), k)
  {
    hide Choose, IdxNum, Argv, FilterBounds;
    FilterSteps(cs, operands);
  }

  // ---------------------------------------------------------------- two bounds

  /** A lower and an upper bound of the value that are translated right at both ends of the int64 range are translated
      right everywhere. */
  lemma EndsDecide(op1: bv8, v1: Operand, op2: bv8, v2: Operand, x: int64)
    requires IsOp(op1) && IsOp(op2) && op1 & LOWER != 0 && op2 & UPPER != 0
    requires RightPair(INT64_MIN, op1, v1, op2, v2) && RightPair(INT64_MAX, op1, v1, op2, v2)
    ensures RightPair(x, op1, v1, op2, v2)
  {
    PairIsRight(INT64_MIN, op1, v1, op2, v2);
    PairIsRight(INT64_MAX, op1, v1, op2, v2);
    PairIsRight(x, op1, v1, op2, v2);
  }

  predicate OppositeBounds(c1: Constraint, c2: Constraint) {
    && c1.usable && c2.usable && c1.iColumn >= 0 && c2.iColumn >= 0 && IsComparison(c1.op) && IsComparison(c2.op)
    && (c1.op == 4 || c1.op == 32) && (c2.op == 8 || c2.op == 16)
  }

  lemma TwoPlan(c1: Constraint, c2: Constraint)
    requires OppositeBounds(c1, c2) || OppositeBounds(c2, c1)
    ensures Choose([c1, c2]) == Chosen(2, 0, 1) && UsageOf([c1, c2], 0).omit && UsageOf([c1, c2], 1).omit
  {
    hide Opbit;
    StrangeOps(c1.op);
    StrangeOps(c2.op);
    var cs := [c1, c2];
    assert NextOf(cs, true, 2, 2) == -1 && NextOf(cs, true, 1, 2) == -1 && NextOf(cs, true, 0, 2) == -1;
    assert NextOf(cs, false, 0, 2) == 0 && NextOf(cs, false, 1, 2) == 1;
    assert !IsStrange(cs[0]) && !IsStrange(cs[1]);
    NotSameSide(c1.op, c2.op);
  }

  lemma NotSameSide(op1: bv8, op2: bv8)
    requires || ((op1 == 4 || op1 == 32) && (op2 == 8 || op2 == 16))
             || ((op2 == 4 || op2 == 32) && (op1 == 8 || op1 == 16))
    ensures !SameSide(Opbit(op1), Opbit(op2))
  {
  }

  predicate RightAtEnd(x: int64, c1: Constraint, v1: Operand, c2: Constraint, v2: Operand) {
    RightPair(x, Opbit(c1.op), v1, Opbit(c2.op), v2)
  }

  /** A range query, a lower and an upper bound of the value in either order, is answered right on all unordered arrays
      if and only if its operands are translated right at the two ends of the int64 range. */
  lemma RangeQueryExact(c1: Constraint, v1: Operand, c2: Constraint, v2: Operand, other: (int, int) -> bool)
    requires OppositeBounds(c1, c2) || OppositeBounds(c2, c1)
    ensures (forall v: View :: Truthful(v) && !v.ordered ==> Exact(v, [c1, c2], [v1, v2], other))
            <==> RightAtEnd(INT64_MIN, c1, v1, c2, v2) && RightAtEnd(INT64_MAX, c1, v1, c2, v2)
  {
    hide Exact, RightPair, Opbit, Truthful;
    var cs, operands := [c1, c2], [v1, v2];
    forall v: View | Truthful(v) && !v.ordered
      ensures Exact(v, cs, operands, other) <==> forall k :: 0 <= k < |v.a| ==> RightAtEnd(v.a[k], c1, v1, c2, v2)
    {
      RangeQueryRows(v, c1, v1, c2, v2, other);
    }
    if RightAtEnd(INT64_MIN, c1, v1, c2, v2) && RightAtEnd(INT64_MAX, c1, v1, c2, v2) {
      forall x: int64 ensures RightAtEnd(x, c1, v1, c2, v2) { EndsDecideRange(c1, v1, c2, v2, x); }
    } else {
      var x: int64 := if RightAtEnd(INT64_MIN, c1, v1, c2, v2) then INT64_MAX else INT64_MIN;
      var v := View([x], false, false);
      OneElementTruthful(x);
      assert !RightAtEnd(v.a[0], c1, v1, c2, v2);
    }
  }

  lemma OneElementTruthful(x: int64)
    ensures Truthful(View([x], false, false))
  {
  }

  lemma EndsDecideRange(c1: Constraint, v1: Operand, c2: Constraint, v2: Operand, x: int64)
    requires OppositeBounds(c1, c2) || OppositeBounds(c2, c1)
    requires RightAtEnd(INT64_MIN, c1, v1, c2, v2) && RightAtEnd(INT64_MAX, c1, v1, c2, v2)
    ensures RightAtEnd(x, c1, v1, c2, v2)
  {
    hide Compares, FaithfulAt;
    if OppositeBounds(c1, c2) {
      EndsDecide(Opbit(c1.op), v1, Opbit(c2.op), v2, x);
    } else {
      EndsDecide(Opbit(c2.op), v2, Opbit(c1.op), v1, x);
    }
  }

  lemma RangeQueryRows(v: View, c1: Constraint, v1: Operand, c2: Constraint, v2: Operand, other: (int, int) -> bool)
    requires Truthful(v) && !v.ordered && (OppositeBounds(c1, c2) || OppositeBounds(c2, c1))
    ensures Exact(v, [c1, c2], [v1, v2], other) <==>
            forall k :: 0 <= k < |v.a| ==> RightAtEnd(v.a[k], c1, v1, c2, v2)
  {
    hide StartRightAt, FilterBounds, IdxNum, Argv, Exact, Truthful, Choose, RightPair, Opbit;
    var cs, operands := [c1, c2], [v1, v2];
    TwoPlan(c1, c2);
    UnorderedStartsRight(v, cs, operands);
    ExactWhen(v, cs, operands, other);
    forall k | 0 <= k < |v.a|
      ensures SatisfiesRest(v, cs, operands, other, k)
      ensures RowRight(v, cs, operands, k) <==> RightAtEnd(v.a[k], c1, v1, c2, v2)
    {
    }
  }
}
