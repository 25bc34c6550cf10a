/** intarrayBestIndex as it runs: one pass over SQLite's constraint list, filling the usage array
    and idxNum of sqlite3_index_info in place. */
module Planner {
  import opened Bounds
  import opened Scan
  import opened Plan
  import opened Cursor
  import opened Exactness

  class IndexInfo {
    const aConstraint: seq<Constraint>
    const aConstraintUsage: array<Usage>
    var idxNum: bv8

    constructor (cs: seq<Constraint>)
      ensures aConstraint == cs && aConstraintUsage.Length == |cs| && fresh(aConstraintUsage)
      ensures forall j :: 0 <= j < |cs| ==> aConstraintUsage[j] == Usage(0, false)
    {
      aConstraint, idxNum := cs, 0;
      aConstraintUsage := new Usage[|cs|](_ => Usage(0, false));
    }

    /** intarrayC2opbits: consumes constraint ix0, and ix1 unless both bound the same side. */
    method C2opbits(ix0: int, ix1: int) returns (r: bv8)
      requires aConstraintUsage.Length == |aConstraint|
      requires 0 <= ix0 < |aConstraint| && -1 <= ix1 < |aConstraint|
      modifies aConstraintUsage
      ensures var both := ix1 >= 0 && !SameSide(Opbit(aConstraint[ix0].op), Opbit(aConstraint[ix1].op));
              && r == (Opbit(aConstraint[ix0].op) << 2) | (if both then Opbit(aConstraint[ix1].op) << 5 else 0)
              && forall j :: 0 <= j < |aConstraint| ==>
                   aConstraintUsage[j] == if both && j == ix1 then Usage(2, true)
                                          else if j == ix0 then Usage(1, true)
                                          else old(aConstraintUsage[j])
    {
      hide Opbit, SameSide;
      aConstraintUsage[ix0] := Usage(1, true);
      var op1bits := Opbit(aConstraint[ix0].op);
      r := op1bits << 2;
      if ix1 >= 0 {
        var op2bits := Opbit(aConstraint[ix1].op);
        if SameSide(op1bits, op2bits) {
          // two constraints on the same side: the second is left to SQLite
        } else {
          aConstraintUsage[ix1] := Usage(2, true);
          r := r | (op2bits << 5);
        }
      }
    }

    /** The first loop of intarrayBestIndex: the first two usable rowid constraints go to ix[0] and ix[1],
        the first two usable value constraints to ix[2] and ix[3]. */
    method Collect(ix: array<int>) returns (strange: bool, rcount: int, vcount: int)
      requires ix.Length == 4 && forall j :: 0 <= j < 4 ==> ix[j] == -1
      modifies ix
      ensures strange <==> exists j :: 0 <= j < |aConstraint| && IsStrange(aConstraint[j])
      ensures !strange ==> Collected(aConstraint, true, |aConstraint|, rcount, ix[0], ix[1])
      ensures !strange ==> Collected(aConstraint, false, |aConstraint|, vcount, ix[2], ix[3])
    {
      hide Collected, IsStrange;
      var cs := aConstraint;
      var i := 0;
      strange, rcount, vcount := false, 0, 0;
      assert Collected(cs, true, 0, 0, -1, -1) && Collected(cs, false, 0, 0, -1, -1) by { CollectNone(cs); }
      while i < |cs|
        invariant 0 <= i <= |cs|
        invariant forall j :: 0 <= j < i ==> !IsStrange(cs[j])
        invariant Collected(cs, true, i, rcount, ix[0], ix[1])
        invariant Collected(cs, false, i, vcount, ix[2], ix[3])
      {
        CollectStep(cs, true, i, rcount, ix[0], ix[1]);
        CollectStep(cs, false, i, vcount, ix[2], ix[3]);
        StrangeTest(cs[i]);
        if cs[i].usable {
          if cs[i].op & !ACCEPTED_OPS != 0 {
            strange := true;
            return;
          }
          if cs[i].iColumn < 0 {
            if rcount < 2 { ix[rcount] := i; }
            rcount := rcount + 1;
          } else {
            if vcount < 2 { ix[2 + vcount] := i; }
            vcount := vcount + 1;
          }
        }
        i := i + 1;
      }
    }

    lemma StrangeTest(c: Constraint)
      ensures IsStrange(c) <==> c.usable && c.op & !ACCEPTED_OPS != 0
    {
    }

    /** intarrayBestIndex, without the cost estimate. */
    method BestIndex()
      requires aConstraintUsage.Length == |aConstraint|
      requires forall j :: 0 <= j < |aConstraint| ==> aConstraintUsage[j] == Usage(0, false)
      modifies this`idxNum, aConstraintUsage
      ensures idxNum == IdxNum(aConstraint)
      ensures forall j :: 0 <= j < |aConstraint| ==> aConstraintUsage[j] == UsageOf(aConstraint, j)
    {
      hide Opbit, SameSide, NextOf, IsStrange;
      var ix := new int[4](_ => -1);
      var strange, rcount, vcount := Collect(ix);
      var mode: bv8 := 0;
      if strange {
        // fall back to a full scan that consumes nothing
      } else if rcount > 0 {
        mode := 1;
        var bits := C2opbits(ix[0], ix[1]);
        mode := mode | bits;
      } else if vcount > 0 {
        mode := 2;
        var bits := C2opbits(ix[2], ix[3]);
        mode := mode | bits;
      }
      idxNum := mode;
    }
  }

  /** Among the first i constraints, ix0 and ix1 are the first two usable ones of one kind, and count
      tells how many were seen. */
  ghost predicate Collected(cs: seq<Constraint>, rowid: bool, i: int, count: int, ix0: int, ix1: int) {
    && 0 <= i <= |cs| && 0 <= count
    && ix0 == First(cs, rowid, i) && ix1 == Second(cs, rowid, i)
    && (count == 0 <==> ix0 < 0) && (count >= 2 <==> ix1 >= 0)
  }

  lemma CollectNone(cs: seq<Constraint>)
    ensures Collected(cs, true, 0, 0, -1, -1) && Collected(cs, false, 0, 0, -1, -1)
  {
  }

  lemma {:induction false} NextOfExtend(cs: seq<Constraint>, rowid: bool, lo: nat, i: nat)
    requires lo <= i < |cs|
    ensures var before := NextOf(cs, rowid, lo, i);
            NextOf(cs, rowid, lo, i + 1) == if before >= 0 then before else if Wants(cs[i], rowid) then i else -1
    decreases i - lo
  {
    if lo < i { NextOfExtend(cs, rowid, lo + 1, i); }
  }

  /** Looking at constraint i appends it to the first free place, if it is wanted. */
  lemma CollectStep(cs: seq<Constraint>, rowid: bool, i: int, count: int, ix0: int, ix1: int)
    requires Collected(cs, rowid, i, count, ix0, ix1) && i < |cs|
    ensures if Wants(cs[i], rowid)
            then Collected(cs, rowid, i + 1, count + 1, if count == 0 then i else ix0, if count == 1 then i else ix1)
            else Collected(cs, rowid, i + 1, count, ix0, ix1)
  {
    NextOfExtend(cs, rowid, 0, i);
    if ix0 >= 0 { NextOfExtend(cs, rowid, ix0 + 1, i); }
  }

  /** One whole query: plan it, walk a cursor, re-check what the plan did not consume. The result is exactly the rows
      of the WHERE clause if and only if the operands and the start index decide every re-checked row right. */
  method RunQuery(info: IndexInfo, c: Cursor, operands: seq<Operand>, ghost other: (int, int) -> bool)
    returns (rows: seq<int>)
    requires info.aConstraintUsage.Length == |info.aConstraint| == |operands|
    requires forall j :: 0 <= j < |operands| ==> info.aConstraintUsage[j] == Usage(0, false)
    requires forall j :: 0 <= j < |operands| && info.aConstraint[j].usable ==> IsSqliteOp(info.aConstraint[j].op)
    requires c.arr.Valid() && c in c.arr.open
    modifies info`idxNum, info.aConstraintUsage, c
    ensures c.arr.Valid()
    ensures forall j :: 0 <= j < |operands| ==> info.aConstraintUsage[j] == UsageOf(info.aConstraint, j)
    ensures var v, cs := c.arr.View(), info.aConstraint;
            Keep(rows, k => SatisfiesRest(v, cs, operands, other, k))
            == Keep(AllRows(|v.a|), k => SatisfiesAll(v, cs, operands, other, k))
            <==> forall k :: 0 <= k < |v.a| && SatisfiesRest(v, cs, operands, other, k) ==>
                   RowRight(v, cs, operands, k) && StartRightAt(v, FilterBounds(IdxNum(cs), Argv(cs, operands)), k)
  {
    hide RowRight, StartRightAt, FilterBounds, IdxNum, Argv, Scanned, SatisfiesRest, SatisfiesAll, Truthful;
    ghost var v := c.arr.View();
    info.BestIndex();
    PlanDecodes(info.aConstraint);
    ArgvIs(info.aConstraint, info.aConstraintUsage[..], operands);
    rows := Walk(c, info.idxNum, SqliteArgv(info.aConstraintUsage[..], operands));
    ExactWhen(v, info.aConstraint, operands, other);
  }

  /** An ordinary query is answered right, without any condition on how it is planned. */
  method RunOrdinaryQuery(info: IndexInfo, c: Cursor, operands: seq<Operand>, ghost other: (int, int) -> bool)
    returns (rows: seq<int>)
    requires info.aConstraintUsage.Length == |info.aConstraint| == |operands|
    requires forall j :: 0 <= j < |operands| ==> info.aConstraintUsage[j] == Usage(0, false)
    requires c.arr.Valid() && c in c.arr.open
    requires OrdinaryQuery(c.arr.View(), info.aConstraint, operands)
    modifies info`idxNum, info.aConstraintUsage, c
    ensures c.arr.Valid()
    ensures var v, cs := c.arr.View(), info.aConstraint;
            Keep(rows, k => SatisfiesRest(v, cs, operands, other, k))
            == Keep(AllRows(|v.a|), k => SatisfiesAll(v, cs, operands, other, k))
  {
    hide RowRight, StartRightAt, FilterBounds, IdxNum, Argv, Scanned, SatisfiesRest, SatisfiesAll, Truthful, Ordinary;
    ArrayIsTruthful(c.arr);
    OrdinaryIsRight(c.arr.View(), info.aConstraint, operands, other);
    rows := RunQuery(info, c, operands, other);
  }

  lemma ArrayIsTruthful(arr: IntArray)
    requires arr.Valid()
    ensures Truthful(arr.View())
  {
  }
}
