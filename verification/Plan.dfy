/** intarrayBestIndex and the query plan it packs into idxNum, and the proof that plan, cursor
    and SQLite's re-check together return exactly the rows of the WHERE clause. */
module Plan {
  import opened CInts
  import opened Bounds
  import opened Scan

  // SQLite's operator codes (SQLITE_INDEX_CONSTRAINT_*).
  const CONSTRAINT_EQ: bv8 := 2
  const CONSTRAINT_GT: bv8 := 4
  const CONSTRAINT_LE: bv8 := 8
  const CONSTRAINT_LT: bv8 := 16
  const CONSTRAINT_GE: bv8 := 32
  const ACCEPTED_OPS: bv8 := CONSTRAINT_EQ | CONSTRAINT_GE | CONSTRAINT_GT | CONSTRAINT_LE | CONSTRAINT_LT

  datatype Constraint = Constraint(iColumn: int, op: bv8, usable: bool)
  datatype Usage = Usage(argvIndex: int, omit: bool)

  predicate IsComparison(op: bv8) {
    op == CONSTRAINT_EQ || op == CONSTRAINT_GT || op == CONSTRAINT_LE || op == CONSTRAINT_LT || op == CONSTRAINT_GE
  }

  /** SQLite's codes are the five comparisons and, from 64 up, MATCH, LIKE, IS NULL and the like. */
  predicate IsSqliteOp(op: bv8) { IsComparison(op) || op >= 64 }

  function Opbit(op: bv8): (r: bv8)
    ensures IsComparison(op) <==> IsOp(r)
  {
    if op == CONSTRAINT_EQ then EQ
    else if op == CONSTRAINT_GE then EQ | LOWER
    else if op == CONSTRAINT_GT then LOWER
    else if op == CONSTRAINT_LE then EQ | UPPER
    else if op == CONSTRAINT_LT then UPPER
    else 0
  }

  /** What SQL means by a comparison with SQLite's code: 2 is =, 4 is >, 8 is <=, 16 is < and 32 is >=. Numbers sort
      before texts and blobs, and a comparison with NULL is never true. */
  predicate SqlCompares(x: int, code: bv8, v: Operand) {
    match v
    case Integer(i) =>
      || (code == 2 && x == i) || (code == 4 && x > i) || (code == 8 && x <= i)
      || (code == 16 && x < i) || (code == 32 && x >= i)
    case Real(r) =>
      || (code == 2 && x as real == r) || (code == 4 && x as real > r) || (code == 8 && x as real <= r)
      || (code == 16 && (x as real) < r) || (code == 32 && x as real >= r)
    case Text => code == 8 || code == 16
    case Blob => code == 8 || code == 16
    case Null => false
  }

  /** The bits intarrayOpbit makes of a code mean the same. */
  lemma OpbitMeaning(x: int, op: bv8, v: Operand)
    requires IsComparison(op)
    ensures Compares(x, Opbit(op), v) <==> SqlCompares(x, op, v)
  {
  }

  predicate IsStrange(c: Constraint) { c.usable && c.op & !ACCEPTED_OPS != 0 }

  lemma StrangeOps(op: bv8)
    requires IsSqliteOp(op)
    ensures op & !ACCEPTED_OPS == 0 <==> IsComparison(op)
  {
  }

  // ---------------------------------------------------------------- the plan

  predicate Wants(c: Constraint, rowid: bool) { c.usable && (c.iColumn < 0 <==> rowid) }

  /** The first usable constraint on the rowid (or on the value) in [lo, hi), or -1. */
  function NextOf(cs: seq<Constraint>, rowid: bool, lo: nat, hi: nat): (j: int)
    requires lo <= hi <= |cs|
    ensures j == -1 || (lo <= j < hi && Wants(cs[j], rowid))
    ensures forall i :: lo <= i < (if j < 0 then hi else j) ==> !Wants(cs[i], rowid)
    decreases hi - lo
  {
    if lo == hi then -1
    else if Wants(cs[lo], rowid) then lo
    else NextOf(cs, rowid, lo + 1, hi)
  }

  function First(cs: seq<Constraint>, rowid: bool, hi: nat): (j: int)
    requires hi <= |cs|
    ensures -1 <= j < hi
  {
    NextOf(cs, rowid, 0, hi)
  }

  function Second(cs: seq<Constraint>, rowid: bool, hi: nat): (j: int)
    requires hi <= |cs|
    ensures -1 <= j < hi
    ensures j >= 0 ==> 0 <= First(cs, rowid, hi) < j
  {
    if First(cs, rowid, hi) < 0 then -1 else NextOf(cs, rowid, First(cs, rowid, hi) + 1, hi)
  }

  /** Two operators that both bound from below, or both from above. */
  predicate SameSide(op1: bv8, op2: bv8) { op2 & op1 & 5 != 0 }

  /** A plan: the search mode and the one or two constraints it consumes (-1 for none). */
  datatype Chosen = Chosen(mode: bv8, first: int, second: int)

  function Choose(cs: seq<Constraint>): (p: Chosen)
    ensures -1 <= p.first < |cs| && -1 <= p.second < |cs|
    ensures p.second >= 0 ==> 0 <= p.first < p.second
    ensures p.mode == 0 <==> p.first < 0
  {
    if exists j :: 0 <= j < |cs| && IsStrange(cs[j]) then Chosen(0, -1, -1)
    else
      var rowid := First(cs, true, |cs|) >= 0;
      var first := First(cs, rowid, |cs|);
      if first < 0 then Chosen(0, -1, -1)
      else
        var second := Second(cs, rowid, |cs|);
        var clash := second >= 0 && SameSide(Opbit(cs[first].op), Opbit(cs[second].op));
        Chosen(if rowid then 1 else 2, first, if clash then -1 else second)
  }

  /** idxNum: the mode in bits 0-1, the operators in bits 2-4 and 5-7. */
  function Encode(mode: bv8, op1: bv8, op2: bv8): bv8 { mode | (op1 << 2) | (op2 << 5) }

  function ModeOf(idxNum: bv8): (m: bv8) ensures m <= 3 { idxNum & 3 }
  function Op1Of(idxNum: bv8): bv8 { (idxNum >> 2) & 7 }
  function Op2Of(idxNum: bv8): bv8 { (idxNum >> 5) & 7 }

  lemma EncodeRoundTrip(mode: bv8, op1: bv8, op2: bv8)
    requires mode <= 3 && op1 <= 7 && op2 <= 7
    ensures ModeOf(Encode(mode, op1, op2)) == mode
    ensures Op1Of(Encode(mode, op1, op2)) == op1
    ensures Op2Of(Encode(mode, op1, op2)) == op2
  {
  }

  function OpAt(cs: seq<Constraint>, j: int): bv8
    requires -1 <= j < |cs|
  {
    if j < 0 then 0 else Opbit(cs[j].op)
  }

  function IdxNum(cs: seq<Constraint>): bv8 {
    var p := Choose(cs);
    Encode(p.mode, OpAt(cs, p.first), OpAt(cs, p.second))
  }

  function UsageOf(cs: seq<Constraint>, j: int): Usage {
    var p := Choose(cs);
    if j == p.first && j >= 0 then Usage(1, true)
    else if j == p.second && j >= 0 then Usage(2, true)
    else Usage(0, false)
  }

  /** The operands of the consumed constraints. */
  function Argv(cs: seq<Constraint>, operands: seq<Operand>): seq<Operand>
    requires |operands| == |cs|
  {
    var p := Choose(cs);
    (if p.first < 0 then [] else [operands[p.first]]) + (if p.second < 0 then [] else [operands[p.second]])
  }

  // ---------------------------------------------------------------- what the plan is

  /** Constraint j is the first usable one of its kind from lo on. */
  ghost predicate IsFirst(cs: seq<Constraint>, rowid: bool, lo: nat, j: int) {
    && lo <= j < |cs| && cs[j].usable && (cs[j].iColumn < 0 <==> rowid)
    && forall i :: lo <= i < j ==> !(cs[i].usable && (cs[i].iColumn < 0 <==> rowid))
  }

  predicate BothLower(c: Constraint, d: Constraint) { (c.op == 4 || c.op == 32) && (d.op == 4 || d.op == 32) }

  predicate BothUpper(c: Constraint, d: Constraint) { (c.op == 8 || c.op == 16) && (d.op == 8 || d.op == 16) }

  /** The plan without the program: a usable constraint that is no comparison means a full scan; otherwise rowid
      constraints come before value constraints, the first of the kind is consumed, and so is the second unless both
      bound the same side. */
  lemma PlanIs(cs: seq<Constraint>)
    requires forall j :: 0 <= j < |cs| && cs[j].usable ==> IsSqliteOp(cs[j].op)
    ensures var p := Choose(cs);
            var strange := exists j :: 0 <= j < |cs| && cs[j].usable && !IsComparison(cs[j].op);
            && (strange ==> p == Chosen(0, -1, -1))
            && (!strange ==>
                  && (p.mode == 1 <==> exists j :: IsFirst(cs, true, 0, j))
                  && (p.mode == 2 <==> !(exists j :: IsFirst(cs, true, 0, j)) && exists j :: IsFirst(cs, false, 0, j))
                  && (p.mode != 0 ==> p.mode <= 2 && IsFirst(cs, p.mode == 1, 0, p.first))
                  && (p.mode == 0 ==> p.first == -1 && p.second == -1))
    ensures var p := Choose(cs);
            p.first >= 0 ==>
              forall s :: IsFirst(cs, p.mode == 1, p.first + 1, s) ==>
                p.second == if BothLower(cs[p.first], cs[s]) || BothUpper(cs[p.first], cs[s]) then -1 else s
    ensures var p := Choose(cs);
            p.second >= 0 ==> IsFirst(cs, p.mode == 1, p.first + 1, p.second)
  {
    hide Opbit, SameSide;
    var p := Choose(cs);
    forall j | 0 <= j < |cs| && cs[j].usable ensures IsStrange(cs[j]) <==> !IsComparison(cs[j].op) {
      StrangeOps(cs[j].op);
    }
    ChosenAreComparisons(cs);
    if p.first >= 0 {
      FirstIs(cs, p.mode == 1, 0, p.first);
      forall s | IsFirst(cs, p.mode == 1, p.first + 1, s)
        ensures p.second == if BothLower(cs[p.first], cs[s]) || BothUpper(cs[p.first], cs[s]) then -1 else s
      {
        FirstIs(cs, p.mode == 1, p.first + 1, s);
        StrangeOps(cs[s].op);
        SidesAre(cs[p.first], cs[s]);
      }
    }
    forall j, rowid | IsFirst(cs, rowid, 0, j) ensures First(cs, rowid, |cs|) == j { FirstIs(cs, rowid, 0, j); }
  }

  lemma FirstIs(cs: seq<Constraint>, rowid: bool, lo: nat, j: int)
    requires lo <= |cs|
    ensures IsFirst(cs, rowid, lo, j) <==> j >= 0 && NextOf(cs, rowid, lo, |cs|) == j
  {
    var n := NextOf(cs, rowid, lo, |cs|);
    if IsFirst(cs, rowid, lo, j) { assert Wants(cs[j], rowid); }
  }

  lemma SidesAre(c: Constraint, d: Constraint)
    requires IsComparison(c.op) && IsComparison(d.op)
    ensures SameSide(Opbit(c.op), Opbit(d.op)) <==> BothLower(c, d) || BothUpper(c, d)
  {
  }

  /** The operator bits of a code as the header of the filter lays them out: 1 is upper, 2 is equal, 4 is lower. */
  function BitsOf(code: bv8): int {
    match code
    case 2 => 2
    case 4 => 4
    case 8 => 3
    case 16 => 1
    case 32 => 6
    case _ => 0
  }

  /** idxNum as a number: the mode, four times the first operator's bits, 32 times the second's. */
  lemma IdxNumLayout(cs: seq<Constraint>)
    requires forall j :: 0 <= j < |cs| && cs[j].usable ==> IsSqliteOp(cs[j].op)
    ensures var p := Choose(cs);
            IdxNum(cs) as int == p.mode as int
              + 4 * (if p.first < 0 then 0 else BitsOf(cs[p.first].op))
              + 32 * (if p.second < 0 then 0 else BitsOf(cs[p.second].op))
  {
    hide Choose;
    ChosenAreComparisons(cs);
    var p := Choose(cs);
    PlanDecodes(cs);
    Layout(p.mode, OpAt(cs, p.first), OpAt(cs, p.second));
    if p.first >= 0 { OpbitBits(cs[p.first].op); }
    if p.second >= 0 { OpbitBits(cs[p.second].op); }
  }

  lemma Layout(mode: bv8, op1: bv8, op2: bv8)
    requires mode <= 3 && op1 <= 7 && op2 <= 7
    ensures Encode(mode, op1, op2) as int == mode as int + 4 * (op1 as int) + 32 * (op2 as int)
  {
    assert Encode(mode, op1, op2) == mode + 4 * op1 + 32 * op2;
  }

  lemma OpbitBits(code: bv8)
    requires IsComparison(code)
    ensures Opbit(code) as int == BitsOf(code)
  {
  }

  // ---------------------------------------------------------------- what SQLite makes of the usage

  /** The constraint with argument number n, or -1. */
  function WithArg(usage: seq<Usage>, n: int): (j: int)
    ensures -1 <= j < |usage|
    ensures if j < 0 then forall i :: 0 <= i < |usage| ==> usage[i].argvIndex != n else usage[j].argvIndex == n
  {
    if usage == [] then -1
    else if usage[|usage| - 1].argvIndex == n then |usage| - 1
    else WithArg(usage[..|usage| - 1], n)
  }

  /** The arguments SQLite passes to xFilter: the operand whose argvIndex is 1, then the one whose argvIndex is 2. */
  function SqliteArgv(usage: seq<Usage>, operands: seq<Operand>): seq<Operand>
    requires |operands| == |usage|
  {
    var a, b := WithArg(usage, 1), WithArg(usage, 2);
    (if a < 0 then [] else [operands[a]]) + (if b < 0 then [] else [operands[b]])
  }

  lemma ArgvIs(cs: seq<Constraint>, usage: seq<Usage>, operands: seq<Operand>)
    requires |usage| == |cs| == |operands| && forall j :: 0 <= j < |cs| ==> usage[j] == UsageOf(cs, j)
    ensures SqliteArgv(usage, operands) == Argv(cs, operands)
  {
    var p := Choose(cs);
    if p.first >= 0 { assert usage[p.first].argvIndex == 1; }
    if p.second >= 0 { assert usage[p.second].argvIndex == 2; }
  }

  // ---------------------------------------------------------------- xFilter

  function ModeInt(m: bv8): (r: int)
    requires m <= 3
    ensures 0 <= r <= 3
  {
    if m == 0 then 0 else if m == 1 then 1 else if m == 2 then 2 else 3
  }

  function Fresh(idxNum: bv8): Bounds { Bounds(ModeInt(ModeOf(idxNum)), false, 0, false, 0) }

  /** The interval intarrayFilter builds from its arguments. */
  function FilterBounds(idxNum: bv8, argv: seq<Operand>): Bounds {
    var b := Fresh(idxNum);
    var b := if b.mode > 0 && |argv| > 0 && Op1Of(idxNum) != 0 then Constrain(Op1Of(idxNum), argv[0], b) else b;
    if b.mode > 0 && |argv| > 1 && Op2Of(idxNum) != 0 then Constrain(Op2Of(idxNum), argv[1], b) else b
  }

  /** The idxNum values intarrayBestIndex can produce. */
  predicate IsIdxNum(idxNum: bv8) {
    && ModeOf(idxNum) <= 2
    && (ModeOf(idxNum) == 0 ==> Op1Of(idxNum) == 0)
    && (ModeOf(idxNum) != 0 ==> IsOp(Op1Of(idxNum)))
    && (Op2Of(idxNum) == 0 || IsOp(Op2Of(idxNum)))
  }

  // ---------------------------------------------------------------- SQL meaning

  /** What a constraint compares: the rowid or the value of row k. */
  function Subject(v: View, c: Constraint, k: int): int
    requires 0 <= k < |v.a|
  {
    if c.iColumn < 0 then k else v.a[k]
  }

  /** SQL semantics of one constraint on row k. What a constraint that is not one of the five
      comparisons means is SQLite's business: it is the parameter `other`. */
  ghost predicate Holds(v: View, cs: seq<Constraint>, operands: seq<Operand>, other: (int, int) -> bool, j: int, k: int)
    requires |operands| == |cs| && 0 <= j < |cs| && 0 <= k < |v.a|
  {
    if IsComparison(cs[j].op)
    then SqlCompares(Subject(v, cs[j], k), cs[j].op, operands[j])
    else other(j, k)
  }

  /** The rows of the WHERE clause among the rows of s. */
  ghost function Keep(s: seq<int>, p: int -> bool): (r: seq<int>) {
    if s == [] then [] else (if p(s[0]) then [s[0]] else []) + Keep(s[1..], p)
  }

  ghost function AllRows(n: nat): (s: seq<int>)
    ensures |s| == n && forall k :: 0 <= k < n ==> s[k] == k
  {
    seq(n, i => i)
  }

  ghost predicate SatisfiesAll(v: View, cs: seq<Constraint>, operands: seq<Operand>, other: (int, int) -> bool, k: int)
    requires |operands| == |cs|
  {
    0 <= k < |v.a| && forall j :: 0 <= j < |cs| ==> Holds(v, cs, operands, other, j, k)
  }

  /** SQLite evaluates every constraint the plan did not mark `omit`. */
  ghost predicate SatisfiesRest(v: View, cs: seq<Constraint>, operands: seq<Operand>, other: (int, int) -> bool, k: int)
    requires |operands| == |cs|
  {
    0 <= k < |v.a| && forall j :: 0 <= j < |cs| && !UsageOf(cs, j).omit ==> Holds(v, cs, operands, other, j, k)
  }

  /** The consumed constraint j is translated exactly as far as row k is concerned. */
  predicate FaithfulRow(v: View, cs: seq<Constraint>, operands: seq<Operand>, j: int, k: int)
    requires |operands| == |cs| && 0 <= j < |cs| && 0 <= k < |v.a|
  {
    FaithfulAt(Subject(v, cs[j], k), Opbit(cs[j].op), operands[j])
  }

  ghost predicate FaithfulPlan(v: View, cs: seq<Constraint>, operands: seq<Operand>)
    requires |operands| == |cs|
  {
    forall j, k :: 0 <= j < |cs| && 0 <= k < |v.a| && UsageOf(cs, j).omit ==> FaithfulRow(v, cs, operands, j, k)
  }

  lemma ChosenAreComparisons(cs: seq<Constraint>)
    requires forall j :: 0 <= j < |cs| && cs[j].usable ==> IsSqliteOp(cs[j].op)
    ensures var p := Choose(cs);
            && (p.first >= 0 ==> cs[p.first].usable && IsComparison(cs[p.first].op)
                                 && (cs[p.first].iColumn < 0 <==> p.mode == 1))
            && (p.second >= 0 ==> cs[p.second].usable && IsComparison(cs[p.second].op)
                                  && (cs[p.second].iColumn < 0 <==> p.mode == 1))
  {
    var p := Choose(cs);
    if p.first >= 0 {
      assert !IsStrange(cs[p.first]);
      StrangeOps(cs[p.first].op);
    }
    if p.second >= 0 {
      assert !IsStrange(cs[p.second]);
      StrangeOps(cs[p.second].op);
    }
  }

  lemma PlanDecodes(cs: seq<Constraint>)
    requires forall j :: 0 <= j < |cs| && cs[j].usable ==> IsSqliteOp(cs[j].op)
    ensures var p := Choose(cs); var x := IdxNum(cs);
            && IsIdxNum(x) && ModeOf(x) == p.mode
            && Op1Of(x) == OpAt(cs, p.first) && Op2Of(x) == OpAt(cs, p.second)
  {
    ChosenAreComparisons(cs);
    var p := Choose(cs);
    EncodeRoundTrip(p.mode, OpAt(cs, p.first), OpAt(cs, p.second));
  }

  lemma ConstrainMode(op: bv8, v: Operand, b: Bounds)
    ensures Constrain(op, v, b).mode == b.mode || Constrain(op, v, b).mode == ZEROSET
  {
  }

  lemma FilterMode(idxNum: bv8, argv: seq<Operand>)
    requires IsIdxNum(idxNum)
    ensures IsSearch(FilterBounds(idxNum, argv))
    ensures FilterBounds(idxNum, argv).mode in {ModeInt(ModeOf(idxNum)), ZEROSET}
    ensures ModeOf(idxNum) == 0 ==> FilterBounds(idxNum, argv) == Fresh(idxNum)
  {
    var b0 := Fresh(idxNum);
    if b0.mode > 0 {
      var b1 := if |argv| > 0 && Op1Of(idxNum) != 0 then Constrain(Op1Of(idxNum), argv[0], b0) else b0;
      if |argv| > 0 { ConstrainMode(Op1Of(idxNum), argv[0], b0); }
      if |argv| > 1 { ConstrainMode(Op2Of(idxNum), argv[1], b1); }
    }
  }

  predicate FilterAdmits(op1: bv8, op2: bv8, argv: seq<Operand>, x: int)
    requires |argv| >= 1 && (op2 != 0 ==> |argv| >= 2)
  {
    Admitted(x, op1, argv[0]) && (op2 != 0 ==> Admitted(x, op2, argv[1]))
  }

  lemma FilterInterval(idxNum: bv8, argv: seq<Operand>, x: int64)
    requires IsIdxNum(idxNum) && ModeOf(idxNum) != 0
    requires |argv| >= 1 && (Op2Of(idxNum) != 0 ==> |argv| >= 2)
    ensures Admits(FilterBounds(idxNum, argv), x) <==> FilterAdmits(Op1Of(idxNum), Op2Of(idxNum), argv, x)
  {
    var op1, op2 := Op1Of(idxNum), Op2Of(idxNum);
    var b0 := Fresh(idxNum);
    var b1 := Constrain(op1, argv[0], b0);
    ConstrainMode(op1, argv[0], b0);
    ConstrainMeaning(op1, argv[0], b0, x);
    assert Admits(b1, x) <==> Admitted(x, op1, argv[0]);
    if op2 != 0 {
      ConstrainMeaning(op2, argv[1], b1, x);
      assert Admits(Constrain(op2, argv[1], b1), x) <==> FilterAdmits(op1, op2, argv, x);
    }
    assert FilterBounds(idxNum, argv) == if b1.mode > 0 && op2 != 0 then Constrain(op2, argv[1], b1) else b1;
  }

  /** What xFilter's interval selects, operator by operator. */
  lemma FilterMeaning(v: View, idxNum: bv8, argv: seq<Operand>, k: int)
    requires IsIdxNum(idxNum) && 0 <= k < |v.a| && k <= INT32_MAX
    requires (ModeOf(idxNum) != 0 ==> |argv| >= 1) && (Op2Of(idxNum) != 0 ==> |argv| >= 2)
    ensures Selects(v, FilterBounds(idxNum, argv), k) <==>
            ModeOf(idxNum) == 0 ||
            FilterAdmits(Op1Of(idxNum), Op2Of(idxNum), argv, if ModeOf(idxNum) == 1 then k else v.a[k])
  {
    FilterMode(idxNum, argv);
    if ModeOf(idxNum) != 0 {
      FilterInterval(idxNum, argv, if ModeOf(idxNum) == 1 then k else v.a[k]);
    }
  }

  /** One row: it is wanted by the cursor and passes the re-check iff it satisfies every constraint. */
  lemma PlanRow(v: View, cs: seq<Constraint>, operands: seq<Operand>, other: (int, int) -> bool, k: int)
    requires |operands| == |cs| && Truthful(v) && 0 <= k < |v.a|
    requires forall j :: 0 <= j < |cs| && cs[j].usable ==> IsSqliteOp(cs[j].op)
    requires FaithfulPlan(v, cs, operands)
    ensures SatisfiesAll(v, cs, operands, other, k) <==>
            Selects(v, FilterBounds(IdxNum(cs), Argv(cs, operands)), k) && SatisfiesRest(v, cs, operands, other, k)
  {
    hide Admitted, Compares, SqlCompares, FaithfulAt, FilterBounds, Constrain;
    ChosenAreComparisons(cs);
    PlanDecodes(cs);
    FilterMeaning(v, IdxNum(cs), Argv(cs, operands), k);
    var p := Choose(cs);
    if p.first >= 0 {
      assert UsageOf(cs, p.first).omit;
      var x: int := if p.mode == 1 then k else v.a[k];
      assert FaithfulRow(v, cs, operands, p.first, k);
      OpbitMeaning(x, cs[p.first].op, operands[p.first]);
      FaithfulAtIsExact(OpAt(cs, p.first), operands[p.first], x);
      assert Admitted(x, OpAt(cs, p.first), operands[p.first]) <==> Holds(v, cs, operands, other, p.first, k);
      if p.second >= 0 {
        assert UsageOf(cs, p.second).omit;
        assert FaithfulRow(v, cs, operands, p.second, k);
        OpbitMeaning(x, cs[p.second].op, operands[p.second]);
        FaithfulAtIsExact(OpAt(cs, p.second), operands[p.second], x);
        assert Admitted(x, OpAt(cs, p.second), operands[p.second]) <==> Holds(v, cs, operands, other, p.second, k);
      }
    }
    assert forall j :: 0 <= j < |cs| && UsageOf(cs, j).omit ==> j == p.first || j == p.second;
  }

  lemma {:induction false} KeepWanted(v: View, b: Bounds, lo: nat, p: int -> bool, q: int -> bool)
    requires lo <= |v.a|
    requires forall k :: lo <= k < |v.a| ==> (q(k) <==> Selects(v, b, k) && p(k))
    ensures Keep(Wanted(v, b, lo), p) == Keep(AllRows(|v.a|)[lo..], q)
    decreases |v.a| - lo
  {
    var all := AllRows(|v.a|);
    if lo < |v.a| {
      KeepWanted(v, b, lo + 1, p, q);
      assert all[lo..] == [lo] + all[lo + 1..];
      var w := Wanted(v, b, lo);
      var rest := Wanted(v, b, lo + 1);
      if Selects(v, b, lo) {
        assert w == [lo] + rest && w[1..] == rest;
      } else {
        assert w == rest;
      }
    }
  }

  ghost predicate Exact(v: View, cs: seq<Constraint>, operands: seq<Operand>, other: (int, int) -> bool)
    requires |operands| == |cs|
  {
    Keep(Scanned(v, FilterBounds(IdxNum(cs), Argv(cs, operands))), k => SatisfiesRest(v, cs, operands, other, k))
    == Keep(AllRows(|v.a|), k => SatisfiesAll(v, cs, operands, other, k))
  }

  /** The plan preserves the meaning of the query: for every list of constraints, the rows the cursor
      visits for the chosen idxNum and argv, re-filtered by the constraints not marked `omit`, are
      exactly the rows that satisfy all constraints, in index order. */
  lemma PlanPreservesMeaning(v: View, cs: seq<Constraint>, operands: seq<Operand>, other: (int, int) -> bool)
    requires |operands| == |cs| && Truthful(v)
    requires forall j :: 0 <= j < |cs| && cs[j].usable ==> IsSqliteOp(cs[j].op)
    requires FaithfulPlan(v, cs, operands)
    requires StartsRight(v, FilterBounds(IdxNum(cs), Argv(cs, operands)))
    ensures Exact(v, cs, operands, other)
  {
    var b := FilterBounds(IdxNum(cs), Argv(cs, operands));
    forall k | 0 <= k < |v.a|
      ensures SatisfiesAll(v, cs, operands, other, k) <==> Selects(v, b, k) && SatisfiesRest(v, cs, operands, other, k)
    {
      PlanRow(v, cs, operands, other, k);
    }
    PlanDecodes(cs);
    FilterMode(IdxNum(cs), Argv(cs, operands));
    CursorExact(v, b);
    KeepWanted(v, b, 0, k => SatisfiesRest(v, cs, operands, other, k), k => SatisfiesAll(v, cs, operands, other, k));
    assert AllRows(|v.a|)[0..] == AllRows(|v.a|);
  }
}
