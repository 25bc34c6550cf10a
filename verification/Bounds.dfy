/** How intarray.c turns one SQL comparison into the cursor's [min, max] interval:
    intarrayBoundary and intarrayConstrainCursor, and when that translation is exact. */
module Bounds {
  import opened CInts

  /** An SQL value as xFilter receives it. */
  datatype Operand = Integer(i: int64) | Real(r: real) | Text | Null | Blob

  // Comparison bits packed into idxNum.
  const UPPER: bv8 := 1
  const EQ: bv8 := 2
  const LOWER: bv8 := 4

  /** The bit patterns intarrayOpbit produces: <, =, <=, >, >=. */
  predicate IsOp(op: bv8) { op == UPPER || op == EQ || op == EQ | UPPER || op == LOWER || op == EQ | LOWER }

  /** SQL semantics of "x op v" for an integer x. Numbers sort before texts and blobs; a
      comparison with NULL is never true. */
  predicate Compares(x: int, op: bv8, v: Operand) {
    match v
    case Integer(i) =>
      (op & EQ != 0 && x == i) || (op & UPPER != 0 && x < i) || (op & LOWER != 0 && x > i)
    case Real(r) =>
      (op & EQ != 0 && x as real == r) || (op & UPPER != 0 && x as real < r) || (op & LOWER != 0 && x as real > r)
    case Text => op & UPPER != 0
    case Blob => op & UPPER != 0
    case Null => false
  }

  // ---------------------------------------------------------------- the interval

  const SCAN := 0
  const ROWID := 1
  const VALUE := 2
  const ZEROSET := -1

  /** The search parameters of intarray_cursor. */
  datatype Bounds = Bounds(mode: int, hasMin: bool, min: int64, hasMax: bool, max: int64)

  predicate Admits(b: Bounds, x: int) {
    b.mode != ZEROSET && (b.hasMin ==> b.min <= x) && (b.hasMax ==> x <= b.max)
  }

  function WithMax(b: Bounds, val: int64, exclusive: bool): Bounds {
    var v: int64 := if exclusive && val > INT64_MIN then val - 1 else val;
    if !b.hasMax || b.max > v then b.(hasMax := true, max := v) else b
  }

  function WithMin(b: Bounds, val: int64, exclusive: bool): Bounds {
    var v: int64 := if exclusive && val < INT64_MAX then val + 1 else val;
    if !b.hasMin || b.min < v then b.(hasMin := true, min := v) else b
  }

  function Boundary(op: bv8, b: Bounds, intValue: int64, exactInt: bool): Bounds {
    if op & LOWER != 0 then WithMin(b, intValue, exactInt && op & EQ == 0)
    else if op & UPPER != 0 then WithMax(b, intValue, exactInt && op & EQ == 0)
    else if op & EQ != 0 then
      if !exactInt then b.(mode := ZEROSET)
      else WithMax(WithMin(b, intValue, false), intValue, false)
    else b
  }

  function Floor(r: real): (f: int)
    ensures f as real <= r < f as real + 1.0
  {
    r.Floor
  }

  function Ceil(r: real): (c: int)
    ensures c as real - 1.0 < r <= c as real
  {
    -((-r).Floor)
  }

  function Truncate(r: real): (t: int)
    ensures r >= 0.0 ==> t == Floor(r)
    ensures r < 0.0 ==> t == Ceil(r)
  {
    if r >= 0.0 then Floor(r) else Ceil(r)
  }

  const TWO63: real := 9223372036854775808.0

  /** (sqlite3_int64) of an integral double. Out of range the C cast is undefined; this is
      the x86-64 result. */
  function CastToInt64(t: int): int64 {
    if INT64_MIN <= t <= INT64_MAX then t else INT64_MIN
  }

  function Constrain(op: bv8, v: Operand, b: Bounds): Bounds {
    match v
    case Text => if op & UPPER == 0 then b.(mode := ZEROSET) else b
    case Real(r) =>
      if r > TWO63 then
        if op & UPPER == 0 || op & LOWER != 0 then b.(mode := ZEROSET) else b
      else if r < -TWO63 then
        if op & LOWER == 0 || op & UPPER != 0 then b.(mode := ZEROSET) else b
      else
        var intValue :=
          CastToInt64(if op & LOWER != 0 then Ceil(r) else if op & UPPER != 0 then Floor(r) else Truncate(r));
        Boundary(op, b, intValue, intValue as real == r)
    case Integer(i) => Boundary(op, b, i, true)
    case Null => b.(mode := ZEROSET)
    case Blob => b.(mode := ZEROSET)
  }

  // ---------------------------------------------------------------- what it means

  /** The operands for which the interval means the SQL comparison. The others: a strict bound at
      the end of the int64 range, a real at or just below 2^63, and a blob used as an upper bound. */
  predicate Faithful(op: bv8, v: Operand) {
    match v
    case Integer(i) => !(op == LOWER && i == INT64_MAX) && !(op == UPPER && i == INT64_MIN)
    case Real(r) =>
      && (op & LOWER != 0 ==> !(TWO63 - 1.0 < r <= TWO63))
      && (op == LOWER ==> r != TWO63 - 1.0)
      && (op & UPPER != 0 ==> r != TWO63)
      && (op == UPPER ==> r != -TWO63)
    case Blob => op & UPPER == 0
    case Text => true
    case Null => true
  }

  /** The same for a single integer: at x the interval and the comparison agree. */
  predicate FaithfulAt(x: int, op: bv8, v: Operand) {
    match v
    case Integer(i) => !(op == LOWER && i == INT64_MAX && x == i) && !(op == UPPER && i == INT64_MIN && x == i)
    case Real(r) =>
      && (op & LOWER != 0 ==> !(TWO63 - 1.0 < r <= TWO63))
      && !(op == LOWER && r == TWO63 - 1.0 && x == INT64_MAX)
      && (op & UPPER != 0 && r == TWO63 ==> x == INT64_MIN)
      && !(op == UPPER && r == -TWO63 && x == INT64_MIN)
    case Blob => op & UPPER == 0
    case Text => true
    case Null => true
  }

  /** Exactly the integers one constraint lets through. */
  predicate Admitted(x: int, op: bv8, v: Operand) {
    if Faithful(op, v) then Compares(x, op, v)
    else match v
      case Integer(i) => if op == LOWER then x == INT64_MAX else x == INT64_MIN
      case Real(r) =>
        if op & LOWER != 0 then (r == TWO63 - 1.0 ==> x == INT64_MAX)
        else x == INT64_MIN
      case Blob => false
      case Text => false
      case Null => false
  }

  lemma BoundaryMeaning(op: bv8, b: Bounds, intValue: int64, exactInt: bool, x: int64)
    requires IsOp(op)
    ensures Admits(Boundary(op, b, intValue, exactInt), x) <==>
            Admits(b, x) &&
            if op & LOWER != 0 then
              x >= intValue && (exactInt && op & EQ == 0 && intValue < INT64_MAX ==> x != intValue)
            else if op & UPPER != 0 then
              x <= intValue && (exactInt && op & EQ == 0 && intValue > INT64_MIN ==> x != intValue)
            else exactInt && x == intValue
  {
  }

  /** Adding a constraint to any interval intersects it with the constraint's own set. */
  lemma ConstrainMeaning(op: bv8, v: Operand, b: Bounds, x: int64)
    requires IsOp(op)
    ensures Admits(Constrain(op, v, b), x) <==> Admits(b, x) && Admitted(x, op, v)
  {
    match v
    case Integer(i) => BoundaryMeaning(op, b, i, true, x);
    case Real(r) =>
      if -TWO63 <= r <= TWO63 {
        var t := if op & LOWER != 0 then Ceil(r) else if op & UPPER != 0 then Floor(r) else Truncate(r);
        var intValue := CastToInt64(t);
        BoundaryMeaning(op, b, intValue, intValue as real == r, x);
      }
    case Text =>
    case Null =>
    case Blob =>
  }

  lemma FaithfulAtIsExact(op: bv8, v: Operand, x: int64)
    requires IsOp(op)
    ensures (Admitted(x, op, v) <==> Compares(x, op, v)) <==> FaithfulAt(x, op, v)
  {
    match v
    case Real(r) =>
    case _ =>
  }

  /** The translation of one comparison is exact if and only if its operand is faithful. */
  lemma FaithfulIsExact(op: bv8, v: Operand)
    requires IsOp(op)
    ensures (forall x: int64 :: Admitted(x, op, v) <==> Compares(x, op, v)) <==> Faithful(op, v)
  {
    if !Faithful(op, v) {
      var x: int64 := match v
        case Integer(i) => i
        case Real(r) => if op & LOWER != 0 || r == TWO63 then INT64_MAX else INT64_MIN
        case _ => 0;
      assert !(Admitted(x, op, v) <==> Compares(x, op, v));
    }
  }
}
