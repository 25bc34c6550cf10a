/** The table of integer arrays by name: open addressing with linear probing and tombstones. */
module NameTable {
  import opened Names
  import opened Ring
  import opened Wrappers

  /** A sqlite3_intarray as the table sees it. */
  datatype ArrayRef = ArrayRef(id: nat, zName: Name)

  datatype Cell = Cell(key: Option<Name>, hash: bv32, value: Option<ArrayRef>) {
    predicate Live() { key.Some? }
    predicate Deleted() { key.None? && hash == DELETED }
    predicate Empty() { key.None? && hash != DELETED }
  }

  const EMPTY := Cell(None, 0, None)
  const TOMBSTONE := Cell(None, DELETED, None)

  function Entry(a: ArrayRef): Cell { Cell(Some(a.zName), StrHash(a.zName), Some(a)) }

  datatype Rc = OK | DUPLICATE_NAME | INTERNAL_ERROR | NOMEM

  // ---------------------------------------------------------------- probe paths

  function Home(hash: bv32, n: nat): (h: nat)
    requires n > 0
    ensures h < n
  {
    (hash as int) % n
  }

  // ---------------------------------------------------------------- well-formed tables

  predicate WellFormed(t: seq<Cell>) {
    forall p :: 0 <= p < |t| && t[p].Live() ==> t[p].value.Some? && t[p] == Entry(t[p].value.value)
  }

  /** No empty cell interrupts the path from a live cell's home to the cell. */
  ghost predicate Chained(t: seq<Cell>)
    requires |t| > 0
  {
    forall p, e :: 0 <= p < |t| && t[p].Live() && 0 <= e < Dist(Home(t[p].hash, |t|), p, |t|) ==>
      !t[At(Home(t[p].hash, |t|), e, |t|)].Empty()
  }

  /** Live names are pairwise distinct, ignoring case. */
  ghost predicate DistinctNames(t: seq<Cell>) {
    forall p, q :: 0 <= p < q < |t| && t[p].Live() && t[q].Live() ==> !Same(t[p].key.value, t[q].key.value)
  }

  ghost predicate Good(t: seq<Cell>) {
    |t| > 0 && WellFormed(t) && Chained(t) && DistinctNames(t)
  }

  function LiveCount(t: seq<Cell>): nat {
    if t == [] then 0 else LiveCount(t[..|t| - 1]) + (if t[|t| - 1].Live() then 1 else 0)
  }

  predicate Matches(t: seq<Cell>, p: int, name: Name)
    requires 0 <= p < |t|
  {
    t[p].Live() && Same(t[p].key.value, name)
  }

  ghost predicate Contains(t: seq<Cell>, name: Name) { exists p :: 0 <= p < |t| && Matches(t, p, name) }

  ghost predicate Named(t: seq<Cell>, f: Name) { exists p :: 0 <= p < |t| && t[p].Live() && Fold(t[p].key.value) == f }

  /** The table stands for a map from folded names to arrays. */
  ghost predicate Represents(t: seq<Cell>, names: map<Name, ArrayRef>)
    requires WellFormed(t)
  {
    && (forall p :: 0 <= p < |t| && t[p].Live() ==>
          Fold(t[p].key.value) in names && names[Fold(t[p].key.value)] == t[p].value.value)
    && (forall f :: f in names ==> Named(t, f))
  }

  lemma {:induction false} CountUpdate(t: seq<Cell>, p: nat, c: Cell)
    requires p < |t|
    ensures LiveCount(t[p := c]) == LiveCount(t) - (if t[p].Live() then 1 else 0) + (if c.Live() then 1 else 0)
  {
    var n := |t| - 1;
    if p == n {
      assert t[p := c][..n] == t[..n];
    } else {
      assert t[p := c][..n] == t[..n][p := c];
      CountUpdate(t[..n], p, c);
    }
  }

  lemma {:induction false} CountAll(t: seq<Cell>)
    ensures LiveCount(t) <= |t|
    ensures LiveCount(t) == |t| <==> forall p :: 0 <= p < |t| ==> t[p].Live()
  {
    if t != [] {
      var n := |t| - 1;
      CountAll(t[..n]);
      assert forall p :: 0 <= p < n ==> t[..n][p] == t[p];
      if forall p :: 0 <= p < n ==> t[..n][p].Live() {
        assert forall p :: 0 <= p < n ==> t[p].Live();
      }
    }
  }

  lemma {:induction false} CountNone(t: seq<Cell>)
    requires forall p :: 0 <= p < |t| ==> !t[p].Live()
    ensures LiveCount(t) == 0
  {
    if t != [] { CountNone(t[..|t| - 1]); }
  }

  lemma GoodFacts(t: seq<Cell>, i: nat)
    requires Good(t)
    ensures |t| > 0 && WellFormed(t) && DistinctNames(t)
    ensures i < |t| && t[i].Live() ==> t[i].value.Some? && t[i] == Entry(t[i].value.value)
  {
  }

  // ---------------------------------------------------------------- looking up

  /** The first steps cells of the probe path for a name do not hold it. */
  ghost predicate Passed(t: seq<Cell>, name: Name, steps: nat)
    requires |t| > 0 && steps <= |t|
  {
    forall e :: 0 <= e < steps ==> !Matches(t, At(Home(StrHash(name), |t|), e, |t|), name)
  }

  lemma OnPath(t: seq<Cell>, p: int, name: Name)
    requires Good(t) && 0 <= p < |t| && Matches(t, p, name)
    ensures var h := Home(StrHash(name), |t|); var d := Dist(h, p, |t|);
            && Matches(t, At(h, d, |t|), name)
            && forall e :: 0 <= e < d ==> !t[At(h, e, |t|)].Empty()
  {
    SameHash(t[p].key.value, name);
  }

  /** A probe that reaches an empty cell, or the end of the path, has seen every place the name could be. */
  lemma NotThere(t: seq<Cell>, name: Name, steps: nat)
    requires Good(t) && steps <= |t| && Passed(t, name, steps)
    requires steps < |t| ==> t[At(Home(StrHash(name), |t|), steps, |t|)].Empty()
    ensures !Contains(t, name)
  {
    forall p | 0 <= p < |t| && Matches(t, p, name)
      ensures false
    {
      OnPath(t, p, name);
    }
  }

  /** The test the code applies to a cell: hashes first, names only when they agree. */
  lemma TestIsMatch(t: seq<Cell>, p: int, name: Name)
    requires Good(t) && 0 <= p < |t|
    ensures StrHash(name) == t[p].hash && (t[p].Live() || t[p].Deleted()) ==> t[p].key.Some?
    ensures t[p].Live() ==>
              (StrHash(name) == t[p].hash && Same(t[p].key.value, name) <==> Matches(t, p, name))
  {
    if Matches(t, p, name) { SameHash(t[p].key.value, name); }
  }

  /** intarrayMapFind: the live entry of that name, ignoring case, or nothing. */
  method Find(t: array<Cell>, zName: Name) returns (r: Option<ArrayRef>)
    requires Good(t[..])
    ensures r.None? <==> !Contains(t[..], zName)
    ensures r.Some? ==> exists p :: 0 <= p < t.Length && Matches(t[..], p, zName) && t[p].value == r
  {
    hide Good, StrHash, Same, Home;
    GoodFacts(t[..], 0);
    var size := t.Length;
    var hash := ComputeHash(zName);
    var i := Home(hash, size);
    var j := size;
    while (t[i].key.Some? || t[i].hash == DELETED) && j > 0
      invariant 0 <= j <= size
      invariant j > 0 ==> i == At(Home(hash, size), size - j, size)
      invariant j == 0 ==> i == Home(hash, size)
      invariant Passed(t[..], zName, size - j)
    {
      TestIsMatch(t[..], i, zName);
      if hash == t[i].hash && Same(t[i].key.value, zName) {
        GoodFacts(t[..], i);
        return t[i].value;
      }
      NextCell(i, size);
      i := (i + 1) % size;
      j := j - 1;
    }
    NotThere(t[..], zName, size - j);
    return None;
  }

  // ---------------------------------------------------------------- inserting

  /** Filling a free cell that ends a path of occupied cells keeps the table good. */
  lemma Inserted(t: seq<Cell>, a: ArrayRef, d: nat)
    requires Good(t) && d < |t| && !Contains(t, a.zName)
    requires forall e :: 0 <= e < d ==> t[At(Home(StrHash(a.zName), |t|), e, |t|)].Live()
    requires !t[At(Home(StrHash(a.zName), |t|), d, |t|)].Live()
    ensures FirstFree(t, a.zName, d)
    ensures var p := At(Home(StrHash(a.zName), |t|), d, |t|);
            Good(t[p := Entry(a)]) && LiveCount(t[p := Entry(a)]) == LiveCount(t) + 1
  {
    var h := Home(StrHash(a.zName), |t|);
    var p := At(h, d, |t|);
    var u := t[p := Entry(a)];
    CountUpdate(t, p, Entry(a));
    assert Dist(h, p, |t|) == d;
    forall q, e | 0 <= q < |u| && u[q].Live() && 0 <= e < Dist(Home(u[q].hash, |u|), q, |u|)
      ensures !u[At(Home(u[q].hash, |u|), e, |u|)].Empty()
    {
      if q != p { assert !t[At(Home(t[q].hash, |t|), e, |t|)].Empty(); }
    }
    forall q | 0 <= q < |t| && q != p && t[q].Live()
      ensures !Same(t[q].key.value, a.zName)
    {
      assert !Matches(t, q, a.zName);
    }
  }

  lemma FullPath(t: seq<Cell>, h: nat)
    requires h < |t| && forall e :: 0 <= e < |t| ==> t[At(h, e, |t|)].Live()
    ensures LiveCount(t) == |t|
  {
    forall p | 0 <= p < |t| ensures t[p].Live() {
      assert At(h, Dist(h, p, |t|), |t|) == p;
    }
    CountAll(t);
  }

  /** The first free cell on the probe path of a name; it is d steps from its home. */
  ghost predicate FirstFree(t: seq<Cell>, name: Name, d: nat)
    requires |t| > 0 && d < |t|
  {
    && (forall e :: 0 <= e < d ==> t[At(Home(StrHash(name), |t|), e, |t|)].Live())
    && !t[At(Home(StrHash(name), |t|), d, |t|)].Live()
  }

  /** The first loop of mapPut_: along occupied cells, up to the first cell without a key, or all the way round. */
  method ProbeKeys(t: array<Cell>, zName: Name, hash: bv32) returns (duplicate: bool, i: nat, j: nat)
    requires Good(t[..]) && hash == StrHash(zName)
    ensures duplicate ==> Contains(t[..], zName)
    ensures !duplicate ==> 0 <= j <= t.Length && i < t.Length && (t[i].Live() <==> j == 0)
    ensures !duplicate && j == 0 ==> !Contains(t[..], zName) && LiveCount(t[..]) == t.Length
    ensures !duplicate && j > 0 ==> i == At(Home(hash, t.Length), t.Length - j, t.Length)
    ensures !duplicate && j > 0 ==> Passed(t[..], zName, t.Length - j) && FirstFree(t[..], zName, t.Length - j)
  {
    hide Good, LiveCount, StrHash, Same, Home;
    GoodFacts(t[..], 0);
    var size := t.Length;
    ghost var h := Home(hash, size);
    i := Home(hash, size);
    j := size;
    while t[i].key.Some? && j > 0
      invariant 0 <= j <= size
      invariant i == if j > 0 then At(h, size - j, size) else h
      invariant forall e :: 0 <= e < size - j ==> t[..][At(h, e, size)].Live()
      invariant Passed(t[..], zName, size - j)
    {
      TestIsMatch(t[..], i, zName);
      if hash == t[i].hash && Same(t[i].key.value, zName) {
        return true, i, j;
      }
      NextCell(i, size);
      i := (i + 1) % size;
      j := j - 1;
    }
    if j == 0 {
      FullPath(t[..], h);
      NotThere(t[..], zName, size);
      assert t[..][At(h, 0, size)].Live();
    }
    duplicate := false;
  }

  /** The second loop of mapPut_, taken behind a tombstone: past all occupied cells and tombstones. */
  method ProbeTrail(t: array<Cell>, zName: Name, hash: bv32, k0: nat, j0: nat) returns (duplicate: bool)
    requires Good(t[..]) && hash == StrHash(zName)
    requires 0 <= j0 < t.Length
    requires k0 == if j0 > 0 then At(Home(hash, t.Length), t.Length - j0, t.Length) else Home(hash, t.Length)
    requires Passed(t[..], zName, t.Length - j0)
    ensures duplicate <==> Contains(t[..], zName)
  {
    hide Good, StrHash, Same, Home;
    var size := t.Length;
    ghost var h := Home(hash, size);
    var k, j := k0, j0;
    while (t[k].key.Some? || t[k].hash == DELETED) && j > 0
      invariant 0 <= j < size
      invariant k == if j > 0 then At(h, size - j, size) else h
      invariant Passed(t[..], zName, size - j)
    {
      TestIsMatch(t[..], k, zName);
      if hash == t[k].hash && Same(t[k].key.value, zName) {
        return true;
      }
      NextCell(k, size);
      k := (k + 1) % size;
      j := j - 1;
    }
    NotThere(t[..], zName, size - j);
    return false;
  }

  lemma FreeIsNotFull(t: seq<Cell>, i: nat)
    requires i < |t| && !t[i].Live()
    ensures LiveCount(t) < |t|
  {
    CountAll(t);
  }

  /** mapPut_: the new entry takes the first cell without a key on its probe path. A name that is already there
      is found even when its entry lies beyond a tombstone; only a table full of other names is an internal error. */
  method PutCell(t: array<Cell>, a: ArrayRef, hash: bv32) returns (rc: Rc, ghost d: nat)
    requires Good(t[..]) && hash == StrHash(a.zName)
    modifies t
    ensures rc == if old(Contains(t[..], a.zName)) then DUPLICATE_NAME
                  else if old(LiveCount(t[..])) == t.Length then INTERNAL_ERROR else OK
    ensures rc != OK ==> t[..] == old(t[..])
    ensures rc == OK ==> d < t.Length && FirstFree(old(t[..]), a.zName, d)
    ensures rc == OK ==> t[..] == old(t[..])[At(Home(hash, t.Length), d, t.Length) := Entry(a)]
    ensures rc == OK ==> Good(t[..]) && LiveCount(t[..]) == LiveCount(old(t[..])) + 1
  {
    hide Good, LiveCount, StrHash, Contains, Home;
    var size := t.Length;
    d := 0;
    var duplicate, i, j := ProbeKeys(t, a.zName, hash);
    if duplicate { return DUPLICATE_NAME, d; }
    if t[i].key.Some? { return INTERNAL_ERROR, d; }
    d := size - j;
    FreeIsNotFull(t[..], i);
    if t[i].hash == DELETED {
      NextCell(i, size);
      assert Passed(t[..], a.zName, d + 1);
      duplicate := ProbeTrail(t, a.zName, hash, (i + 1) % size, j - 1);
      if duplicate { return DUPLICATE_NAME, d; }
    } else {
      NotThere(t[..], a.zName, d);
    }
    Inserted(t[..], a, d);
    t[i] := Cell(Some(a.zName), hash, Some(a));
    rc := OK;
  }

  // ---------------------------------------------------------------- removing

  /** Some tombstone lies between the home of a name and its entry. */
  ghost predicate Blocked(t: seq<Cell>, name: Name)
    requires |t| > 0
  {
    exists p, e :: 0 <= p < |t| && Matches(t, p, name) && 0 <= e < Dist(Home(StrHash(name), |t|), p, |t|) &&
                   t[At(Home(StrHash(name), |t|), e, |t|)].Deleted()
  }

  /** Turning the entry at p into a tombstone. */
  lemma Removed(t: seq<Cell>, p: nat)
    requires Good(t) && p < |t| && t[p].Live()
    ensures Good(t[p := TOMBSTONE]) && LiveCount(t[p := TOMBSTONE]) == LiveCount(t) - 1
  {
    var u := t[p := TOMBSTONE];
    CountUpdate(t, p, TOMBSTONE);
    forall q, e | 0 <= q < |u| && u[q].Live() && 0 <= e < Dist(Home(u[q].hash, |u|), q, |u|)
      ensures !u[At(Home(u[q].hash, |u|), e, |u|)].Empty()
    {
      assert !t[At(Home(t[q].hash, |t|), e, |t|)].Empty();
    }
  }

  /** A walk over live cells only stops at a cell without a key. If the name is in the table after all, that cell
      is a tombstone in front of it. */
  lemma StoppedShort(t: seq<Cell>, name: Name, d: nat)
    requires Good(t) && d < |t| && FirstFree(t, name, d) && Passed(t, name, d)
    ensures Contains(t, name) ==> Blocked(t, name)
  {
    if p :| 0 <= p < |t| && Matches(t, p, name) {
      OnPath(t, p, name);
      var h := Home(StrHash(name), |t|);
      assert !t[At(h, d, |t|)].Live();
      assert d < Dist(h, p, |t|);
      assert t[At(h, d, |t|)].Deleted();
    }
  }

  /** Only one cell can hold a name, and a live path to it has no tombstone. */
  lemma NotBlocked(t: seq<Cell>, name: Name, d: nat)
    requires Good(t) && d < |t| && Matches(t, At(Home(StrHash(name), |t|), d, |t|), name)
    requires forall e :: 0 <= e < d ==> t[At(Home(StrHash(name), |t|), e, |t|)].Live()
    ensures !Blocked(t, name)
  {
    var h := Home(StrHash(name), |t|);
    var p := At(h, d, |t|);
    assert Dist(h, p, |t|) == d;
    forall q | 0 <= q < |t| && Matches(t, q, name) ensures q == p { }
  }

  /** An entry that has just been put can be removed again, as sqlite3_intarray_create does when it fails later. */
  lemma JustPutIsNotBlocked(t: seq<Cell>, a: ArrayRef, d: nat)
    requires Good(t) && d < |t| && !Contains(t, a.zName) && FirstFree(t, a.zName, d)
    ensures !Blocked(t[At(Home(StrHash(a.zName), |t|), d, |t|) := Entry(a)], a.zName)
  {
    var h := Home(StrHash(a.zName), |t|);
    var u := t[At(h, d, |t|) := Entry(a)];
    Inserted(t, a, d);
    assert forall e :: 0 <= e < d ==> u[At(h, e, |u|)] == t[At(h, e, |t|)];
    NotBlocked(u, a.zName, d);
  }

  // ---------------------------------------------------------------- the map of names

  lemma RepresentsInsert(t: seq<Cell>, names: map<Name, ArrayRef>, p: nat, a: ArrayRef)
    requires WellFormed(t) && Represents(t, names) && p < |t| && !t[p].Live() && !Contains(t, a.zName)
    ensures WellFormed(t[p := Entry(a)]) && Represents(t[p := Entry(a)], names[Fold(a.zName) := a])
  {
    var u := t[p := Entry(a)];
    forall q | 0 <= q < |t| && t[q].Live()
      ensures u[q] == t[q] && Fold(t[q].key.value) != Fold(a.zName)
    {
      assert !Matches(t, q, a.zName);
    }
    assert u[p].Live() && Fold(u[p].key.value) == Fold(a.zName);
    forall f | f in names
      ensures Named(u, f)
    {
      var q :| 0 <= q < |t| && t[q].Live() && Fold(t[q].key.value) == f;
      assert u[q].Live();
    }
  }

  lemma RepresentsRemove(t: seq<Cell>, names: map<Name, ArrayRef>, p: nat)
    requires Good(t) && Represents(t, names) && p < |t| && t[p].Live()
    ensures WellFormed(t[p := TOMBSTONE]) && Represents(t[p := TOMBSTONE], names - {Fold(t[p].key.value)})
  {
    var u := t[p := TOMBSTONE];
    forall f | f in names - {Fold(t[p].key.value)}
      ensures Named(u, f)
    {
      var q :| 0 <= q < |t| && t[q].Live() && Fold(t[q].key.value) == f;
      assert u[q].Live();
    }
  }

  lemma RepresentsContains(t: seq<Cell>, names: map<Name, ArrayRef>, name: Name)
    requires WellFormed(t) && Represents(t, names)
    ensures Contains(t, name) <==> Fold(name) in names
    ensures forall p :: 0 <= p < |t| && Matches(t, p, name) ==> t[p].value == Some(names[Fold(name)])
  {
    if Fold(name) in names {
      var p :| 0 <= p < |t| && t[p].Live() && Fold(t[p].key.value) == Fold(name);
      assert Matches(t, p, name);
    }
  }

  /** One more live cell, with a name not seen before. */
  lemma RepresentsAppend(t: seq<Cell>, i: nat, names: map<Name, ArrayRef>)
    requires WellFormed(t) && DistinctNames(t) && i < |t|
    requires WellFormed(t[..i]) && Represents(t[..i], names)
    ensures WellFormed(t[..i + 1])
    ensures !t[i].Live() ==> Represents(t[..i + 1], names)
    ensures t[i].Live() ==> Fold(t[i].key.value) !in names
    ensures t[i].Live() ==> Represents(t[..i + 1], names[Fold(t[i].key.value) := t[i].value.value])
  {
    hide Fold;
    var s, u := t[..i], t[..i + 1];
    assert forall p :: 0 <= p < i ==> u[p] == s[p];
    if t[i].Live() {
      var f0 := Fold(t[i].key.value);
      forall q | 0 <= q < i && s[q].Live() ensures Fold(s[q].key.value) != f0 {
        assert !Same(t[q].key.value, t[i].key.value);
      }
      assert u[i].Live();
    }
    forall f | f in names
      ensures Named(u, f)
    {
      var q :| 0 <= q < i && s[q].Live() && Fold(s[q].key.value) == f;
      assert u[q].Live();
    }
  }

  lemma RepresentsUnique(t: seq<Cell>, m: map<Name, ArrayRef>, names: map<Name, ArrayRef>)
    requires WellFormed(t) && Represents(t, m) && Represents(t, names)
    ensures m == names
  {
    forall f | f in m || f in names
      ensures f in m && f in names && m[f] == names[f]
    {
      assert Named(t, f);
      var q :| 0 <= q < |t| && t[q].Live() && Fold(t[q].key.value) == f;
    }
  }

  lemma BlankIsGood(n: nat, u: seq<Cell>)
    requires n > 0 && |u| == n && forall p :: 0 <= p < n ==> u[p] == EMPTY
    ensures Good(u) && LiveCount(u) == 0 && Represents(u, map[])
  {
    CountNone(u);
  }

  /** The loop of rehash: every live cell of t is put again into the empty table u. */
  method CopyEntries(t: array<Cell>, u: array<Cell>) returns (ghost m: map<Name, ArrayRef>)
    requires t != u && Good(t[..]) && t.Length < u.Length
    requires Good(u[..]) && WellFormed(u[..]) && Represents(u[..], map[]) && LiveCount(u[..]) == 0
    requires forall p :: 0 <= p < u.Length ==> !u[p].Deleted()
    modifies u
    ensures Good(u[..]) && WellFormed(u[..]) && WellFormed(t[..])
    ensures Represents(u[..], m) && Represents(t[..], m) && LiveCount(u[..]) == LiveCount(t[..])
    ensures forall p :: 0 <= p < u.Length ==> !u[p].Deleted()
  {
    hide Good, WellFormed, Represents, LiveCount, StrHash, Fold, DistinctNames;
    var i := 0;
    m := map[];
    StartCopy(t[..]);
    while i < t.Length
      invariant 0 <= i <= t.Length && t[..] == old(t[..])
      invariant Good(u[..]) && WellFormed(u[..]) && Represents(u[..], m)
      invariant WellFormed(t[..i]) && Represents(t[..i], m)
      invariant LiveCount(u[..]) == LiveCount(t[..i])
      invariant forall p :: 0 <= p < u.Length ==> !u[p].Deleted()
    {
      GoodFacts(t[..], i);
      CountAll(t[..i]);
      LiveCountNext(t[..], i);
      RepresentsAppend(t[..], i, m);
      if t[i].key.Some? {
        m := CopyOne(t[i].value.value, t[i].hash, u, m);
      }
      i := i + 1;
    }
    assert t[..t.Length] == t[..];
  }

  lemma StartCopy(t: seq<Cell>)
    ensures WellFormed(t[..0]) && Represents(t[..0], map[]) && LiveCount(t[..0]) == 0
  {
  }

  method CopyOne(a: ArrayRef, hash: bv32, u: array<Cell>, ghost m: map<Name, ArrayRef>)
    returns (ghost m': map<Name, ArrayRef>)
    requires Good(u[..]) && WellFormed(u[..]) && Represents(u[..], m) && LiveCount(u[..]) < u.Length
    requires Fold(a.zName) !in m && hash == StrHash(a.zName)
    requires forall p :: 0 <= p < u.Length ==> !u[p].Deleted()
    modifies u
    ensures m' == m[Fold(a.zName) := a]
    ensures Good(u[..]) && WellFormed(u[..]) && Represents(u[..], m') && LiveCount(u[..]) == old(LiveCount(u[..])) + 1
    ensures forall p :: 0 <= p < u.Length ==> !u[p].Deleted()
  {
    hide Good, WellFormed, Represents, LiveCount, StrHash, Fold;
    RepresentsContains(u[..], m, a.zName);
    ghost var before := u[..];
    var _, d := PutCell(u, a, hash);
    RepresentsInsert(before, m, At(Home(hash, u.Length), d, u.Length), a);
    m' := m[Fold(a.zName) := a];
  }

  /** The loop of intarrayMapRemove: along live cells only, to the entry or to the first cell without a key, or all
      the way round. */
  method ProbeLive(t: array<Cell>, zName: Name, hash: bv32) returns (i: nat, j: nat)
    requires Good(t[..]) && hash == StrHash(zName)
    ensures 0 <= j <= t.Length && i < t.Length
    ensures j == 0 ==> !Contains(t[..], zName)
    ensures j > 0 ==>
            if t[i].Live() then Matches(t[..], i, zName) && Contains(t[..], zName) && !Blocked(t[..], zName)
            else Contains(t[..], zName) ==> Blocked(t[..], zName)
  {
    hide Good, LiveCount, StrHash, Same, Home, Blocked;
    GoodFacts(t[..], 0);
    var size := t.Length;
    i := Home(hash, size);
    ghost var h := i;
    j := size;
    while t[i].key.Some? && j > 0
      invariant 0 <= j <= size
      invariant i == if j > 0 then At(h, size - j, size) else h
      invariant forall e :: 0 <= e < size - j ==> t[..][At(h, e, size)].Live()
      invariant Passed(t[..], zName, size - j)
    {
      TestIsMatch(t[..], i, zName);
      if hash == t[i].hash && Same(t[i].key.value, zName) {
        NotBlocked(t[..], zName, size - j);
        return;
      }
      NextCell(i, size);
      i := (i + 1) % size;
      j := j - 1;
    }
    if j == 0 {
      NotThere(t[..], zName, size);
    } else {
      StoppedShort(t[..], zName, size - j);
    }
  }

  /** intarray_map. */
  class ArrayMap {
    var hashtable: array<Cell>
    var size: int
    var rehashSize: int
    var count: int

    ghost var names: map<Name, ArrayRef>   // the arrays by folded name

    ghost predicate Valid()
      reads this, hashtable
    {
      && hashtable.Length == size && Good(hashtable[..]) && Represents(hashtable[..], names)
      && count == LiveCount(hashtable[..])
      && rehashSize < size && 2 <= size
    }

    /** What holds as long as no rehash has run out of memory. */
    predicate Roomy()
      reads this
    {
      count < rehashSize < size
    }

    /** intarrayMapInit. */
    constructor ()
      ensures Valid() && Roomy() && names == map[] && fresh(hashtable) && size == 17 && rehashSize == 11
    {
      size, rehashSize, count := 17, 17 * 2 / 3, 0;
      hashtable := new Cell[17](_ => EMPTY);
      names := map[];
      new;
      BlankIsGood(17, hashtable[..]);
    }

    /** intarrayMapFind. */
    method Lookup(zName: Name) returns (r: Option<ArrayRef>)
      requires Valid()
      ensures r == if Fold(zName) in names then Some(names[Fold(zName)]) else None
    {
      RepresentsContains(hashtable[..], names, zName);
      r := Find(hashtable, zName);
    }

    /** rehash: the same entries in a larger table without tombstones, or nothing when sqlite3_malloc fails. */
    method Rehash(allocOk: bool) returns (rc: Rc)
      requires hashtable.Length == size && Good(hashtable[..]) && Represents(hashtable[..], names)
      requires count == LiveCount(hashtable[..]) && 2 <= size
      modifies this`hashtable, this`size, this`rehashSize
      ensures hashtable.Length == size && Good(hashtable[..]) && Represents(hashtable[..], names)
      ensures count == LiveCount(hashtable[..])
      ensures rc == if allocOk then OK else NOMEM
      ensures rc == NOMEM ==> hashtable == old(hashtable) && size == old(size) && rehashSize == old(rehashSize)
      ensures rc == OK ==> fresh(hashtable) && size == old(size) + old(size) / 2 && rehashSize == old(size)
      ensures rc == OK ==> forall p :: 0 <= p < size ==> !hashtable[p].Deleted()
    {
      hide Good, Represents, LiveCount, WellFormed, Named;
      if !allocOk { return NOMEM; }
      var t, newsize := hashtable, size + size / 2;
      var u := new Cell[newsize](_ => EMPTY);
      BlankIsGood(newsize, u[..]);
      ghost var m := CopyEntries(t, u);
      RepresentsUnique(t[..], m, names);
      rehashSize := size;
      size := newsize;
      hashtable := u;
      rc := OK;
    }

    /** intarrayMapPut: a duplicate is refused; anything else is added unless every cell is taken, which cannot be while
        the table is roomy. When the rehash runs out of memory the caller is told so, yet the entry stays. An entry put
        without complaint can be removed at once. */
    method Put(a: ArrayRef, allocOk: bool) returns (rc: Rc)
      requires Valid()
      modifies this, hashtable
      ensures Valid() && (hashtable == old(hashtable) || fresh(hashtable))
      ensures rc == if Fold(a.zName) in old(names) then DUPLICATE_NAME
                    else if old(count) == old(size) then INTERNAL_ERROR
                    else if old(count) + 1 >= old(rehashSize) && !allocOk then NOMEM else OK
      ensures names == if rc == OK || rc == NOMEM then old(names)[Fold(a.zName) := a] else old(names)
      ensures old(Roomy()) ==> rc != INTERNAL_ERROR && (rc != NOMEM ==> Roomy())
      ensures rc == OK ==> !Blocked(hashtable[..], a.zName)
    {
      hide Good, Represents, LiveCount, StrHash, Fold, Blocked, Contains;
      GoodFacts(hashtable[..], 0);
      RepresentsContains(hashtable[..], names, a.zName);
      ghost var before := hashtable[..];
      var h1 := ComputeHash(a.zName);
      ghost var d;
      rc, d := PutCell(hashtable, a, h1);
      if rc != OK { return; }
      JustPutIsNotBlocked(before, a, d);
      RepresentsInsert(before, names, At(Home(h1, size), d, size), a);
      names := names[Fold(a.zName) := a];
      count := count + 1;
      if count >= rehashSize {
        rc := Rehash(allocOk);
        if rc == OK { NoTombstoneNoBlock(hashtable[..], a.zName); }
      }
    }

    lemma NoTombstoneNoBlock(t: seq<Cell>, name: Name)
      requires |t| > 0 && forall p :: 0 <= p < |t| ==> !t[p].Deleted()
      ensures !Blocked(t, name)
    {
    }

    /** intarrayMapRemove: the entry goes if no tombstone lies on the way to it; otherwise it stays. */
    method Remove(a: ArrayRef)
      requires Valid()
      modifies this`count, this`names, hashtable
      ensures Valid() && (old(Roomy()) ==> Roomy())
      ensures names == if old(Blocked(hashtable[..], a.zName)) then old(names) else old(names) - {Fold(a.zName)}
      ensures Fold(a.zName) !in old(names) || old(Blocked(hashtable[..], a.zName)) ==>
                hashtable[..] == old(hashtable[..])
    {
      hide Good, Represents, LiveCount, StrHash, Fold, Blocked;
      var hash := ComputeHash(a.zName);
      var t := hashtable;
      GoodFacts(t[..], 0);
      RepresentsContains(t[..], names, a.zName);
      var i, j := ProbeLive(t, a.zName, hash);
      if j > 0 && t[i].key.Some? {
        Removed(t[..], i);
        RepresentsRemove(t[..], names, i);
        t[i] := Cell(None, DELETED, None);
        names := names - {Fold(a.zName)};
        count := count - 1;
      }
    }
  }

  /** Removal is not always complete. Of two names with one home cell, removing the first leaves a tombstone in
      front of the second, and then the second cannot be removed. */
  lemma RemovalCanFail(a: ArrayRef, r: ArrayRef)
    requires a.zName == [97] && r.zName == [114]   // "a" and "r"
    ensures var t0 := seq(17, _ => EMPTY);
            var t1 := t0[12 := Entry(a)];
            var t2 := t1[13 := Entry(r)];
            var t3 := t2[12 := TOMBSTONE];
            && FirstFree(t0, a.zName, 0) && At(Home(StrHash(a.zName), 17), 0, 17) == 12   // put a
            && FirstFree(t1, r.zName, 1) && At(Home(StrHash(r.zName), 17), 1, 17) == 13   // put r
            && Matches(t2, 12, a.zName) && !Blocked(t2, a.zName)                          // remove a
            && Contains(t3, r.zName) && Blocked(t3, r.zName)                              // remove r: no effect
  {
    assert HashFrom(0, [97]) == 97 && HashFrom(0, [114]) == 114;
    assert StrHash(a.zName) as int == 97 && StrHash(r.zName) as int == 114;
    assert 97 % 17 == 12 && 114 % 17 == 12;
    var t2 := seq(17, _ => EMPTY)[12 := Entry(a)][13 := Entry(r)];
    var t3 := t2[12 := TOMBSTONE];
    assert Fold([97])[0] == 97 && Fold([114])[0] == 114;
    assert forall p :: 0 <= p < 17 && t2[p].Live() ==> p == 12 || p == 13;
    assert !Matches(t2, 13, a.zName);
    assert Matches(t3, 13, r.zName) && Dist(12, 13, 17) == 1 && t3[At(12, 0, 17)].Deleted();
  }

  lemma LiveCountNext(t: seq<Cell>, i: nat)
    requires i < |t|
    ensures LiveCount(t[..i + 1]) == LiveCount(t[..i]) + if t[i].Live() then 1 else 0
  {
    assert t[..i + 1][..i] == t[..i];
  }
}
