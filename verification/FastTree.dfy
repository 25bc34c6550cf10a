/** The tables of a FastMap: a small table is resized, a large one splits into 64 sub-maps, each
    of which takes the next six bits of the hash. */
module FastTree {
  import opened FastTable

  const B2 := 6
  const C1 := 1024   // the largest length a table is resized to
  const C2 := 64

  /** The part of a FastMap object that is its table. subMaps is empty while none have been created. */
  datatype Table = Table(entries: seq<Slot>, entryCount: int, nullCount: int, keyShift: nat,
                         subMaps: seq<Table>, useSubMaps: bool)

  // ---------------------------------------------------------------- routing

  /** The six bits of the hash that choose a sub-map below a table with this key shift. */
  function Digit(key: Key, shift: nat): (d: nat)
    ensures d < C2
  {
    Shift(key.hash, shift) % C2
  }

  function Sub(m: map<Key, nat>, shift: nat, i: nat): map<Key, nat> {
    map k | k in m && Digit(k, shift) == i :: m[k]
  }

  lemma HalveSix(h: int, s: nat)
    ensures Halve(h, s + 6) == Halve(h, s) / 64
  {
    var a := Halve(h, s);
    assert Halve(h, s + 1) == a / 2;
    assert Halve(h, s + 2) == a / 2 / 2;
    assert Halve(h, s + 3) == a / 2 / 2 / 2;
    assert Halve(h, s + 4) == a / 2 / 2 / 2 / 2;
    assert Halve(h, s + 5) == a / 2 / 2 / 2 / 2 / 2;
  }

  /** Descending one level is six bits more of shift, as long as the shift stays below 32. */
  lemma ShiftSix(h: int, shift: nat)
    requires shift + 6 < 32
    ensures Shift(h, shift + 6) == Shift(h, shift) / 64
  {
    HalveSix(h, shift);
  }

  /** At a shift of 30 two bits of the hash are left. */
  lemma DigitsAtTheBottom(key: Key)
    ensures Digit(key, 30) in {0, 1, 62, 63}
  {
    var h := key.hash;
    HalveSix(h, 0); HalveSix(h, 6); HalveSix(h, 12); HalveSix(h, 18); HalveSix(h, 24);
    assert Halve(h, 0) == h;
    assert -2 <= Halve(h, 30) <= 1;
  }

  // ---------------------------------------------------------------- invariants

  /** The counters of a table: entryCount is exact, and nullCount is at least the number of tombstones
      (reusing a tombstone does not decrement it). */
  ghost predicate Counts(t: Table) {
    t.entryCount == Live(t.entries) && Tombs(t.entries) <= t.nullCount
  }

  ghost predicate Leaf(t: Table, m: map<Key, nat>) {
    && Good(t.entries, t.keyShift, m) && Counts(t) && t.entryCount == |m|
    && t.entryCount + t.nullCount <= |t.entries| / 2
  }

  predicate Blank(t: Table, shift: nat)
    decreases t, 1
  {
    && t.keyShift == shift && !t.useSubMaps && LenOk(|t.entries|)
    && (forall p :: 0 <= p < |t.entries| ==> t.entries[p] == Null)
    && t.entryCount == 0 && t.nullCount == 0
    && Spare(t, shift)
  }

  /** Sub-maps left over from before a clear() are blank. */
  predicate Spare(t: Table, shift: nat)
    decreases t, 0
  {
    t.subMaps == [] ||
    (shift + B2 <= 30 && |t.subMaps| == C2 && forall i :: 0 <= i < C2 ==> Blank(t.subMaps[i], shift + B2))
  }

  /** The table tree t, whose root drops `shift` bits of the hash, holds exactly m. Nesting never goes beyond a
      shift of 30. */
  ghost predicate Tree(t: Table, shift: nat, m: map<Key, nat>) {
    && t.keyShift == shift && shift % 6 == 0 && shift <= 30 && LenOk(|t.entries|)
    && if t.useSubMaps
       then shift + B2 <= 30 && |t.subMaps| == C2 &&
            forall i :: 0 <= i < C2 ==> Tree(t.subMaps[i], shift + B2, Sub(m, shift, i))
       else Leaf(t, m) && Spare(t, shift)
  }

  lemma LeafHasRoom(t: Table, m: map<Key, nat>)
    requires Leaf(t, m)
    ensures HasRoom(t.entries)
  {
  }

  lemma SubUpdate(m: map<Key, nat>, shift: nat, key: Key, id: nat, i: nat)
    ensures Sub(m[key := id], shift, i) ==
            if i == Digit(key, shift) then Sub(m, shift, i)[key := id] else Sub(m, shift, i)
    ensures Sub(m - {key}, shift, i) ==
            if i == Digit(key, shift) then Sub(m, shift, i) - {key} else Sub(m, shift, i)
  {
  }

  lemma BlankIsTree(t: Table, shift: nat)
    requires Blank(t, shift) && shift % 6 == 0 && shift <= 30
    ensures Tree(t, shift, map[])
  {
    BlankIsGood(t.entries, shift);
  }

  // ---------------------------------------------------------------- look up

  /** getEntry: getSubMap passes on the hash shifted by six bits at each level. */
  method GetEntry(t: Table, h: int, key: Key, ghost m: map<Key, nat>) returns (found: bool, id: nat)
    requires Tree(t, t.keyShift, m) && h == Shift(key.hash, t.keyShift)
    ensures found <==> key in m
    ensures found ==> id == m[key]
    decreases t
  {
    if t.useSubMaps {
      ShiftSix(key.hash, t.keyShift);
      found, id := GetEntry(t.subMaps[h % C2], h / 64, key, Sub(m, t.keyShift, h % C2));
    } else {
      LeafHasRoom(t, m);
      var slot;
      found, slot := FindSlot(t.entries, t.keyShift, key, m);
      id := if found then t.entries[slot].id else 0;
    }
  }

  /** getSubMap: the table a hash is routed to. */
  function Route(t: Table, h: int): Table {
    if t.useSubMaps && |t.subMaps| == C2 then Route(t.subMaps[h % C2], h / 64) else t
  }

  /** Routing reaches the one table that holds the key. */
  lemma {:induction false} RouteFinds(t: Table, shift: nat, m: map<Key, nat>, key: Key)
    requires Tree(t, shift, m)
    ensures var leaf := Route(t, Shift(key.hash, shift));
            leaf.keyShift <= 30 && !leaf.useSubMaps && HasRoom(leaf.entries) && (Has(leaf.entries, key) <==> key in m)
    decreases t
  {
    if t.useSubMaps {
      var d := Digit(key, shift);
      ShiftSix(key.hash, shift);
      RouteFinds(t.subMaps[d], shift + B2, Sub(m, shift, d), key);
    } else {
      LeafHasRoom(t, m);
    }
  }

  /** Every active table at depth d shifts the hash by 6 * d, and d never exceeds 5. */
  predicate Nested(t: Table, depth: nat) {
    && depth <= 5 && t.keyShift == 6 * depth
    && (t.useSubMaps ==> forall i :: 0 <= i < |t.subMaps| ==> Nested(t.subMaps[i], depth + 1))
  }

  lemma {:induction false} NestingIsBounded(t: Table, depth: nat, m: map<Key, nat>)
    requires Tree(t, 6 * depth, m)
    ensures Nested(t, depth)
    decreases t
  {
    if t.useSubMaps {
      forall i | 0 <= i < |t.subMaps| ensures Nested(t.subMaps[i], depth + 1) {
        NestingIsBounded(t.subMaps[i], depth + 1, Sub(m, 6 * depth, i));
      }
    }
  }

  // ---------------------------------------------------------------- resizing

  /** One entry more than fits: what put() hands to resizeTable(). */
  ghost predicate Overfull(t: Table, m: map<Key, nat>) {
    && !t.useSubMaps && t.keyShift % 6 == 0 && t.keyShift <= 30
    && Good(t.entries, t.keyShift, m) && Counts(t) && t.entryCount == |m|
    && |t.entries| / 2 < t.entryCount + t.nullCount <= |t.entries| / 2 + 1
    && Spare(t, t.keyShift)
  }

  function Nulls(n: nat): (s: seq<Slot>)
    ensures |s| == n && forall p :: 0 <= p < n ==> s[p] == Null
  {
    seq(n, _ => Null)
  }

  lemma DoubleLen(n: nat)
    requires LenOk(n)
    ensures LenOk(2 * n) && n % 16 == 0 && (n >= 1024 ==> n % 64 == 0 && LenOk(n / 16))
  {
    PowerTwoDivides(n);
  }

  lemma HalfOfPower(n: nat)
    requires IsPow2(n) && n > 1
    ensures n % 2 == 0 && IsPow2(n / 2)
  {
  }

  lemma PowerTwoDivides(n: nat)
    requires IsPow2(n) && n >= 16
    ensures n % 16 == 0 && IsPow2(n / 16)
    ensures n >= 64 ==> n % 64 == 0
  {
    hide IsPow2;
    HalfOfPower(n);
    HalfOfPower(n / 2);
    HalfOfPower(n / 4);
    HalfOfPower(n / 8);
    if n >= 64 {
      HalfOfPower(n / 16);
      HalfOfPower(n / 32);
    }
  }

  /** A sub-map while resizeTable fills it: less than half full. */
  ghost predicate Filling(t: Table, shift: nat, m: map<Key, nat>) {
    && t.keyShift == shift && !t.useSubMaps && Good(t.entries, shift, m) && Counts(t) && t.entryCount == |m|
    && t.nullCount == 0 && t.entryCount * 2 < |t.entries| && Spare(t, shift)
  }

  ghost predicate AllFilling(subs: seq<Table>, shift: nat, m: map<Key, nat>) {
    |subs| == C2 && forall i :: 0 <= i < C2 ==> Filling(subs[i], shift + B2, Sub(m, shift, i))
  }

  /** newSubMaps. */
  method NewSubMaps(capacity: nat, keyShift: nat) returns (subMaps: seq<Table>)
    requires LenOk(capacity)
    ensures AllFilling(subMaps, keyShift, map[])
    ensures forall i :: 0 <= i < C2 ==> |subMaps[i].entries| == capacity
  {
    subMaps := [];
    BlankIsGood(Nulls(capacity), B2 + keyShift);
    for i := 0 to C2
      invariant |subMaps| == i
      invariant forall j :: 0 <= j < i ==> Filling(subMaps[j], keyShift + B2, map[]) && |subMaps[j].entries| == capacity
    {
      subMaps := subMaps + [Table(Nulls(capacity), 0, 0, B2 + keyShift, [], false)];
    }
    assert forall i :: 0 <= i < C2 ==> Sub(map[], keyShift, i) == map[];
  }

  lemma SpareIsFilling(t: Table, shift: nat)
    requires Spare(t, shift) && t.subMaps != []
    ensures AllFilling(t.subMaps, shift, map[])
  {
    forall i | 0 <= i < C2 ensures Filling(t.subMaps[i], shift + B2, Sub(map[], shift, i)) {
      assert Sub(map[], shift, i) == map[];
      assert Blank(t.subMaps[i], shift + B2);
      BlankIsGood(t.subMaps[i].entries, shift + B2);
    }
  }

  /** mapEntry. */
  method MapEntry(t: Table, entry: Slot, ghost m: map<Key, nat>) returns (t': Table)
    requires Filling(t, t.keyShift, m) && entry.Ref? && entry.key !in m
    ensures t' == t.(entries := t'.entries, entryCount := t.entryCount + 1) && |t'.entries| == |t.entries|
    ensures Good(t'.entries, t.keyShift, m[entry.key := entry.id])
    ensures Counts(t') && t'.entryCount == |m[entry.key := entry.id]|
  {
    assert HasRoom(t.entries);
    var entries := Append(t.entries, t.keyShift, entry, m);
    t' := t.(entries := entries, entryCount := t.entryCount + 1);
  }

  /** Half of a sub-map of this length would be taken by the keys routed to it. */
  predicate HalfFull(m: map<Key, nat>, shift: nat, i: nat, len: nat) { |Sub(m, shift, i)| * 2 >= len }

  /** What a prefix holds is part of the whole. */
  lemma PartHalfFull(s: seq<Slot>, i: nat, c: map<Key, nat>, m: map<Key, nat>, shift: nat, d: nat, len: nat)
    requires i <= |s| && HoldsPrefix(s, i, c) && Holds(s, m) && HalfFull(c, shift, d, len)
    ensures HalfFull(m, shift, d, len)
  {
    forall k | k in c ensures k in m {
      assert Has(s[..i], k);
      var p :| 0 <= p < i && s[..i][p].Ref? && s[..i][p].key == k;
      assert s[p].key == k;
    }
    Subset(Sub(c, shift, d).Keys, Sub(m, shift, d).Keys);
  }

  lemma GoodHolds(s: seq<Slot>, shift: nat, m: map<Key, nat>)
    requires Good(s, shift, m)
    ensures Holds(s, m)
  {
  }

  lemma FillingCount(t: Table, shift: nat, m: map<Key, nat>)
    requires Filling(t, shift, m)
    ensures t.entryCount == |m| && t.entryCount * 2 < |t.entries| && t.nullCount == 0
  {
  }

  /** The splitting loop of resizeTable: distribute the entries, and report whether a sub-map got half full. */
  method Distribute(t: Table, subs0: seq<Table>, ghost m: map<Key, nat>) returns (degraded: bool, subs: seq<Table>)
    requires Good(t.entries, t.keyShift, m) && AllFilling(subs0, t.keyShift, map[])
    ensures degraded <==> exists i :: 0 <= i < C2 && HalfFull(m, t.keyShift, i, |subs0[i].entries|)
    ensures !degraded ==> AllFilling(subs, t.keyShift, m)
    ensures !degraded ==> forall i :: 0 <= i < C2 ==> |subs[i].entries| == |subs0[i].entries|
  {
    hide Good, Filling, HoldsPrefix, Shift;
    subs := subs0;
    PrefixStart(t.entries);
    GoodDistinct(t.entries, t.keyShift, m);
    var i := 0;
    ghost var c: map<Key, nat> := map[];
    while i < |t.entries|
      invariant 0 <= i <= |t.entries|
      invariant HoldsPrefix(t.entries, i, c) && AllFilling(subs, t.keyShift, c)
      invariant forall j :: 0 <= j < C2 ==> |subs[j].entries| == |subs0[j].entries|
    {
      var entry := t.entries[i];
      PrefixNext(t.entries, i, c);
      i := i + 1;
      if !entry.Ref? { continue; }
      var d := Digit(entry.key, t.keyShift);
      ghost var sub := Sub(c, t.keyShift, d);
      FillingShift(subs[d], t.keyShift + B2, sub);
      FillingCount(subs[d], t.keyShift + B2, sub);
      var filled := MapEntry(subs[d], entry, sub);
      if (filled.entryCount + filled.nullCount) * 2 >= |filled.entries| {
        SubUpdate(c, t.keyShift, entry.key, entry.id, d);
        GoodHolds(t.entries, t.keyShift, m);
        PartHalfFull(t.entries, i, c[entry.key := entry.id], m, t.keyShift, d, |filled.entries|);
        return true, subs;
      }
      FillingAgain(filled, t.keyShift + B2, sub[entry.key := entry.id], subs[d]);
      forall j | 0 <= j < C2
        ensures Sub(c[entry.key := entry.id], t.keyShift, j) ==
                if j == d then sub[entry.key := entry.id] else Sub(c, t.keyShift, j)
      {
        SubUpdate(c, t.keyShift, entry.key, entry.id, j);
      }
      subs := subs[d := filled];
      c := c[entry.key := entry.id];
    }
    PrefixEnd(t.entries, t.keyShift, m, c);
    forall j | 0 <= j < C2 ensures !HalfFull(m, t.keyShift, j, |subs0[j].entries|) {
      FillingCount(subs[j], t.keyShift + B2, Sub(m, t.keyShift, j));
    }
    degraded := false;
  }

  lemma FillingShift(t: Table, shift: nat, m: map<Key, nat>)
    requires Filling(t, shift, m)
    ensures t.keyShift == shift
  {
  }

  lemma FillingAgain(t: Table, shift: nat, m: map<Key, nat>, before: Table)
    requires t.keyShift == shift && Good(t.entries, shift, m) && Counts(t) && t.entryCount == |m|
    requires (t.entryCount + t.nullCount) * 2 < |t.entries|
    requires exists mb :: Filling(before, shift, mb)
    requires t == before.(entries := t.entries, entryCount := t.entryCount)
    ensures Filling(t, shift, m)
  {
  }

  /** Two bits cannot spread a table over enough sub-maps: at a shift of 30 the split always degrades. */
  lemma BottomAlwaysDegrades(m: map<Key, nat>, subs: seq<Table>, len: nat)
    requires AllFilling(subs, 30, m) && len % 64 == 0
    requires forall i :: 0 <= i < C2 ==> |subs[i].entries| == len / 16
    ensures |m| * 8 < len
  {
    var parts := Sub(m, 30, 0).Keys + Sub(m, 30, 1).Keys + Sub(m, 30, 62).Keys + Sub(m, 30, 63).Keys;
    forall k | k in m ensures k in parts { DigitsAtTheBottom(k); }
    assert m.Keys <= parts;
    Subset(m.Keys, parts);
    assert forall i :: 0 <= i < C2 ==> Filling(subs[i], 36, Sub(m, 30, i));
    assert |Sub(m, 30, 0)| == subs[0].entryCount && |Sub(m, 30, 1)| == subs[1].entryCount;
    assert |Sub(m, 30, 62)| == subs[62].entryCount && |Sub(m, 30, 63)| == subs[63].entryCount;
  }

  lemma {:induction false} Subset<T>(a: set<T>, b: set<T>)
    requires a <= b
    ensures |a| <= |b|
  {
    assert b == a + (b - a);
  }

  /** resizeTable: clean up, double, or split; every entry survives, and the table has room again. */
  method ResizeTable(t: Table, ghost m: map<Key, nat>) returns (r: Table)
    requires Overfull(t, m)
    ensures Tree(r, t.keyShift, m) && r.nullCount == 0
    ensures t.nullCount > t.entryCount ==> !r.useSubMaps && |r.entries| == |t.entries|
    ensures t.nullCount <= t.entryCount && |t.entries| <= 512 ==> !r.useSubMaps && |r.entries| == 2 * |t.entries|
    ensures t.nullCount <= t.entryCount && |t.entries| > 512 ==>
              (r.useSubMaps <==> forall i :: 0 <= i < C2 ==> !HalfFull(m, t.keyShift, i, SubLength(t, i)))
  {
    var len := |t.entries|;
    var nullCount := t.nullCount;
    r := t.(nullCount := 0);
    DoubleLen(len);
    if nullCount > t.entryCount {
      var entries := CopyEntries(t.entries, Nulls(len), t.keyShift, m);
      return r.(entries := entries);
    }
    var tableLength := 2 * len;
    if tableLength <= C1 {
      var entries := CopyEntries(t.entries, Nulls(tableLength), t.keyShift, m);
      return r.(entries := entries);
    }
    r := Split(t, tableLength, m);
  }

  /** The length of the sub-maps a table splits into: those left from before, or new ones of a sixteenth. */
  function SubLength(t: Table, i: nat): int {
    if i < |t.subMaps| then |t.subMaps[i].entries| else |t.entries| / 16
  }

  method Split(t: Table, tableLength: nat, ghost m: map<Key, nat>) returns (r: Table)
    requires Overfull(t, m) && t.nullCount <= t.entryCount && tableLength == 2 * |t.entries| && tableLength > C1
    ensures Tree(r, t.keyShift, m) && r.nullCount == 0
    ensures r.useSubMaps <==> forall i :: 0 <= i < C2 ==> !HalfFull(m, t.keyShift, i, SubLength(t, i))
    ensures !r.useSubMaps ==> |r.entries| == tableLength && r.subMaps == []
  {
    hide Good, Filling, Spare, Shift, AllFilling, Leaf;
    GoodLen(t.entries, t.keyShift, m);
    DoubleLen(|t.entries|);
    PowerGap(|t.entries|, 512);
    var subMaps := t.subMaps;
    if subMaps == [] {
      subMaps := NewSubMaps(tableLength / 32, t.keyShift);
    } else {
      SpareIsFilling(t, t.keyShift);
    }
    assert forall i :: 0 <= i < C2 ==> |subMaps[i].entries| == SubLength(t, i);
    var degraded, subs := Distribute(t, subMaps, m);
    if degraded {
      // a sub-map is already half full: do not use sub-maps, just resize
      var entries := CopyEntries(t.entries, Nulls(tableLength), t.keyShift, m);
      r := t.(nullCount := 0, entries := entries, subMaps := []);
      ResizedIsTree(r, m);
      return;
    }
    r := t.(nullCount := 0, subMaps := subs, useSubMaps := true);
    SplitIsTree(t, m, subMaps, subs);
  }

  lemma ResizedIsTree(t: Table, m: map<Key, nat>)
    requires !t.useSubMaps && t.keyShift % 6 == 0 && t.keyShift <= 30 && Spare(t, t.keyShift)
    requires Good(t.entries, t.keyShift, m) && Live(t.entries) == t.entryCount == |m|
             && Tombs(t.entries) == t.nullCount == 0
    requires t.entryCount <= |t.entries| / 2
    ensures Tree(t, t.keyShift, m)
  {
  }

  /** A split that did not degrade is a tree: it happened above the bottom level. */
  lemma SplitIsTree(t: Table, m: map<Key, nat>, subMaps: seq<Table>, subs: seq<Table>)
    requires Overfull(t, m) && t.nullCount <= t.entryCount && |t.entries| >= 1024 && |t.entries| % 64 == 0
    requires AllFilling(subs, t.keyShift, m) && |subMaps| == C2
    requires forall i :: 0 <= i < C2 ==> |subs[i].entries| == |subMaps[i].entries|
    requires if t.subMaps == [] then forall i :: 0 <= i < C2 ==> |subMaps[i].entries| == |t.entries| / 16
             else subMaps == t.subMaps
    ensures Tree(t.(nullCount := 0, subMaps := subs, useSubMaps := true), t.keyShift, m)
  {
    hide Good, Filling, Spare, Shift, IsPow2, Leaf;
    NotAtBottom(t, m, subMaps, subs);
    GoodLen(t.entries, t.keyShift, m);
    var r := t.(nullCount := 0, subMaps := subs, useSubMaps := true);
    forall i | 0 <= i < C2 ensures Tree(r.subMaps[i], t.keyShift + B2, Sub(m, t.keyShift, i)) {
      FillingIsTree(subs[i], t.keyShift + B2, Sub(m, t.keyShift, i));
    }
  }

  lemma NotAtBottom(t: Table, m: map<Key, nat>, subMaps: seq<Table>, subs: seq<Table>)
    requires Overfull(t, m) && t.nullCount <= t.entryCount && |t.entries| >= 1024 && |t.entries| % 64 == 0
    requires AllFilling(subs, t.keyShift, m) && |subMaps| == C2
    requires forall i :: 0 <= i < C2 ==> |subs[i].entries| == |subMaps[i].entries|
    requires t.subMaps == [] ==> forall i :: 0 <= i < C2 ==> |subMaps[i].entries| == |t.entries| / 16
    ensures t.keyShift <= 24
  {
    hide Good, Filling, Shift, IsPow2;
    if t.keyShift == 30 { BottomAlwaysDegrades(m, subs, |t.entries|); }
  }

  lemma FillingIsTree(t: Table, shift: nat, m: map<Key, nat>)
    requires Filling(t, shift, m) && shift % 6 == 0 && shift <= 30
    ensures Tree(t, shift, m)
  {
  }

  lemma {:induction false} PowerGap(n: nat, p: nat)
    requires IsPow2(n) && IsPow2(p) && n > p
    ensures n >= 2 * p
  {
    if p > 1 { PowerGap(n / 2, p / 2); }
  }

  // ---------------------------------------------------------------- updates

  /** put(), up to the new entry's place in its table: nothing changes if the key is there. */
  method Insert(t: Table, h: int, key: Key, id: nat, ghost m: map<Key, nat>)
    returns (t': Table, found: bool, old_id: nat)
    requires Tree(t, t.keyShift, m) && h == Shift(key.hash, t.keyShift)
    ensures found <==> key in m
    ensures found ==> t' == t && old_id == m[key]
    ensures !found ==> Tree(t', t.keyShift, m[key := id])
    decreases t
  {
    if t.useSubMaps {
      var d := h % C2;
      ShiftSix(key.hash, t.keyShift);
      var sub;
      sub, found, old_id := Insert(t.subMaps[d], h / 64, key, id, Sub(m, t.keyShift, d));
      if found { return t, true, old_id; }
      t' := t.(subMaps := t.subMaps[d := sub]);
      forall i | 0 <= i < C2 ensures Tree(t'.subMaps[i], t.keyShift + B2, Sub(m[key := id], t.keyShift, i)) {
        SubUpdate(m, t.keyShift, key, id, i);
      }
    } else {
      t', found, old_id := InsertHere(t, key, id, m);
    }
  }

  method InsertHere(t: Table, key: Key, id: nat, ghost m: map<Key, nat>) returns (t': Table, found: bool, old_id: nat)
    requires Tree(t, t.keyShift, m) && !t.useSubMaps
    ensures found <==> key in m
    ensures !found && t.entryCount + 1 + t.nullCount <= |t.entries| / 2 ==>
              t' == t.(entries := t'.entries, entryCount := t.entryCount + 1) && |t'.entries| == |t.entries|
    ensures found ==> t' == t && old_id == m[key]
    ensures !found ==> Tree(t', t.keyShift, m[key := id])
  {
    hide Good, Shift;
    var slot;
    LeafHasRoom(t, m);
    found, slot := FindOrReserve(t.entries, t.keyShift, key, m);
    if found { return t, true, t.entries[slot].id; }
    old_id := 0;
    CountUpdate(t.entries, slot, Ref(id, key));
    t' := t.(entries := t.entries[slot := Ref(id, key)], entryCount := t.entryCount + 1);
    assert Good(t'.entries, t.keyShift, m[key := id]);
    if t'.entryCount + t'.nullCount > |t'.entries| / 2 {
      t' := ResizeTable(t', m[key := id]);
    }
  }

  /** remove(): the slot becomes a tombstone. */
  method Delete(t: Table, h: int, key: Key, ghost m: map<Key, nat>) returns (t': Table, found: bool, id: nat)
    requires Tree(t, t.keyShift, m) && h == Shift(key.hash, t.keyShift)
    ensures found <==> key in m
    ensures found ==> id == m[key]
    ensures Tree(t', t.keyShift, m - {key})
    decreases t
  {
    if t.useSubMaps {
      var d := h % C2;
      ShiftSix(key.hash, t.keyShift);
      var sub;
      sub, found, id := Delete(t.subMaps[d], h / 64, key, Sub(m, t.keyShift, d));
      t' := t.(subMaps := t.subMaps[d := sub]);
      forall i | 0 <= i < C2 ensures Tree(t'.subMaps[i], t.keyShift + B2, Sub(m - {key}, t.keyShift, i)) {
        SubUpdate(m, t.keyShift, key, 0, i);
      }
    } else {
      t', found, id := DeleteHere(t, key, m);
    }
  }

  method DeleteHere(t: Table, key: Key, ghost m: map<Key, nat>) returns (t': Table, found: bool, id: nat)
    requires Tree(t, t.keyShift, m) && !t.useSubMaps
    ensures found <==> key in m
    ensures found ==> id == m[key]
    ensures Tree(t', t.keyShift, m - {key})
    ensures if found then |t'.entries| == |t.entries|
              && t' == t.(entries := t'.entries, entryCount := t.entryCount - 1, nullCount := t.nullCount + 1)
            else t' == t
  {
    hide Good, Shift;
    var slot;
    LeafHasRoom(t, m);
    found, slot := FindSlot(t.entries, t.keyShift, key, m);
    if !found {
      assert m - {key} == m;
      return t, false, 0;
    }
    id := t.entries[slot].id;
    Dropped(t.entries, t.keyShift, m, slot);
    CountUpdate(t.entries, slot, Tomb);
    assert |m - {key}| == |m| - 1 by { assert (m - {key}).Keys == m.Keys - {key}; }
    t' := t.(entries := t.entries[slot := Tomb], nullCount := t.nullCount + 1, entryCount := t.entryCount - 1);
  }

  /** clearTables: every table is blank again; sub-maps are kept for later. */
  method ClearTables(t: Table, ghost m: map<Key, nat>) returns (r: Table)
    requires Tree(t, t.keyShift, m)
    ensures Blank(r, t.keyShift)
    decreases t
  {
    var subMaps := t.subMaps;
    if t.useSubMaps {
      for i := 0 to C2
        invariant |subMaps| == C2 && subMaps[i..] == t.subMaps[i..]
        invariant forall j :: 0 <= j < i ==> Blank(subMaps[j], t.keyShift + B2)
      {
        assert subMaps[i] == t.subMaps[i..][0];
        var sub := ClearTables(t.subMaps[i], Sub(m, t.keyShift, i));
        subMaps := subMaps[i := sub];
      }
    }
    r := t.(subMaps := subMaps, useSubMaps := false, entries := Nulls(|t.entries|), nullCount := 0, entryCount := 0);
  }

  // ---------------------------------------------------------------- size

  function Below(m: map<Key, nat>, shift: nat, i: nat): map<Key, nat> {
    map k | k in m && Digit(k, shift) < i :: m[k]
  }

  lemma BelowNext(m: map<Key, nat>, shift: nat, i: nat)
    ensures |Below(m, shift, i + 1)| == |Below(m, shift, i)| + |Sub(m, shift, i)|
  {
    var a, b, c := Below(m, shift, i).Keys, Sub(m, shift, i).Keys, Below(m, shift, i + 1).Keys;
    assert c == a + b && a !! b;
  }

  /** size(). */
  method Size(t: Table, ghost m: map<Key, nat>) returns (n: int)
    requires Tree(t, t.keyShift, m)
    ensures n == |m|
    decreases t
  {
    if !t.useSubMaps { return t.entryCount; }
    n := 0;
    assert Below(m, t.keyShift, 0) == map[];
    for i := 0 to |t.subMaps|
      invariant n == |Below(m, t.keyShift, i)|
    {
      BelowNext(m, t.keyShift, i);
      var k := Size(t.subMaps[i], Sub(m, t.keyShift, i));
      n := n + k;
    }
    assert Below(m, t.keyShift, C2) == m;
  }
}
