/** One hash table of a FastMap: linear probing over a power-of-two array with tombstones
    (Entry.NULL). Nothing bounds a probe loop but the empty slots that are always left. */
module FastTable {
  import opened CInts
  import opened Ring

  /** A key stands for its class under equals() together with its 32-bit hash code: equal keys have
      equal hashes, different keys may share one. */
  datatype Key = Key(name: int, hash: int32)

  type int32 = h: int | -0x8000_0000 <= h < 0x8000_0000

  /** A slot refers to a list entry by its identity; the key is that entry's key. */
  datatype Slot = Null | Tomb | Ref(id: nat, key: Key)

  // ---------------------------------------------------------------- hashes

  /** h >> s on a Java int: the sign is kept, and only the low five bits of s count. */
  function Halve(h: int, s: nat): int {
    if s == 0 then h else Halve(h, s - 1) / 2
  }

  function Shift(h: int, s: nat): int { Halve(h, s % 32) }

  function Home(key: Key, shift: nat, n: nat): (h: nat)
    requires n > 0
    ensures h < n
  {
    Shift(key.hash, shift) % n
  }

  // ---------------------------------------------------------------- counting

  function Live(s: seq<Slot>): nat {
    if s == [] then 0 else Live(s[..|s| - 1]) + (if s[|s| - 1].Ref? then 1 else 0)
  }

  function Tombs(s: seq<Slot>): nat {
    if s == [] then 0 else Tombs(s[..|s| - 1]) + (if s[|s| - 1].Tomb? then 1 else 0)
  }

  lemma {:induction false} CountUpdate(s: seq<Slot>, p: nat, c: Slot)
    requires p < |s|
    ensures Live(s[p := c]) == Live(s) - (if s[p].Ref? then 1 else 0) + (if c.Ref? then 1 else 0)
    ensures Tombs(s[p := c]) == Tombs(s) - (if s[p].Tomb? then 1 else 0) + (if c.Tomb? then 1 else 0)
  {
    var n := |s| - 1;
    if p == n {
      assert s[p := c][..n] == s[..n];
    } else {
      assert s[p := c][..n] == s[..n][p := c];
      CountUpdate(s[..n], p, c);
    }
  }

  lemma {:induction false} CountFull(s: seq<Slot>)
    requires forall p :: 0 <= p < |s| ==> s[p] != Null
    ensures Live(s) + Tombs(s) == |s|
  {
    if s != [] { CountFull(s[..|s| - 1]); }
  }

  lemma {:induction false} CountBlank(s: seq<Slot>)
    requires forall p :: 0 <= p < |s| ==> s[p] == Null
    ensures Live(s) == 0 && Tombs(s) == 0
  {
    if s != [] { CountBlank(s[..|s| - 1]); }
  }

  lemma LiveNext(s: seq<Slot>, i: nat)
    requires i < |s|
    ensures Live(s[..i + 1]) == Live(s[..i]) + if s[i].Ref? then 1 else 0
  {
    assert s[..i + 1][..i] == s[..i];
  }

  // ---------------------------------------------------------------- good tables

  predicate IsPow2(n: nat) { n == 1 || (n > 0 && n % 2 == 0 && IsPow2(n / 2)) }

  predicate LenOk(n: nat) { n >= 16 && IsPow2(n) }

  /** No empty slot interrupts the path from a key's home to its slot. */
  ghost predicate Chained(s: seq<Slot>, shift: nat)
    requires |s| > 0
  {
    forall p, e :: 0 <= p < |s| && s[p].Ref? && 0 <= e < Dist(Home(s[p].key, shift, |s|), p, |s|) ==>
      s[At(Home(s[p].key, shift, |s|), e, |s|)] != Null
  }

  ghost predicate DistinctKeys(s: seq<Slot>) {
    forall p, q :: 0 <= p < q < |s| && s[p].Ref? && s[q].Ref? ==> s[p].key != s[q].key
  }

  /** The table holds exactly the entries of m. */
  ghost predicate Holds(s: seq<Slot>, m: map<Key, nat>) {
    && (forall p :: 0 <= p < |s| && s[p].Ref? ==> s[p].key in m && m[s[p].key] == s[p].id)
    && (forall k :: k in m ==> Has(s, k))
  }

  ghost predicate Has(s: seq<Slot>, key: Key) { exists p :: 0 <= p < |s| && s[p].Ref? && s[p].key == key }

  ghost predicate Good(s: seq<Slot>, shift: nat, m: map<Key, nat>) {
    LenOk(|s|) && Chained(s, shift) && DistinctKeys(s) && Holds(s, m)
  }

  /** Some slot is empty, so every probe ends. */
  ghost predicate HasRoom(s: seq<Slot>) { Live(s) + Tombs(s) < |s| }

  lemma RoomOnPath(s: seq<Slot>, h: nat)
    requires h < |s| && HasRoom(s)
    ensures exists e :: 0 <= e < |s| && s[At(h, e, |s|)] == Null
  {
    if forall p :: 0 <= p < |s| ==> s[p] != Null {
      CountFull(s);
    } else {
      var p :| 0 <= p < |s| && s[p] == Null;
      assert s[At(h, Dist(h, p, |s|), |s|)] == Null;
    }
  }

  /** A path of occupied slots cannot be a full turn. */
  lemma StillRoom(s: seq<Slot>, h: nat, d: nat)
    requires h < |s| && d < |s| && HasRoom(s)
    requires forall e :: 0 <= e <= d ==> s[At(h, e, |s|)] != Null
    ensures d + 1 < |s|
  {
    RoomOnPath(s, h);
  }

  // ---------------------------------------------------------------- single updates

  lemma Placed(s: seq<Slot>, shift: nat, m: map<Key, nat>, key: Key, id: nat, d: nat)
    requires Good(s, shift, m) && d < |s| && key !in m
    requires forall e :: 0 <= e < d ==> s[At(Home(key, shift, |s|), e, |s|)] != Null
    requires !s[At(Home(key, shift, |s|), d, |s|)].Ref?
    ensures Good(s[At(Home(key, shift, |s|), d, |s|) := Ref(id, key)], shift, m[key := id])
  {
    var p := At(Home(key, shift, |s|), d, |s|);
    var u := s[p := Ref(id, key)];
    assert Dist(Home(key, shift, |s|), p, |s|) == d;
    forall q, e | 0 <= q < |u| && u[q].Ref? && 0 <= e < Dist(Home(u[q].key, shift, |u|), q, |u|)
      ensures u[At(Home(u[q].key, shift, |u|), e, |u|)] != Null
    {
      if q != p { assert s[At(Home(s[q].key, shift, |s|), e, |s|)] != Null; }
    }
    assert u[p].Ref? && u[p].key == key;
    forall k | k in m ensures Has(u, k) {
      assert Has(s, k);
      var q :| 0 <= q < |s| && s[q].Ref? && s[q].key == k;
      assert u[q].key == k;
    }
  }

  lemma Dropped(s: seq<Slot>, shift: nat, m: map<Key, nat>, p: nat)
    requires Good(s, shift, m) && p < |s| && s[p].Ref?
    ensures Good(s[p := Tomb], shift, m - {s[p].key})
  {
    var u := s[p := Tomb];
    forall q, e | 0 <= q < |u| && u[q].Ref? && 0 <= e < Dist(Home(u[q].key, shift, |u|), q, |u|)
      ensures u[At(Home(u[q].key, shift, |u|), e, |u|)] != Null
    {
      assert s[At(Home(s[q].key, shift, |s|), e, |s|)] != Null;
    }
    forall k | k in m - {s[p].key} ensures Has(u, k) {
      assert Has(s, k);
      var q :| 0 <= q < |s| && s[q].Ref? && s[q].key == k;
      assert u[q].key == k;
    }
  }

  lemma BlankIsGood(s: seq<Slot>, shift: nat)
    requires LenOk(|s|) && forall p :: 0 <= p < |s| ==> s[p] == Null
    ensures Good(s, shift, map[]) && Live(s) == 0 && Tombs(s) == 0
  {
    CountBlank(s);
  }

  // ---------------------------------------------------------------- probing

  ghost predicate Passed(s: seq<Slot>, shift: nat, key: Key, steps: nat)
    requires |s| > 0 && steps <= |s|
  {
    forall e :: 0 <= e < steps ==>
      s[At(Home(key, shift, |s|), e, |s|)] != Null &&
      !(s[At(Home(key, shift, |s|), e, |s|)].Ref? && s[At(Home(key, shift, |s|), e, |s|)].key == key)
  }

  lemma NotThere(s: seq<Slot>, shift: nat, m: map<Key, nat>, key: Key, steps: nat)
    requires Good(s, shift, m) && steps < |s| && Passed(s, shift, key, steps)
    requires s[At(Home(key, shift, |s|), steps, |s|)] == Null
    ensures key !in m
  {
    forall p | 0 <= p < |s| && s[p].Ref?
      ensures s[p].key != key
    {
      var d := Dist(Home(key, shift, |s|), p, |s|);
      assert s[At(Home(key, shift, |s|), d, |s|)] == s[p];
    }
    assert !Has(s, key);
  }

  lemma StepOn(h: nat, d: nat, n: nat, i: int)
    requires h < n && d < n && i % n == At(h, d, n)
    ensures (i + 1) % n == if d + 1 < n then At(h, d + 1, n) else h
  {
    NextCell(At(h, d, n), n);
    ModStep(i, n);
  }

  lemma ModStep(i: int, n: nat)
    requires n > 0
    ensures (i + 1) % n == (i % n + 1) % n
  {
    var q, r := i / n, i % n;
    assert i == q * n + r;
    if r + 1 < n {
      ModUnique(i + 1, n, q, r + 1);
    } else {
      assert i + 1 == q * n + n == (q + 1) * n + 0;
      ModUnique(i + 1, n, q + 1, 0);
      ModUnique(n, n, 1, 0);
    }
  }

  lemma ModUnique(x: int, n: nat, q: int, r: int)
    requires n > 0 && 0 <= r < n && x == q * n + r
    ensures x % n == r
  {
    var d := x / n - q;
    assert d * n == (x / n) * n - q * n == r - x % n;
    AtLeast(d, n);
    AtLeast(-d, n);
  }

  lemma AtLeast(d: int, n: nat)
    ensures d >= 1 ==> d * n >= n
    ensures d <= -1 ==> d * n + n <= 0
  {
    if d >= 1 { assert d * n == n + (d - 1) * n; }
    if d <= -1 { assert d * n + n == (d + 1) * n; }
  }

  /** A smaller power of two divides a larger one. */
  lemma {:induction false} PowerDivides(n: nat, p: nat) returns (q: nat)
    requires IsPow2(n) && IsPow2(p) && n <= p
    ensures p == q * n
  {
    if n == 1 {
      q := p;
    } else {
      q := PowerDivides(n / 2, p / 2);
      assert p == 2 * (p / 2) && n == 2 * (n / 2) && p / 2 == q * (n / 2);
      assert q * n == 2 * (q * (n / 2));
    }
  }

  lemma {:induction false} PowerIsPow2(k: nat, p: nat)
    requires p == Doubled(k)
    ensures IsPow2(p)
  {
    if k > 0 { PowerIsPow2(k - 1, p / 2); }
  }

  function Doubled(k: nat): nat { if k == 0 then 1 else 2 * Doubled(k - 1) }

  lemma TwoTo32()
    ensures IsPow2(0x1_0000_0000)
  {
    assert Doubled(8) == 256 by { assert Doubled(4) == 16; }
    assert Doubled(16) == 0x1_0000 by { assert Doubled(12) == 4096; }
    assert Doubled(24) == 0x100_0000 by { assert Doubled(20) == 0x10_0000; }
    assert Doubled(32) == 0x1_0000_0000 by { assert Doubled(28) == 0x1000_0000; }
    PowerIsPow2(32, 0x1_0000_0000);
  }

  lemma AddMultiple(i: int, n: nat, k: int, q: int, m: int)
    requires n > 0 && m == q * n
    ensures (i + k * m) % n == i % n
  {
    assert k * m == (k * q) * n by { assert k * (q * n) == (k * q) * n; }
    Distributes(i / n, k * q, n);
    ModUnique(i + k * m, n, i / n + k * q, i % n);
  }

  lemma Distributes(a: int, b: int, n: int)
    ensures (a + b) * n == a * n + b * n
  {
  }

  /** The probe loops below count on unbounded integers. An int that wraps around in i++ selects the same slot. */
  lemma WrapSameSlot(i: int, n: nat)
    requires IsPow2(n) && n <= 0x8000_0000
    ensures Wrap32(i) % n == i % n
  {
    hide IsPow2;
    TwoTo32();
    var q := PowerDivides(n, 0x1_0000_0000);
    var w := Wrap32(i);
    var k :| w == i + k * 0x1_0000_0000;
    AddMultiple(i, n, k, q, 0x1_0000_0000);
  }

  /** getEntry's loop: the entry with the key, or null. The loop has no bound of its own. */
  method FindSlot(s: seq<Slot>, shift: nat, key: Key, ghost m: map<Key, nat>) returns (found: bool, slot: nat)
    requires Good(s, shift, m) && HasRoom(s)
    ensures found <==> key in m
    ensures found ==> slot < |s| && s[slot] == Ref(m[key], key)
  {
    hide Good, HasRoom, Home, Shift;
    GoodLen(s, shift, m);
    ghost var h := Home(key, shift, |s|);
    ghost var d := 0;
    var i := Shift(key.hash, shift);
    assert i % |s| == h by { HomeIs(key, shift, |s|); }
    while true
      invariant 0 <= d < |s| && i % |s| == At(h, d, |s|) && Passed(s, shift, key, d)
      decreases |s| - d
    {
      var entry := s[i % |s|];
      if entry == Null {
        NotThere(s, shift, m, key, d);
        return false, 0;
      }
      if entry.Ref? && entry.key == key {
        GoodSlot(s, shift, m, i % |s|);
        return true, i % |s|;
      }
      StillRoom(s, h, d);
      StepOn(h, d, |s|, i);
      i := i + 1;
      d := d + 1;
    }
  }

  lemma GoodLen(s: seq<Slot>, shift: nat, m: map<Key, nat>)
    requires Good(s, shift, m)
    ensures |s| >= 16 && LenOk(|s|)
  {
  }

  lemma GoodSlot(s: seq<Slot>, shift: nat, m: map<Key, nat>, p: nat)
    requires Good(s, shift, m) && p < |s| && s[p].Ref?
    ensures s[p].key in m && m[s[p].key] == s[p].id
  {
  }

  lemma HomeIs(key: Key, shift: nat, n: nat)
    requires n > 0
    ensures Home(key, shift, n) == Shift(key.hash, shift) % n
  {
  }

  /** put's loop: the slot of the key if it is there; otherwise the first reusable slot on its path, which is
      the first tombstone or else the empty slot that ended the search. */
  method FindOrReserve(s: seq<Slot>, shift: nat, key: Key, ghost m: map<Key, nat>) returns (found: bool, slot: nat)
    requires Good(s, shift, m) && HasRoom(s)
    ensures found <==> key in m
    ensures slot < |s|
    ensures found ==> s[slot] == Ref(m[key], key)
    ensures !found ==> !s[slot].Ref? && forall id :: Good(s[slot := Ref(id, key)], shift, m[key := id])
    ensures !found ==> forall e :: 0 <= e < Dist(Home(key, shift, |s|), slot, |s|) ==>
                         s[At(Home(key, shift, |s|), e, |s|)].Ref?
  {
    hide Good, HasRoom, Home, Shift;
    GoodLen(s, shift, m);
    ghost var h := Home(key, shift, |s|);
    ghost var d := 0;
    ghost var f := 0;    // where slot was found
    var i := Shift(key.hash, shift);
    var reserved := -1;
    assert i % |s| == h by { HomeIs(key, shift, |s|); }
    while true
      invariant 0 <= d < |s| && i % |s| == At(h, d, |s|) && Passed(s, shift, key, d)
      invariant reserved == -1 || (0 <= f < d && reserved == At(h, f, |s|) && s[reserved] == Tomb)
      invariant forall e :: 0 <= e < (if reserved == -1 then d else f) ==> s[At(h, e, |s|)].Ref?
      decreases |s| - d
    {
      var entry := s[i % |s|];
      if entry == Null {
        if reserved < 0 { reserved, f := i % |s|, d; }
        NotThere(s, shift, m, key, d);
        forall id: nat ensures Good(s[reserved := Ref(id, key)], shift, m[key := id]) {
          Placed(s, shift, m, key, id, f);
        }
        return false, reserved;
      } else if entry == Tomb {
        if reserved < 0 { reserved, f := i % |s|, d; }
      } else if entry.key == key {
        GoodSlot(s, shift, m, i % |s|);
        return true, i % |s|;
      }
      StillRoom(s, h, d);
      StepOn(h, d, |s|, i);
      i := i + 1;
      d := d + 1;
    }
  }

  /** The insertion loop of mapEntry and copyEntries: no comparison, the first empty slot is taken. */
  method Append(s: seq<Slot>, shift: nat, entry: Slot, ghost m: map<Key, nat>) returns (s': seq<Slot>)
    requires Good(s, shift, m) && HasRoom(s) && entry.Ref? && entry.key !in m
    ensures |s'| == |s| && Good(s', shift, m[entry.key := entry.id])
    ensures Live(s') == Live(s) + 1 && Tombs(s') == Tombs(s)
  {
    hide Good, HasRoom, Home, Shift;
    GoodLen(s, shift, m);
    ghost var h := Home(entry.key, shift, |s|);
    ghost var d := 0;
    var j := Shift(entry.key.hash, shift);
    assert j % |s| == h by { HomeIs(entry.key, shift, |s|); }
    while true
      invariant 0 <= d < |s| && j % |s| == At(h, d, |s|)
      invariant forall e :: 0 <= e < d ==> s[At(h, e, |s|)] != Null
      decreases |s| - d
    {
      if s[j % |s|] == Null {
        Placed(s, shift, m, entry.key, entry.id, d);
        CountUpdate(s, j % |s|, entry);
        return s[j % |s| := entry];
      }
      StillRoom(s, h, d);
      StepOn(h, d, |s|, j);
      j := j + 1;
      d := d + 1;
    }
  }

  /** What a prefix of a table holds. */
  ghost predicate HoldsPrefix(s: seq<Slot>, i: nat, m: map<Key, nat>)
    requires i <= |s|
  {
    Holds(s[..i], m)
  }

  lemma PrefixNext(s: seq<Slot>, i: nat, m: map<Key, nat>)
    requires DistinctKeys(s) && i < |s| && HoldsPrefix(s, i, m)
    ensures !s[i].Ref? ==> HoldsPrefix(s, i + 1, m)
    ensures s[i].Ref? ==> s[i].key !in m && HoldsPrefix(s, i + 1, m[s[i].key := s[i].id])
  {
    var t, u := s[..i], s[..i + 1];
    assert forall p :: 0 <= p < i ==> u[p] == t[p];
    forall k | k in m ensures Has(u, k) {
      assert Has(t, k);
      var q :| 0 <= q < |t| && t[q].Ref? && t[q].key == k;
      assert u[q].key == k;
    }
    if s[i].Ref? {
      forall q | 0 <= q < i && t[q].Ref? ensures t[q].key != s[i].key { assert s[q].key != s[i].key; }
      assert !Has(t, s[i].key);
      assert u[i].Ref?;
    }
  }

  lemma HoldsUnique(s: seq<Slot>, m: map<Key, nat>, m': map<Key, nat>)
    requires Holds(s, m) && Holds(s, m')
    ensures m == m'
  {
    forall k | k in m || k in m' ensures k in m && k in m' && m[k] == m'[k] {
      assert Has(s, k);
    }
  }

  lemma PrefixStart(s: seq<Slot>)
    ensures HoldsPrefix(s, 0, map[]) && Live(s[..0]) == 0
  {
  }

  lemma PrefixEnd(s: seq<Slot>, shift: nat, m: map<Key, nat>, m': map<Key, nat>)
    requires Good(s, shift, m) && HoldsPrefix(s, |s|, m')
    ensures m == m'
  {
    assert s[..|s|] == s;
    HoldsUnique(s, m, m');
  }

  /** copyEntries into an empty table: the same entries, and no tombstones. */
  method CopyEntries(from: seq<Slot>, to: seq<Slot>, shift: nat, ghost m: map<Key, nat>) returns (r: seq<Slot>)
    requires Good(from, shift, m) && LenOk(|to|) && Live(from) < |to|
    requires forall p :: 0 <= p < |to| ==> to[p] == Null
    ensures |r| == |to| && Good(r, shift, m) && Live(r) == Live(from) && Tombs(r) == 0
  {
    hide Good, Live, Tombs, HoldsPrefix, Shift, Home, IsPow2;
    r := to;
    BlankIsGood(r, shift);
    PrefixStart(from);
    var i := 0;
    ghost var c: map<Key, nat> := map[];
    while i < |from|
      invariant 0 <= i <= |from| && |r| == |to|
      invariant HoldsPrefix(from, i, c) && Good(r, shift, c)
      invariant Live(r) == Live(from[..i]) && Tombs(r) == 0
    {
      GoodDistinct(from, shift, m);
      PrefixNext(from, i, c);
      LiveNext(from, i);
      LivePrefix(from, i);
      if from[i].Ref? {
        r := Append(r, shift, from[i], c);
        c := c[from[i].key := from[i].id];
      }
      i := i + 1;
    }
    PrefixEnd(from, shift, m, c);
    assert from[..i] == from;
  }

  lemma GoodDistinct(s: seq<Slot>, shift: nat, m: map<Key, nat>)
    requires Good(s, shift, m)
    ensures DistinctKeys(s)
  {
  }

  lemma {:induction false} LivePrefix(s: seq<Slot>, i: nat)
    requires i <= |s|
    ensures Live(s[..i]) <= Live(s)
    decreases |s| - i
  {
    if i < |s| {
      LiveNext(s, i);
      LivePrefix(s, i + 1);
    } else {
      assert s[..i] == s;
    }
  }
}
