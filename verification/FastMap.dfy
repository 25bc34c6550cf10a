/** FastMap, the insertion-ordered hash map of the connection's statement cache, in its unshared mode: a
    doubly linked list of entries in insertion order, whose tail is followed by a pool of unused entries,
    and a tree of hash tables that refer to the entries. */
module FastMap {
  import opened FastTable
  import opened FastTree
  import opened Wrappers

  /** Entry. Links are entry identities; -1 is null. */
  datatype Node<V> = Node(key: Option<Key>, value: Option<V>, next: int, prev: int)

  // ---------------------------------------------------------------- the map it stands for

  type OrderedMap<V> = seq<(Key, Option<V>)>

  /** The position of a key, or the length. */
  function Find<V>(s: OrderedMap<V>, key: Key): (i: nat)
    ensures i <= |s|
    ensures i < |s| ==> s[i].0 == key
    ensures forall j :: 0 <= j < i ==> s[j].0 != key
  {
    if s == [] then 0 else if s[0].0 == key then 0 else 1 + Find(s[1..], key)
  }

  function Lookup<V>(s: OrderedMap<V>, key: Key): Option<V> {
    if Find(s, key) < |s| then s[Find(s, key)].1 else None
  }

  /** put (and putIfAbsent with keep): the value of a known key is replaced in its place; a new key comes last. */
  function Put<V>(s: OrderedMap<V>, key: Key, value: Option<V>, keep: bool): OrderedMap<V> {
    var i := Find(s, key);
    if i == |s| then s + [(key, value)] else if keep then s else s[i := (key, value)]
  }

  function Remove<V>(s: OrderedMap<V>, key: Key): OrderedMap<V> {
    var i := Find(s, key);
    if i == |s| then s else s[..i] + s[i + 1..]
  }

  lemma FindIs<V>(s: OrderedMap<V>, key: Key, i: nat)
    requires i <= |s| && (i < |s| ==> s[i].0 == key)
    requires forall j :: 0 <= j < i ==> s[j].0 != key
    ensures Find(s, key) == i
  {
  }

  ghost predicate OneEach<V>(s: OrderedMap<V>) { forall i, j :: 0 <= i < j < |s| ==> s[i].0 != s[j].0 }

  /** put: the key now has the value, every other key has what it had, and the keys keep their order. */
  lemma PutThenLookup<V>(s: OrderedMap<V>, key: Key, value: Option<V>, keep: bool, other: Key)
    requires OneEach(s)
    ensures var t := Put(s, key, value, keep);
            && OneEach(t)
            && Lookup(t, key) == (if keep && Find(s, key) < |s| then Lookup(s, key) else value)
            && (other != key ==> Lookup(t, other) == Lookup(s, other))
            && |t| == |s| + (if Find(s, key) < |s| then 0 else 1)
            && forall i :: 0 <= i < |s| ==> t[i].0 == s[i].0
  {
    var t := Put(s, key, value, keep);
    FindIs(t, key, Find(s, key));
    if other != key {
      var i := Find(s, other);
      FindIs(t, other, if i < |s| then i else |t|);
    }
  }

  /** remove: the key is gone, every other key has what it had, and the others keep their order. */
  lemma RemoveThenLookup<V>(s: OrderedMap<V>, key: Key, other: Key)
    requires OneEach(s)
    ensures var t := Remove(s, key);
            && OneEach(t) && Find(t, key) == |t|
            && |t| == |s| - (if Find(s, key) < |s| then 1 else 0)
            && (forall i :: 0 <= i < |t| ==> t[i] == s[if i < Find(s, key) then i else i + 1])
            && (other != key ==>
                  Lookup(t, other) == Lookup(s, other) && (Find(t, other) < |t| <==> Find(s, other) < |s|))
  {
    var t := Remove(s, key);
    var p := Find(s, key);
    assert forall i :: 0 <= i < |t| ==> t[i] == s[if i < p then i else i + 1];
    FindIs(t, key, |t|);
    if other != key {
      var i := Find(s, other);
      FindIs(t, other, if i == |s| then |t| else if i < p then i else i - 1);
    }
  }

  // ---------------------------------------------------------------- the chain of entries

  /** The node at position i of the chain is linked to its neighbours. */
  predicate LinkedAt<V>(nodes: seq<Node<V>>, chain: seq<int>, i: int)
    requires 0 <= i < |chain|
  {
    && 0 <= chain[i] < |nodes|
    && nodes[chain[i]].next == (if i + 1 < |chain| then chain[i + 1] else -1)
    && (i > 0 ==> nodes[chain[i]].prev == chain[i - 1])
  }

  ghost predicate NoRepeat(chain: seq<int>) { forall i, j :: 0 <= i < j < |chain| ==> chain[i] != chain[j] }

  /** All nodes, in the order of the links: head, entries, tail (at position n), pool. */
  ghost predicate Chain<V>(nodes: seq<Node<V>>, chain: seq<int>) {
    NoRepeat(chain) && forall i :: 0 <= i < |chain| ==> LinkedAt(nodes, chain, i)
  }

  /** The entry at position i carries a key that m knows to be there. */
  predicate KeyedAt<V>(nodes: seq<Node<V>>, chain: seq<int>, i: int, m: map<Key, nat>)
    requires 0 <= i < |chain|
  {
    && 0 <= chain[i] < |nodes| && nodes[chain[i]].key.Some? && nodes[chain[i]].key.value in m
    && m[nodes[chain[i]].key.value] == chain[i]
  }

  /** The entries between head and tail carry exactly the keys of m. */
  ghost predicate Indexed<V>(nodes: seq<Node<V>>, chain: seq<int>, n: nat, m: map<Key, nat>)
    requires 0 < n < |chain|
  {
    && (forall i :: 0 < i < n ==> KeyedAt(nodes, chain, i, m))
    && (forall k :: k in m ==> OnChain(nodes, chain, n, k, m[k]))
    && |m| == n - 1
  }

  ghost predicate OnChain<V>(nodes: seq<Node<V>>, chain: seq<int>, n: nat, k: Key, id: int)
    requires n <= |chain|
  {
    0 <= id < |nodes| && nodes[id].key == Some(k) && exists i :: 0 < i < n && chain[i] == id
  }

  ghost function Entries<V>(nodes: seq<Node<V>>, chain: seq<int>, n: nat, m: map<Key, nat>): (s: OrderedMap<V>)
    requires 0 < n < |chain| && Indexed(nodes, chain, n, m)
    ensures |s| == n - 1
  {
    seq(n - 1, i requires 0 <= i < n - 1 =>
      assert KeyedAt(nodes, chain, i + 1, m);
      (nodes[chain[i + 1]].key.value, nodes[chain[i + 1]].value))
  }

  lemma EntryAt<V>(nodes: seq<Node<V>>, chain: seq<int>, n: nat, m: map<Key, nat>, i: nat)
    requires 0 < n < |chain| && Indexed(nodes, chain, n, m) && i < n - 1
    ensures KeyedAt(nodes, chain, i + 1, m)
    ensures Entries(nodes, chain, n, m)[i] == (nodes[chain[i + 1]].key.value, nodes[chain[i + 1]].value)
  {
    assert KeyedAt(nodes, chain, i + 1, m);
  }

  /** A key that m knows is found at the position of its entry; an unknown key is not found. */
  lemma FindEntry<V>(nodes: seq<Node<V>>, chain: seq<int>, n: nat, m: map<Key, nat>, key: Key) returns (p: nat)
    requires NoRepeat(chain) && 0 < n < |chain| && Indexed(nodes, chain, n, m)
    ensures key !in m ==> Find(Entries(nodes, chain, n, m), key) == n - 1
    ensures key in m ==> 0 < p < n && chain[p] == m[key] && Find(Entries(nodes, chain, n, m), key) == p - 1
    ensures key in m ==> 0 <= m[key] < |nodes| && Entries(nodes, chain, n, m)[p - 1] == (key, nodes[m[key]].value)
  {
    var s := Entries(nodes, chain, n, m);
    p := 0;
    if key in m {
      assert OnChain(nodes, chain, n, key, m[key]);
      p :| 0 < p < n && chain[p] == m[key];
      EntryAt(nodes, chain, n, m, p - 1);
      forall j | 0 <= j < p - 1 ensures s[j].0 != key {
        EntryAt(nodes, chain, n, m, j);
        assert chain[j + 1] != chain[p];
      }
      FindIs(s, key, p - 1);
    } else {
      forall j | 0 <= j < n - 1 ensures s[j].0 != key { EntryAt(nodes, chain, n, m, j); }
      FindIs(s, key, n - 1);
    }
  }

  /** Taking the node at position p out of the list. */
  function Unlink<V>(nodes: seq<Node<V>>, entry: int): seq<Node<V>>
    requires 0 <= entry < |nodes| && 0 <= nodes[entry].prev < |nodes| && 0 <= nodes[entry].next < |nodes|
  {
    var e := nodes[entry];
    var nodes := nodes[e.prev := nodes[e.prev].(next := e.next)];
    nodes[e.next := nodes[e.next].(prev := e.prev)]
  }

  lemma Unlinked<V>(nodes: seq<Node<V>>, chain: seq<int>, p: nat)
    requires Chain(nodes, chain) && 0 < p < |chain| - 1
    ensures 0 <= chain[p] < |nodes| && 0 <= nodes[chain[p]].prev < |nodes| && 0 <= nodes[chain[p]].next < |nodes|
    ensures Chain(Unlink(nodes, chain[p]), chain[..p] + chain[p + 1..])
  {
    assert LinkedAt(nodes, chain, p) && LinkedAt(nodes, chain, p - 1) && LinkedAt(nodes, chain, p + 1);
    var a := Unlink(nodes, chain[p]);
    var c := chain[..p] + chain[p + 1..];
    forall i | 0 <= i < |c| ensures LinkedAt(a, c, i) {
      var k := if i < p then i else i + 1;
      assert LinkedAt(nodes, chain, k);
      assert chain[k] != chain[p];
      if k != p - 1 { assert chain[k] != chain[p - 1]; }
      if k != p + 1 { assert chain[k] != chain[p + 1]; }
    }
  }

  /** Putting a node behind another one. */
  function LinkAfter<V>(nodes: seq<Node<V>>, at: int, entry: int): seq<Node<V>>
    requires 0 <= at < |nodes| && 0 <= entry < |nodes| && -1 <= nodes[at].next < |nodes|
  {
    var next := nodes[at].next;
    var nodes := nodes[entry := nodes[entry].(prev := at, next := next)];
    var nodes := nodes[at := nodes[at].(next := entry)];
    if next != -1 then nodes[next := nodes[next].(prev := entry)] else nodes
  }

  lemma Linked<V>(nodes: seq<Node<V>>, chain: seq<int>, q: nat, entry: int)
    requires Chain(nodes, chain) && q < |chain| && 0 <= entry < |nodes| && entry !in chain
    ensures 0 <= chain[q] < |nodes| && -1 <= nodes[chain[q]].next < |nodes|
    ensures Chain(LinkAfter(nodes, chain[q], entry), chain[..q + 1] + [entry] + chain[q + 1..])
  {
    assert LinkedAt(nodes, chain, q);
    if q + 1 < |chain| { assert LinkedAt(nodes, chain, q + 1); }
    var a := LinkAfter(nodes, chain[q], entry);
    var c := chain[..q + 1] + [entry] + chain[q + 1..];
    forall i | 0 <= i < |c| ensures LinkedAt(a, c, i) {
      if i != q + 1 {
        var k := if i <= q then i else i - 1;
        assert LinkedAt(nodes, chain, k);
        if k != q { assert chain[k] != chain[q]; }
        if q + 1 < |chain| && k != q + 1 { assert chain[k] != chain[q + 1]; }
      }
    }
  }

  /** Only links change. */
  ghost predicate SameData<V>(a: seq<Node<V>>, b: seq<Node<V>>) {
    |a| == |b| && forall i :: 0 <= i < |a| ==> a[i].key == b[i].key && a[i].value == b[i].value
  }

  lemma UnlinkKeepsData<V>(nodes: seq<Node<V>>, entry: int)
    requires 0 <= entry < |nodes| && 0 <= nodes[entry].prev < |nodes| && 0 <= nodes[entry].next < |nodes|
    ensures SameData(Unlink(nodes, entry), nodes)
  {
  }

  lemma LinkKeepsData<V>(nodes: seq<Node<V>>, at: int, entry: int)
    requires 0 <= at < |nodes| && 0 <= entry < |nodes| && -1 <= nodes[at].next < |nodes|
    ensures SameData(LinkAfter(nodes, at, entry), nodes)
  {
  }

  // ---------------------------------------------------------------- what updates do to the contents

  /** Changes outside the entries leave the contents alone. */
  lemma Untouched<V>(nodes: seq<Node<V>>, chain: seq<int>, n: nat, m: map<Key, nat>,
                     nodes': seq<Node<V>>, chain': seq<int>)
    requires 0 < n < |chain| && n < |chain'| && Indexed(nodes, chain, n, m)
    requires forall i :: 0 < i < n ==> chain'[i] == chain[i]
    requires forall i :: 0 < i < n && 0 <= chain[i] < |nodes| ==>
               chain[i] < |nodes'| && nodes'[chain[i]].key == nodes[chain[i]].key
               && nodes'[chain[i]].value == nodes[chain[i]].value
    ensures Indexed(nodes', chain', n, m) && Entries(nodes', chain', n, m) == Entries(nodes, chain, n, m)
  {
    forall i | 0 < i < n ensures KeyedAt(nodes', chain', i, m) { assert KeyedAt(nodes, chain, i, m); }
    forall k | k in m ensures OnChain(nodes', chain', n, k, m[k]) {
      assert OnChain(nodes, chain, n, k, m[k]);
      var i :| 0 < i < n && chain[i] == m[k];
      assert chain'[i] == m[k];
    }
    forall i | 0 <= i < n - 1
      ensures Entries(nodes', chain', n, m)[i] == Entries(nodes, chain, n, m)[i]
    {
      EntryAt(nodes, chain, n, m, i);
      EntryAt(nodes', chain', n, m, i);
    }
  }

  lemma ValueSet<V>(nodes: seq<Node<V>>, chain: seq<int>, n: nat, m: map<Key, nat>, key: Key, value: Option<V>, p: nat)
    requires Chain(nodes, chain) && 0 < p < n < |chain| && Indexed(nodes, chain, n, m)
    requires key in m && chain[p] == m[key] && m[key] < |nodes|
    ensures var a := nodes[m[key] := nodes[m[key]].(value := value)];
            && Chain(a, chain) && Indexed(a, chain, n, m)
            && Entries(a, chain, n, m) == Entries(nodes, chain, n, m)[p - 1 := (key, value)]
  {
    var a := nodes[m[key] := nodes[m[key]].(value := value)];
    forall i | 0 <= i < |chain| ensures LinkedAt(a, chain, i) { assert LinkedAt(nodes, chain, i); }
    forall i | 0 < i < n ensures KeyedAt(a, chain, i, m) { assert KeyedAt(nodes, chain, i, m); }
    forall k | k in m ensures OnChain(a, chain, n, k, m[k]) { assert OnChain(nodes, chain, n, k, m[k]); }
    assert OnChain(nodes, chain, n, key, m[key]);
    forall i | 0 <= i < n - 1
      ensures Entries(a, chain, n, m)[i] == if i == p - 1 then (key, value) else Entries(nodes, chain, n, m)[i]
    {
      EntryAt(nodes, chain, n, m, i);
      EntryAt(a, chain, n, m, i);
      if i != p - 1 { assert chain[i + 1] != chain[p]; }
    }
  }

  lemma Appended<V>(nodes: seq<Node<V>>, chain: seq<int>, n: nat, m: map<Key, nat>, key: Key, value: Option<V>)
    requires Chain(nodes, chain) && 0 < n && n + 1 < |chain| && Indexed(nodes, chain, n, m) && key !in m
    requires 0 <= chain[n] < |nodes|
    ensures var a := nodes[chain[n] := nodes[chain[n]].(key := Some(key), value := value)];
            && Chain(a, chain) && Indexed(a, chain, n + 1, m[key := chain[n]])
            && Entries(a, chain, n + 1, m[key := chain[n]]) == Entries(nodes, chain, n, m) + [(key, value)]
  {
    var a := nodes[chain[n] := nodes[chain[n]].(key := Some(key), value := value)];
    var m' := m[key := chain[n]];
    forall i | 0 <= i < |chain| ensures LinkedAt(a, chain, i) { assert LinkedAt(nodes, chain, i); }
    forall i | 0 < i < n + 1 ensures KeyedAt(a, chain, i, m') {
      if i < n {
        assert KeyedAt(nodes, chain, i, m);
        assert chain[i] != chain[n];
      }
    }
    forall k | k in m' ensures OnChain(a, chain, n + 1, k, m'[k]) {
      if k == key {
        assert chain[n] == m'[k];
      } else {
        assert OnChain(nodes, chain, n, k, m[k]);
        var i :| 0 < i < n && chain[i] == m[k];
        assert chain[i] != chain[n];
      }
    }
    forall i | 0 <= i < n
      ensures Entries(a, chain, n + 1, m')[i] == (Entries(nodes, chain, n, m) + [(key, value)])[i]
    {
      EntryAt(a, chain, n + 1, m', i);
      if i < n - 1 {
        EntryAt(nodes, chain, n, m, i);
        assert chain[i + 1] != chain[n];
      }
    }
  }

  /** Where the entries of the shortened chain were before. */
  ghost predicate Shortened(chain: seq<int>, n: nat, p: nat, c: seq<int>)
    requires 0 < p < n < |chain|
  {
    n - 1 < |c| && forall i :: 0 < i < n - 1 ==> c[i] == chain[if i < p then i else i + 1]
  }

  ghost predicate SameBut<V>(a: seq<Node<V>>, b: seq<Node<V>>, entry: int) {
    |a| == |b| && forall i :: 0 <= i < |a| && i != entry ==> a[i].key == b[i].key && a[i].value == b[i].value
  }

  lemma RemovedIndexed<V>(nodes: seq<Node<V>>, chain: seq<int>, n: nat, m: map<Key, nat>, key: Key, p: nat,
                          a: seq<Node<V>>, c: seq<int>)
    requires NoRepeat(chain) && 0 < p < n < |chain| && Indexed(nodes, chain, n, m)
    requires key in m && chain[p] == m[key] && SameBut(a, nodes, chain[p]) && Shortened(chain, n, p, c)
    ensures Indexed(a, c, n - 1, m - {key})
  {
    var m' := m - {key};
    assert m'.Keys == m.Keys - {key};
    assert OnChain(nodes, chain, n, key, m[key]);
    forall i | 0 < i < n - 1 ensures KeyedAt(a, c, i, m') {
      var j := if i < p then i else i + 1;
      assert KeyedAt(nodes, chain, j, m);
      assert chain[j] != chain[p];
    }
    forall k | k in m' ensures OnChain(a, c, n - 1, k, m'[k]) {
      assert OnChain(nodes, chain, n, k, m[k]);
      var i :| 0 < i < n && chain[i] == m[k];
      var j := if i < p then i else i - 1;
      assert c[j] == m'[k];
    }
  }

  lemma Removed<V>(nodes: seq<Node<V>>, chain: seq<int>, n: nat, m: map<Key, nat>, key: Key, p: nat,
                   a: seq<Node<V>>, c: seq<int>)
    requires NoRepeat(chain) && 0 < p < n < |chain| && Indexed(nodes, chain, n, m)
    requires key in m && chain[p] == m[key] && SameBut(a, nodes, chain[p]) && Shortened(chain, n, p, c)
    ensures Indexed(a, c, n - 1, m - {key})
    ensures var s := Entries(nodes, chain, n, m); Entries(a, c, n - 1, m - {key}) == s[..p - 1] + s[p..]
  {
    hide Indexed, Entries;
    RemovedIndexed(nodes, chain, n, m, key, p, a, c);
    var s := Entries(nodes, chain, n, m);
    var u, w := Entries(a, c, n - 1, m - {key}), s[..p - 1] + s[p..];
    forall i: nat | i < |u|
      ensures u[i] == w[i]
    {
      var j := if i + 1 < p then i else i + 1;
      EntryAt(a, c, n - 1, m - {key}, i);
      EntryAt(nodes, chain, n, m, j);
      assert chain[j + 1] != chain[p];
    }
  }

  class FastMap<V> {
    var nodes: seq<Node<V>>     // every entry object ever created
    var head: int
    var tail: int
    var table: Table

    ghost var chain: seq<int>
    ghost var n: nat             // the position of tail in the chain
    ghost var m: map<Key, nat>   // the entry of each key

    ghost predicate Valid()
      reads this
    {
      && Chain(nodes, chain) && 0 < n < |chain| && chain[0] == head && chain[n] == tail
      && Indexed(nodes, chain, n, m)
      && table.keyShift == 0 && Tree(table, 0, m)
    }

    /** The contents, in insertion order. */
    ghost function Model(): OrderedMap<V>
      requires Valid()
      reads this
    {
      Entries(nodes, chain, n, m)
    }

    /** A key occurs once, so the laws of Put and Remove apply. */
    lemma OneEntryEach()
      requires Valid()
      ensures OneEach(Model())
    {
      var s := Model();
      forall i, j | 0 <= i < j < |s| ensures s[i].0 != s[j].0 {
        EntryAt(nodes, chain, n, m, i);
        EntryAt(nodes, chain, n, m, j);
        assert chain[i + 1] != chain[j + 1];
      }
    }

    lemma Ends()
      requires Valid()
      ensures 0 <= head < |nodes| && 0 <= tail < |nodes|
      ensures nodes[head].next == chain[1]
      ensures nodes[tail].next == if n + 1 < |chain| then chain[n + 1] else -1
      ensures n + 1 < |chain| ==> chain[n + 1] >= 0
      ensures chain[1] == tail <==> n == 1
    {
      assert LinkedAt(nodes, chain, 0) && LinkedAt(nodes, chain, n);
      if n + 1 < |chain| { assert LinkedAt(nodes, chain, n + 1); }
      if n != 1 { assert chain[1] != chain[n]; }
    }

    /** setup. */
    constructor (capacity: nat)
      ensures Valid() && Model() == [] && |chain| == capacity + 2
      ensures |table.entries| >= 32 && |table.entries| >= 2 * capacity
    {
      var tableLength := 16;
      while tableLength < capacity
        invariant LenOk(tableLength)
        decreases capacity - tableLength
      {
        DoubleLen(tableLength);
        tableLength := 2 * tableLength;
      }
      DoubleLen(tableLength);
      table := Table(Nulls(2 * tableLength), 0, 0, 0, [], false);
      head, tail := 0, 1;
      chain, n, m := [0, 1], 1, map[];
      nodes := [Node(None, None, 1, -1), Node(None, None, -1, 0)];
      new;
      BlankIsTree(table, 0);
      assert LinkedAt(nodes, chain, 0) && LinkedAt(nodes, chain, 1);
      var previous := 1;
      var i := 0;
      while i < capacity
        invariant Valid() && n == 1 && previous == chain[|chain| - 1] && i <= capacity && |chain| == i + 2
        invariant |table.entries| >= 32 && |table.entries| >= 2 * capacity
      {
        previous := NewEntryAfter(previous);
        i := i + 1;
      }
    }

    /** newEntry, linked behind the last node of the pool. */
    method NewEntryAfter(previous: int) returns (entry: int)
      requires Valid() && previous == chain[|chain| - 1]
      modifies this`nodes, this`chain
      ensures Valid() && Model() == old(Model())
      ensures entry == |old(nodes)| && chain == old(chain) + [entry]
    {
      hide Indexed, Entries, Tree;
      ghost var c := chain;
      assert LinkedAt(nodes, chain, |chain| - 1);
      entry := |nodes|;
      nodes := nodes[previous := nodes[previous].(next := entry)] + [Node(None, None, -1, previous)];
      chain := chain + [entry];
      forall i | 0 <= i < |chain| ensures LinkedAt(nodes, chain, i) {
        if i < |c| {
          assert LinkedAt(old(nodes), c, i);
          if i < |c| - 1 { assert c[i] != c[|c| - 1]; }
        }
      }
      assert NoRepeat(chain) by {
        forall i | 0 <= i < |c| ensures c[i] < entry { assert LinkedAt(old(nodes), c, i); }
      }
      forall i | 0 < i < n ensures 0 <= c[i] < entry { assert LinkedAt(old(nodes), c, i); }
      Untouched(old(nodes), c, n, m, nodes, chain);
    }

    /** createNewEntries: eight more entries behind the tail. */
    method CreateNewEntries()
      requires Valid() && 0 <= tail < |nodes| && nodes[tail].next == -1
      modifies this`nodes, this`chain
      ensures Valid() && Model() == old(Model())
      ensures |chain| == |old(chain)| + 8 && old(chain) <= chain
    {
      hide Chain, Indexed, Entries, Tree;
      AtTheEnd();
      var previous := tail;
      for i := 0 to 8
        invariant Valid() && Model() == old(Model()) && previous == chain[|chain| - 1]
        invariant |chain| == |old(chain)| + i && old(chain) <= chain
      {
        previous := NewEntryAfter(previous);
      }
    }

    lemma AtTheEnd()
      requires Valid() && 0 <= tail < |nodes| && nodes[tail].next == -1
      ensures n == |chain| - 1
    {
      Ends();
    }

    /** getEntry and get. */
    method Get(key: Key) returns (value: Option<V>, present: bool)
      requires Valid()
      ensures value == Lookup(Model(), key)
      ensures present <==> Find(Model(), key) < |Model()|
    {
      hide Chain, Indexed, Entries, Tree;
      var found, id := GetEntry(table, key.hash, key, m);
      ghost var p := Locate(key);
      if found { return nodes[id].value, true; }
      return None, false;
    }

    lemma Locate(key: Key) returns (p: nat)
      requires Valid()
      ensures |Model()| == n - 1
      ensures key !in m ==> Find(Model(), key) == n - 1
      ensures key in m ==> 0 < p < n && chain[p] == m[key] && Find(Model(), key) == p - 1
      ensures key in m ==> 0 <= m[key] < |nodes| && Model()[p - 1] == (key, nodes[m[key]].value)
    {
      p := FindEntry(nodes, chain, n, m, key);
    }

    /** put and putIfAbsent: the previous value comes back. */
    method PutValue(key: Key, value: Option<V>, noReplace: bool) returns (previous: Option<V>)
      requires Valid()
      modifies this
      ensures Valid() && Model() == Put(old(Model()), key, value, noReplace)
      ensures previous == Lookup(old(Model()), key)
    {
      hide Chain, Indexed, Entries, Tree;
      Ends();
      ghost var p := Locate(key);
      var t, found, id := Insert(table, key.hash, key, tail, m);
      if found {
        previous := nodes[id].value;
        if !noReplace {
          ValueSet(nodes, chain, n, m, key, value, p);
          nodes := nodes[id := nodes[id].(value := value)];
        }
        return;
      }
      previous := None;
      if nodes[tail].next == -1 { CreateNewEntries(); }
      Ends();
      Appended(nodes, chain, n, m, key, value);
      NextOfTail();
      var next := nodes[tail].next;
      nodes := nodes[tail := nodes[tail].(key := Some(key), value := value)];
      table := t;
      m := m[key := tail];
      n := n + 1;
      tail := next;
      InsertKeepsShift(t, m);
    }

    lemma NextOfTail()
      requires Valid() && n + 1 < |chain|
      ensures 0 <= tail < |nodes| && nodes[tail].next == chain[n + 1]
    {
      Ends();
    }

    lemma InsertKeepsShift(t: Table, m': map<Key, nat>)
      requires Tree(t, 0, m')
      ensures t.keyShift == 0
    {
    }

    /** The entry at position p leaves the list, forgets its key and value, and is linked behind the tail. */
    method Recycle(entry: int, ghost p: nat)
      requires Chain(nodes, chain) && 0 < p < n < |chain| && chain[n] == tail && chain[p] == entry
      modifies this`nodes, this`chain, this`n
      ensures |nodes| == |old(nodes)| && Chain(nodes, chain) && n == old(n) - 1 && |chain| == |old(chain)|
      ensures chain[n] == tail && chain[0] == old(chain)[0]
      ensures chain == old(chain)[..p] + old(chain)[p + 1..old(n) + 1] + [entry] + old(chain)[old(n) + 1..]
      ensures 0 <= entry && SameBut(nodes, old(nodes), entry)
    {
      hide Chain, LinkedAt, NoRepeat, Unlink, LinkAfter;
      ghost var c := chain;
      Unlinked(nodes, chain, p);
      UnlinkKeepsData(nodes, entry);
      nodes := Unlink(nodes, entry);
      chain := c[..p] + c[p + 1..];
      n := n - 1;
      CutOut(old(nodes), c, p, old(n));
      nodes := Forget(nodes, chain, entry);
      Linked(nodes, chain, n, entry);
      LinkKeepsData(nodes, tail, entry);
      nodes := LinkAfter(nodes, tail, entry);
      chain := chain[..n + 1] + [entry] + chain[n + 1..];
    }

    lemma CutOut(ns: seq<Node<V>>, c: seq<int>, p: nat, q: nat)
      requires Chain(ns, c) && 0 < p < q < |c|
      ensures var r := c[..p] + c[p + 1..];
              && c[p] !in r && r[q - 1] == c[q] && r[0] == c[0]
              && r[..q] == c[..p] + c[p + 1..q + 1] && r[q..] == c[q + 1..]
    {
      var r := c[..p] + c[p + 1..];
      forall i | 0 <= i < |r| ensures r[i] != c[p] { assert c[if i < p then i else i + 1] != c[p]; }
    }

    /** A node outside the list loses its key and value. */
    method Forget(ns: seq<Node<V>>, ghost chain: seq<int>, entry: int) returns (r: seq<Node<V>>)
      requires Chain(ns, chain) && 0 <= entry < |ns|
      ensures Chain(r, chain) && r == ns[entry := ns[entry].(key := None, value := None)]
    {
      r := ns[entry := ns[entry].(key := None, value := None)];
      forall i | 0 <= i < |chain| ensures LinkedAt(r, chain, i) { assert LinkedAt(ns, chain, i); }
    }

    /** remove: the entry leaves the list and becomes the first of the pool. */
    method RemoveKey(key: Key) returns (previous: Option<V>)
      requires Valid()
      modifies this
      ensures Valid() && Model() == Remove(old(Model()), key)
      ensures previous == Lookup(old(Model()), key)
    {
      hide Chain, Indexed, Entries, Tree, LinkedAt;
      ghost var p := Locate(key);
      var t, found, id := Delete(table, key.hash, key, m);
      if !found { return None; }
      previous := nodes[id].value;
      Recycle(id, p);
      ChainNoRepeat(old(nodes), old(chain));
      assert Shortened(old(chain), old(n), p, chain);
      Removed(old(nodes), old(chain), old(n), m, key, p, nodes, chain);
      table := t;
      m := m - {key};
      InsertKeepsShift(t, m);
    }

    lemma ChainNoRepeat(ns: seq<Node<V>>, c: seq<int>)
      requires Chain(ns, c)
      ensures NoRepeat(c)
    {
    }

    /** clear: the entries become pool where they stand. */
    method Clear()
      requires Valid()
      modifies this
      ensures Valid() && Model() == []
    {
      hide Indexed, Entries, Tree;
      Ends();
      var end := tail;
      ghost var i := 1;
      var e := nodes[head].next;
      while e != end
        invariant Chain(nodes, chain) && 0 < i <= n < |chain| && e == chain[i] && end == chain[n] && chain[0] == head
        invariant chain == old(chain) && n == old(n) && table == old(table) && m == old(m) && head == old(head)
        decreases n - i
      {
        assert LinkedAt(nodes, chain, i);
        nodes := Forget(nodes, chain, e);
        e := nodes[e].next;
        i := i + 1;
      }
      assert LinkedAt(nodes, chain, 0);
      tail := nodes[head].next;
      n := 1;
      table := ClearTables(table, m);
      m := map[];
      BlankIsTree(table, 0);
      NothingIndexed();
    }

    lemma NothingIndexed()
      requires n == 1 && m == map[] && 1 < |chain|
      ensures Indexed(nodes, chain, n, m) && Entries(nodes, chain, n, m) == []
    {
    }

    /** entrySet().iterator().next(): the oldest entry. */
    method First() returns (key: Key, value: Option<V>)
      requires Valid() && Model() != []
      ensures (key, value) == Model()[0]
    {
      Ends();
      EntryAt(nodes, chain, n, m, 0);
      var e := nodes[head].next;
      key, value := nodes[e].key.value, nodes[e].value;
    }

    /** isEmpty: by the list, not by the tables. */
    method IsEmpty() returns (r: bool)
      requires Valid()
      ensures r <==> Model() == []
    {
      Ends();
      r := nodes[head].next == tail;
    }

    /** size: by the tables, not by the list. */
    method SizeOf() returns (r: int)
      requires Valid()
      ensures r == |Model()|
    {
      r := Size(table, m);
    }
  }
}
