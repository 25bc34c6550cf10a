/** The connection with its statements and buffers together: which streams and bindings a statement has, and the end of
    everything. */
module Database {
  import opened Wrappers
  import opened FastTable
  import opened S = Statements
  import opened D = DirectBuffers
  import F = FastMap

  ghost predicate Once(s: seq<nat>) { forall i, j :: 0 <= i < j < |s| ==> s[i] != s[j] }

  lemma WithoutOne(s: seq<nat>, i: nat)
    requires Once(s) && i < |s|
    ensures var t := s[..i] + s[i + 1..]; Once(t) && forall x :: x in t <==> x in s && x != s[i]
  {
    var t := s[..i] + s[i + 1..];
    assert forall j :: 0 <= j < |t| ==> t[j] == s[if j < i then j else j + 1];
    forall x | x in s && x != s[i] ensures x in t {
      var j :| 0 <= j < |s| && s[j] == x;
      assert t[if j < i then j else j - 1] == x;
    }
  }

  class Database {
    const conn: Connection
    const buffers: Buffers
    var indexOf: map<Stream, nat>             // BindStream.myIndex

    ghost var streamOf: map<Stream, SQLiteStatement>

    /** An open stream is in the list of one statement. */
    ghost predicate StreamLinked(s: Stream)
      reads this, conn, conn.all, buffers
    {
      s in buffers.streams && s in indexOf && s in streamOf && streamOf[s] in conn.all && s in streamOf[s].bindStreams
    }

    ghost predicate ListLinked(st: SQLiteStatement)
      reads this, st
    {
      Once(st.bindStreams) && forall s :: s in st.bindStreams ==> s in streamOf && streamOf[s] == st
    }

    /** SQLite holds blobs for live handles only, and for those with bindings. */
    ghost predicate BindingLinked(p: Param)
      reads conn
    {
      p.stmt in conn.db && conn.db[p.stmt].alive && conn.db[p.stmt].bound
    }

    ghost predicate Linked()
      reads this, conn, conn.all, buffers
    {
      && (forall s :: s in buffers.streams || s in streamOf ==> StreamLinked(s))
      && (forall st :: st in conn.all ==> ListLinked(st))
      && (forall p :: p in buffers.bindings ==> BindingLinked(p))
    }

    ghost predicate Core()
      reads this, conn, conn.cache, conn.all, buffers
    {
      conn.Core() && buffers.Valid() && Linked()
    }

    ghost predicate Valid()
      reads this, conn, conn.cache, conn.all, buffers
    {
      conn.Valid() && Core()
    }

    constructor ()
      ensures Valid()
    {
      conn := new Connection();
      buffers := new Buffers();
      indexOf, streamOf := map[], map[];
      new;
      assert forall st :: st in conn.all ==> ListLinked(st);
    }

    lemma HandleKnown(st: SQLiteStatement)
      requires conn.Core() && st in conn.all
      ensures st.handle == None ==> st.bindStreams == []
      ensures st.handle.Some? ==> st.handle.value in conn.db && conn.db[st.handle.value].alive
                                  && (conn.db[st.handle.value].bound ==> st.hasBindings)
                                  && (st.bindStreams != [] ==> st.hasBindings)
    {
      assert conn.StatementOk(st);
    }

    // -------------------------------------------------------------- streams

    /** prepare(): the new statement has neither streams nor blobs, also when its handle comes from the cache. */
    method Prepare(sql: Sql, useCache: bool, prepareOk: bool) returns (st: SQLiteStatement?)
      requires Valid()
      modifies conn`statements, conn`db, conn`nextHandle, conn`all, conn`owner, conn.cache
      ensures Valid() && (st != null <==> old(conn.open) && (prepareOk || (useCache && old(conn.Cached(sql)).Some?)))
      ensures st != null ==> fresh(st) && st in conn.all && st.sql == sql && st.cached == useCache && st.Untouched()
      ensures st != null ==> st.handle.Some? && forall p :: p in buffers.bindings ==> p.stmt != st.handle.value
    {
      hide Connection.Core, Connection.Valid, Buffers.Valid, F.FastMap.Valid, F.FastMap.Model;
      ConnIsCore();
      st := conn.Prepare(sql, useCache, prepareOk);
      ConnIsCore();
      forall s | s in buffers.streams || s in streamOf ensures StreamLinked(s) { assert old(StreamLinked(s)); }
      forall t | t in conn.all ensures ListLinked(t) {
        if t != st { assert old(ListLinked(t)); }
      }
      forall p | p in buffers.bindings
        ensures BindingLinked(p) && (st != null ==> st.handle != Some(p.stmt))
      {
        assert old(BindingLinked(p));
      }
    }

    lemma ConnIsCore()
      requires conn.Valid()
      ensures conn.Core()
    {
    }

    /** A step on one statement relinks everything, if it leaves the lists, streams and bindings of the others alone. */
    twostate lemma Relink(st: SQLiteStatement)
      requires old(Linked()) && st in conn.all && conn.all == old(conn.all)
      requires forall t :: t in conn.all && t != st ==> t.bindStreams == old(t.bindStreams)
      requires forall s :: s in old(streamOf) && old(streamOf)[s] != st ==>
                 s in streamOf && streamOf[s] == old(streamOf)[s] && s in buffers.streams && s in indexOf
      requires forall s :: s in streamOf || s in buffers.streams ==>
                 (s in old(streamOf) && old(streamOf)[s] != st) || (StreamLinked(s) && streamOf[s] == st)
      requires ListLinked(st)
      requires forall p :: p in buffers.bindings ==> BindingLinked(p)
      ensures Linked()
    {
      forall s | s in buffers.streams || s in streamOf ensures StreamLinked(s) {
        if s in old(streamOf) && old(streamOf)[s] != st { assert old(StreamLinked(s)); }
      }
      forall t | t in conn.all ensures ListLinked(t) {
        if t != st { assert old(ListLinked(t)); }
      }
    }

    /** Handles with bindings are as they were. */
    twostate lemma BindingsKept()
      requires old(Linked()) && conn.db == old(conn.db) && buffers.bindings == old(buffers.bindings)
      ensures forall p :: p in buffers.bindings ==> BindingLinked(p)
    {
      forall p | p in buffers.bindings ensures BindingLinked(p) { assert old(BindingLinked(p)); }
    }

    /** The buffer of the stream has room for so many more bytes. */
    predicate Room(s: Stream, len: int)
      reads buffers
    {
      s in buffers.streams && buffers.streams[s] in buffers.mem &&
      var b := buffers.mem[buffers.streams[s]]; b.Capacity() - |b.data| >= len
    }

    /** The buffer for a new stream. */
    method NewStream(minimumSize: int, allocOk: bool) returns (ok: bool, s: Stream)
      requires buffers.Valid() && minimumSize <= MAX_REQUEST
      modifies buffers
      ensures buffers.Valid() && buffers.bindings == old(buffers.bindings)
      ensures buffers.streams.Keys == old(buffers.streams).Keys + if ok then {s} else {}
      ensures ok ==> s !in old(buffers.streams) && Room(s, minimumSize) && buffers.Written(s) == []
      ensures buffers.Kept() && (allocOk ==> ok)
    {
      hide Buffers.Valid, Buffers.OthersKept;
      var a;
      ok, s, a := buffers.AllocateBuffer(minimumSize, allocOk);
    }

    /** The stream s has been added to the list of its statement. */
    twostate lemma LinkOpened(s: Stream)
      requires old(Linked()) && s in streamOf && streamOf[s] in conn.all && conn.all == old(conn.all)
      requires forall t :: t in conn.all && t != streamOf[s] ==> t.bindStreams == old(t.bindStreams)
      requires var st := streamOf[s]; st.bindStreams == old(st.bindStreams) + [s]
      requires s !in old(buffers.streams)
      requires buffers.streams.Keys == old(buffers.streams).Keys + {s}
      requires streamOf == old(streamOf)[s := streamOf[s]] && s in indexOf && old(indexOf).Keys <= indexOf.Keys
      requires conn.db == old(conn.db) && buffers.bindings == old(buffers.bindings)
      ensures Linked()
    {
      hide Linked, BindingLinked;
      var st := streamOf[s];
      OldLinks(st);
      assert st.bindStreams[|st.bindStreams| - 1] == s;
      BindingsKept();
      Relink(st);
    }

    /** bindStream(). */
    method OpenStream(st: SQLiteStatement, index: nat, minimumSize: int, allocOk: bool) returns (threw: bool)
      requires Valid() && st in conn.all && minimumSize <= MAX_REQUEST
      modifies this, buffers, st`hasBindings, st`bindStreams
      ensures Valid() && buffers.Kept() && buffers.bindings == old(buffers.bindings)
      ensures (st.handle == None ==> threw) && (threw ==> st.handle == None || !allocOk)
      ensures threw ==> st.bindStreams == old(st.bindStreams) && indexOf == old(indexOf)
                        && buffers.streams.Keys == old(buffers.streams).Keys
      ensures !threw ==> |st.bindStreams| > 0 && var s := st.bindStreams[|st.bindStreams| - 1];
                         && st.bindStreams == old(st.bindStreams) + [s] && s !in old(buffers.streams)
                         && buffers.streams.Keys == old(buffers.streams).Keys + {s}
                         && indexOf == old(indexOf)[s := index] && Room(s, minimumSize) && buffers.Written(s) == []
    {
      hide Connection.Core, Connection.Valid, Connection.StatementOk, Buffers.Valid, F.FastMap.Valid, F.FastMap.Model;
      hide Linked, BindingLinked, StreamLinked, ListLinked;
      ConnIsCore();
      if st.handle == None { return true; }
      var ok, s := NewStream(minimumSize, allocOk);
      threw := conn.BindStream(st, s, ok);
      ConnIsCore();
      if !threw {
        indexOf := indexOf[s := index];
        streamOf := streamOf[s := st];
        LinkOpened(s);
      } else {
        Untouched();
      }
    }

    twostate lemma Untouched()
      requires old(Linked()) && conn.all == old(conn.all)
               && forall t :: t in conn.all ==> t.bindStreams == old(t.bindStreams)
      requires buffers.streams.Keys == old(buffers.streams).Keys && streamOf == old(streamOf) && indexOf == old(indexOf)
      requires conn.db == old(conn.db) && buffers.bindings == old(buffers.bindings)
      ensures Linked()
    {
      BindingsKept();
      ListsKept();
    }

    twostate lemma OldLinks(st: SQLiteStatement)
      requires old(Linked()) && st in old(conn.all)
      ensures old(ListLinked(st))
      ensures forall s :: s in old(streamOf) || s in old(buffers.streams) ==> old(StreamLinked(s))
    {
    }

    /** The stream s has left the list of its statement. */
    twostate lemma LinkDropped(s: Stream)
      requires old(Linked()) && s in old(streamOf) && conn.all == old(conn.all)
      requires streamOf == old(streamOf) - {s} && buffers.streams.Keys == old(buffers.streams).Keys - {s}
      requires indexOf == old(indexOf)
      requires var st := old(streamOf)[s]; st in conn.all && Once(st.bindStreams)
      requires var st := old(streamOf)[s]; forall x :: x in st.bindStreams <==> x in old(st.bindStreams) && x != s
      requires forall t :: t in conn.all && t != old(streamOf)[s] ==> t.bindStreams == old(t.bindStreams)
      requires forall p :: p in buffers.bindings ==> BindingLinked(p)
      ensures Linked()
    {
      hide Linked, BindingLinked, Once;
      var st := old(streamOf)[s];
      OldLinks(st);
      Relink(st);
    }

    /** BindStream.dispose(). */
    method DropStream(st: SQLiteStatement, i: nat)
      requires Valid() && st in conn.all && i < |st.bindStreams|
      modifies this`streamOf, buffers, st`bindStreams
      ensures Valid() && st.bindStreams == old(st.bindStreams)[..i] + old(st.bindStreams)[i + 1..]
      ensures buffers.bindings == old(buffers.bindings) && buffers.Kept()
      ensures buffers.streams.Keys == old(buffers.streams).Keys - {old(st.bindStreams)[i]}
    {
      hide Connection.Core, Connection.Valid, Connection.StatementOk, Buffers.Valid, F.FastMap.Valid, F.FastMap.Model;
      hide Linked, BindingLinked, StreamLinked, Buffers.OthersKept, Once;
      ConnIsCore();
      var s := ListedStream(st, i);
      buffers.DisposeStream(s);
      conn.DiscardStream(st, i);
      ConnIsCore();
      streamOf := streamOf - {s};
      BindingsKept();
      LinkDropped(s);
    }

    /** The i-th stream of a statement. */
    method ListedStream(st: SQLiteStatement, i: nat) returns (s: Stream)
      requires Linked() && st in conn.all && i < |st.bindStreams|
      ensures s == st.bindStreams[i] && s in streamOf && streamOf[s] == st && s in buffers.streams && s in indexOf
      ensures var t := st.bindStreams[..i] + st.bindStreams[i + 1..];
              Once(t) && forall x :: x in t <==> x in st.bindStreams && x != s
    {
      s := st.bindStreams[i];
      assert ListLinked(st);
      assert s in st.bindStreams;
      assert StreamLinked(s);
      WithoutOne(st.bindStreams, i);
    }

    /** BindStream.write(): a stream that cannot grow leaves the list. */
    method WriteStream(st: SQLiteStatement, i: nat, bytes: seq<int>, allocOk: bool) returns (ok: bool)
      requires Valid() && st in conn.all && i < |st.bindStreams|
      requires CanGrow(st.bindStreams[i], |bytes|)
      modifies this`streamOf, buffers, st`bindStreams
      ensures Valid() && (allocOk || old(Room(st.bindStreams[i], |bytes|)) ==> ok)
      ensures buffers.streams.Keys == old(buffers.streams).Keys - if ok then {} else {old(st.bindStreams)[i]}
      ensures forall r :: r in buffers.streams && r != old(st.bindStreams)[i] ==>
                buffers.Written(r) == old(buffers.Written(r))
      ensures buffers.bindings == old(buffers.bindings)
      ensures forall p :: p in buffers.bindings ==> buffers.BoundBytes(p) == old(buffers.BoundBytes(p))
      ensures ok ==> st.bindStreams == old(st.bindStreams)
                     && buffers.Written(st.bindStreams[i]) == old(buffers.Written(st.bindStreams[i])) + bytes
      ensures !ok ==> st.bindStreams == old(st.bindStreams)[..i] + old(st.bindStreams)[i + 1..]
    {
      hide Connection.Core, Connection.Valid, Connection.StatementOk, Buffers.Valid, F.FastMap.Valid, F.FastMap.Model;
      hide Linked, BindingLinked, StreamLinked, ListLinked, Once, Buffers.Written;
      ConnIsCore();
      var s := ListedStream(st, i);
      ok := buffers.Write(s, bytes, allocOk);
      if ok {
        Untouched();
      } else {
        conn.DiscardStream(st, i);
        ConnIsCore();
        streamOf := streamOf - {s};
        BindingsKept();
        LinkDropped(s);
      }
    }

    predicate CanGrow(s: Stream, len: int)
      reads buffers
    {
      s in buffers.streams && buffers.streams[s] in buffers.mem &&
      var b := buffers.mem[buffers.streams[s]];
      b.Capacity() - |b.data| < len ==> b.Capacity() + len <= MAX_REQUEST
    }

    /** Bindings of other handles are as they were; those of the statement's own are new or kept. */
    twostate lemma BindingsAfterClose(s: Stream)
      requires old(Linked()) && s in old(streamOf) && old(streamOf)[s].handle.Some?
      requires var h := old(streamOf)[s].handle.value;
               && h in conn.db && h in old(conn.db) && conn.db[h].alive && (old(conn.db)[h].bound ==> conn.db[h].bound)
               && conn.db.Keys == old(conn.db).Keys
               && (forall i :: i in conn.db && i != h ==> conn.db[i] == old(conn.db)[i])
               && forall p :: p in buffers.bindings && p !in old(buffers.bindings) ==> p.stmt == h && conn.db[h].bound
      ensures forall p :: p in buffers.bindings ==> BindingLinked(p)
    {
      forall p | p in buffers.bindings ensures BindingLinked(p) {
        if p in old(buffers.bindings) { assert old(BindingLinked(p)); }
      }
    }

    method CloseBuffer(s: Stream, p: Param, accepted: bool, oldGone: bool, destructorRan: bool)
      requires buffers.Valid() && s in buffers.streams
      modifies buffers
      ensures buffers.Valid() && buffers.streams.Keys == old(buffers.streams).Keys - {s}
      ensures forall q :: q in buffers.bindings ==> q in old(buffers.bindings) || (q == p && accepted)
      ensures buffers.bindings.Keys == if accepted then old(buffers.bindings).Keys + {p}
                                       else if oldGone then old(buffers.bindings).Keys - {p}
                                       else old(buffers.bindings).Keys
      ensures forall r :: r in buffers.streams ==> buffers.Written(r) == old(buffers.Written(r))
      ensures forall q :: q in buffers.bindings && q != p ==> buffers.BoundBytes(q) == old(buffers.BoundBytes(q))
      ensures accepted ==> p in buffers.bindings && buffers.BoundBytes(p) == old(buffers.Written(s))
    {
      hide Buffers.Valid, Buffers.Written, Buffers.BoundBytes;
      buffers.CloseStream(s, p, accepted, oldGone, destructorRan);
    }

    /** BindStream.close(). */
    method CloseStream(st: SQLiteStatement, i: nat, accepted: bool, oldGone: bool, destructorRan: bool)
      requires Valid() && st in conn.all && i < |st.bindStreams| && st.handle.Some?
      modifies this`streamOf, buffers, conn`db, st`bindStreams
      ensures Valid() && st.bindStreams == old(st.bindStreams)[..i] + old(st.bindStreams)[i + 1..]
      ensures buffers.streams.Keys == old(buffers.streams).Keys - {old(st.bindStreams)[i]}
      ensures old(st.bindStreams)[i] in indexOf
      ensures var p := Param(st.handle.value, indexOf[old(st.bindStreams)[i]]);
              && buffers.bindings.Keys == (if accepted then old(buffers.bindings).Keys + {p}
                                           else if oldGone then old(buffers.bindings).Keys - {p}
                                           else old(buffers.bindings).Keys)
              && (accepted ==> buffers.BoundBytes(p) == old(buffers.Written(st.bindStreams[i])))
              && forall q :: q in buffers.bindings && q != p ==> buffers.BoundBytes(q) == old(buffers.BoundBytes(q))
      ensures forall r :: r in buffers.streams ==> buffers.Written(r) == old(buffers.Written(r))
    {
      hide Connection.Core, Connection.Valid, Connection.StatementOk, Buffers.Valid, F.FastMap.Valid, F.FastMap.Model;
      hide Linked, BindingLinked, StreamLinked, ListLinked, Once, Buffers.Written, Buffers.BoundBytes, Later;
      ConnIsCore();
      HandleKnown(st);
      var s := ListedStream(st, i);
      CloseBuffer(s, Param(st.handle.value, indexOf[s]), accepted, oldGone, destructorRan);
      conn.CloseStream(st, i, accepted);
      ConnIsCore();
      streamOf := streamOf - {s};
      BindingsAfterClose(s);
      LinkDropped(s);
    }

    /** After a step on one statement: no new bindings, other handles as they were, and the statement's own handle still
        alive and bound as far as it has bindings. */
    twostate lemma BindingsAfter(st: SQLiteStatement)
      requires old(Linked()) && conn.db.Keys == old(conn.db).Keys
      requires forall p :: p in buffers.bindings ==> p in old(buffers.bindings)
      requires forall h :: h in conn.db && old(st.handle) != Some(h) ==> conn.db[h] == old(conn.db)[h]
      requires forall p :: p in buffers.bindings && old(st.handle) == Some(p.stmt) ==>
                 p.stmt in conn.db && conn.db[p.stmt].alive && conn.db[p.stmt].bound
      ensures forall p :: p in buffers.bindings ==> BindingLinked(p)
    {
      forall p | p in buffers.bindings ensures BindingLinked(p) { assert old(BindingLinked(p)); }
    }

    /** The streams and lists are as they were. */
    twostate lemma ListsKept()
      requires old(Linked()) && conn.all == old(conn.all)
               && forall t :: t in conn.all ==> t.bindStreams == old(t.bindStreams)
      requires buffers.streams.Keys == old(buffers.streams).Keys && streamOf == old(streamOf) && indexOf == old(indexOf)
      requires forall p :: p in buffers.bindings ==> BindingLinked(p)
      ensures Linked()
    {
      forall s | s in buffers.streams || s in streamOf ensures StreamLinked(s) { assert old(StreamLinked(s)); }
      forall t | t in conn.all ensures ListLinked(t) { assert old(ListLinked(t)); }
    }

    // -------------------------------------------------------------- statements at work

    /** The blobs SQLite holds for other handles are as they were. */
    twostate predicate BlobsElsewhere(h: Handle)
      reads buffers
    {
      forall q: Param :: q.stmt != h ==>
        (q in buffers.bindings <==> q in old(buffers.bindings)) &&
        (q in buffers.bindings ==> buffers.BoundBytes(q) == old(buffers.BoundBytes(q)))
    }

    /** The streams that were not the statement's are as they were. */
    twostate predicate StreamsElsewhere(st: SQLiteStatement)
      reads buffers
    {
      forall r :: r in old(buffers.streams) && r !in old(st.bindStreams) ==>
        r in buffers.streams && buffers.Written(r) == old(buffers.Written(r))
    }

    /** The parameter of the i-th stream of a list. */
    function ParamOf(h: Handle, list: seq<Stream>, i: nat): Param
      requires i < |list|
      reads this`indexOf
    {
      Param(h, if list[i] in indexOf then indexOf[list[i]] else 0)
    }

    /** Among the streams closed so far, the i-th was accepted and none behind it was for the same parameter. */
    predicate LastFor(h: Handle, list: seq<Stream>, accepted: seq<bool>, i: nat, closed: nat)
      requires i < closed <= |list| == |accepted|
      reads this`indexOf
    {
      accepted[i] && forall k :: i < k < closed ==> ParamOf(h, list, k) != ParamOf(h, list, i)
    }

    /** What the first streams of a list held has been bound, where it was accepted and not replaced. */
    ghost predicate Delivered(h: Handle, list: seq<Stream>, accepted: seq<bool>, closed: nat, written: seq<seq<int>>)
      requires closed <= |list| == |accepted| == |written|
      reads this`indexOf, buffers
    {
      forall i :: 0 <= i < closed && LastFor(h, list, accepted, i, closed) ==>
        ParamOf(h, list, i) in buffers.bindings && buffers.BoundBytes(ParamOf(h, list, i)) == written[i]
    }

    /** The next stream of the list is closed. */
    method CloseNext(st: SQLiteStatement, list: seq<Stream>, accepted: seq<bool>, k: nat, ghost written: seq<seq<int>>)
      requires Valid() && st in conn.all && st.handle.Some? && k < |list| == |accepted| == |written|
      requires st.bindStreams == list[k..] && written[k] == buffers.Written(list[k])
      requires Delivered(st.handle.value, list, accepted, k, written)
      modifies this`streamOf, buffers, conn`db, st`bindStreams
      ensures Valid() && st.bindStreams == list[k + 1..]
      ensures buffers.streams.Keys == old(buffers.streams).Keys - {list[k]} && BlobsElsewhere(st.handle.value)
      ensures forall r :: r in buffers.streams ==> buffers.Written(r) == old(buffers.Written(r))
      ensures Delivered(st.handle.value, list, accepted, k + 1, written)
    {
      hide Connection.Core, Connection.Valid, Connection.StatementOk, Buffers.Valid, F.FastMap.Valid, F.FastMap.Model;
      hide Linked, Buffers.Written, Buffers.BoundBytes;
      var oldGone, destructorRan := *, *;
      ghost var h := st.handle.value;
      assert st.bindStreams[0] == list[k];
      CloseStream(st, 0, accepted[k], oldGone, destructorRan);
      assert ParamOf(h, list, k) == Param(h, indexOf[list[k]]);
      forall i | 0 <= i < k + 1 && LastFor(h, list, accepted, i, k + 1)
        ensures ParamOf(h, list, i) in buffers.bindings && buffers.BoundBytes(ParamOf(h, list, i)) == written[i]
      {
        if i < k {
          assert ParamOf(h, list, k) != ParamOf(h, list, i);
          assert LastFor(h, list, accepted, i, k);
        }
      }
    }

    /** step(): every open stream is closed in order, then SQLite steps. What was written to a stream is bound to its
        parameter if SQLite accepts it and no later stream is for the same one. */
    method Step(st: SQLiteStatement, accepted: seq<bool>, code: StepCode) returns (threw: bool, row: bool)
      requires Valid() && st in conn.all && |accepted| == |st.bindStreams|
      modifies this`streamOf, buffers, conn`db, st`bindStreams, st`hasRow, st`stepped
      ensures Valid() && StreamsElsewhere(st)
      ensures st.handle.Some? ==> st.bindStreams == [] && BlobsElsewhere(st.handle.value)
      ensures threw <==> st.handle == None || st.cancelled || code == FAILED
      ensures !threw ==> row == st.hasRow == (code == ROW)
      ensures st.handle.Some? ==>
                Delivered(st.handle.value, old(st.bindStreams), accepted, |accepted|, old(WrittenTo(st.bindStreams)))
    {
      hide Connection.Core, Connection.Valid, Connection.StatementOk, Buffers.Valid, F.FastMap.Valid, F.FastMap.Model;
      hide Linked, Buffers.Written, Buffers.BoundBytes;
      if st.handle == None {
        ConnIsCore();
        return true, false;
      }
      var list := st.bindStreams;
      ghost var h, written := st.handle.value, WrittenTo(list);
      ListKnown(st);
      var k := 0;
      while st.bindStreams != []
        invariant Valid() && st.handle == Some(h) && st.hasRow == old(st.hasRow)
        invariant 0 <= k <= |list| && st.bindStreams == list[k..] && Once(list)
        invariant forall r :: r in buffers.streams <==> r in old(buffers.streams) && r !in list[..k]
        invariant forall r :: r in buffers.streams ==> buffers.Written(r) == old(buffers.Written(r))
        invariant BlobsElsewhere(h) && Delivered(h, list, accepted, k, written)
        decreases |st.bindStreams|
      {
        ListKnown(st);
        assert list[k] in st.bindStreams;
        CloseNext(st, list, accepted, k, written);
        assert list[..k + 1] == list[..k] + [list[k]];
        k := k + 1;
      }
      threw, row := StepAlone(st, code);
    }

    /** What has been written to the streams of a list. */
    ghost function WrittenTo(list: seq<Stream>): (w: seq<seq<int>>)
      reads buffers
      ensures |w| == |list| && forall i :: 0 <= i < |list| ==> w[i] == buffers.Written(list[i])
    {
      seq(|list|, i requires 0 <= i < |list| reads buffers => buffers.Written(list[i]))
    }

    lemma ListKnown(st: SQLiteStatement)
      requires Valid() && st in conn.all
      ensures Once(st.bindStreams) && forall s :: s in st.bindStreams ==> s in buffers.streams && s in indexOf
    {
      assert ListLinked(st);
      forall s | s in st.bindStreams ensures s in buffers.streams && s in indexOf { assert StreamLinked(s); }
    }

    method StepAlone(st: SQLiteStatement, code: StepCode) returns (threw: bool, row: bool)
      requires Valid() && st in conn.all && st.bindStreams == [] && st.handle.Some?
      modifies conn`db, st`bindStreams, st`hasRow, st`stepped
      ensures Valid() && st.bindStreams == []
      ensures threw <==> st.cancelled || code == FAILED
      ensures !threw ==> row == st.hasRow == (code == ROW)
    {
      hide Connection.Core, Connection.Valid, Connection.StatementOk, Buffers.Valid, F.FastMap.Valid, F.FastMap.Model;
      hide Linked, StreamLinked, ListLinked, Later;
      ConnIsCore();
      threw, row := conn.Step(st, [], code);
      ConnIsCore();
      HandleKnown(st);
      OldBindings(st);
      BindingsAfter(st);
      ListsKept();
    }

    twostate lemma OldBindings(st: SQLiteStatement)
      requires old(Linked())
      ensures forall p :: p in old(buffers.bindings) ==>
                p.stmt in old(conn.db) && old(conn.db)[p.stmt].alive && old(conn.db)[p.stmt].bound
    {
      forall p | p in old(buffers.bindings)
        ensures p.stmt in old(conn.db) && old(conn.db)[p.stmt].alive && old(conn.db)[p.stmt].bound
      {
        assert old(BindingLinked(p));
      }
    }

    /** The blob SQLite holds for a parameter, if any, is released. */
    method Release(p: Param)
      requires buffers.Valid()
      modifies buffers
      ensures buffers.Valid() && buffers.streams == old(buffers.streams)
      ensures buffers.Kept()
      ensures buffers.mem.Keys == old(buffers.mem).Keys
      ensures buffers.bindings == old(buffers.bindings) - {p}
    {
      hide Buffers.Valid, Buffers.OthersKept;
      if p in buffers.bindings {
        buffers.Unbind(p);
      } else {
        assert buffers.bindings - {p} == buffers.bindings;
      }
    }

    /** bind() of a value to a parameter, which may hold a blob. */
    method Bind(st: SQLiteStatement, index: nat, ok: bool) returns (threw: bool)
      requires Valid() && st in conn.all
      modifies buffers, conn`db, st`hasBindings
      ensures Valid() && (threw <==> st.handle == None || !ok)
      ensures !threw ==> st.hasBindings && st.handle.value in conn.db && conn.db[st.handle.value].bound
      ensures buffers.streams == old(buffers.streams) && buffers.Kept()
      ensures buffers.bindings.Keys ==
                old(buffers.bindings).Keys - if threw then {} else {Param(st.handle.value, index)}
    {
      hide Connection.Core, Connection.Valid, Connection.StatementOk, Buffers.Valid, F.FastMap.Valid, F.FastMap.Model;
      hide Linked, StreamLinked, ListLinked;
      ConnIsCore();
      if st.handle == None || !ok { return true; }
      HandleKnown(st);
      OldBindings(st);
      Release(Param(st.handle.value, index));
      threw := conn.Bind(st, ok);
      ConnIsCore();
      BindingsAfter(st);
      ListsKept();
    }

    /** bindNull(). */
    method BindNull(st: SQLiteStatement, index: nat, ok: bool) returns (threw: bool)
      requires Valid() && st in conn.all
      modifies buffers, conn`db
      ensures Valid() && (threw <==> st.handle == None || !ok)
      ensures buffers.streams == old(buffers.streams) && buffers.Kept()
      ensures buffers.bindings.Keys ==
                old(buffers.bindings).Keys - if threw then {} else {Param(st.handle.value, index)}
    {
      hide Connection.Core, Connection.Valid, Connection.StatementOk, Buffers.Valid, F.FastMap.Valid, F.FastMap.Model;
      hide Linked, StreamLinked, ListLinked, Later;
      ConnIsCore();
      if st.handle == None || !ok { return true; }
      HandleKnown(st);
      OldBindings(st);
      Release(Param(st.handle.value, index));
      var otherValue := *;
      var blobsLeft := exists q :: q in buffers.bindings && q.stmt == st.handle.value;
      threw := conn.BindNull(st, ok, otherValue || blobsLeft);
      ConnIsCore();
      HandleKnown(st);
      BindingsAfter(st);
      ListsKept();
    }

    // -------------------------------------------------------------- end to end

    /** bindStream(index), write(bytes), close(): SQLite reads exactly these bytes for exactly this parameter, and
        everything else is as it was. */
    method BindBlob(st: SQLiteStatement, index: nat, bytes: seq<int>)
      requires Valid() && st in conn.all && st.handle.Some? && |bytes| <= MAX_REQUEST
      modifies this, buffers, conn`db, st`hasBindings, st`bindStreams
      ensures Valid() && st.bindStreams == old(st.bindStreams) && buffers.streams.Keys == old(buffers.streams).Keys
      ensures buffers.bindings.Keys == old(buffers.bindings).Keys + {Param(st.handle.value, index)}
      ensures buffers.BoundBytes(Param(st.handle.value, index)) == bytes
      ensures forall q :: q in old(buffers.bindings) && q != Param(st.handle.value, index) ==>
                buffers.BoundBytes(q) == old(buffers.BoundBytes(q))
      ensures forall r :: r in buffers.streams ==> buffers.Written(r) == old(buffers.Written(r))
    {
      hide Connection.Core, Connection.Valid, Connection.StatementOk, Buffers.Valid, F.FastMap.Valid, F.FastMap.Model;
      hide Linked, Buffers.Written, Buffers.BoundBytes;
      var _ := OpenStream(st, index, |bytes|, true);
      ghost var s := st.bindStreams[|st.bindStreams| - 1];
      var last := |st.bindStreams| - 1;
      var _ := WriteStream(st, last, bytes, true);
      CloseStream(st, last, true, false, false);
    }

    /** bindStream(index), write(bytes), step(): the stream was not closed, and yet SQLite reads the bytes. */
    method StepBindsBlob(st: SQLiteStatement, index: nat, bytes: seq<int>, code: StepCode)
      requires Valid() && st in conn.all && st.handle.Some? && |bytes| <= MAX_REQUEST
      modifies this, buffers, conn`db, st`hasBindings, st`bindStreams, st`hasRow, st`stepped
      ensures Valid() && st.bindStreams == []
      ensures Param(st.handle.value, index) in buffers.bindings
      ensures buffers.BoundBytes(Param(st.handle.value, index)) == bytes
    {
      hide Connection.Core, Connection.Valid, Connection.StatementOk, Buffers.Valid, F.FastMap.Valid, F.FastMap.Model;
      hide Linked, Buffers.Written, Buffers.BoundBytes;
      var _ := OpenStream(st, index, |bytes|, true);
      var last := |st.bindStreams| - 1;
      var _ := WriteStream(st, last, bytes, true);
      var list := st.bindStreams;
      var all := seq(|list|, _ => true);
      var _, _ := Step(st, all, code);
      assert LastFor(st.handle.value, list, all, last, |all|);
    }

    // -------------------------------------------------------------- clearing

    /** clearBindStreams(false): the buffers of all streams of a statement are let go. */
    method ReleaseStreams(st: SQLiteStatement)
      requires buffers.Valid() && Once(st.bindStreams) && forall s :: s in st.bindStreams ==> s in buffers.streams
      modifies buffers
      ensures buffers.Valid() && buffers.bindings == old(buffers.bindings)
      ensures buffers.Kept()
      ensures buffers.mem.Keys == old(buffers.mem).Keys
      ensures forall s :: s in buffers.streams <==> s in old(buffers.streams) && s !in st.bindStreams
    {
      hide Buffers.Valid, Buffers.OthersKept;
      var i := 0;
      while i < |st.bindStreams|
        invariant 0 <= i <= |st.bindStreams| && buffers.Valid() && buffers.bindings == old(buffers.bindings)
        invariant buffers.Kept()
        invariant buffers.mem.Keys == old(buffers.mem).Keys
        invariant forall s :: s in buffers.streams <==> s in old(buffers.streams) && s !in st.bindStreams[..i]
      {
        var s := st.bindStreams[i];
        assert s in st.bindStreams && s !in st.bindStreams[..i];
        assert st.bindStreams[..i + 1] == st.bindStreams[..i] + [s];
        buffers.DisposeStream(s);
        i := i + 1;
      }
      assert st.bindStreams[..i] == st.bindStreams;
    }

    /** SQLite releases all blobs of a handle: sqlite3_clear_bindings, or sqlite3_finalize. */
    method ReleaseBindings(h: Handle)
      requires buffers.Valid()
      modifies buffers
      ensures buffers.Valid() && buffers.streams == old(buffers.streams)
      ensures buffers.Kept()
      ensures buffers.mem.Keys == old(buffers.mem).Keys
      ensures forall p :: p in buffers.bindings <==> p in old(buffers.bindings) && p.stmt != h
    {
      hide Buffers.Valid, Buffers.OthersKept;
      while exists p :: p in buffers.bindings && p.stmt == h
        invariant buffers.Valid() && buffers.streams == old(buffers.streams)
        invariant buffers.Kept()
        invariant buffers.mem.Keys == old(buffers.mem).Keys
        invariant forall p :: p in buffers.bindings ==> p in old(buffers.bindings)
        invariant forall p :: p in old(buffers.bindings) && p.stmt != h ==> p in buffers.bindings
        decreases |buffers.bindings|
      {
        var p :| p in buffers.bindings && p.stmt == h;
        ghost var before := buffers.bindings;
        Release(p);
        assert before.Keys == buffers.bindings.Keys + {p};
      }
    }

    /** The streams of a statement as map without them. */
    ghost function Without(st: SQLiteStatement): map<Stream, SQLiteStatement>
      reads this, st
    {
      map s | s in streamOf && s !in st.bindStreams :: streamOf[s]
    }

    twostate lemma LinkCleared(st: SQLiteStatement)
      requires old(Linked()) && st in conn.all && conn.all == old(conn.all) && indexOf == old(indexOf)
      requires forall t :: t in conn.all && t != st ==> t.bindStreams == old(t.bindStreams)
      requires st.bindStreams == [] && streamOf == old(Without(st))
      requires forall s :: s in buffers.streams <==> s in old(buffers.streams) && s !in old(st.bindStreams)
      requires forall p :: p in buffers.bindings ==> BindingLinked(p)
      ensures Linked()
    {
      hide Linked, BindingLinked;
      OldLinks(st);
      Relink(st);
    }

    lemma OwnStreams(st: SQLiteStatement)
      requires Linked() && st in conn.all
      ensures Once(st.bindStreams) && forall s :: s in st.bindStreams ==> s in buffers.streams
    {
      assert ListLinked(st);
      forall s | s in st.bindStreams ensures s in buffers.streams { assert StreamLinked(s); }
    }

    /** clearBindings(). */
    method ClearBindings(st: SQLiteStatement, ok: bool) returns (threw: bool)
      requires Valid() && st in conn.all
      modifies this`streamOf, buffers, conn`db, st`bindStreams, st`hasBindings
      ensures Valid() && (threw <==> old(st.hasBindings) && (st.handle == None || !ok))
      ensures threw ==> unchanged(buffers) && st.bindStreams == old(st.bindStreams)
      ensures !threw ==> st.bindStreams == [] && forall s :: s in old(st.bindStreams) ==> s !in buffers.streams
      ensures StreamsElsewhere(st) && buffers.Kept() && (st.handle.Some? ==> BlobsElsewhere(st.handle.value))
      ensures !threw && st.handle.Some? ==> forall p :: p in buffers.bindings ==> p.stmt != st.handle.value
    {
      hide Connection.Core, Connection.Valid, Connection.StatementOk, Buffers.Valid, F.FastMap.Valid, F.FastMap.Model;
      hide Linked, StreamLinked, ListLinked, Later, Once, BindingLinked;
      ConnIsCore();
      HandleKnown(st);
      OldBindings(st);
      if !ok || st.handle == None || !st.hasBindings {
        return st.hasBindings;
      }
      OwnStreams(st);
      streamOf := Without(st);
      ReleaseStreams(st);
      ReleaseBindings(st.handle.value);
      threw := conn.ClearBindings(st, ok);
      ConnIsCore();
      BindingsAfter(st);
      LinkCleared(st);
    }

    /** reset(). */
    method Reset(st: SQLiteStatement, clearBindings: bool, ok: bool) returns (threw: bool)
      requires Valid() && st in conn.all
      modifies this`streamOf, buffers, conn`db, st
      ensures Valid() && st.handle == old(st.handle)
      ensures threw <==> st.handle == None || (clearBindings && old(st.hasBindings) && !ok)
      ensures threw || !clearBindings ==> unchanged(buffers) && st.bindStreams == old(st.bindStreams)
      ensures !threw && clearBindings ==>
                st.bindStreams == [] && forall s :: s in old(st.bindStreams) ==> s !in buffers.streams
      ensures StreamsElsewhere(st) && buffers.Kept() && (st.handle.Some? ==> BlobsElsewhere(st.handle.value))
      ensures !threw && clearBindings ==> forall p :: p in buffers.bindings ==> Some(p.stmt) != st.handle
    {
      hide Connection.Core, Connection.Valid, Connection.StatementOk, Buffers.Valid, F.FastMap.Valid, F.FastMap.Model;
      hide Linked, StreamLinked, ListLinked, Later, Once, BindingLinked;
      ConnIsCore();
      HandleKnown(st);
      OldBindings(st);
      if clearBindings && ok && st.handle.Some? && st.hasBindings {
        OwnStreams(st);
        streamOf := Without(st);
        ReleaseStreams(st);
        ReleaseBindings(st.handle.value);
        threw := conn.Reset(st, clearBindings, ok);
        ConnIsCore();
        BindingsAfter(st);
        LinkCleared(st);
      } else {
        threw := ResetAlone(st, clearBindings, ok);
      }
    }

    /** reset() where it clears nothing. */
    method ResetAlone(st: SQLiteStatement, clearBindings: bool, ok: bool) returns (threw: bool)
      requires Valid() && st in conn.all
      requires !clearBindings || !ok || st.handle == None || !st.hasBindings
      modifies conn`db, st
      ensures Valid() && st.handle == old(st.handle) && st.bindStreams == old(st.bindStreams)
      ensures threw <==> st.handle == None || (clearBindings && old(st.hasBindings) && !ok)
    {
      hide Connection.Core, Connection.Valid, Connection.StatementOk, Buffers.Valid, F.FastMap.Valid, F.FastMap.Model;
      hide Linked, StreamLinked, ListLinked, Later, BindingLinked;
      ConnIsCore();
      HandleKnown(st);
      OldBindings(st);
      threw := conn.Reset(st, clearBindings, ok);
      ConnIsCore();
      HandleKnown(st);
      BindingsAfter(st);
      ListsKept();
    }

    // -------------------------------------------------------------- the end

    /** clear() and the release of the handle: the statement is left without streams and bindings. */
    method LetGo(st: SQLiteStatement)
      requires buffers.Valid() && Linked() && st in conn.all && st.handle.Some?
      modifies this`streamOf, buffers
      ensures buffers.Valid() && streamOf == old(Without(st))
      ensures buffers.Kept()
      ensures buffers.mem.Keys == old(buffers.mem).Keys
      ensures forall s :: s in buffers.streams <==> s in old(buffers.streams) && s !in st.bindStreams
      ensures forall p :: p in buffers.bindings <==> p in old(buffers.bindings) && p.stmt != st.handle.value
    {
      hide Buffers.Valid, Linked;
      OwnStreams(st);
      streamOf := Without(st);
      ReleaseStreams(st);
      ReleaseBindings(st.handle.value);
    }

    /** dispose() of a statement. */
    method Dispose(st: SQLiteStatement, resetOk: bool, clearOk: bool)
      requires Valid() && st in conn.all
      modifies this`streamOf, buffers, conn`db, conn`statements, conn`owner, conn.cache, st
      ensures Valid() && st.handle == None && st.bindStreams == []
      ensures forall s :: s in old(st.bindStreams) ==> s !in buffers.streams
      ensures StreamsElsewhere(st) && (old(st.handle).Some? ==> BlobsElsewhere(old(st.handle).value))
      ensures old(st.handle).Some? ==> forall p :: p in buffers.bindings ==> p.stmt != old(st.handle).value
      ensures old(st.handle.Some? && st.cached) ==>
                old(conn.Cleanable(st, resetOk, clearOk) && conn.Cached(st.sql) == None) ==>
                conn.Cached(st.sql) == old(st.handle)
    {
      hide Connection.Core, Connection.Valid, Connection.StatementOk, Buffers.Valid, F.FastMap.Valid, F.FastMap.Model;
      hide Linked, StreamLinked, ListLinked, Later, Once, BindingLinked;
      ConnIsCore();
      HandleKnown(st);
      if st.handle == None { return; }
      LetGo(st);
      conn.Dispose(st, resetOk, clearOk);
      ConnIsCore();
      HandleKnown(st);
      BindingsAfter(st);
      LinkCleared(st);
    }

    /** The first loop of finalizeStatements, once round. */
    method FinalizeOne(st: SQLiteStatement)
      requires Core() && st in conn.statements
      modifies this`streamOf, buffers, conn`db, conn`statements, conn`owner, conn.cache, st
      ensures Core() && conn.all == old(conn.all) && |conn.statements| == |old(conn.statements)| - 1
      ensures buffers.mem.Keys == old(buffers.mem).Keys
      ensures Later(old(conn.db), conn.db)
    {
      hide Connection.Core, Connection.Valid, Connection.StatementOk, Buffers.Valid, F.FastMap.Valid, F.FastMap.Model;
      hide Linked, StreamLinked, ListLinked, Once, BindingLinked;
      var handle, sql := conn.OwnHandle(st);
      LetGo(st);
      conn.FinalizeStatement(st);
      HandleKnown(st);
      BindingsAfter(st);
      LinkCleared(st);
      OneLater(old(conn.db), conn.db, handle);
    }

    /** Without statements no live handle has bindings, so SQLite holds no blob; and no stream is open. */
    lemma NothingLeft()
      requires Core() && conn.statements == []
      ensures buffers.streams == map[] && buffers.bindings == map[]
    {
      forall st | st in conn.all ensures st.bindStreams == [] { HandleKnown(st); }
      forall h | h in conn.db ensures !(conn.db[h].alive && conn.db[h].bound) { assert conn.HandleOk(h); }
      forall s ensures s !in buffers.streams { assert s in buffers.streams ==> StreamLinked(s); }
      forall p ensures p !in buffers.bindings { assert p in buffers.bindings ==> BindingLinked(p); }
    }

    /** The first loop of finalizeStatements. */
    method FinalizeStatements()
      requires Core()
      modifies this`streamOf, buffers, conn`db, conn`statements, conn`owner, conn.cache, conn.all
      ensures buffers.mem.Keys == old(buffers.mem).Keys
      ensures Core() && conn.all == old(conn.all) && conn.statements == [] && Later(old(conn.db), conn.db)
    {
      hide Connection.Core, Connection.Valid, Buffers.Valid, F.FastMap.Valid, F.FastMap.Model, Linked;
      while conn.statements != []
        invariant buffers.mem.Keys == old(buffers.mem).Keys
        invariant Core() && conn.all == old(conn.all) && Later(old(conn.db), conn.db)
        decreases |conn.statements|
      {
        var st := conn.statements[0];
        RegisteredIsKnown(st);
        FinalizeOne(st);
      }
    }

    lemma RegisteredIsKnown(st: SQLiteStatement)
      requires conn.Core() && st in conn.statements
      ensures st in conn.all
    {
    }

    /** The second loop, and finalizeBuffers. */
    method FinalizeRest()
      requires Core() && conn.statements == [] && !conn.open
      modifies this`streamOf, buffers, conn`db, conn`owner, conn.cache
      ensures Valid() && conn.db.Keys == old(conn.db).Keys
      ensures buffers.mem.Keys == old(buffers.mem).Keys
      ensures forall h :: h in conn.db ==> !conn.db[h].alive
      ensures forall a :: a in buffers.mem ==> buffers.mem[a].freed
    {
      hide Connection.Core, Connection.Valid, Connection.StatementOk, Buffers.Valid, F.FastMap.Valid, F.FastMap.Model;
      hide Linked;
      NothingLeft();
      conn.FinalizeCache();
      conn.NothingAlive();
      NowClosed();
      buffers.FreePool();
      ListsKept();
    }

    lemma NowClosed()
      requires conn.Core() && conn.statements == [] && conn.cache.Model() == []
      ensures conn.Valid()
    {
    }

    /** dispose() of the connection: every handle is finalized and every native buffer is freed. */
    method DisposeConnection()
      requires Valid()
      modifies this`streamOf, buffers, conn`open, conn`db, conn`statements, conn`owner, conn.cache, conn.all
      ensures Valid() && !conn.open && conn.all == old(conn.all) && conn.db.Keys == old(conn.db).Keys
      ensures buffers.mem.Keys == old(buffers.mem).Keys
      ensures forall h :: h in conn.db ==> !conn.db[h].alive
      ensures forall a :: a in buffers.mem ==> buffers.mem[a].freed
    {
      hide Connection.Core, Connection.Valid, Connection.StatementOk, Buffers.Valid, F.FastMap.Valid, F.FastMap.Model;
      hide Linked, BindingLinked;
      ConnIsCore();
      conn.Shut();
      BindingsKept();
      ListsKept();
      FinalizeStatements();
      FinalizeRest();
    }
  }
}
