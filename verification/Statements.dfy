/** Native statement handles: how SQLiteConnection and SQLiteStatement pass them between SQLite, live
    statements and the statement cache. A method confined to the connection's thread is one step; what SQLite
    answers is a parameter or chosen freely. */
module Statements {
  import opened FastTable
  import opened Wrappers
  import F = FastMap

  type Handle = nat
  type Sql = Key   // SQLParts, as a key of the cache

  /** sqlite3_stmt: stepped until it is reset, bound while some parameter holds a value. */
  datatype Native = Native(sql: Sql, alive: bool, stepped: bool, bound: bool)

  /** The answers of sqlite3_step: SQLITE_ROW, SQLITE_DONE, or an error. */
  datatype StepCode = ROW | DONE | FAILED

  datatype Owner = Nobody | InCache | By(st: SQLiteStatement)

  class SQLiteStatement {
    const sql: Sql
    const cached: bool                 // which controller disposes it
    var handle: Option<Handle>
    var hasRow: bool
    var hasBindings: bool
    var stepped: bool
    var cancelled: bool
    var bindStreams: seq<nat>          // the open BindStreams, by identity

    constructor (sql: Sql, cached: bool, handle: Handle)
      ensures this.sql == sql && this.cached == cached && this.handle == Some(handle)
      ensures Untouched()
    {
      this.sql, this.cached, this.handle := sql, cached, Some(handle);
      hasRow, hasBindings, stepped, cancelled, bindStreams := false, false, false, false, [];
    }

    /** As it comes out of prepare(). */
    predicate Untouched()
      reads this
    {
      !hasRow && !hasBindings && !stepped && !cancelled && bindStreams == []
    }

    /** clear(): the end of a statement. */
    method Clear()
      modifies this
      ensures handle == None && !hasRow && !hasBindings && !stepped && bindStreams == []
    {
      bindStreams := [];
      handle, hasRow, hasBindings, stepped := None, false, false, false;
    }
  }

  ghost predicate NoRepeat(s: seq<SQLiteStatement>) { forall i, j :: 0 <= i < j < |s| ==> s[i] != s[j] }

  /** The Java flags over-approximate the native state. */
  ghost predicate Tracks(st: SQLiteStatement, n: Native)
    reads st
  {
    && n.alive && n.sql == st.sql
    && (n.stepped ==> st.stepped) && (n.bound ==> st.hasBindings)
    && (st.bindStreams != [] ==> st.hasBindings)
  }

  /** SQLite's handles from one moment to a later one: none is forgotten, and what was finalized stays so. */
  ghost predicate Later(a: map<Handle, Native>, b: map<Handle, Native>) {
    a.Keys == b.Keys && forall h :: h in a ==> b[h].sql == a[h].sql && (b[h].alive ==> a[h].alive)
  }

  /** Only this handle changed. */
  ghost predicate OneChanged(a: map<Handle, Native>, b: map<Handle, Native>, h: Handle) {
    h in a && h in b && b == a[h := b[h]] && b[h].sql == a[h].sql && (b[h].alive ==> a[h].alive)
  }

  lemma OneLater(a: map<Handle, Native>, b: map<Handle, Native>, h: Handle)
    requires OneChanged(a, b, h)
    ensures Later(a, b)
  {
  }

  lemma SameLater(a: map<Handle, Native>)
    ensures Later(a, a)
  {
  }

  class Connection {
    var open: bool
    var statements: seq<SQLiteStatement>
    const cache: F.FastMap<Handle>
    var db: map<Handle, Native>        // SQLite's side: every handle ever prepared
    var nextHandle: Handle

    ghost var all: set<SQLiteStatement>
    ghost var owner: map<Handle, Owner>

    ghost function Cached(k: Sql): Option<Handle>
      requires cache.Valid()
      reads cache
    {
      F.Lookup(cache.Model(), k)
    }

    ghost predicate Registered()
      reads this, all
    {
      && NoRepeat(statements)
      && (forall st :: st in statements ==> st in all)
      && (forall st :: st in all ==> (st.handle.Some? <==> st in statements))
    }

    ghost predicate StatementOk(st: SQLiteStatement)
      reads this, st
    {
      match st.handle
      case None => st.bindStreams == []
      case Some(h) => h in db && h in owner && owner[h] == By(st) && Tracks(st, db[h])
    }

    ghost predicate HandleOk(h: Handle)
      requires cache.Valid()
      reads this, cache, all
    {
      h in db && h in owner && h < nextHandle &&
      match owner[h]
      case Nobody => !db[h].alive
      case By(st) => db[h].alive && st in all && st.handle == Some(h)
      case InCache => db[h].alive && !db[h].stepped && !db[h].bound && Cached(db[h].sql) == Some(h)
    }

    ghost predicate KeyOk(k: Sql)
      requires cache.Valid()
      reads this, cache
    {
      Cached(k).Some? ==>
        var h := Cached(k).value;
        h in db && h in owner && owner[h] == InCache && db[h].sql == k
    }

    /** Every live handle has exactly one owner: the statement that holds it, or the cache under its own SQL;
        and a handle in the cache is reset and has no bindings. */
    ghost predicate Owned()
      requires cache.Valid()
      reads this, cache, all
    {
      && (forall st :: st in all ==> StatementOk(st))
      && (forall h :: h in db || h in owner ==> HandleOk(h))
      && (forall k: Sql :: KeyOk(k))
    }

    ghost predicate Core()
      reads this, cache, all
    {
      cache.Valid() && Registered() && Owned()
    }

    ghost predicate Valid()
      reads this, cache, all
    {
      Core() && (!open ==> statements == [] && cache.Model() == [])
    }

    constructor ()
      ensures Valid() && open && db == map[]
    {
      open, statements, db, nextHandle := true, [], map[], 0;
      all, owner := {}, map[];
      cache := new F.FastMap<Handle>(4);
    }

    // -------------------------------------------------------------- the cache

    /** e.setValue(null) on the entry of a cached handle that is put to use. */
    method TakeFromCache(sql: Sql) returns (stmt: Option<Handle>)
      requires cache.Valid()
      modifies cache
      ensures cache.Valid() && stmt == old(Cached(sql))
      ensures forall k: Sql :: Cached(k) == if k == sql then None else old(Cached(k))
    {
      ghost var s := cache.Model();
      cache.OneEntryEach();
      var present;
      stmt, present := cache.Get(sql);
      if stmt.Some? {
        var _ := cache.PutValue(sql, None, false);
        forall k: Sql ensures F.Lookup(cache.Model(), k) == if k == sql then None else F.Lookup(s, k) {
          F.PutThenLookup(s, sql, None, false, k);
        }
      }
    }

    /** myStatementCache.put. */
    method PutInCache(sql: Sql, handle: Option<Handle>) returns (expunged: Option<Handle>)
      requires cache.Valid()
      modifies cache
      ensures cache.Valid() && expunged == old(Cached(sql))
      ensures forall k: Sql :: Cached(k) == if k == sql then handle else old(Cached(k))
    {
      ghost var s := cache.Model();
      cache.OneEntryEach();
      expunged := cache.PutValue(sql, handle, false);
      forall k: Sql ensures F.Lookup(cache.Model(), k) == if k == sql then handle else F.Lookup(s, k) {
        F.PutThenLookup(s, sql, handle, false, k);
      }
    }

    /** forgetCachedHandle: the key goes only if the cache holds this handle for it. */
    method ForgetCachedHandle(handle: Option<Handle>, sql: Sql)
      requires cache.Valid()
      modifies cache
      ensures cache.Valid()
      ensures forall k: Sql :: Cached(k) == if k == sql && old(Cached(k)) == handle then None else old(Cached(k))
      ensures F.Find(cache.Model(), sql) < |cache.Model()| <==> old(Cached(sql)).Some? && old(Cached(sql)) != handle
      ensures old(Cached(sql)) == handle && F.Find(old(cache.Model()), sql) < |old(cache.Model())| ==>
                |cache.Model()| == |old(cache.Model())| - 1
    {
      hide F.FastMap.Valid, F.FastMap.Model, F.OneEach;
      ghost var s := cache.Model();
      cache.OneEntryEach();
      var removed := cache.RemoveKey(sql);
      ghost var t := cache.Model();
      forall k: Sql ensures F.Lookup(t, k) == if k == sql then None else F.Lookup(s, k) {
        F.RemoveThenLookup(s, sql, k);
      }
      cache.OneEntryEach();
      if removed.Some? && removed != handle {
        var _ := cache.PutValue(sql, removed, false);
        forall k: Sql ensures F.Lookup(cache.Model(), k) == if k == sql then removed else F.Lookup(t, k) {
          F.PutThenLookup(t, sql, removed, false, k);
        }
      }
    }

    // -------------------------------------------------------------- prepare

    /** Between SQLite and Java: h is alive and clean, and nobody has it yet. */
    ghost predicate Loose(h: Handle, sql: Sql)
      requires cache.Valid()
      reads this, cache, all
    {
      && Registered() && open
      && h in db && h in owner && h < nextHandle && owner[h] == Nobody && db[h] == Native(sql, true, false, false)
      && (forall st :: st in all ==> StatementOk(st))
      && (forall i :: (i in db || i in owner) && i != h ==> HandleOk(i))
      && (forall k: Sql :: KeyOk(k))
    }

    /** The handle the cache has for this SQL, if any, leaves the cache. */
    method Pull(sql: Sql) returns (stmt: Option<Handle>)
      requires Valid() && open
      modifies this`owner, cache
      ensures cache.Valid() && stmt == old(Cached(sql))
      ensures forall k: Sql :: Cached(k) == if k == sql then None else old(Cached(k))
      ensures if stmt.Some? then Loose(stmt.value, sql) else Valid()
    {
      hide F.FastMap.Valid, F.FastMap.Model, F.Lookup, Tracks;
      assert KeyOk(sql);
      stmt := TakeFromCache(sql);
      if stmt.Some? {
        assert old(HandleOk(stmt.value));
        owner := owner[stmt.value := Nobody];
      }
      forall st | st in all ensures StatementOk(st) { assert old(StatementOk(st)); }
      forall i | (i in db || i in owner) && Some(i) != stmt ensures HandleOk(i) { assert old(HandleOk(i)); }
      forall k: Sql ensures KeyOk(k) { assert old(KeyOk(k)); }
    }

    /** A new handle from SQLite. */
    method PrepareNew(sql: Sql) returns (h: Handle)
      requires Valid() && open
      modifies this`db, this`nextHandle, this`owner
      ensures cache.Valid() && h !in old(db) && Loose(h, sql) && db == old(db)[h := Native(sql, true, false, false)]
    {
      hide F.FastMap.Valid, F.FastMap.Model, F.Lookup, Tracks;
      h := nextHandle;
      assert (h in db || h in owner) ==> HandleOk(h);
      db := db[h := Native(sql, true, false, false)];
      owner := owner[h := Nobody];
      nextHandle := nextHandle + 1;
      forall st | st in all ensures StatementOk(st) { assert old(StatementOk(st)); }
      forall i | (i in db || i in owner) && i != h ensures HandleOk(i) { assert old(HandleOk(i)); }
      forall k: Sql ensures KeyOk(k) { assert old(KeyOk(k)); }
    }

    /** The new SQLiteStatement enters the registry. */
    method Register(sql: Sql, useCache: bool, h: Handle) returns (st: SQLiteStatement)
      requires cache.Valid() && Loose(h, sql)
      modifies this`statements, this`all, this`owner
      ensures Valid() && fresh(st) && statements == old(statements) + [st] && all == old(all) + {st}
      ensures st.sql == sql && st.cached == useCache && st.handle == Some(h) && st.Untouched()
    {
      hide F.FastMap.Valid, F.FastMap.Model, F.Lookup, Tracks;
      st := new SQLiteStatement(sql, useCache, h);
      NewTracks(st, db[h]);
      statements := statements + [st];
      all := all + {st};
      owner := owner[h := By(st)];
      assert cache.Model() == old(cache.Model());
      assert Registered();
      assert Owned() by {
        forall s | s in all ensures StatementOk(s) {
          if s != st { assert old(StatementOk(s)); }
        }
        forall i | i in db || i in owner ensures HandleOk(i) {
          if i != h { assert old(HandleOk(i)); }
        }
        forall k: Sql ensures KeyOk(k) { assert old(KeyOk(k)); }
      }
    }

    lemma NewTracks(st: SQLiteStatement, n: Native)
      requires n.alive && n.sql == st.sql && !n.stepped && !n.bound && st.bindStreams == []
      ensures Tracks(st, n)
    {
    }

    /** prepare(): null stands for an exception. A cached handle comes back clean; otherwise SQLite is asked. */
    method Prepare(sql: Sql, useCache: bool, prepareOk: bool) returns (st: SQLiteStatement?)
      requires Valid()
      modifies this`statements, this`db, this`nextHandle, this`all, this`owner, cache
      ensures Valid() && open == old(open)
      ensures st != null <==> open && (prepareOk || (useCache && old(Cached(sql)).Some?))
      ensures st == null ==> all == old(all) && db == old(db) && statements == old(statements)
      ensures st != null ==> open && fresh(st) && statements == old(statements) + [st] && all == old(all) + {st}
                             && st.sql == sql && st.cached == useCache && st.handle.Some? && st.Untouched()
      ensures st != null ==> st.handle.value in db && db[st.handle.value] == Native(sql, true, false, false)
      ensures st != null && !(useCache && old(Cached(sql)).Some?) ==> st.handle.value !in old(db)
      ensures forall h :: h in old(db) ==> h in db && db[h] == old(db)[h]
      ensures forall k: Sql :: Cached(k) == if useCache && open && k == sql then None else old(Cached(k))
      ensures useCache && open && old(Cached(sql)).Some? ==>
                st != null && st.handle == old(Cached(sql)) && db == old(db)
    {
      hide F.FastMap.Valid, F.FastMap.Model, F.Lookup, Tracks, Connection.Owned, Connection.Registered;
      if !open { return null; }
      var stmt := None;
      if useCache { stmt := Pull(sql); }
      if stmt == None {
        if !prepareOk { return null; }
        var h := PrepareNew(sql);
        stmt := Some(h);
      }
      st := Register(sql, useCache, stmt.value);
    }

    // -------------------------------------------------------------- a statement at work

    /** What one statement does to itself and to its own handle breaks nothing, as long as its flags still track
        the handle. */
    twostate lemma Worked(st: SQLiteStatement)
      requires old(Valid()) && st in old(all) && old(st.handle.Some?) && st.handle == old(st.handle)
      requires unchanged(cache)
      requires open == old(open) && statements == old(statements) && nextHandle == old(nextHandle)
      requires all == old(all) && owner == old(owner)
      requires forall s :: s in old(all) && s != st ==> unchanged(s)
      requires st.handle.value in db && db == old(db)[st.handle.value := db[st.handle.value]]
      requires Tracks(st, db[st.handle.value])
      ensures Valid()
    {
      hide F.FastMap.Valid, F.FastMap.Model, F.Lookup;
      assert old(StatementOk(st));
      assert cache.Model() == old(cache.Model());
      forall s | s in all ensures StatementOk(s) {
        assert old(StatementOk(s));
        if s != st { SameTracks(s); }
      }
      forall h | h in db || h in owner ensures HandleOk(h) { assert old(HandleOk(h)); }
      forall k: Sql ensures KeyOk(k) { assert old(KeyOk(k)); }
    }

    /** Flags that say nothing about the handle can change freely. */
    twostate lemma Unharmed(st: SQLiteStatement)
      requires old(Valid()) && st in old(all)
      requires unchanged(this)
      requires unchanged(cache)
      requires forall s :: s in old(all) && s != st ==> unchanged(s)
      requires st.bindStreams == old(st.bindStreams)
      requires st.handle == old(st.handle) && forall n: Native :: old(Tracks(st, n)) ==> Tracks(st, n)
      ensures Valid()
    {
      hide F.FastMap.Valid, F.FastMap.Model, F.Lookup, Tracks;
      assert cache.Model() == old(cache.Model());
      forall s | s in all ensures StatementOk(s) {
        assert old(StatementOk(s));
        if s != st { SameTracks(s); }
      }
      forall h | h in db || h in owner ensures HandleOk(h) { assert old(HandleOk(h)); }
      forall k: Sql ensures KeyOk(k) { assert old(KeyOk(k)); }
    }

    twostate lemma SameTracks(s: SQLiteStatement)
      requires unchanged(s)
      ensures forall n: Native :: Tracks(s, n) == old(Tracks(s, n))
    {
    }

    /** A call on one statement leaves the handles of all others alone. */
    twostate predicate OtherHandlesKept(st: SQLiteStatement)
      reads this, st
    {
      db.Keys == old(db).Keys && forall h :: h in db && st.handle != Some(h) ==> db[h] == old(db)[h]
    }

    /** bind() of a value. A failed bind sets nothing. */
    method Bind(st: SQLiteStatement, ok: bool) returns (threw: bool)
      requires Valid() && st in all
      modifies this`db, st`hasBindings
      ensures Valid() && (threw <==> st.handle == None || !ok)
      ensures threw ==> db == old(db) && st.hasBindings == old(st.hasBindings)
      ensures !threw ==> st.handle.value in old(db) && st.hasBindings
                         && db == old(db)[st.handle.value := old(db)[st.handle.value].(bound := true)]
    {
      if st.handle == None || !ok { return true; }
      assert StatementOk(st);
      var h := st.handle.value;
      db := db[h := db[h].(bound := true)];
      st.hasBindings := true;
      Worked(st);
      threw := false;
    }

    /** bindNull() leaves myHasBindings alone: it can only take a value away, perhaps not the last one. */
    method BindNull(st: SQLiteStatement, ok: bool, othersLeft: bool) returns (threw: bool)
      requires Valid() && st in all
      modifies this`db
      ensures Valid() && Later(old(db), db) && (threw <==> st.handle == None || !ok)
      ensures threw ==> db == old(db)
      ensures !threw ==> st.handle.value in old(db) && var n := old(db)[st.handle.value];
                         db == old(db)[st.handle.value := n.(bound := n.bound && othersLeft)]
    {
      hide F.FastMap.Valid, F.FastMap.Model, F.Lookup;
      if st.handle == None || !ok { return true; }
      assert StatementOk(st);
      var h := st.handle.value;
      db := db[h := db[h].(bound := db[h].bound && othersLeft)];
      Worked(st);
      threw := false;
    }

    /** bindStream(), with a buffer or without. */
    method BindStream(st: SQLiteStatement, stream: nat, ok: bool) returns (threw: bool)
      requires Valid() && st in all
      modifies st`hasBindings, st`bindStreams
      ensures Valid() && (threw <==> st.handle == None || !ok)
      ensures threw ==> st.hasBindings == old(st.hasBindings) && st.bindStreams == old(st.bindStreams)
      ensures !threw ==> st.hasBindings && st.bindStreams == old(st.bindStreams) + [stream]
    {
      hide F.FastMap.Valid, F.FastMap.Model, F.Lookup;
      if st.handle == None || !ok { return true; }
      assert StatementOk(st);
      st.bindStreams := st.bindStreams + [stream];
      st.hasBindings := true;
      assert db == db[st.handle.value := db[st.handle.value]];
      Worked(st);
      threw := false;
    }

    /** BindStream.dispose(): the stream leaves the statement's list. */
    method DiscardStream(st: SQLiteStatement, i: nat)
      requires Valid() && st in all && i < |st.bindStreams|
      modifies st`bindStreams
      ensures Valid() && st.bindStreams == old(st.bindStreams)[..i] + old(st.bindStreams)[i + 1..]
    {
      hide F.FastMap.Valid, F.FastMap.Model, F.Lookup;
      assert StatementOk(st);
      st.bindStreams := st.bindStreams[..i] + st.bindStreams[i + 1..];
      assert db == db[st.handle.value := db[st.handle.value]];
      Worked(st);
    }

    /** BindStream.close(): the blob is bound if SQLite accepts it, and the stream is gone either way. */
    method CloseStream(st: SQLiteStatement, i: nat, accepted: bool)
      requires Valid() && st in all && i < |st.bindStreams| && st.handle.Some?
      modifies this`db, st`bindStreams
      ensures Valid() && st.bindStreams == old(st.bindStreams)[..i] + old(st.bindStreams)[i + 1..]
      ensures Later(old(db), db) && st.hasBindings && OtherHandlesKept(st)
      ensures st.handle.value in old(db) && st.handle.value in db
      ensures var n := old(db)[st.handle.value]; db[st.handle.value] == n.(bound := n.bound || accepted)
    {
      hide F.FastMap.Valid, F.FastMap.Model, F.Lookup;
      assert StatementOk(st);
      var h := st.handle.value;
      db := db[h := db[h].(bound := db[h].bound || accepted)];
      st.bindStreams := st.bindStreams[..i] + st.bindStreams[i + 1..];
      Worked(st);
    }

    /** step(), loadInts() and loadLongs(): every stream still open is bound first, unless SQLite refuses it. */
    method Step(st: SQLiteStatement, accepted: seq<bool>, code: StepCode) returns (threw: bool, row: bool)
      requires Valid() && st in all && |accepted| == |st.bindStreams|
      modifies this`db, st`bindStreams, st`hasRow, st`stepped
      ensures Valid() && Later(old(db), db) && OtherHandlesKept(st)
      ensures threw <==> st.handle == None || st.cancelled || code == FAILED
      ensures !threw ==> row == st.hasRow == (code == ROW)
      ensures threw ==> st.hasRow == old(st.hasRow)
      ensures old(st.handle.Some?) ==> st.bindStreams == []
      ensures old(st.handle.Some?) && !old(st.cancelled) ==> st.stepped && Stepped(st)
      ensures st.handle.Some? ==> st.handle.value in db && st.handle.value in old(db)
      ensures st.handle.Some? ==> db[st.handle.value].bound == (old(db)[st.handle.value].bound || true in accepted)
      ensures old(st.cancelled) ==> forall h :: h in db ==> db[h].stepped == old(db)[h].stepped
      ensures old(st.cancelled) ==> st.stepped == old(st.stepped)
    {
      hide F.FastMap.Valid, F.FastMap.Model, F.Lookup, Tracks, Connection.Owned, Connection.Registered;
      row := false;
      if st.handle == None { return true, row; }
      HandleTracked(st);
      var i := 0;
      while st.bindStreams != []
        invariant 0 <= i <= |accepted| && |st.bindStreams| == |accepted| - i
        invariant st.handle.value in db
        invariant db[st.handle.value].bound == (old(db)[st.handle.value].bound || true in accepted[..i])
        invariant Valid() && st.handle == old(st.handle) && st.cancelled == old(st.cancelled) && Later(old(db), db)
        invariant OtherHandlesKept(st)
        invariant forall h :: h in db ==> db[h].stepped == old(db)[h].stepped
        invariant st.stepped == old(st.stepped) && st.hasRow == old(st.hasRow)
        decreases |st.bindStreams|
      {
        CloseStream(st, 0, accepted[i]);
        assert accepted[..i + 1] == accepted[..i] + [accepted[i]];
        i := i + 1;
      }
      assert accepted[..i] == accepted;
      if st.cancelled { return true, row; }
      threw := NativeStep(st, code);
      row := st.hasRow;
    }

    predicate Stepped(st: SQLiteStatement)
      reads this, st
    {
      st.handle.Some? && st.handle.value in db && db[st.handle.value].stepped
    }

    /** sqlite3_step and stepResult(). */
    method NativeStep(st: SQLiteStatement, code: StepCode) returns (threw: bool)
      requires Valid() && st in all && st.handle.Some?
      modifies this`db, st`hasRow, st`stepped
      ensures Valid() && Later(old(db), db) && st.stepped && Stepped(st) && OtherHandlesKept(st)
      ensures st.handle.value in old(db) && db[st.handle.value] == old(db)[st.handle.value].(stepped := true)
      ensures threw <==> code == FAILED
      ensures st.hasRow <==> code == ROW || (code == FAILED && old(st.hasRow))
    {
      hide F.FastMap.Valid, F.FastMap.Model, F.Lookup;
      assert StatementOk(st);
      var h := st.handle.value;
      db := db[h := db[h].(stepped := true)];
      st.stepped := true;
      if code == ROW { st.hasRow := true; } else if code == DONE { st.hasRow := false; }
      Worked(st);
      threw := code == FAILED;
    }

    /** cancel(), from any thread. */
    method Cancel(st: SQLiteStatement)
      requires Valid() && st in all
      modifies st`cancelled
      ensures Valid() && st.cancelled
    {
      hide F.FastMap.Valid, F.FastMap.Model, F.Lookup;
      st.cancelled := true;
      Unharmed(st);
    }

    /** reset(): the result code of sqlite3_reset is ignored, that of sqlite3_clear_bindings is not. */
    method Reset(st: SQLiteStatement, clearBindings: bool, ok: bool) returns (threw: bool)
      requires Valid() && st in all
      modifies this`db, st
      ensures Valid() && st.handle == old(st.handle) && Later(old(db), db) && OtherHandlesKept(st)
      ensures threw <==> st.handle == None || (clearBindings && old(st.hasBindings) && !ok)
      ensures st.cancelled <==> threw && old(st.cancelled)
      ensures !clearBindings || threw ==> st.hasBindings == old(st.hasBindings) && st.bindStreams == old(st.bindStreams)
      ensures (!clearBindings || threw) && st.handle.Some? ==>
                db[st.handle.value].bound == old(db[st.handle.value].bound)
      ensures st.handle.Some? ==> !st.stepped && !st.hasRow && !db[st.handle.value].stepped
      ensures !threw && clearBindings ==> !st.hasBindings && st.bindStreams == [] && !st.cancelled && st.handle.Some?
                                          && !db[st.handle.value].bound
    {
      hide F.FastMap.Valid, F.FastMap.Model, F.Lookup, Later, Connection.Core, Connection.Valid, Connection.StatementOk;
      if st.handle == None { SameLater(db); return true; }
      HandleTracked(st);
      var h, n := st.handle.value, db[st.handle.value];
      if st.stepped { n := n.(stepped := false); }
      st.hasRow := false;
      st.stepped := false;
      threw := clearBindings && st.hasBindings && !ok;
      if clearBindings && st.hasBindings && ok {
        n := n.(bound := false);
        st.bindStreams := [];
        st.hasBindings := false;
      }
      if !threw { st.cancelled := false; }
      db := db[h := n];
      Worked(st);
      OneLater(old(db), db, h);
    }

    lemma HandleTracked(st: SQLiteStatement)
      requires Valid() && st in all && st.handle.Some?
      ensures st.handle.value in db && Tracks(st, db[st.handle.value])
    {
      assert StatementOk(st);
    }

    /** clearBindings(). */
    method ClearBindings(st: SQLiteStatement, ok: bool) returns (threw: bool)
      requires Valid() && st in all
      modifies this`db, st`bindStreams, st`hasBindings
      ensures Valid() && Later(old(db), db) && OtherHandlesKept(st)
      ensures threw <==> old(st.hasBindings) && (st.handle == None || !ok)
      ensures threw ==> db == old(db) && st.hasBindings == old(st.hasBindings) && st.bindStreams == old(st.bindStreams)
      ensures !threw && st.handle.Some? ==> !st.hasBindings && st.bindStreams == [] && !db[st.handle.value].bound
    {
      hide F.FastMap.Valid, F.FastMap.Model, F.Lookup;
      if !st.hasBindings { return false; }
      if st.handle == None { return true; }
      assert StatementOk(st);
      var h := st.handle.value;
      if !ok { return true; }
      db := db[h := db[h].(bound := false)];
      st.bindStreams := [];
      st.hasBindings := false;
      Worked(st);
      threw := false;
    }

    // -------------------------------------------------------------- the end of a statement

    /** What is left when a statement has parted with its handle: the handle is dead, or in the cache under its
        SQL, where there was none. */
    twostate lemma Parted(st: SQLiteStatement)
      requires old(Core()) && st in old(all) && old(st.handle.Some?)
      requires cache.Valid() && all == old(all) && nextHandle == old(nextHandle)
      requires forall s :: s in all && s != st ==> unchanged(s)
      requires st.handle == None && st.bindStreams == [] && NoRepeat(statements)
      requires forall s :: s in statements <==> s in old(statements) && s != st
      requires var h := old(st.handle.value);
               && h in db && db == old(db)[h := db[h]] && h in owner && owner == old(owner)[h := owner[h]]
               && db[h].sql == st.sql
               && if owner[h] == Nobody then !db[h].alive && forall k: Sql :: Cached(k) == old(Cached(k))
                  else owner[h] == InCache && db[h].alive && !db[h].stepped && !db[h].bound &&
                       forall k: Sql :: Cached(k) == if k == st.sql then Some(h) else old(Cached(k))
      requires owner[old(st.handle.value)] == InCache ==> old(Cached(st.sql)) == None
      ensures Core()
    {
      hide F.FastMap.Valid, F.FastMap.Model, F.Lookup, Tracks;
      assert old(StatementOk(st));
      forall s | s in all ensures StatementOk(s) {
        assert old(StatementOk(s));
        if s != st { SameTracks(s); }
      }
      forall h | h in db || h in owner ensures HandleOk(h) { assert old(HandleOk(h)); }
      forall k: Sql ensures KeyOk(k) { assert old(KeyOk(k)); }
    }

    /** sqlite3_finalize: never called on a handle that is not alive. */
    method NativeFinalize(h: Handle)
      requires h in db && db[h].alive
      modifies this`db
      ensures db == old(db)[h := old(db)[h].(alive := false)]
    {
      db := db[h := db[h].(alive := false)];
    }

    /** forgetStatement: the statement is always found ("alien statement" cannot happen). */
    method ForgetStatement(st: SQLiteStatement)
      requires NoRepeat(statements) && st in statements
      modifies this`statements
      ensures NoRepeat(statements) && |statements| == |old(statements)| - 1
      ensures forall s :: s in statements <==> s in old(statements) && s != st
      ensures old(statements)[0] == st ==> statements == old(statements)[1..]
    {
      var i := 0;
      while statements[i] != st
        invariant 0 <= i < |statements|
        invariant forall j :: 0 <= j < i ==> statements[j] != st
        decreases |statements| - i
      {
        i := i + 1;
      }
      ghost var s0 := statements;
      statements := statements[..i] + statements[i + 1..];
      forall s ensures s in statements <==> s in s0 && s != st {
        if s in s0 && s != st {
          var j :| 0 <= j < |s0| && s0[j] == s;
          assert statements[if j < i then j else j - 1] == s;
        }
      }
    }

    /** The calls that clean a handle for the cache succeed, as far as they are made. */
    predicate Cleanable(st: SQLiteStatement, resetOk: bool, clearOk: bool)
      reads st
    {
      (st.stepped ==> resetOk) && (st.hasBindings ==> clearOk)
    }

    /** The native half of cacheStatementHandle: false if the handle has to be finalized instead. */
    method Clean(st: SQLiteStatement, resetOk: bool, clearOk: bool) returns (clean: bool)
      requires Valid() && st in all && st.handle.Some?
      modifies this`db
      ensures Valid() && st.handle.value in db && db == old(db)[st.handle.value := db[st.handle.value]]
      ensures db[st.handle.value].alive && db[st.handle.value].sql == st.sql
      ensures clean <==> Cleanable(st, resetOk, clearOk)
      ensures clean ==> !db[st.handle.value].stepped && !db[st.handle.value].bound
    {
      hide F.FastMap.Valid, F.FastMap.Model, F.Lookup;
      assert StatementOk(st);
      var h := st.handle.value;
      clean := true;
      if st.stepped {
        db := db[h := db[h].(stepped := false)];
        clean := resetOk;
      }
      if clean && st.hasBindings {
        clean := clearOk;
        if clean { db := db[h := db[h].(bound := false)]; }
      }
      Worked(st);
    }

    /** The cache takes the handle unless it has one for the same SQL already. */
    method OfferToCache(handle: Handle, sql: Sql) returns (taken: bool)
      requires cache.Valid() && Cached(sql) != Some(handle)
      modifies cache
      ensures cache.Valid() && (taken <==> old(Cached(sql)) == None)
      ensures forall k: Sql :: Cached(k) == if taken && k == sql then Some(handle) else old(Cached(k))
    {
      hide F.FastMap.Valid, F.FastMap.Model, F.Lookup;
      var expunged := PutInCache(sql, Some(handle));
      if expunged == None { return true; }
      // the other handle prevails; "handle appeared in cache when inserted" cannot happen
      assert expunged != Some(handle);
      var _ := PutInCache(sql, expunged);
      taken := false;
    }

    /** dispose() of a cached statement: cacheStatementHandle, then clear. */
    method DisposeCached(st: SQLiteStatement, resetOk: bool, clearOk: bool)
      requires Valid() && st in statements
      modifies this`db, this`statements, this`owner, cache, st
      ensures Valid() && st.handle == None && all == old(all) && open == old(open)
      ensures forall s :: s in statements <==> s in old(statements) && s != st
      ensures old(st.handle.Some?) && OneChanged(old(db), db, old(st.handle.value))
      ensures db[old(st.handle.value)].alive <==> old(Cleanable(st, resetOk, clearOk) && Cached(st.sql) == None)
      ensures forall k: Sql :: Cached(k) == if k == st.sql && db[old(st.handle.value)].alive then old(st.handle)
                                            else old(Cached(k))
    {
      hide F.FastMap.Valid, F.FastMap.Model, F.Lookup, Tracks;
      var handle, sql := OwnHandle(st);
      var clean := Clean(st, resetOk, clearOk);
      HandOver(st, handle, sql, clean);
    }

    /** The second half of cacheStatementHandle, and clear. */
    method HandOver(st: SQLiteStatement, handle: Handle, sql: Sql, clean: bool)
      requires Core() && st in statements && st in all && st.handle == Some(handle) && sql == st.sql
      requires handle in db && handle in owner && db[handle].alive && db[handle].sql == sql
               && Cached(sql) != Some(handle)
      requires clean ==> !db[handle].stepped && !db[handle].bound
      modifies this`db, this`statements, this`owner, cache, st
      ensures Core() && st.handle == None && all == old(all)
      ensures forall s :: s in statements <==> s in old(statements) && s != st
      ensures OneChanged(old(db), db, handle)
      ensures db[handle].alive <==> clean && old(Cached(sql)) == None
      ensures forall k: Sql :: Cached(k) == if k == sql && db[handle].alive then Some(handle) else old(Cached(k))
    {
      hide F.FastMap.Valid, F.FastMap.Model, F.Lookup, Tracks;
      var taken := false;
      if clean { taken := OfferToCache(handle, sql); }
      ForgetStatement(st);
      owner := owner[handle := if taken then InCache else Nobody];
      if !taken {
        NativeFinalize(handle);
        ForgetCachedHandle(Some(handle), sql);
      }
      st.Clear();
      Parted(st);
    }

    /** finalizeStatement(statement): dispose() of an uncached statement, and the end of every statement when
        the connection is disposed. */
    method FinalizeStatement(st: SQLiteStatement)
      requires Core() && st in statements
      modifies this`db, this`statements, this`owner, cache, st
      ensures Core() && st.handle == None && all == old(all)
      ensures forall s :: s in statements <==> s in old(statements) && s != st
      ensures forall k: Sql :: Cached(k) == old(Cached(k))
      ensures |statements| == |old(statements)| - 1 && (old(statements)[0] == st ==> statements == old(statements)[1..])
      ensures old(st.handle.Some?) && OneChanged(old(db), db, old(st.handle.value)) && !db[old(st.handle.value)].alive
    {
      hide F.FastMap.Valid, F.FastMap.Model, F.Lookup, Tracks, Connection.Owned;
      var handle, sql := OwnHandle(st);
      st.Clear();
      NativeFinalize(handle);
      ForgetStatement(st);
      ForgetCachedHandle(Some(handle), sql);
      assert forall k: Sql :: Cached(k) == old(Cached(k));
      owner := owner[handle := Nobody];
      Parted(st);
    }

    /** statementHandle() and getSqlParts(); the handle is not the cached one ("handle appeared in cache" cannot
        happen). */
    method OwnHandle(st: SQLiteStatement) returns (handle: Handle, sql: Sql)
      requires Core() && st in statements
      ensures st in all && st.handle == Some(handle) && sql == st.sql
      ensures handle in db && handle in owner && db[handle].alive && db[handle].sql == sql
      ensures Cached(sql) != Some(handle)
    {
      hide F.FastMap.Valid, F.FastMap.Model, F.Lookup;
      assert StatementOk(st) && KeyOk(st.sql);
      handle, sql := st.handle.value, st.sql;
    }

    /** dispose() of a statement. The handle of a cached one goes into the cache if and only if it could be cleaned and
        the cache has none for its SQL; every other handle is finalized. */
    method Dispose(st: SQLiteStatement, resetOk: bool, clearOk: bool)
      requires Valid() && st in all
      modifies this`db, this`statements, this`owner, cache, st
      ensures Valid() && st.handle == None && all == old(all) && open == old(open) && Later(old(db), db)
      ensures old(st.handle.Some?) ==> OneChanged(old(db), db, old(st.handle.value))
      ensures old(st.handle.Some?) ==>
                (db[old(st.handle.value)].alive <==>
                   st.cached && old(Cleanable(st, resetOk, clearOk) && Cached(st.sql) == None))
      ensures forall k: Sql :: Cached(k) ==
                if k == st.sql && st.cached && old(st.handle.Some? && Cleanable(st, resetOk, clearOk)) &&
                   old(Cached(st.sql)) == None
                then old(st.handle) else old(Cached(k))
      ensures old(st.handle) == None ==> db == old(db) && statements == old(statements)
      ensures forall s :: s in statements <==> s in old(statements) && s != st
    {
      hide F.FastMap.Valid, F.FastMap.Model, F.Lookup, Tracks, Connection.Owned;
      if st.handle == None { return; }
      if st.cached { DisposeCached(st, resetOk, clearOk); } else { FinalizeStatement(st); }
      OneLater(old(db), db, old(st.handle.value));
    }

    /** The point of the cache: a statement prepared with it leaves its handle behind when it is disposed after use, and
        the next one for the same SQL gets that very handle without a call of SQLite, clean. */
    method PrepareTwice(sql: Sql, prepareOk: bool, bindOk: bool, code: StepCode)
      returns (first: Option<Handle>, second: Option<Handle>)
      requires Valid() && open
      modifies this`statements, this`db, this`nextHandle, this`all, this`owner, cache
      ensures Valid() && (first.Some? <==> prepareOk || old(Cached(sql)).Some?)
      ensures first.Some? ==> second == first && first.value in db && db[first.value] == Native(sql, true, false, false)
    {
      hide F.FastMap.Valid, F.FastMap.Model, F.Lookup, Tracks, Connection.Core, Connection.Owned, Connection.Registered;
      first, second := None, None;
      var st := Prepare(sql, true, prepareOk);
      if st == null { return; }
      first := st.handle;
      Use(st, bindOk, code);
      var st2 := Prepare(sql, true, false);
      second := if st2 == null then None else st2.handle;
    }

    /** bind(), step() and dispose() of a fresh statement. */
    method Use(st: SQLiteStatement, bindOk: bool, code: StepCode)
      requires Valid() && open && st in all && st.cached && st.handle.Some? && st.Untouched() && Cached(st.sql) == None
      modifies this`db, this`statements, this`owner, cache, st
      ensures Valid() && open && Cached(st.sql) == old(st.handle)
    {
      hide F.FastMap.Valid, F.FastMap.Model, F.Lookup, Tracks, Connection.Core, Connection.Owned, Connection.Registered;
      CacheIsValid();
      var _ := Bind(st, bindOk);
      CacheIsValid();
      var _, _ := Step(st, [], code);
      CacheIsValid();
      Dispose(st, true, true);
    }

    lemma CacheIsValid()
      requires Valid()
      ensures cache.Valid()
    {
    }

    // -------------------------------------------------------------- the end of the connection

    /** A cached handle is finalized and forgotten. */
    twostate lemma Uncached(k: Sql)
      requires old(Core()) && cache.Valid()
      requires all == old(all) && nextHandle == old(nextHandle) && statements == old(statements)
      requires forall s :: s in all ==> unchanged(s)
      requires forall i: Sql :: Cached(i) == if i == k then None else old(Cached(i))
      requires match old(Cached(k))
               case None => db == old(db) && owner == old(owner)
               case Some(h) => h in db && db == old(db)[h := db[h]] && !db[h].alive && owner == old(owner)[h := Nobody]
      ensures Core()
    {
      hide F.FastMap.Valid, F.FastMap.Model, F.Lookup, Tracks;
      assert old(KeyOk(k));
      forall s | s in all ensures StatementOk(s) {
        assert old(StatementOk(s));
        SameTracks(s);
      }
      forall h | h in db || h in owner ensures HandleOk(h) { assert old(HandleOk(h)); }
      forall i: Sql ensures KeyOk(i) { assert old(KeyOk(i)); }
    }

    /** The second loop of finalizeStatements, once round: the oldest cache entry, with or without a handle. */
    method FinalizeOneCached()
      requires Core() && cache.Model() != []
      modifies this`db, this`owner, cache
      ensures Core() && |cache.Model()| == |old(cache.Model())| - 1
      ensures Later(old(db), db)
    {
      hide F.FastMap.Valid, F.Lookup, Tracks;
      var sql, stmt := cache.First();
      FirstIsFound(sql, stmt);
      assert KeyOk(sql);
      if stmt.Some? {
        assert HandleOk(stmt.value);
        NativeFinalize(stmt.value);
        owner := owner[stmt.value := Nobody];
      }
      ForgetCachedHandle(stmt, sql);
      Uncached(sql);
    }

    lemma FirstIsFound(sql: Sql, stmt: Option<Handle>)
      requires cache.Valid() && cache.Model() != [] && cache.Model()[0] == (sql, stmt)
      ensures F.Find(cache.Model(), sql) == 0 && Cached(sql) == stmt
    {
    }

    lemma NothingAlive()
      requires Core() && statements == [] && cache.Model() == []
      ensures forall h :: h in db ==> !db[h].alive
      ensures forall st :: st in all ==> st.handle == None
    {
      forall h | h in db ensures !db[h].alive { assert HandleOk(h); }
    }

    /** The first loop of finalizeStatements. The source walks snapshots of the registry until it is empty, which
        is the same order. */
    method FinalizeAllStatements()
      requires Core()
      modifies this`db, this`statements, this`owner, cache, all
      ensures Core() && statements == [] && all == old(all) && Later(old(db), db)
    {
      hide F.FastMap.Valid, F.FastMap.Model, F.Lookup, Tracks, Connection.Owned;
      while statements != []
        invariant Core() && all == old(all) && Later(old(db), db)
        decreases |statements|
      {
        var st := statements[0];
        ghost var d, h := db, st.handle;
        FinalizeStatement(st);
        OneLater(d, db, h.value);
      }
    }

    method FinalizeCache()
      requires Core() && statements == []
      modifies this`db, this`owner, cache
      ensures Core() && cache.Model() == [] && Later(old(db), db)
    {
      hide F.FastMap.Valid, F.FastMap.Model, F.Lookup, Tracks, Connection.Owned, Connection.Registered;
      while true
        invariant Core() && Later(old(db), db)
        decreases |cache.Model()|
      {
        var empty := cache.IsEmpty();
        if empty { break; }
        FinalizeOneCached();
      }
    }

    /** dispose() of the connection: finalizeStatements terminates with every handle finalized. */
    method DisposeConnection()
      requires Valid()
      modifies this`open, this`db, this`statements, this`owner, cache, all
      ensures Valid() && !open && statements == [] && all == old(all) && Later(old(db), db)
      ensures forall h :: h in db ==> !db[h].alive
      ensures forall st :: st in all ==> st.handle == None
    {
      hide F.FastMap.Valid, F.FastMap.Model, F.Lookup, Tracks, Connection.Owned, Connection.Registered;
      Shut();
      FinalizeAllStatements();
      FinalizeCache();
      NothingAlive();
    }

    method Shut()
      requires Core()
      modifies this`open
      ensures Core() && !open
    {
      open := false;
      assert cache.Model() == old(cache.Model());
      forall s | s in all ensures StatementOk(s) { assert old(StatementOk(s)); }
      forall h | h in db || h in owner ensures HandleOk(h) { assert old(HandleOk(h)); }
      forall k: Sql ensures KeyOk(k) { assert old(KeyOk(k)); }
    }
  }
}
