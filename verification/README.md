# sqlite4java: verified models of its core

sqlite4java puts SQLite behind a Java API. This project models the four parts of it whose correctness is hardest to
see from reading one method, and proves what they are for. `dafny verify dfyconfig.toml` checks everything.

| part | modules | what is proved |
|---|---|---|
| The INTARRAY virtual table (`native/intarray.c`) | `CInts`, `Bounds`, `Scan`, `Plan`, `Exactness`, `Lifecycle`, `Cursor`, `Planner`, `Names`, `NameTable` | query planning, interval arithmetic, binary search, early stop and cursor walk together return exactly the rows of the WHERE clause if and only if a stated condition holds, for every query and array; arrays are stable under cursors and released once; the name table is a case-insensitive map, with the exact condition under which a removal works |
| `FastMap`, the statement cache's map | `FastTable`, `FastTree`, `FastMap` | probing terminates, splitting into sub-maps preserves look-up and nests at most five deep, and the whole refines an insertion-ordered map |
| `SQLiteQueue` and `SQLiteJob` | `Job`, `Queue`, `QueueProtocol` | safety over every interleaving of users, database threads and reincarnators |
| Native statement handles and buffers | `Statements`, `DirectBuffers`, `Database` | every handle has exactly one owner and is finalized exactly once; cached handles are clean; no buffer serves two users, is freed twice or is touched after being freed; the end of the connection leaves no handle and no buffer |

`Ring` holds the arithmetic of circular probe paths, shared by both hash tables, and `Wrappers` the Option type.

## How it is modelled

Objects whose fields the source updates are classes, and each of their methods is proved against a function or
predicate on values; the laws are lemmas about those. The two concurrent protocols are step relations: every
`synchronized` block is one atomic step, the class methods of `Job` and `Queue` are proved to be those steps, and the
theorems quantify over all runs.

- The array flags are truthful, an array has at most 2^31 - 1 elements as its length is an int, and an ordered one at
  most 2^30: above that the midpoint of the binary search overflows (`Scan.MidpointFits`).
  Element arithmetic wraps at 64 bits and casts to `int` wrap at 32 bits, explicitly.
- idxNum and the operator bits are 8-bit vectors; constraint operators are SQLite's codes. What a constraint that is
  not a comparison means is a parameter of the theorems. Reals are exact; the cast of an out-of-range double to
  `sqlite3_int64`, undefined in C, is taken to be the x86-64 result, the smallest integer.
- Whether an allocation or a native call succeeds is a parameter or chosen freely.
- A key of `FastMap` is its class under `equals` with a 32-bit hash. An entry object is an index into a sequence of
  nodes, slots of a table carry the key of their entry, and the tree of tables is a value that the methods replace.
- The statement cache in `Statements` is a `FastMap` object of the `FastMap` module. What SQLite answers is a
  parameter, and a method confined to the connection's thread is one step. The flags of a native handle say whether
  it is stepped and whether some parameter holds a value.
- `DirectBuffers.Memory` carries both control bytes. Its functions require memory that is not freed wherever a control
  byte is read or written. A request is at most 2^30 - 2 bytes: above, the doubling loop does not end with a buffer
  that fits (`DirectBuffers.RequestFits`). Which user a buffer belongs to is a ghost map.
- `Database` puts a connection's statements and its buffers together. The source has no such class: its statements
  refer to the connection, and both call SQLite.
- A job is submitted once. A cancel() call may come at any time from anywhere; the calls that `stop()` and a refused
  `execute()` make behind their synchronized block are remembered as owed until they are made. A callback may die with
  ThreadDeath in either place, and a reincarnator may be interrupted.

## Where the code and its documentation disagree

The model follows the code.

- `bindStream` (`SQLiteStatement.java:838`) says a stream still open when the statement is executed sets no value;
  `prepareStep` (`SQLiteStatement.java:1363-1365`) binds it (`Statements.Connection.Step`,
  `Database.Database.StepBindsBlob`).
- `SQLiteJob.get` (`SQLiteJob.java:277-300`) promises a CancellationException; a cancelled job answers null.
- `jobFinished` (`SQLiteJob.java:130`) says it gets null for a cancelled job; it gets what the body returned
  (`Job.CancelledYetToldAResult`, and exactly when in `Job.ToldTheResult`).
- A job may turn from CANCELLED to ERROR after `isDone` (`Job.CancelledBecomesError`); `Job.FinalExactly` says exactly
  when.
- `stop(false)` after `stop(true)` (`SQLiteQueue.java:236`) is said to force a shutdown; it stops further selection but
  does not cancel the current job.

## Main results

- `Exactness.ExactWhen` and `Planner.RunQuery`: when a query over an integer array is answered right, exactly;
  `Exactness.OrdinaryIsRight`: ordinary queries always are. What a WHERE clause means is said by SQLite's operator codes
  (`Plan.SqlCompares`), not by the program's bits.
- `Scan.CursorExact`, `Bounds.FaithfulIsExact`, `Exactness.RangeQueryExact`: one scan, one operand, one range.
- `Lifecycle.OpenCursorPinsArray` and `Lifecycle.ReleasedInOrder`: arrays over whole runs.
- `NameTable.ArrayMap.Put` and `NameTable.ArrayMap.Remove`: the name table, with all its failures.
- `FastMap.FastMap.PutValue` and `FastMap.FastMap.RemoveKey` over `FastTree.Insert`, `FastTree.Split` and
  `FastTree.Delete`: a hash map that refines an insertion-ordered map.
- `Job.OnceOnly`, `Job.Outcome`, `Job.FinalExactly`, `Job.GentleCancels`, `Job.ToldTheResult`: a job in every
  interleaving.
- `QueueProtocol.NoJobLost`, `QueueProtocol.NoJobForgotten`, `QueueProtocol.GracefulStopRunsAll`,
  `QueueProtocol.AllDone`, `QueueProtocol.RollbackExactly`: the queue in every interleaving.
- `Statements.Connection.PrepareTwice` over `Statements.Connection.Dispose`: what the statement cache is for.
- `Database.Database.BindBlob` and `Database.Database.StepBindsBlob`: the bytes written are the bytes bound.
- `Database.Database.DisposeConnection` over `Statements.Connection` and `DirectBuffers.Buffers`: handles and native
  memory.

## Model

| member | source | states |
|---|---|---|
| `Bounds.ConstrainMeaning` | native/intarray.c:479-520 | adding one SQL comparison to any interval leaves exactly the old interval intersected with the integers `Admitted` by that comparison, for integer, real, text, null and blob operands |
| `Bounds.BoundaryMeaning` | native/intarray.c:456-477 | which integers pass after one bound has been applied, including the strict bound that becomes inclusive at the ends of the int64 range |
| `Bounds.FaithfulIsExact` | native/intarray.c:456-520 | the admitted integers are those that satisfy the SQL comparison if and only if the operand is `Faithful`: not a strict bound at an int64 extreme, not a real at or just below 2^63 (or a strict -2^63), not a blob used as an upper bound |
| `Bounds.FaithfulAtIsExact` | native/intarray.c:456-520 | the same characterization for a single integer x |
| `Scan.CursorExact` | native/intarray.c:237-264 | for every array with truthful flags and every interval, the rows visited from the start index on are the wanted rows, in index order, if and only if the scan starts right: the rowid minimum survives the cast to int, and an ordered array too short for the binary search has nothing below the minimum |
| `Scan.ScanIsExact` | native/intarray.c:545-567 | a scan that starts right visits exactly the rows of the interval, ascending, each once |
| `Scan.ScanIsWrong` | native/intarray.c:551-556 | a scan that does not start right visits a row too many or a row too few; the lemma names it |
| `Scan.WantedElements` | native/intarray.c:237-264 | the specification itself: the wanted rows are the indices whose rowid or value lies in the interval, strictly ascending |
| `Scan.UniqueBudget` | native/intarray.c:250-261 | a unique unordered array has at most max-min+1 matching rows, so stopping when that many were delivered loses nothing |
| `Scan.Pigeonhole` | native/intarray.c:250-261 | distinct integers between lo and hi number at most hi-lo+1 |
| `Scan.WidthGuard` | native/intarray.c:558-563 | with wrapping arithmetic, the guard on max-min+1 lets exactly the true widths below 2^31-1 through |
| `Plan.PlanPreservesMeaning` | native/intarray.c:572-673 | for every list of constraints, the rows the cursor visits for the chosen idxNum and argv, re-filtered by the constraints not marked omit, are exactly the rows that satisfy all constraints, in index order (given faithful operands and a scan that starts right) |
| `Plan.PlanRow` | native/intarray.c:572-673 | row by row: a row satisfies every constraint iff the interval selects it and the re-checked constraints hold |
| `Plan.EncodeRoundTrip` | native/intarray.c:430-441 | mode, op1 and op2 packed into idxNum are read back unchanged |
| `Plan.PlanDecodes` | native/intarray.c:589-608 | what the filter decodes from the planned idxNum is the mode and the operators of the consumed constraints |
| `Plan.FilterMeaning` | native/intarray.c:524-543 | the interval built by the filter selects row k iff both operators admit its rowid or value |
| `Plan.StrangeOps` | native/intarray.c:570-570 | the mask of accepted operators accepts exactly the five comparisons among SQLite's operator codes |
| `Plan.OpbitMeaning` | native/intarray.c:572-587 | for each of the five codes the bits of the program mean what SQLite means by the code: x == v, x > v, x <= v, x < v, x >= v on numbers; every text and blob is above every number; NULL never compares |
| `Plan.PlanIs` | native/intarray.c:619-673 | the plan by its outcome: a usable constraint that is no comparison means a full scan; rowid constraints come before value constraints; the first of the kind is consumed, and the second too unless both bound the same side |
| `Plan.IdxNumLayout` | native/intarray.c:429-441 | idxNum as a number: mode + 4 * bits of the first operator + 32 * bits of the second, with the bits written out for each SQLite code |
| `Plan.ArgvIs` | native/intarray.c:589-608 | SQLite, passing operands by the argvIndex of the usage array, hands the filter exactly the operands of the consumed constraints, in their order |
| `Exactness.ExactWhen` | native/intarray.c:479-673 | the exact condition for every array, every list of constraints and all operands: a planned query is answered right if and only if, for every row that passes the re-check, the operands of the consumed constraints and the start index both decide the row right |
| `Exactness.RowRightIs` | native/intarray.c:479-543 | the operands decide a row right exactly when each is faithful there, or an exact one that fails hides the other, or two wrong ones cancel out |
| `Exactness.StartRightAtIs` | native/intarray.c:545-567 | the start index decides a row right exactly when the rowid minimum survives the cast to int, and a lower bound that is never tested is met, or the row is above the maximum anyway |
| `Exactness.NeverBothWrong` | native/intarray.c:479-567 | no row is decided wrong by both, so the two conditions cannot cancel out |
| `Exactness.ExactMembers` | native/intarray.c:411-425 | a query is answered right, in order and without repeats, iff every re-checked row is visited exactly when it satisfies the consumed constraints |
| `Exactness.SingleComparisonExact` | native/intarray.c:479-673 | a query with one comparison, of the value or the rowid, is answered right on an array if and only if its operand is faithful at every row and the scan starts right |
| `Exactness.SingleComparison` | native/intarray.c:479-543 | ... and on all unordered arrays, when it compares the value, if and only if the operand is faithful |
| `Exactness.RangeQueryExact` | native/intarray.c:479-543 | a range query on the value is answered right on all unordered arrays if and only if its two operands are translated right at both ends of the int64 range |
| `Exactness.WrongStarts` | native/intarray.c:551-556 | two concrete queries that go wrong: an ordered array of two elements whose lower bound is never tested, and a rowid minimum of 2^32 that is cast to 0 |
| `Exactness.OrdinaryIsRight` | native/intarray.c:479-673 | what a caller can check without knowing the plan: when every usable operand lies strictly inside its range (int64 for values, int for rowids) and no blob is an upper bound, and an ordered array asked for values has more than seven elements, the query is answered right |
| `Scan.MidpointFits` | native/intarray.c:266-279 | the sum of two indices in the binary search fits in an int for all arrays up to 2^30 elements and for no larger one |
| `Cursor.BSearch` | native/intarray.c:266-279 | on any range of a sorted array, in both forms, the binary search returns the index that parts the elements below the value from the others; the midpoint does not overflow an int |
| `Scan.LowerBound` | native/intarray.c:266-279 | that index is unique |
| `Cursor.Cursor.NextMatch` | native/intarray.c:237-264 | the next row is the first remaining row that passes, and the budget of a unique array still covers all later matches |
| `Cursor.Cursor.SetBoundary` | native/intarray.c:464-477 | the fields become the value-level boundary that `Bounds.BoundaryMeaning` is about |
| `Cursor.Cursor.ConstrainCursor` | native/intarray.c:479-520 | the fields become the interval that `Bounds.ConstrainMeaning` is about |
| `Cursor.Cursor.SetParameters` | native/intarray.c:529-543 | the fields become the interval of idxNum and argv that `Plan.FilterMeaning` is about |
| `Cursor.Cursor.FirstIndex` | native/intarray.c:551-556 | the start index: rowid minimum cast to int, or binary search, or 0 |
| `Cursor.Cursor.SetBudget` | native/intarray.c:558-563 | the counter, where set, bounds the number of matching rows |
| `Cursor.Cursor.Start` | native/intarray.c:545-567 | the cursor is about to deliver exactly the scanned rows |
| `Cursor.Cursor.Filter` | native/intarray.c:524-567 | after xFilter the rows still to come are exactly the scanned rows of the interval of idxNum and argv |
| `Cursor.Cursor.Next` | native/intarray.c:421-425 | xNext drops the current row and nothing else |
| `Cursor.Cursor.Eof` | native/intarray.c:411-416 | xEof says whether no row is left |
| `Cursor.Cursor.Row` | native/intarray.c:392-409 | rowid and value are those of the first row still to come |
| `Cursor.Walk` | native/intarray.c:411-425 | xFilter, then xEof, xRowid and xNext until the end, yields exactly the scanned rows, on the imperative cursor |
| `Cursor.IntArray.Open` | native/intarray.c:366-377 | a new cursor counts as a user of the array; without memory nothing changes |
| `Cursor.IntArray.Close` | native/intarray.c:382-387 | the use count stays the number of open cursors |
| `Cursor.IntArray.DropContent` | native/intarray.c:282-292 | refused exactly while a cursor is open; otherwise the bound buffer is released and the array emptied |
| `Cursor.IntArray.Bind` | native/intarray.c:778-800 | refused exactly while a cursor is open; otherwise the old buffer is released and the new one bound with its flags |
| `Cursor.IntArray.Destroy` | native/intarray.c:802-806 | refused exactly while a cursor is open; otherwise the bound buffer is released and the array emptied, even when dropping the SQL table then fails |
| `Lifecycle.OpenCursorPinsArray` | native/intarray.c:282-292 | over any run of open, close, bind, destroy and cursor moves: while some cursor is open the bound array neither changes nor is released |
| `Lifecycle.ReleasedInOrder` | native/intarray.c:778-815 | over any run: the buffers released so far are a prefix of those accepted, all of them but the one still bound; so each is released exactly once |
| `Lifecycle.RunInvariant` | native/intarray.c:366-387 | over any run the use count is not negative and accepted = released + bound |
| `Planner.IndexInfo.C2opbits` | native/intarray.c:589-608 | which one or two constraints are consumed, with argvIndex and omit, and the operator bits |
| `Planner.IndexInfo.Collect` | native/intarray.c:632-648 | the loop finds the first two usable constraints of each kind, or a strange operator |
| `Planner.IndexInfo.BestIndex` | native/intarray.c:623-673 | idxNum and the usage array become the plan that `Plan.PlanPreservesMeaning` is about |
| `Planner.RunQuery` | native/intarray.c:411-673 | planner, cursor and re-check run on the mutable objects: the result is exactly the rows of the WHERE clause if and only if the condition of `Exactness.ExactWhen` holds |
| `Planner.RunOrdinaryQuery` | native/intarray.c:411-673 | the same run for an ordinary query: the result is exactly the rows of the WHERE clause, meant by SQLite's operator codes |
| `Names.SameHash` | native/intarray.c:127-134 | names that differ only in case have the same hash, also with sign-extended bytes above 127 |
| `Names.ComputeHash` | native/intarray.c:127-134 | the loop computes the hash that `Names.SameHash` is about and that is never the tombstone mark |
| `Names.SameIgnoringCase` | native/intarray.c:220-233 | two names are the same iff they have the same length and agree letter by letter, A-Z and a-z identified |
| `Names.HashSamples` | native/intarray.c:127-134 | the hash of four names as numbers, one with a byte above 127 |
| `NameTable.Find` | native/intarray.c:220-233 | returns the live entry of that name, ignoring case, or nothing; it ends within size probes and compares no missing key |
| `NameTable.NotThere` | native/intarray.c:220-233 | a probe that stops at an empty cell, or has gone all the way round, has seen every place the name could be |
| `NameTable.ProbeKeys` | native/intarray.c:136-146 | the first loop of the insertion ends at a duplicate, at the first cell without a key, or after a full turn of a table in which every cell is taken |
| `NameTable.PutCell` | native/intarray.c:136-163 | a duplicate is refused even when its entry lies behind a tombstone; INTERNAL_ERROR iff every cell holds another name; otherwise the entry takes the first free cell and the table stays well formed |
| `NameTable.JustPutIsNotBlocked` | native/intarray.c:747-775 | an entry that has just been put is never blocked, so the failure path of sqlite3_intarray_create removes it |
| `NameTable.ProbeTrail` | native/intarray.c:147-158 | behind a tombstone the trail is searched to its end: duplicate iff the name is in the table |
| `NameTable.Inserted` | native/intarray.c:159-162 | filling the first free cell of a probe path keeps every probe path unbroken and all names distinct |
| `NameTable.Removed` | native/intarray.c:211-217 | a tombstone in place of an entry keeps every probe path unbroken and takes one from the count |
| `NameTable.StoppedShort` | native/intarray.c:199-210 | when the removal loop stops at a cell without a key although the name is in the table, a tombstone blocks the way to its entry |
| `NameTable.NotBlocked` | native/intarray.c:199-210 | when the removal loop reaches the entry, no tombstone blocks the way |
| `NameTable.ProbeLive` | native/intarray.c:199-210 | the removal loop reaches the entry iff the name is there and not blocked |
| `NameTable.CopyEntries` | native/intarray.c:173-177 | the loop of rehash: the new table stands for the same map and has no tombstones |
| `NameTable.RemovalCanFail` | native/intarray.c:199-218 | a concrete history: put "a", put "r", remove "a", and then "r" cannot be removed |
| `NameTable.ArrayMap.constructor` | native/intarray.c:111-121 | an empty map with 17 cells |
| `NameTable.ArrayMap.Lookup` | native/intarray.c:220-233 | the map of live names, ignoring case, looked up |
| `NameTable.ArrayMap.Rehash` | native/intarray.c:165-185 | a table half as large again with the same names and no tombstones; without memory nothing changes |
| `NameTable.ArrayMap.Put` | native/intarray.c:187-197 | DUPLICATE_NAME iff the name is known; INTERNAL_ERROR iff every cell is taken; NOMEM iff the rehash it needs gets no memory, and then the entry stays all the same; while memory suffices count < rehashSize < size, so there is no internal error; an entry put without complaint can be removed |
| `NameTable.ArrayMap.Remove` | native/intarray.c:199-218 | removes exactly the named entry if and only if no tombstone lies between its home and it; otherwise the table is unchanged; count stays the number of live cells |
| `Job.SQLiteJob.Cancel` | java/com/almworks/sqlite4java/SQLiteJob.java:216-246 | the synchronized block of cancel() is the atomic step `CancelBlock` of the protocol |
| `Job.SQLiteJob.StartJob` | java/com/almworks/sqlite4java/SQLiteJob.java:380-391 | the synchronized block of startJob() is the atomic step `StartBlock` |
| `Job.SQLiteJob.ProcessJobError` | java/com/almworks/sqlite4java/SQLiteJob.java:403-417 | processJobError() is the atomic step `ErrorBlock` |
| `Job.SQLiteJob.FinishFirst` | java/com/almworks/sqlite4java/SQLiteJob.java:422-430 | the first block of finishJob() is the atomic step `FinishBlock` |
| `Job.SQLiteJob.Get` | java/com/almworks/sqlite4java/SQLiteJob.java:327-332 | the answer of get() on a finished job is `Observe` |
| `Job.InvHolds` | java/com/almworks/sqlite4java/SQLiteJob.java:368-455 | every step of every thread keeps the invariant of a job: finishJob calls made, owed and still to come by the runner add up to one once the job has left PENDING |
| `Job.RunInv` | java/com/almworks/sqlite4java/SQLiteJob.java:368-455 | the invariant holds in every state of every interleaving |
| `Job.OnceOnly` | java/com/almworks/sqlite4java/SQLiteJob.java:216-246 | in every interleaving of cancel and execution: the body runs at most once and never after a cancel of the pending job; RUNNING implies a connection; finishJob is called at most once, and exactly once on every completed path |
| `Job.StepMoves` | java/com/almworks/sqlite4java/SQLiteJob.java:368-455 | one step only moves the state along the listed transitions, and keeps the answer of get() once finishJob has been called |
| `Job.FinalExactly` | java/com/almworks/sqlite4java/SQLiteJob.java:403-417 | the exact condition: over all continuations the state of a done job stays what it is if and only if it is not CANCELLED with its body still running, or having thrown something that is not an interruption |
| `Job.DoneStaysDone` | java/com/almworks/sqlite4java/SQLiteJob.java:403-417 | once done a job stays done, and the only change is from such a CANCELLED to ERROR |
| `Job.FinishedOnce` | java/com/almworks/sqlite4java/SQLiteJob.java:419-446 | jobFinished is called at most once, and exactly once when everybody is through, unless a callback before it killed its thread, which cannot happen to a job that succeeded |
| `Job.HistoryIs` | java/com/almworks/sqlite4java/SQLiteJob.java:368-378 | the history fields say exactly how the body ended and whether a cancel(true) met the job while it was running |
| `Job.CancelLaw` | java/com/almworks/sqlite4java/SQLiteJob.java:216-246 | over runs: cancel() of a done job, and cancel(false) of a running one, is refused and changes nothing; otherwise the job is CANCELLED, and the caller finishes a pending job and interrupts the connection of a running one |
| `Job.StartLaw` | java/com/almworks/sqlite4java/SQLiteJob.java:380-391 | over runs: a pending job starts its body with the connection and becomes RUNNING; any other job is left as it is |
| `Job.QueueLaw` | java/com/almworks/sqlite4java/SQLiteJob.java:380-391 | over runs: the job refers to its queue from the start of its body until the runner is back, and has neither queue nor connection after it |
| `Job.GentleCancels` | java/com/almworks/sqlite4java/SQLiteJob.java:216-246 | over runs: as long as nobody calls cancel(true) and the body is not interrupted, a job that was started is never CANCELLED and ends SUCCEEDED or in ERROR |
| `Job.Outcome` | java/com/almworks/sqlite4java/SQLiteJob.java:368-446 | the verdict on every started and finished job, from its history alone: an interruption makes it CANCELLED, any other exception ERROR with that exception, a returned value CANCELLED if a cancel(true) met it RUNNING and otherwise SUCCEEDED with that value; jobFinished is told what the body returned |
| `Job.ToldTheResult` | java/com/almworks/sqlite4java/SQLiteJob.java:419-446 | jobFinished receives what get() answers if and only if the job succeeded, or was cancelled and its body returned no value |
| `Job.CancelledYetToldAResult` | java/com/almworks/sqlite4java/SQLiteJob.java:442-442 | a cancelled job whose body returns a value is told that value although get() answers null |
| `Job.CancelledBecomesError` | java/com/almworks/sqlite4java/SQLiteJob.java:403-417 | that change is possible: get() first answers null and later fails |
| `Job.AnswerIsFinal` | java/com/almworks/sqlite4java/SQLiteJob.java:301-335 | once finishJob has been called, get() gives the same answer for ever |
| `Queue.SQLiteQueue.Start` | java/com/almworks/sqlite4java/SQLiteQueue.java:193-217 | the block of start() is the atomic step `StartQueueBlock` |
| `Queue.SQLiteQueue.Stop` | java/com/almworks/sqlite4java/SQLiteQueue.java:243-264 | the block of stop() is the atomic step `StopBlock` |
| `Queue.SQLiteQueue.Execute` | java/com/almworks/sqlite4java/SQLiteQueue.java:318-333 | the block of execute() is the atomic step `ExecuteBlock` |
| `Queue.SQLiteQueue.LoopPass` | java/com/almworks/sqlite4java/SQLiteQueue.java:648-666 | one pass of the service loop under the lock is the atomic step `LoopBlock` |
| `Queue.SQLiteQueue.ThreadStopped` | java/com/almworks/sqlite4java/SQLiteQueue.java:679-696 | the block of threadStopped() is the atomic step `ThreadStoppedBlock` |
| `QueueProtocol.RunInvariant` | java/com/almworks/sqlite4java/SQLiteQueue.java:593-705 | the global invariant holds in every state of every interleaving of users, database threads and reincarnators |
| `QueueProtocol.OneThreadInside` | java/com/almworks/sqlite4java/SQLiteQueue.java:636-669 | at most one thread is inside queueFunction |
| `QueueProtocol.NoJobLost` | java/com/almworks/sqlite4java/SQLiteQueue.java:318-338 | accepted jobs = selected ++ dropped ++ pending, in submission order, without repeats |
| `QueueProtocol.NothingAfterStop` | java/com/almworks/sqlite4java/SQLiteQueue.java:243-264 | after a non-graceful stop nothing more is selected; after any stop nothing more is accepted |
| `QueueProtocol.AllDone` | java/com/almworks/sqlite4java/SQLiteQueue.java:679-705 | when threadStopped completes without reincarnating, every accepted job is done |
| `QueueProtocol.RollbackExactly` | java/com/almworks/sqlite4java/SQLiteQueue.java:525-567 | a rollback comes immediately behind a job iff it ended CANCELLED or in ERROR, or an exception came out of it: so always before the next job, and never behind one that succeeded quietly |
| `QueueProtocol.RollbackPlaces` | java/com/almworks/sqlite4java/SQLiteQueue.java:525-567 | in any well-formed connection log, rollbacks stand right behind the endings that need one and nowhere else |
| `QueueProtocol.OneThreadHolds` | java/com/almworks/sqlite4java/SQLiteQueue.java:193-217 | every step keeps the queue's thread field and the one active thread in agreement |
| `QueueProtocol.FifoHolds` | java/com/almworks/sqlite4java/SQLiteQueue.java:318-338 | every step keeps the first-in-first-out bookkeeping |
| `QueueProtocol.JobsHolds` | java/com/almworks/sqlite4java/SQLiteQueue.java:525-545 | every step keeps: all selected jobs are through except the one the queue thread executes |
| `QueueProtocol.DropsHolds` | java/com/almworks/sqlite4java/SQLiteQueue.java:671-705 | every step keeps: the dropped jobs behind the canceller are done |
| `QueueProtocol.LogHolds` | java/com/almworks/sqlite4java/SQLiteQueue.java:525-567 | every step keeps the connection log well formed and in agreement with the queue thread |
| `QueueProtocol.StopHitsTheCurrentJob` | java/com/almworks/sqlite4java/SQLiteQueue.java:243-264 | the first stop(false) during the execution of a job gets that very job to cancel; stop(true), and stop(false) behind another stop, get none |
| `QueueProtocol.CancelInterruptsItsOwnThread` | java/com/almworks/sqlite4java/SQLiteJob.java:216-233 | the connection cancel() decides to interrupt is, at that moment, the one of the thread that executes this very job |
| `QueueProtocol.StoppedWithoutThread` | java/com/almworks/sqlite4java/SQLiteQueue.java:593-618 | a queue stopped without a thread never does anything again: its pending jobs stay pending, their bodies never run |
| `QueueProtocol.LoopLaw` | java/com/almworks/sqlite4java/SQLiteQueue.java:648-666 | over runs: a pass leaves the loop iff a stop is requested and it is required or nothing is pending; with pending jobs and no required stop it takes the first of them; else it waits |
| `QueueProtocol.StartLaw` | java/com/almworks/sqlite4java/SQLiteQueue.java:193-217 | over runs: start() makes a new thread iff there is none and no stop is requested |
| `QueueProtocol.ExecuteLaw` | java/com/almworks/sqlite4java/SQLiteQueue.java:318-338 | over runs: execute() appends the job, or refuses it if a stop is requested |
| `QueueProtocol.StopLaw` | java/com/almworks/sqlite4java/SQLiteQueue.java:243-264 | over runs: stop() requests a stop, and stop(false) requires it, also behind stop(true); nothing else changes |
| `QueueProtocol.AfterLaw` | java/com/almworks/sqlite4java/SQLiteQueue.java:525-567 | over runs: a thread whose job has returned goes on with the loop, unless a ThreadDeath came out of the job |
| `QueueProtocol.ThreadStoppedLaw` | java/com/almworks/sqlite4java/SQLiteQueue.java:679-705 | over runs: a thread that ends without a stop is reincarnated if possible, and every pending job stays; otherwise the queue is stopped and all pending jobs are dropped |
| `QueueProtocol.GracefulStopRunsAll` | java/com/almworks/sqlite4java/SQLiteQueue.java:243-264 | over runs without stop(false) in which no thread dies: nothing is dropped, and once the thread has completed every accepted job was selected and its runner has returned |
| `QueueProtocol.CalmHolds` | java/com/almworks/sqlite4java/SQLiteQueue.java:648-666 | one step of such a run keeps: a thread on its way out finds a stop requested and nothing pending |
| `QueueProtocol.OwedLaw` | java/com/almworks/sqlite4java/SQLiteQueue.java:243-264 | which cancel(true) execute() and stop() owe: of a job refused, and of the job in execution when the first stop(false) comes; and paying it leaves the job done |
| `QueueProtocol.ReincarnationLaw` | java/com/almworks/sqlite4java/SQLiteQueue.java:593-618 | over runs: a reincarnator waits, and then either gives up or starts the queue again |
| `QueueProtocol.NoJobForgotten` | java/com/almworks/sqlite4java/SQLiteQueue.java:318-338 | over runs: every job ever passed to execute() is accepted (so selected, dropped or pending), or its cancel(true) is still to come, or it is done |
| `FastTable.FindSlot` | java/javolution/util/stripped/FastMap.java:371-386 | the unbounded probe loop terminates and finds the slot of the key iff the table holds it |
| `FastTable.NotThere` | java/javolution/util/stripped/FastMap.java:371-386 | a probe that ends at an empty slot has seen every place the key could be |
| `FastTable.StillRoom` | java/javolution/util/stripped/FastMap.java:484-486 | with fewer entries and tombstones than slots a probe meets an empty slot before a full turn |
| `FastTable.FindOrReserve` | java/javolution/util/stripped/FastMap.java:411-435 | finds the key, or reserves the first slot of its path that holds no entry (tombstone or empty), where the new entry keeps the table good |
| `FastTable.Append` | java/javolution/util/stripped/FastMap.java:577-587 | the comparison-free insertion loop terminates and adds exactly the entry |
| `FastTable.WrapSameSlot` | java/javolution/util/stripped/FastMap.java:371-386 | an int that wraps around in i++ selects the same slot, since the table length divides 2^32 |
| `FastTable.CopyEntries` | java/javolution/util/stripped/FastMap.java:590-606 | the new table holds the same entries and no tombstones |
| `FastTree.GetEntry` | java/javolution/util/stripped/FastMap.java:371-390 | through any nesting of sub-maps the entry is found iff the key is there |
| `FastTree.RouteFinds` | java/javolution/util/stripped/FastMap.java:388-390 | routing by successive six-bit digits reaches the one table that holds the key, and that table has an empty slot |
| `FastTree.ShiftSix` | java/javolution/util/stripped/FastMap.java:388-390 | shifting the hash by six at each level agrees with the key shift of the sub-maps, while it stays below 32 |
| `FastTree.NestingIsBounded` | java/javolution/util/stripped/FastMap.java:522-573 | every active table at depth d has key shift 6d, and d never exceeds 5 |
| `FastTree.DigitsAtTheBottom` | java/javolution/util/stripped/FastMap.java:565-573 | at a shift of 30 only four of the 64 sub-maps can be chosen |
| `FastTree.BottomAlwaysDegrades` | java/javolution/util/stripped/FastMap.java:540-552 | at a shift of 30 a split without a half-full sub-map would need fewer entries than triggered it: so it degrades and never nests deeper |
| `FastTree.NewSubMaps` | java/javolution/util/stripped/FastMap.java:565-573 | 64 blank sub-maps with six more bits of shift |
| `FastTree.Distribute` | java/javolution/util/stripped/FastMap.java:532-553 | every entry lands in the sub-map routing would choose, unless some sub-map becomes half full, and exactly then it degrades |
| `FastTree.Split` | java/javolution/util/stripped/FastMap.java:527-563 | split or degraded resize: the tree holds the same entries as before |
| `FastTree.ResizeTable` | java/javolution/util/stripped/FastMap.java:502-563 | exactly one of clean-up, doubling or split, by tombstones and size; every entry survives, and entryCount + nullCount is at most half of each active leaf |
| `FastTree.Insert` | java/javolution/util/stripped/FastMap.java:411-488 | nothing changes for a known key; otherwise exactly the new entry is added, and the tree invariant holds |
| `FastTree.Delete` | java/javolution/util/stripped/FastMap.java:683-709 | exactly the entry of the key goes; its slot becomes a tombstone |
| `FastTree.ClearTables` | java/javolution/util/stripped/FastMap.java:838-848 | every table is blank and sub-maps are inactive |
| `FastTree.Size` | java/javolution/util/stripped/FastMap.java:299-308 | the sum over the leaves is the number of keys |
| `FastMap.FastMap.constructor` | java/javolution/util/stripped/FastMap.java:210-227 | an empty map whose pool hangs behind the tail |
| `FastMap.FastMap.NewEntryAfter` | java/javolution/util/stripped/FastMap.java:490-498 | a new node at the end of the chain; the contents stay |
| `FastMap.FastMap.CreateNewEntries` | java/javolution/util/stripped/FastMap.java:490-498 | eight new nodes behind the tail; the contents stay |
| `FastMap.FastMap.Get` | java/javolution/util/stripped/FastMap.java:354-386 | the value the ordered map has for the key |
| `FastMap.FastMap.PutValue` | java/javolution/util/stripped/FastMap.java:406-488 | the ordered map after put (or putIfAbsent): a known key keeps its place, a new one comes last; the old value is returned; the chain head..tail..pool stays one well-formed doubly linked list |
| `FastMap.FastMap.Recycle` | java/javolution/util/stripped/FastMap.java:706-722 | the entry leaves the list and becomes the first pool node behind the tail; every other node keeps its place |
| `FastMap.FastMap.RemoveKey` | java/javolution/util/stripped/FastMap.java:683-729 | the ordered map without the key; the old value is returned; list, tables and pool agree |
| `FastMap.FastMap.Clear` | java/javolution/util/stripped/FastMap.java:824-836 | the ordered map is empty and all nodes are pool |
| `FastMap.FastMap.First` | java/com/almworks/sqlite4java/SQLiteConnection.java:1268-1277 | the iterator's first entry is the oldest one |
| `FastMap.FastMap.IsEmpty` | java/javolution/util/stripped/FastMap.java:316-318 | decided by the list, it agrees with the ordered map |
| `FastMap.FastMap.SizeOf` | java/javolution/util/stripped/FastMap.java:299-308 | decided by the tables, it agrees with the ordered map |
| `FastMap.FastMap.OneEntryEach` | java/javolution/util/stripped/FastMap.java:371-498 | every key occurs once in the list |
| `FastMap.PutThenLookup` | java/javolution/util/stripped/FastMap.java:392-408 | the law of put: this key gets the value, all others keep theirs, and the order of the keys is kept |
| `FastMap.RemoveThenLookup` | java/javolution/util/stripped/FastMap.java:663-681 | the law of remove: this key is gone, all others keep theirs |
| `FastMap.Unlinked` | java/javolution/util/stripped/FastMap.java:702-704 | taking a node out leaves one well-formed chain of the others |
| `FastMap.Linked` | java/javolution/util/stripped/FastMap.java:715-721 | linking a node behind another leaves one well-formed chain |
| `FastMap.Appended` | java/javolution/util/stripped/FastMap.java:455-466 | filling the tail node appends its key and value to the contents |
| `FastMap.Removed` | java/javolution/util/stripped/FastMap.java:702-722 | the contents without the removed entry, in order |
| `FastMap.ValueSet` | java/javolution/util/stripped/FastMap.java:428-433 | replacing a value changes one entry of the contents in place |
| `Statements.Connection.Pull` | java/com/almworks/sqlite4java/SQLiteConnection.java:616-630 | a cached handle taken for use is alive, reset and without bindings, and owned by nobody |
| `Statements.Connection.PrepareNew` | java/com/almworks/sqlite4java/SQLiteConnection.java:633-645 | a new handle disturbs no other owner |
| `Statements.Connection.Register` | java/com/almworks/sqlite4java/SQLiteConnection.java:650-662 | the handle is owned by exactly the new statement |
| `Statements.Connection.Prepare` | java/com/almworks/sqlite4java/SQLiteConnection.java:604-672 | with a cached handle the statement gets exactly that one and SQLite is not asked; otherwise a handle never seen before; it is live and clean either way; an exception iff the connection is closed or SQLite was asked in vain, and then nothing is registered |
| `Statements.Connection.Bind` | java/com/almworks/sqlite4java/SQLiteStatement.java:553-561 | a successful bind sets the native value and the flag; a failed one sets nothing |
| `Statements.Connection.BindStream` | java/com/almworks/sqlite4java/SQLiteStatement.java:882-899 | an open stream implies the bindings flag |
| `Statements.Connection.BindNull` | java/com/almworks/sqlite4java/SQLiteStatement.java:808-816 | never sets a value, so the flag can stay as it is |
| `Statements.Connection.CloseStream` | java/com/almworks/sqlite4java/SQLiteStatement.java:1478-1492 | the stream is gone, and the handle has a value more if and only if SQLite accepted it |
| `Statements.Connection.Step` | java/com/almworks/sqlite4java/SQLiteStatement.java:285-303 | every stream still open is closed first, so the handle ends bound if it was or if SQLite accepted one of them, contrary to the documentation of bindStream; true on ROW, false on DONE, an exception on any other code, without a handle and when cancelled; the statement counts as stepped unless it was cancelled |
| `Statements.Connection.DiscardStream` | java/com/almworks/sqlite4java/SQLiteStatement.java:1509-1519 | exactly the one stream leaves the list |
| `Statements.Connection.NativeStep` | java/com/almworks/sqlite4java/SQLiteStatement.java:1387-1404 | an exception iff the code is neither ROW nor DONE; hasRow iff ROW; every outcome sets the stepped flag |
| `Statements.Connection.Reset` | java/com/almworks/sqlite4java/SQLiteStatement.java:204-231 | the handle is reset and the cancel flag cleared; with clearBindings it has no values and no streams unless SQLite refuses |
| `Statements.Connection.ClearBindings` | java/com/almworks/sqlite4java/SQLiteStatement.java:251-262 | no values and no streams, unless SQLite refuses |
| `Statements.Connection.Clean` | java/com/almworks/sqlite4java/SQLiteConnection.java:1449-1461 | a handle may be cached if and only if each of the calls needed (reset when stepped, clear_bindings when bound) succeeded; then it is natively reset and unbound |
| `Statements.Connection.OfferToCache` | java/com/almworks/sqlite4java/SQLiteConnection.java:1463-1477 | the cache takes the handle iff it has none for that SQL; the other handle prevails; "handle appeared in cache" cannot happen |
| `Statements.Connection.HandOver` | java/com/almworks/sqlite4java/SQLiteConnection.java:1461-1483 | the handle goes to the cache iff it was cleaned and the cache has none for its SQL; otherwise it is finalized; no other cache entry changes |
| `Statements.Connection.DisposeCached` | java/com/almworks/sqlite4java/SQLiteConnection.java:1442-1483 | the handle ends alive, in the cache under its SQL, if and only if the calls needed succeeded and the cache had none for that SQL; otherwise it is finalized; no other cache entry changes |
| `Statements.Connection.PrepareTwice` | java/com/almworks/sqlite4java/SQLiteConnection.java:604-672 | a statement prepared with the cache, bound, stepped with any outcome and disposed leaves its handle to the next prepare of that SQL, which gets it clean |
| `Statements.Connection.Use` | java/com/almworks/sqlite4java/SQLiteStatement.java:177-190 | bind, step and dispose of a fresh cached statement leave its handle in the cache whatever sqlite3_step answers |
| `Statements.Connection.ForgetCachedHandle` | java/com/almworks/sqlite4java/SQLiteConnection.java:1485-1492 | the key stays iff the cache holds another handle for it; the handles of all other keys are untouched |
| `Statements.Connection.ForgetStatement` | java/com/almworks/sqlite4java/SQLiteConnection.java:1494-1500 | the statement is always found, so "alien statement" cannot happen; exactly it is removed |
| `Statements.Connection.NativeFinalize` | java/com/almworks/sqlite4java/SQLiteConnection.java:1399-1409 | its precondition: a handle is finalized only while alive, so at most once |
| `Statements.Connection.FinalizeStatement` | java/com/almworks/sqlite4java/SQLiteConnection.java:1363-1373 | the handle is dead, the statement unregistered, and a cached twin untouched |
| `Statements.Connection.Dispose` | java/com/almworks/sqlite4java/SQLiteStatement.java:177-190 | dispose() twice has no effect; once, the handle stays alive and becomes the cached one of its SQL iff the statement is a cached one, could be cleaned and has no twin in the cache; otherwise it is finalized |
| `Statements.Connection.FinalizeAllStatements` | java/com/almworks/sqlite4java/SQLiteConnection.java:1257-1267 | the first draining loop terminates with no statement left |
| `Statements.Connection.FinalizeOneCached` | java/com/almworks/sqlite4java/SQLiteConnection.java:1268-1279 | one round of the second loop removes one cache entry, with or without a handle |
| `Statements.Connection.FinalizeCache` | java/com/almworks/sqlite4java/SQLiteConnection.java:1268-1279 | the second draining loop terminates with an empty cache |
| `Statements.Connection.DisposeConnection` | java/com/almworks/sqlite4java/SQLiteConnection.java:489-507 | afterwards every handle ever prepared is finalized, and no statement has one |
| `DirectBuffers.FreeBufferMeaning` | java/com/almworks/sqlite4java/SQLiteConnection.java:1662-1675 | when one of one or two users leaves: an idle pooled buffer, a freed one, or one SQLite still reads and will free |
| `DirectBuffers.RoundUp` | java/com/almworks/sqlite4java/SQLiteConnection.java:1680-1683 | the smallest of 1024, 2048, 4096, ... that fits the request and the control bytes |
| `DirectBuffers.RequestFits` | java/com/almworks/sqlite4java/SQLiteConnection.java:1680-1683 | on Java ints the doubling loop ends with a buffer that fits if and only if the request is at most 2^30 - 2; above that it never ends, except for the two largest ints, which get 1024 bytes |
| `DirectBuffers.Buffers.FindFree` | java/com/almworks/sqlite4java/SQLiteConnection.java:1687-1700 | the smallest free pooled buffer that is large enough, or none exists |
| `DirectBuffers.Buffers.Reuse` | java/com/almworks/sqlite4java/SQLiteConnection.java:1701-1705 | a free pooled buffer serves exactly the new stream, empty |
| `DirectBuffers.Buffers.Allocate` | java/com/almworks/sqlite4java/SQLiteConnection.java:1709-1728 | a new buffer serves exactly the new stream; the pool stays below 1 MiB |
| `DirectBuffers.Buffers.AddToPool` | java/com/almworks/sqlite4java/SQLiteConnection.java:1716-1727 | the pool stays sorted by size, without duplicates, with the right total |
| `DirectBuffers.TotalInsert` | java/com/almworks/sqlite4java/SQLiteConnection.java:1724-1725 | inserting one buffer anywhere adds its capacity to the total |
| `DirectBuffers.Buffers.AllocateBuffer` | java/com/almworks/sqlite4java/SQLiteConnection.java:1677-1729 | the smallest free pooled buffer that holds the request, or a new one; no other stream or binding is at it |
| `DirectBuffers.Buffers.DisposeStream` | java/com/almworks/sqlite4java/SQLiteStatement.java:1509-1519 | the buffer of the stream returns to the pool with use byte 0, or is freed; all others are undisturbed |
| `DirectBuffers.Buffers.Unbind` | native/sqlite3_wrap_manual.c:567-577 | when SQLite lets go, the use byte is 0 and the memory is pooled or freed |
| `DirectBuffers.Buffers.CloseStream` | java/com/almworks/sqlite4java/SQLiteStatement.java:1478-1492 | on success SQLite reads exactly the bytes written; on failure the use byte is 0, whether or not SQLite ran the destructor; other streams and bindings keep their bytes |
| `DirectBuffers.Buffers.BindAndDispose` | native/sqlite3_wrap_manual.c:544-565 | the bound buffer serves SQLite alone; outside the pool it is marked to be freed on release |
| `DirectBuffers.Buffers.FailAndDispose` | native/sqlite3_wrap_manual.c:559-565 | a failed bind leaves the use byte at 0 with and without the destructor call |
| `DirectBuffers.Buffers.PutBytes` | java/com/almworks/sqlite4java/SQLiteStatement.java:1434-1454 | the bytes are appended to this stream and to no other |
| `DirectBuffers.Buffers.Write` | java/com/almworks/sqlite4java/SQLiteStatement.java:1434-1454 | the stream holds what it held plus the bytes, or is discarded; nothing else changes |
| `DirectBuffers.Buffers.Grow` | java/com/almworks/sqlite4java/SQLiteStatement.java:1456-1476 | growth preserves the bytes written and makes room; without memory the stream is discarded |
| `DirectBuffers.Buffers.MoveTo` | java/com/almworks/sqlite4java/SQLiteStatement.java:1464-1475 | copy, free, replace: the bytes written are preserved and the old buffer is let go |
| `DirectBuffers.Buffers.UseCountsUsers` | java/com/almworks/sqlite4java/DirectBuffer.java:59-94 | the use byte is the number of streams and bindings at the buffer, at most one; used or pooled memory is not freed |
| `DirectBuffers.Buffers.NobodyElse` | java/com/almworks/sqlite4java/SQLiteConnection.java:1677-1729 | the buffer of a stream serves no other stream and no binding |
| `DirectBuffers.Buffers.NobodyElseReads` | native/sqlite3_wrap_manual.c:544-577 | the buffer of a binding serves no stream and no other binding |
| `DirectBuffers.Buffers.FreePool` | java/com/almworks/sqlite4java/SQLiteConnection.java:1221-1238 | the pool is emptied; each of its buffers is freed, or marked if someone still uses it; with no stream and no binding left every buffer ever allocated is freed |
| `DirectBuffers.Buffers.FreeAll` | native/sqlite3_wrap_manual.c:525-540 | exactly the given buffers are freed, each once |
| `Database.Database.OpenStream` | java/com/almworks/sqlite4java/SQLiteStatement.java:882-899 | the new stream is the last of its statement, empty, has room for the request and belongs to exactly this parameter; no other stream, parameter or bound value changes |
| `Database.Database.DropStream` | java/com/almworks/sqlite4java/SQLiteStatement.java:1509-1519 | buffer and list lose the stream together, and nothing else changes |
| `Database.Database.WriteStream` | java/com/almworks/sqlite4java/SQLiteStatement.java:1434-1476 | the bytes are appended, or the stream leaves both the list and its buffer; no other stream and no bound value changes |
| `Database.Database.CloseStream` | java/com/almworks/sqlite4java/SQLiteStatement.java:1478-1492 | when accepted, SQLite reads exactly the bytes written, through the handle of the statement and the index of the stream; every other parameter reads what it did |
| `Database.Database.BindBlob` | java/com/almworks/sqlite4java/SQLiteStatement.java:1434-1492 | end to end: open for parameter k, write b, close: SQLite reads exactly b for exactly parameter k of this handle, and every other parameter and stream is as it was |
| `Database.Database.StepBindsBlob` | java/com/almworks/sqlite4java/SQLiteStatement.java:1363-1365 | end to end: open for parameter k, write b, and step() without a close: SQLite reads b for parameter k all the same |
| `Database.Database.Step` | java/com/almworks/sqlite4java/SQLiteStatement.java:285-303 | each stream still open delivers its bytes to its parameter if SQLite accepts it and no later stream is for the same one; other statements keep their streams and blobs; true on ROW, false on DONE, otherwise an exception |
| `Database.Database.Bind` | java/com/almworks/sqlite4java/SQLiteStatement.java:553-561 | exactly the blob the parameter held is released, all other parameters and all streams keep their bytes; an exception iff there is no handle or SQLite refuses |
| `Database.Database.BindNull` | java/com/almworks/sqlite4java/SQLiteStatement.java:808-816 | the same for bindNull |
| `Database.Database.ClearBindings` | java/com/almworks/sqlite4java/SQLiteStatement.java:251-262 | no stream and no blob of the statement is left, or SQLite refused and nothing changed; other statements keep theirs |
| `Database.Database.Reset` | java/com/almworks/sqlite4java/SQLiteStatement.java:204-231 | the same for a reset that clears; a reset that does not clear keeps every stream and blob |
| `Database.Database.Prepare` | java/com/almworks/sqlite4java/SQLiteConnection.java:604-672 | the new statement has neither streams nor blobs, also when its handle comes from the cache; an exception as in `Statements.Connection.Prepare` |
| `Database.Database.Dispose` | java/com/almworks/sqlite4java/SQLiteStatement.java:177-190 | no stream and no blob of the handle is left, also when the handle goes to the cache; other statements keep theirs |
| `Database.Database.NothingLeft` | java/com/almworks/sqlite4java/SQLiteConnection.java:1253-1267 | without statements no stream is open and SQLite holds no blob, cached handles included |
| `Database.Database.FinalizeOne` | java/com/almworks/sqlite4java/SQLiteConnection.java:1363-1373 | one finalized statement takes its streams and blobs along |
| `Database.Database.DisposeConnection` | java/com/almworks/sqlite4java/SQLiteConnection.java:489-526 | every handle ever prepared is finalized and every native buffer ever allocated is freed |
| `DirectBuffers.Buffers.EveryBufferPooled` | java/com/almworks/sqlite4java/SQLiteConnection.java:1221-1238 | without streams and bindings a buffer is idle in the pool or has been freed |

## Left out

- Cost estimates of `intarrayBestIndex`, `commitState`/`connectCount` and the re-creation of the virtual table: they
  depend on SQLite calling back.
- Plan.PlanPreservesMeaning: a sufficient condition that can be read off the operands; the exact one is `Exactness.ExactWhen`.
- Job.SQLiteJob.Get: its answer for a finished job; the wait, the interruption and the timeout are left out.
- Cursor.IntArray.Destroy: the removal from the name table is not part of the method; it is `NameTable.ArrayMap.Remove`.
- FastTree.Table: table sizes are unbounded integers; the overflow of a table length beyond 2^30 is not modelled, and neither is the update of the arrays in place.
- The shared mode, views, iterators, serialization and comparators of `FastMap`.
- QueueProtocol.AllDone: safety only; that jobs can stay pending is `QueueProtocol.StoppedWithoutThread`. Wall-clock waits, `join`, `flush` and timeouts are free wake-ups.
- QueueProtocol.CancelInterruptsItsOwnThread: the call of `interrupt()` itself comes after the synchronized block and may come late; what it does to a connection is not modelled.
- Exceptions of `jobStarted`, which the code swallows.
- Statements.Connection.Prepare: the connection does not close during the call, since both are confined to one thread; the branch for a connection disposed meanwhile is left out.
- Statements.Connection.DisposeConnection: called from the confining thread; blobs, arrays, progress handler and the native close are left out.
- DirectBuffers.Buffers.Grow: growth beyond 2^30 - 2 bytes, where allocateBuffer does not end.
- DirectBuffers.Buffers.FindFree: the branch that drops an invalid buffer from the pool is proved unreachable.
- `SQLParts` and its own caching, column streams, `loadInts`/`loadLongs`, blobs, backup, the profiler, exceptions, logging and library loading.
- JNI plumbing and SWIG stubs, and the Java assertions.
