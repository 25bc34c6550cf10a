/** The life of one bound array over whole runs of open, close, bind, destroy and cursor moves. */
module Lifecycle {
  import opened Scan

  /** The part of sqlite3_intarray its life cycle is about. `accepted` lists the buffers handed over with a
      destructor and `released` those whose destructor has run, both in order. */
  datatype Life = Life(view: View, block: nat, hasFree: bool, useCount: int, accepted: seq<nat>, released: seq<nat>)

  predicate Outstanding(s: Life) {
    s.accepted == s.released + (if s.hasFree then [s.block] else [])
  }

  /** drop_array_content succeeds only without cursors and runs the destructor of the bound buffer. */
  predicate Dropped(s: Life, t: Life) {
    && s.useCount == 0 && t.useCount == 0
    && t.released == s.released + (if s.hasFree then [s.block] else [])
  }

  predicate Opened(s: Life, t: Life) { t == s.(useCount := s.useCount + 1) }

  predicate Closed(s: Life, t: Life) { s.useCount > 0 && t == s.(useCount := s.useCount - 1) }

  predicate Rebound(s: Life, t: Life) {
    Dropped(s, t) && t.accepted == s.accepted + (if t.hasFree then [t.block] else [])
  }

  predicate Destroyed(s: Life, t: Life) { Dropped(s, t) && !t.hasFree && t.accepted == s.accepted }

  /** One call. Filter, next and refused calls leave the array as it is. */
  predicate Step(s: Life, t: Life) {
    t == s || Opened(s, t) || Closed(s, t) || Rebound(s, t) || Destroyed(s, t)
  }

  predicate Initial(s: Life) { s.useCount == 0 && !s.hasFree && s.accepted == [] && s.released == [] }

  ghost predicate IsRun(run: seq<Life>) {
    && |run| > 0 && Initial(run[0])
    && forall i :: 0 <= i < |run| - 1 ==> Step(run[i], run[i + 1])
  }

  lemma {:induction false} RunInvariant(run: seq<Life>, i: nat)
    requires IsRun(run) && i < |run|
    ensures run[i].useCount >= 0 && Outstanding(run[i])
  {
    if i > 0 {
      RunInvariant(run, i - 1);
      assert Step(run[i - 1], run[i]);
    }
  }

  /** As long as some cursor is open, the bound array neither changes nor is released. */
  lemma {:induction false} OpenCursorPinsArray(run: seq<Life>, i: nat, j: nat)
    requires IsRun(run) && i <= j < |run|
    requires forall k :: i <= k <= j ==> run[k].useCount > 0
    ensures run[j].view == run[i].view && run[j].block == run[i].block
    ensures run[j].accepted == run[i].accepted && run[j].released == run[i].released
    decreases j
  {
    if i < j {
      OpenCursorPinsArray(run, i, j - 1);
      assert Step(run[j - 1], run[j]);
    }
  }

  /** Buffers are released exactly once and in order: at every moment the released ones are the accepted
      ones except, while a buffer with a destructor is bound, the last; and nothing is ever un-released. */
  lemma {:induction false} ReleasedInOrder(run: seq<Life>, i: nat, j: nat)
    requires IsRun(run) && i <= j < |run|
    ensures run[i].released <= run[j].released <= run[j].accepted
    ensures |run[j].accepted| - |run[j].released| == if run[j].hasFree then 1 else 0
    decreases j
  {
    RunInvariant(run, j);
    if i < j {
      ReleasedInOrder(run, i, j - 1);
      assert Step(run[j - 1], run[j]);
    }
  }
}
