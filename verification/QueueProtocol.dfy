/** The queue, its jobs and every thread around them: users who submit, cancel, start and stop, database
    threads, and reincarnators. A run is any interleaving of their atomic steps. */
module QueueProtocol {
  import opened Wrappers
  import opened Job
  import opened Queue

  /** Where a thread created by start() is. */
  datatype Pc =
    | Created                       // not running yet
    | Opening                       // queueFunction, before the service loop
    | AtLock                        // queueFunction, about to look for a job
    | Executing(job: JobId)         // queueFunction, in executeJob
    | Stopping                      // queueFunction has been left, normally or by an exception
    | Dropping(rest: seq<JobId>)    // threadStopped, cancelling the dropped jobs
    | Completed                     // threadStopped is over; no reincarnation
    | Reviving                      // threadStopped, about to start a reincarnator
    | Gone                          // any other end

  datatype Event =
    | Opened
    | Selected(job: JobId)
    | Ended(job: JobId, state: State, threw: bool)
    | RolledBack
    | Closed

  datatype Global = Global(
    core: Core,
    threads: map<Tid, Pc>,
    jobs: map<JobId, Sys>,
    waiting: nat,                   // reincarnators waiting
    waking: nat,                    // reincarnators about to call start()
    possible: bool,                 // is reincarnation possible for this queue
    owed: set<JobId>,               // jobs that an execute() or stop() call is about to cancel
    submitted: set<JobId>,          // jobs passed to execute()
    accepted: seq<JobId>,           // history: jobs queued, in order
    selected: seq<JobId>,           // history: jobs taken by the service loop
    dropped: seq<JobId>,            // history: jobs removed by threadStopped
    swept: bool,                    // history: threadStopped has removed the jobs
    log: seq<Event>)                // history of the connections

  datatype Act =
    | Create(j: JobId)                          // somebody makes a job
    | Meddle(j: JobId, a: Action)               // a cancel() call takes a step
    | UserExecute(j: JobId)
    | UserStop(gracefully: bool)
    | PayCancel(j: JobId)                       // the cancel(true) behind execute() or stop()
    | UserStart(t: Tid)
    | Wake(giveUp: bool)                        // a reincarnator gives up when stopped or interrupted
    | WakeStart(t: Tid)
    | Begin(t: Tid)
    | OpenOk(t: Tid)
    | OpenFails(t: Tid)
    | LoopStep(t: Tid)
    | Interrupted(t: Tid)
    | JobStep(t: Tid, a: Action)
    | AfterExecute(t: Tid)
    | ThreadStopped(t: Tid)
    | DropOne(t: Tid)
    | DropEnds(t: Tid)
    | DropDies(t: Tid)
    | Revive(t: Tid)

  predicate At(g: Global, t: Tid, pc: Pc) { t in g.threads && g.threads[t] == pc }

  predicate IsCancelStep(a: Action) {
    a.Cancel? || a == CancelFinish || a == CancelTell || a == CancelRelease || a.CancelDies?
  }

  predicate CanAct(g: Global, a: Act) {
    match a
    case Create(j) => j !in g.jobs
    case Meddle(j, b) => j in g.jobs && IsCancelStep(b) && Enabled(g.jobs[j], b)
    case UserExecute(j) => j in g.jobs && j !in g.submitted
    case UserStop(_) => true
    case PayCancel(j) => j in g.owed && j in g.jobs
    case UserStart(t) => t !in g.threads
    case Wake(_) => g.waiting > 0
    case WakeStart(t) => g.waking > 0 && t !in g.threads
    case Begin(t) => At(g, t, Created)
    case OpenOk(t) => At(g, t, Opening)
    case OpenFails(t) => At(g, t, Opening)
    case LoopStep(t) => At(g, t, AtLock)
    case Interrupted(t) => At(g, t, AtLock)
    case JobStep(t, b) =>
      && t in g.threads && g.threads[t].Executing? && g.threads[t].job in g.jobs
      && !IsCancelStep(b) && (b.Start? ==> b.connection == t) && Enabled(g.jobs[g.threads[t].job], b)
    case AfterExecute(t) =>
      && t in g.threads && g.threads[t].Executing? && g.threads[t].job in g.jobs
      && g.jobs[g.threads[t].job].runner.Returned?
    case ThreadStopped(t) => At(g, t, Stopping)
    case DropOne(t) =>
      t in g.threads && g.threads[t].Dropping? && g.threads[t].rest != [] && g.threads[t].rest[0] in g.jobs
    case DropEnds(t) => At(g, t, Dropping([]))
    case DropDies(t) => t in g.threads && g.threads[t].Dropping?
    case Revive(t) => At(g, t, Reviving)
  }

  function StartQueue(g: Global, t: Tid): Global {
    var (core, started) := StartQueueBlock(g.core, t);
    if started then g.(core := core, threads := g.threads[t := Created]) else g
  }

  /** executeJob leaves a rollback behind when the job was cancelled or an exception came out of it. */
  predicate NeedsRollback(s: State, threw: bool) { threw || s == CANCELLED }

  function Act1(g: Global, a: Act): Global
    requires CanAct(g, a)
  {
    match a
    case Create(j) => g.(jobs := g.jobs[j := NEW_SYS])
    case Meddle(j, b) => g.(jobs := g.jobs[j := Do(g.jobs[j], b)])
    case UserExecute(j) =>
      var (core, queued) := ExecuteBlock(g.core, j);
      g.(core := core, submitted := g.submitted + {j}, accepted := if queued then g.accepted + [j] else g.accepted,
         owed := if queued then g.owed else g.owed + {j})
    case UserStop(gracefully) =>
      var (core, hit) := StopBlock(g.core, gracefully);
      g.(core := core, owed := if hit.Some? then g.owed + {hit.value} else g.owed)
    case PayCancel(j) => g.(jobs := g.jobs[j := Do(g.jobs[j], Cancel(true))], owed := g.owed - {j})
    case UserStart(t) => StartQueue(g, t)
    case Wake(giveUp) => g.(waiting := g.waiting - 1, waking := if giveUp then g.waking else g.waking + 1)
    case WakeStart(t) => StartQueue(g.(waking := g.waking - 1), t)
    case Begin(t) => g.(threads := g.threads[t := Opening])
    case OpenOk(t) => g.(threads := g.threads[t := AtLock], log := g.log + [Opened])
    case OpenFails(t) => g.(threads := g.threads[t := Stopping])
    case LoopStep(t) =>
      var (core, decision) := LoopBlock(g.core);
      (match decision
       case Exit => g.(core := core, threads := g.threads[t := Stopping])
       case Wait => g.(core := core)
       case Run(j) => g.(core := core, threads := g.threads[t := Executing(j)], selected := g.selected + [j],
                         log := g.log + [Selected(j)]))
    case Interrupted(t) => g.(threads := g.threads[t := Stopping])
    case JobStep(t, b) =>
      var j := g.threads[t].job;
      g.(jobs := g.jobs[j := Do(g.jobs[j], b)])
    case AfterExecute(t) =>
      var j := g.threads[t].job;
      var thrown := g.jobs[j].runner.rethrow;
      var s := g.jobs[j].job.state;
      g.(threads := g.threads[t := if thrown == Some(Death) then Stopping else AtLock],
         log := g.log + [Ended(j, s, thrown.Some?)] + (if NeedsRollback(s, thrown.Some?) then [RolledBack] else []))
    case ThreadStopped(t) =>
      var (core, reincarnate, droppedJobs) := ThreadStoppedBlock(g.core, g.possible);
      g.(core := core, threads := g.threads[t := if reincarnate then Reviving else Dropping(droppedJobs)],
         dropped := g.dropped + droppedJobs, swept := g.swept || !reincarnate, log := g.log + [Closed])
    case DropOne(t) =>
      var rest := g.threads[t].rest;
      g.(jobs := g.jobs[rest[0] := Do(g.jobs[rest[0]], Cancel(true))], threads := g.threads[t := Dropping(rest[1..])])
    case DropEnds(t) => g.(threads := g.threads[t := Completed])
    case DropDies(t) => g.(threads := g.threads[t := Gone])
    case Revive(t) => g.(threads := g.threads[t := Gone], waiting := g.waiting + 1)
  }

  predicate IsInitial(g: Global) {
    && g.core == NEW_CORE && g.threads == map[] && g.jobs == map[] && g.waiting == 0 && g.waking == 0 && g.owed == {}
    && g.submitted == {} && g.accepted == [] && g.selected == [] && g.dropped == [] && !g.swept && g.log == []
  }

  // ---------------------------------------------------------------- the invariant

  /** Not yet past the synchronized block of threadStopped. */
  predicate Active(pc: Pc) {
    pc == Created || pc == Opening || pc == AtLock || pc.Executing? || pc == Stopping
  }

  predicate InQueueFunction(pc: Pc) { pc == Opening || pc == AtLock || pc.Executing? }

  /** The one active thread is the queue's current thread. */
  ghost predicate OneThread(g: Global) {
    && (forall t :: t in g.threads && Active(g.threads[t]) ==> g.core.thread == Some(t))
    && (g.core.thread.Some? ==> g.core.thread.value in g.threads && Active(g.threads[g.core.thread.value]))
    && (g.core.stopRequired ==> g.core.stopRequested)
  }

  ghost predicate Distinct(s: seq<JobId>) { forall i, k :: 0 <= i < k < |s| ==> s[i] != s[k] }

  /** Jobs leave the queue in the order they came. */
  ghost predicate InOrder(g: Global) {
    && g.accepted == g.selected + g.dropped + g.core.jobs
    && (g.swept ==> g.core.jobs == [] && g.core.stopRequested && g.core.thread.None?)
    && (!g.swept ==> g.dropped == [])
  }

  ghost predicate OnceSubmitted(g: Global) {
    && Distinct(g.accepted)
    && (forall j :: j in g.accepted ==> j in g.submitted)
    && (forall j :: j in g.submitted ==> j in g.jobs)
  }

  ghost predicate Fifo(g: Global) { InOrder(g) && OnceSubmitted(g) }

  predicate IsRunning(g: Global, j: JobId) {
    g.core.thread.Some? && g.core.thread.value in g.threads && g.threads[g.core.thread.value] == Executing(j)
  }

  ghost predicate EachJob(g: Global) { forall j :: j in g.jobs ==> Inv(g.jobs[j]) }

  ghost predicate WaitingIdle(g: Global) {
    forall j :: j in g.jobs && j !in g.selected ==> g.jobs[j].runner == Idle
  }

  /** Only the last selected job can be unfinished, and only while the queue thread executes it. */
  ghost predicate SelectedThrough(g: Global) {
    forall i :: 0 <= i < |g.selected| ==>
      g.selected[i] in g.jobs &&
      (g.jobs[g.selected[i]].runner.Returned? || (i == |g.selected| - 1 && IsRunning(g, g.selected[i])))
  }

  ghost predicate ExecutesLast(g: Global) {
    forall t :: t in g.threads && g.threads[t].Executing? ==>
      |g.selected| > 0 && g.selected[|g.selected| - 1] == g.threads[t].job
  }

  ghost predicate JobsInv(g: Global) { EachJob(g) && WaitingIdle(g) && SelectedThrough(g) && ExecutesLast(g) }

  predicate DoneUpTo(g: Global, n: nat)
    requires n <= |g.dropped|
  {
    forall i :: 0 <= i < n ==> g.dropped[i] in g.jobs && IsDone(g.jobs[g.dropped[i]].job)
  }

  ghost predicate DropsInv(g: Global) { forall t :: t in g.threads ==> DropThread(g, g.threads[t]) }

  lemma ActiveIsCurrent(g: Global, a: Act, t: Tid)
    requires OneThread(g) && CanAct(g, a)
    ensures t in Act1(g, a).threads && Active(Act1(g, a).threads[t]) ==> Act1(g, a).core.thread == Some(t)
  {
    hide Do, Enabled, NeedsRollback, IsCancelStep;
  }

  lemma CurrentIsActive(g: Global, a: Act)
    requires OneThread(g) && CanAct(g, a)
    ensures var h := Act1(g, a);
            && (h.core.thread.Some? ==> h.core.thread.value in h.threads && Active(h.threads[h.core.thread.value]))
            && (h.core.stopRequired ==> h.core.stopRequested)
  {
    hide Do, Enabled, NeedsRollback, IsCancelStep;
  }

  lemma OneThreadHolds(g: Global, a: Act)
    requires OneThread(g) && CanAct(g, a)
    ensures OneThread(Act1(g, a))
  {
    hide Act1, CanAct, Active;
    forall t | t in Act1(g, a).threads && Active(Act1(g, a).threads[t])
      ensures Act1(g, a).core.thread == Some(t)
    {
      ActiveIsCurrent(g, a, t);
    }
    CurrentIsActive(g, a);
  }

  lemma InOrderHolds(g: Global, a: Act)
    requires OneThread(g) && InOrder(g) && CanAct(g, a)
    ensures InOrder(Act1(g, a))
  {
    hide Do, Enabled, IsCancelStep, NeedsRollback;
    var h := Act1(g, a);
    match a
    case UserExecute(j) =>
      assert h.accepted == h.selected + h.dropped + h.core.jobs;
    case LoopStep(t) =>
      assert g.dropped == [];
      assert h.accepted == h.selected + h.dropped + h.core.jobs;
    case ThreadStopped(t) =>
      assert h.accepted == h.selected + h.dropped + h.core.jobs;
    case _ =>
  }

  lemma OnceSubmittedHolds(g: Global, a: Act)
    requires OnceSubmitted(g) && CanAct(g, a)
    ensures OnceSubmitted(Act1(g, a))
  {
    hide Do, Enabled, IsCancelStep, NeedsRollback, LoopBlock, StopBlock, ThreadStoppedBlock, StartQueueBlock;
  }

  lemma FifoHolds(g: Global, a: Act)
    requires OneThread(g) && Fifo(g) && CanAct(g, a)
    ensures Fifo(Act1(g, a))
  {
    hide Act1, CanAct, OneThread, InOrder, OnceSubmitted;
    InOrderHolds(g, a);
    OnceSubmittedHolds(g, a);
  }

  lemma CancelKeepsRunner(s: Sys, a: Action)
    requires IsCancelStep(a) && Enabled(s, a)
    ensures Do(s, a).runner == s.runner
  {
  }

  /** Only the thread that executes a job moves its runner. */
  lemma RunnersKept(g: Global, a: Act, j: JobId)
    requires CanAct(g, a) && j in g.jobs
    ensures j in Act1(g, a).jobs
    ensures (a.JobStep? && g.threads[a.t] == Executing(j)) || Act1(g, a).jobs[j].runner == g.jobs[j].runner
  {
    hide Do, Enabled, StopBlock, LoopBlock, ThreadStoppedBlock, ExecuteBlock, NeedsRollback;
    match a
    case Meddle(i, b) => CancelKeepsRunner(g.jobs[i], b);
    case PayCancel(i) =>
      CancelEnabled(g.jobs[i]);
      CancelKeepsRunner(g.jobs[i], Cancel(true));
    case DropOne(t) =>
      assert Enabled(g.jobs[g.threads[t].rest[0]], Cancel(true)) by { CancelEnabled(g.jobs[g.threads[t].rest[0]]); }
      CancelKeepsRunner(g.jobs[g.threads[t].rest[0]], Cancel(true));
    case _ =>
  }

  lemma CancelEnabled(s: Sys)
    ensures Enabled(s, Cancel(true))
  {
  }

  lemma NewJobIdle()
    ensures Inv(NEW_SYS) && NEW_SYS.runner == Idle
  {
  }

  /** The job that a pass of the service loop selects was never selected before. */
  lemma NewlySelected(g: Global)
    requires Fifo(g) && LoopBlock(g.core).1.Run?
    ensures var j := LoopBlock(g.core).1.job; j in g.jobs && j !in g.selected
  {
    var j := LoopBlock(g.core).1.job;
    assert forall i :: 0 <= i < |g.selected| ==> g.accepted[i] == g.selected[i];
    assert g.accepted[|g.selected| + |g.dropped|] == j;
  }

  lemma SelectedDistinct(g: Global)
    requires Fifo(g)
    ensures Distinct(g.selected)
  {
    assert forall i :: 0 <= i < |g.selected| ==> g.accepted[i] == g.selected[i];
  }

  lemma WaitingHolds(g: Global, a: Act)
    requires Fifo(g) && JobsInv(g) && CanAct(g, a)
    ensures WaitingIdle(Act1(g, a))
  {
    hide Do, Enabled, Inv, Fifo, EachJob, SelectedThrough, StopBlock, ThreadStoppedBlock, ExecuteBlock;
    NewJobIdle();
    forall j | j in g.jobs
      ensures (a.JobStep? && g.threads[a.t] == Executing(j)) || Act1(g, a).jobs[j].runner == g.jobs[j].runner
    {
      RunnersKept(g, a, j);
    }
  }

  lemma SelectedHolds(g: Global, a: Act)
    requires OneThread(g) && Fifo(g) && JobsInv(g) && CanAct(g, a)
    ensures SelectedThrough(Act1(g, a))
  {
    hide Do, Enabled, Inv, Fifo, EachJob, WaitingIdle, ThreadStoppedBlock;
    var h := Act1(g, a);
    SelectedDistinct(g);
    if a.LoopStep? && LoopBlock(g.core).1.Run? { NewlySelected(g); }
    forall i | 0 <= i < |h.selected|
      ensures h.selected[i] in h.jobs
      ensures h.jobs[h.selected[i]].runner.Returned? || (i == |h.selected| - 1 && IsRunning(h, h.selected[i]))
    {
      var j := h.selected[i];
      assert i < |g.selected| ==> g.selected[i] == j;
      RunnersKept(g, a, j);
    }
  }

  lemma ExecutesHolds(g: Global, a: Act)
    requires JobsInv(g) && OneThread(g) && CanAct(g, a)
    ensures ExecutesLast(Act1(g, a))
  {
    hide Do, Enabled, Inv, EachJob, WaitingIdle, SelectedThrough, StopBlock, ThreadStoppedBlock, ExecuteBlock;
  }

  lemma JobsHolds(g: Global, a: Act)
    requires OneThread(g) && Fifo(g) && JobsInv(g) && CanAct(g, a)
    ensures JobsInv(Act1(g, a))
  {
    hide Act1, CanAct, OneThread, Fifo, WaitingIdle, SelectedThrough, ExecutesLast;
    JobInvHolds(g, a);
    WaitingHolds(g, a);
    SelectedHolds(g, a);
    ExecutesHolds(g, a);
  }

  /** No step of the system breaks the invariant of any single job. */
  lemma JobInvHolds(g: Global, a: Act)
    requires EachJob(g) && CanAct(g, a)
    ensures EachJob(Act1(g, a))
  {
    hide Do, Enabled, Inv, StopBlock, LoopBlock, ThreadStoppedBlock, ExecuteBlock;
    NewJobIdle();
    if a.DropOne? { CancelEnabled(g.jobs[g.threads[a.t].rest[0]]); }
    if a.PayCancel? { CancelEnabled(g.jobs[a.j]); }
    match a
    case PayCancel(j) => InvHolds(g.jobs[j], Cancel(true));
    case Meddle(j, b) => InvHolds(g.jobs[j], b);
    case JobStep(t, b) => InvHolds(g.jobs[g.threads[t].job], b);
    case DropOne(t) => InvHolds(g.jobs[g.threads[t].rest[0]], Cancel(true));
    case _ =>
  }

  lemma DoneIsKept(s: Sys, a: Action)
    requires Inv(s) && Enabled(s, a)
    ensures IsDone(s.job) ==> IsDone(Do(s, a).job)
    ensures s.runner.Returned? ==> Do(s, a).runner == s.runner && Do(s, a).job.state == s.job.state
    ensures a == Cancel(true) ==> IsDone(Do(s, a).job)
  {
  }

  /** A job in the table stays there, and stays done when it is done. */
  lemma JobsKept(g: Global, a: Act, j: JobId)
    requires JobsInv(g) && CanAct(g, a) && j in g.jobs
    ensures j in Act1(g, a).jobs
    ensures IsDone(g.jobs[j].job) ==> IsDone(Act1(g, a).jobs[j].job)
    ensures g.jobs[j].runner.Returned? ==>
              Act1(g, a).jobs[j].runner == g.jobs[j].runner && Act1(g, a).jobs[j].job.state == g.jobs[j].job.state
  {
    hide Do, Enabled, Inv, IsDone, StopBlock, LoopBlock, ThreadStoppedBlock, ExecuteBlock;
    hide WaitingIdle, SelectedThrough, ExecutesLast;
    if a.DropOne? { CancelEnabled(g.jobs[g.threads[a.t].rest[0]]); }
    if a.PayCancel? { CancelEnabled(g.jobs[a.j]); }
    match a
    case PayCancel(i) => DoneIsKept(g.jobs[i], Cancel(true));
    case Meddle(i, b) => DoneIsKept(g.jobs[i], b);
    case JobStep(t, b) => DoneIsKept(g.jobs[g.threads[t].job], b);
    case DropOne(t) => DoneIsKept(g.jobs[g.threads[t].rest[0]], Cancel(true));
    case _ =>
  }

  ghost predicate DropThread(g: Global, pc: Pc) {
    match pc
    case Dropping(rest) =>
      g.swept && |rest| <= |g.dropped| && g.dropped[|g.dropped| - |rest|..] == rest && DoneUpTo(g, |g.dropped| - |rest|)
    case Completed => g.swept && DoneUpTo(g, |g.dropped|)
    case _ => true
  }

  lemma DropThreadKept(g: Global, h: Global, pc: Pc)
    requires DropThread(g, pc) && h.dropped == g.dropped && (g.swept ==> h.swept)
    requires forall j :: j in g.jobs && IsDone(g.jobs[j].job) ==> j in h.jobs && IsDone(h.jobs[j].job)
    ensures DropThread(h, pc)
  {
  }

  /** After the sweep nothing is dropped any more, and before it no thread is dropping. */
  lemma DroppedGrows(g: Global, a: Act)
    requires OneThread(g) && Fifo(g) && CanAct(g, a)
    ensures g.swept ==> Act1(g, a).swept && Act1(g, a).dropped == g.dropped
    ensures Act1(g, a).dropped != g.dropped ==> a.ThreadStopped? && !g.swept
  {
    hide Do, Enabled, IsCancelStep, NeedsRollback, LoopBlock, StopBlock, ExecuteBlock, Distinct;
  }

  lemma DropsHolds(g: Global, a: Act)
    requires OneThread(g) && Fifo(g) && JobsInv(g) && DropsInv(g) && CanAct(g, a)
    ensures DropsInv(Act1(g, a))
  {
    hide Do, Enabled, Inv, IsDone, IsCancelStep, NeedsRollback, LoopBlock, StopBlock, ExecuteBlock, JobsInv;
    hide StartQueueBlock, Distinct;
    var h := Act1(g, a);
    DroppedGrows(g, a);
    forall j | j in g.jobs
      ensures j in h.jobs && (IsDone(g.jobs[j].job) ==> IsDone(h.jobs[j].job))
    {
      JobsKept(g, a, j);
    }
    forall t | t in h.threads
      ensures DropThread(h, h.threads[t])
    {
      if t in g.threads && h.threads[t] == g.threads[t] {
        assert DropThread(g, g.threads[t]);
        if g.swept { DropThreadKept(g, h, g.threads[t]); }
      } else {
        NewPc(g, a, t);
      }
    }
  }

  lemma DropStep(g: Global, u: Tid)
    requires JobsInv(g) && DropsInv(g) && CanAct(g, DropOne(u))
    ensures DropThread(Act1(g, DropOne(u)), Act1(g, DropOne(u)).threads[u])
  {
    hide Do, Enabled, Inv, IsDone, NeedsRollback, LoopBlock, StopBlock, ExecuteBlock, StartQueueBlock, JobsInv;
    var h := Act1(g, DropOne(u));
    assert DropThread(g, g.threads[u]);
    var j := g.threads[u].rest[0];
    CancelEnabled(g.jobs[j]);
    JobInvOf(g, j);
    DoneIsKept(g.jobs[j], Cancel(true));
    forall i | i in g.jobs ensures i in h.jobs && (IsDone(g.jobs[i].job) ==> IsDone(h.jobs[i].job)) {
      JobsKept(g, DropOne(u), i);
    }
    assert g.dropped[|g.dropped| - |g.threads[u].rest|] == j;
  }

  lemma JobInvOf(g: Global, j: JobId)
    requires JobsInv(g) && j in g.jobs
    ensures Inv(g.jobs[j])
  {
  }

  lemma DropBegins(g: Global, u: Tid)
    requires OneThread(g) && InOrder(g) && CanAct(g, ThreadStopped(u))
    ensures DropThread(Act1(g, ThreadStopped(u)), Act1(g, ThreadStopped(u)).threads[u])
  {
    hide IsDone;
    var h := Act1(g, ThreadStopped(u));
    assert h.dropped[|h.dropped| - |h.dropped|..] == h.dropped;
  }

  /** The thread that moves. */
  lemma NewPc(g: Global, a: Act, t: Tid)
    requires OneThread(g) && Fifo(g) && JobsInv(g) && DropsInv(g) && CanAct(g, a)
    requires t in Act1(g, a).threads && (t in g.threads ==> Act1(g, a).threads[t] != g.threads[t])
    ensures DropThread(Act1(g, a), Act1(g, a).threads[t])
  {
    hide Do, Enabled, Inv, IsDone, IsCancelStep, NeedsRollback, LoopBlock, StopBlock, ExecuteBlock;
    hide StartQueueBlock, OnceSubmitted, OneThread, JobsInv, InOrder;
    match a
    case DropOne(u) => DropStep(g, u);
    case DropEnds(u) =>
      assert DropThread(g, g.threads[u]);
    case ThreadStopped(u) => DropBegins(g, u);
    case _ =>
  }

  // ---------------------------------------------------------------- whom stop() and cancel() hit

  /** myCurrentJob is the last job selected, and the one in execution if there is one. */
  ghost predicate CurrentInv(g: Global) {
    && (g.core.current.Some? ==> |g.selected| > 0 && g.selected[|g.selected| - 1] == g.core.current.value)
    && (forall t :: t in g.threads && g.threads[t].Executing? ==> g.core.current == Some(g.threads[t].job))
  }

  lemma CurrentHolds(g: Global, a: Act)
    requires OneThread(g) && CurrentInv(g) && CanAct(g, a)
    ensures CurrentInv(Act1(g, a))
  {
    hide Do, Enabled, NeedsRollback, IsCancelStep;
  }

  /** A job's recorded connection is that of the thread which executes it. */
  ghost predicate ConnInv(g: Global) { forall j :: j in g.jobs ==> ConnOk(g, j) }

  predicate ConnOk(g: Global, j: JobId)
    requires j in g.jobs
  {
    g.jobs[j].job.connection.Some? ==> At(g, g.jobs[j].job.connection.value, Executing(j))
  }

  lemma ConnStep(s: Sys, a: Action)
    requires Enabled(s, a)
    ensures var c := Do(s, a).job.connection;
            c == s.job.connection || c == None || (a.Start? && c == Some(a.connection))
    ensures IsCancelStep(a) ==> Do(s, a).job.connection == s.job.connection || Do(s, a).job.connection == None
  {
  }

  lemma ReturnedIsUnconnected(s: Sys)
    requires Inv(s) && s.runner.Returned?
    ensures s.job.connection == None
  {
  }

  lemma ConnOkHolds(g: Global, a: Act, j: JobId)
    requires JobsInv(g) && CanAct(g, a) && j in g.jobs && ConnOk(g, j)
    ensures j in Act1(g, a).jobs && ConnOk(Act1(g, a), j)
  {
    hide Do, Enabled, Inv, NeedsRollback, LoopBlock, StopBlock, ThreadStoppedBlock, ExecuteBlock, JobsInv;
    match a
    case Meddle(i, b) => ConnStep(g.jobs[i], b);
    case PayCancel(i) =>
      CancelEnabled(g.jobs[i]);
      ConnStep(g.jobs[i], Cancel(true));
    case JobStep(t, b) => ConnStep(g.jobs[g.threads[t].job], b);
    case DropOne(t) =>
      CancelEnabled(g.jobs[g.threads[t].rest[0]]);
      ConnStep(g.jobs[g.threads[t].rest[0]], Cancel(true));
    case AfterExecute(t) =>
      JobInvOf(g, g.threads[t].job);
      ReturnedIsUnconnected(g.jobs[g.threads[t].job]);
    case _ =>
  }

  lemma ConnHolds(g: Global, a: Act)
    requires JobsInv(g) && ConnInv(g) && CanAct(g, a)
    ensures ConnInv(Act1(g, a))
  {
    hide Do, Enabled, NeedsRollback, LoopBlock, StopBlock, ThreadStoppedBlock, ExecuteBlock, JobsInv, At;
    forall j | j in Act1(g, a).jobs ensures ConnOk(Act1(g, a), j) {
      if j in g.jobs { ConnOkHolds(g, a, j); }
    }
  }

  // ---------------------------------------------------------------- refused jobs

  /** Every submitted job has been accepted, is about to be cancelled, or is done. */
  ghost predicate NoneForgotten(g: Global) { forall j :: j in g.submitted ==> j in g.jobs && Remembered(g, j) }

  predicate Remembered(g: Global, j: JobId)
    requires j in g.jobs
  {
    j in g.accepted || j in g.owed || IsDone(g.jobs[j].job)
  }

  lemma RememberedHolds(g: Global, a: Act, j: JobId)
    requires JobsInv(g) && CanAct(g, a) && j in g.jobs
    requires Remembered(g, j) || a == UserExecute(j)
    ensures j in Act1(g, a).jobs && Remembered(Act1(g, a), j)
  {
    hide Do, Enabled, Inv, IsDone, NeedsRollback, LoopBlock, ThreadStoppedBlock, StartQueueBlock, JobsInv;
    JobsKept(g, a, j);
    if a == PayCancel(j) {
      CancelEnabled(g.jobs[j]);
      JobInvOf(g, j);
      DoneIsKept(g.jobs[j], Cancel(true));
    }
  }

  lemma NoneForgottenHolds(g: Global, a: Act)
    requires JobsInv(g) && NoneForgotten(g) && CanAct(g, a)
    ensures NoneForgotten(Act1(g, a))
  {
    hide Do, Enabled, NeedsRollback, LoopBlock, StopBlock, ThreadStoppedBlock, JobsInv, Remembered;
    forall j | j in Act1(g, a).submitted ensures j in Act1(g, a).jobs && Remembered(Act1(g, a), j) {
      RememberedHolds(g, a, j);
    }
  }

  // ---------------------------------------------------------------- rollbacks

  /** A connection as its log tells it: closed; ready for a job; busy with one; owing a rollback. */
  datatype Phase = Shut | Ready | Busy(job: JobId) | Owing | Broken

  function Advance(p: Phase, e: Event): Phase {
    match e
    case Opened => if p == Shut then Ready else Broken
    case Selected(j) => if p == Ready then Busy(j) else Broken
    case Ended(j, s, threw) => if p != Busy(j) then Broken else if NeedsRollback(s, threw) then Owing else Ready
    case RolledBack => if p == Owing then Ready else Broken
    case Closed => if p == Ready || p == Shut then Shut else Broken
  }

  function PhaseOf(log: seq<Event>): Phase {
    if log == [] then Shut else Advance(PhaseOf(log[..|log| - 1]), log[|log| - 1])
  }

  lemma PhaseAppend(log: seq<Event>, e: Event)
    ensures PhaseOf(log + [e]) == Advance(PhaseOf(log), e)
  {
    assert (log + [e])[..|log|] == log;
  }

  function PhaseAt(g: Global): Phase {
    if g.core.thread.None? || g.core.thread.value !in g.threads then Shut
    else match g.threads[g.core.thread.value]
      case AtLock => Ready
      case Executing(j) => Busy(j)
      case _ => Shut
  }

  /** The log is well formed and agrees with what the queue thread is doing. */
  ghost predicate LogPhase(g: Global) {
    || PhaseOf(g.log) == PhaseAt(g)
    || (PhaseOf(g.log) == Ready && g.core.thread.Some? && At(g, g.core.thread.value, Stopping))
  }

  /** What the log says about a job's end is what the job says. */
  ghost predicate LogEndings(g: Global) {
    forall i :: 0 <= i < |g.log| && g.log[i].Ended? ==>
      && g.log[i].job in g.jobs && g.jobs[g.log[i].job].runner.Returned?
      && g.log[i].state == g.jobs[g.log[i].job].job.state
      && g.log[i].threw == g.jobs[g.log[i].job].runner.rethrow.Some?
  }

  ghost predicate LogInv(g: Global) { LogPhase(g) && LogEndings(g) }

  lemma PhaseHolds(g: Global, a: Act)
    requires OneThread(g) && LogPhase(g) && CanAct(g, a)
    ensures LogPhase(Act1(g, a))
  {
    hide Do, Enabled, NeedsRollback, PhaseOf, IsCancelStep;
    match a
    case OpenOk(t) => PhaseAppend(g.log, Opened);
    case ThreadStopped(t) => PhaseAppend(g.log, Closed);
    case LoopStep(t) => PhaseAfterLoop(g, t);
    case AfterExecute(t) => PhaseAfterJob(g, t);
    case _ =>
  }

  lemma PhaseAfterLoop(g: Global, t: Tid)
    requires OneThread(g) && LogPhase(g) && CanAct(g, LoopStep(t))
    ensures LogPhase(Act1(g, LoopStep(t)))
  {
    hide Do, Enabled, NeedsRollback, PhaseOf, IsCancelStep;
    if LoopBlock(g.core).1.Run? { PhaseAppend(g.log, Selected(LoopBlock(g.core).1.job)); }
  }

  lemma PhaseAfterJob(g: Global, t: Tid)
    requires OneThread(g) && LogPhase(g) && CanAct(g, AfterExecute(t))
    ensures LogPhase(Act1(g, AfterExecute(t)))
  {
    hide Do, Enabled, NeedsRollback, PhaseOf, IsCancelStep;
    var j := g.threads[t].job;
    var e := Ended(j, g.jobs[j].job.state, g.jobs[j].runner.rethrow.Some?);
    PhaseAppend(g.log, e);
    PhaseAppend(g.log + [e], RolledBack);
    assert g.log + [e] + [RolledBack] == g.log + ([e] + [RolledBack]);
    assert g.log + [e] + [] == g.log + [e];
  }

  lemma EndingsHold(g: Global, a: Act)
    requires JobsInv(g) && LogEndings(g) && CanAct(g, a)
    ensures LogEndings(Act1(g, a))
  {
    hide Do, Enabled, Inv, NeedsRollback, JobsInv, IsCancelStep;
    hide LoopBlock, StopBlock, ThreadStoppedBlock, ExecuteBlock, StartQueueBlock;
    var h := Act1(g, a);
    forall j | j in g.jobs
      ensures j in h.jobs
      ensures g.jobs[j].runner.Returned? ==>
                h.jobs[j].runner == g.jobs[j].runner && h.jobs[j].job.state == g.jobs[j].job.state
    {
      JobsKept(g, a, j);
    }
  }

  lemma LogHolds(g: Global, a: Act)
    requires OneThread(g) && JobsInv(g) && LogInv(g) && CanAct(g, a)
    ensures LogInv(Act1(g, a))
  {
    hide Act1, CanAct, OneThread, JobsInv, LogPhase, LogEndings;
    PhaseHolds(g, a);
    EndingsHold(g, a);
  }

  // ---------------------------------------------------------------- all runs

  ghost predicate GlobalInv(g: Global) {
    OneThread(g) && Fifo(g) && JobsInv(g) && DropsInv(g) && LogInv(g) && CurrentInv(g) && ConnInv(g)
    && NoneForgotten(g)
  }

  ghost predicate IsRun(run: seq<Global>, acts: seq<Act>) {
    && |run| == |acts| + 1 && IsInitial(run[0])
    && forall i :: 0 <= i < |acts| ==> CanAct(run[i], acts[i]) && run[i + 1] == Act1(run[i], acts[i])
  }

  lemma {:induction false} RunInvariant(run: seq<Global>, acts: seq<Act>, i: nat)
    requires IsRun(run, acts) && i < |run|
    ensures GlobalInv(run[i])
  {
    hide Act1, CanAct, OneThread, Fifo, JobsInv, DropsInv, LogInv, CurrentInv, ConnInv, NoneForgotten;
    if i == 0 {
      InitialInv(run[0]);
    } else {
      RunInvariant(run, acts, i - 1);
      var g, a := run[i - 1], acts[i - 1];
      OneThreadHolds(g, a);
      FifoHolds(g, a);
      JobsHolds(g, a);
      DropsHolds(g, a);
      LogHolds(g, a);
      CurrentHolds(g, a);
      ConnHolds(g, a);
      NoneForgottenHolds(g, a);
    }
  }

  lemma InitialInv(g: Global)
    requires IsInitial(g)
    ensures GlobalInv(g)
  {
  }

  /** At most one thread is inside queueFunction. */
  lemma OneThreadInside(run: seq<Global>, acts: seq<Act>, i: nat, t: Tid, u: Tid)
    requires IsRun(run, acts) && i < |run| && t in run[i].threads && u in run[i].threads
    requires InQueueFunction(run[i].threads[t]) && InQueueFunction(run[i].threads[u])
    ensures t == u
  {
    RunInvariant(run, acts, i);
  }

  /** The accepted jobs are those selected, then those dropped, then those pending, in submission order. */
  lemma NoJobLost(run: seq<Global>, acts: seq<Act>, i: nat)
    requires IsRun(run, acts) && i < |run|
    ensures run[i].accepted == run[i].selected + run[i].dropped + run[i].core.jobs
    ensures Distinct(run[i].accepted)
  {
    RunInvariant(run, acts, i);
  }

  /** No job passed to execute() is forgotten: it is accepted, and then selected, dropped or pending; or its
      cancel(true) is still to come; or it is done. */
  lemma NoJobForgotten(run: seq<Global>, acts: seq<Act>, i: nat, j: JobId)
    requires IsRun(run, acts) && i < |run| && j in run[i].submitted
    ensures j in run[i].jobs
    ensures j in run[i].accepted || j in run[i].owed || IsDone(run[i].jobs[j].job)
  {
    hide OneThread, Fifo, JobsInv, DropsInv, LogInv, CurrentInv, ConnInv;
    RunInvariant(run, acts, i);
  }

  lemma StopStep(g: Global, a: Act)
    requires OneThread(g) && CanAct(g, a)
    ensures g.core.stopRequired ==> Act1(g, a).core.stopRequired && Act1(g, a).selected == g.selected
    ensures g.core.stopRequested ==> Act1(g, a).core.stopRequested && Act1(g, a).accepted == g.accepted
  {
  }

  /** Once a non-graceful stop is recorded nothing more is selected; once any stop is, nothing more is accepted. */
  lemma {:induction false} NothingAfterStop(run: seq<Global>, acts: seq<Act>, i: nat, k: nat)
    requires IsRun(run, acts) && i <= k < |run|
    ensures run[i].core.stopRequired ==> run[k].core.stopRequired && run[k].selected == run[i].selected
    ensures run[i].core.stopRequested ==> run[k].core.stopRequested && run[k].accepted == run[i].accepted
    decreases k
  {
    hide Act1, CanAct, Fifo, JobsInv, DropsInv, LogInv, OneThread;
    if i < k {
      NothingAfterStop(run, acts, i, k - 1);
      RunInvariant(run, acts, k - 1);
      StopStep(run[k - 1], acts[k - 1]);
    }
  }

  // ---------------------------------------------------------------- what single steps do

  /** One pass of the service loop, by what the queue holds: it leaves the loop exactly when a stop is requested and
      either required or nothing is pending; otherwise it takes the first pending job, or waits. */
  lemma LoopLaw(run: seq<Global>, acts: seq<Act>, i: nat, t: Tid)
    requires IsRun(run, acts) && i < |acts| && acts[i] == LoopStep(t)
    ensures At(run[i], t, AtLock) && t in run[i + 1].threads
    ensures var q := run[i].core; var pc := run[i + 1].threads[t];
            && (pc == Stopping <==> q.stopRequested && (q.stopRequired || q.jobs == []))
            && (q.jobs != [] && !q.stopRequired ==> pc == Executing(q.jobs[0]))
            && (q.jobs != [] && !q.stopRequested ==> pc == Executing(q.jobs[0]))
            && (q.jobs == [] && !q.stopRequested ==> pc == AtLock)
    ensures var q, r := run[i].core, run[i + 1].core;
            && (run[i + 1].threads[t].Executing? ==>
                  [run[i + 1].threads[t].job] + r.jobs == q.jobs && r.current == Some(run[i + 1].threads[t].job)
                  && run[i + 1].selected == run[i].selected + [run[i + 1].threads[t].job])
            && (!run[i + 1].threads[t].Executing? ==>
                  r.jobs == q.jobs && r.current == None && run[i + 1].selected == run[i].selected)
  {
  }

  /** start() makes a new thread exactly when there is none and no stop is requested. */
  lemma StartLaw(run: seq<Global>, acts: seq<Act>, i: nat, t: Tid)
    requires IsRun(run, acts) && i < |acts| && (acts[i] == UserStart(t) || acts[i] == WakeStart(t))
    ensures if run[i].core.thread == None && !run[i].core.stopRequested
            then run[i + 1].threads == run[i].threads[t := Created] && run[i + 1].core.thread == Some(t)
            else run[i + 1].threads == run[i].threads && run[i + 1].core == run[i].core
  {
  }

  /** execute() queues the job last, unless a stop is requested. */
  lemma ExecuteLaw(run: seq<Global>, acts: seq<Act>, i: nat, j: JobId)
    requires IsRun(run, acts) && i < |acts| && acts[i] == UserExecute(j)
    ensures if run[i].core.stopRequested
            then run[i + 1].core == run[i].core && run[i + 1].accepted == run[i].accepted
            else run[i + 1].core.jobs == run[i].core.jobs + [j] && run[i + 1].accepted == run[i].accepted + [j]
  {
  }

  /** stop() requests a stop, and stop(false) requires it, also behind a stop(true); nothing else changes. */
  lemma StopLaw(run: seq<Global>, acts: seq<Act>, i: nat, gracefully: bool)
    requires IsRun(run, acts) && i < |acts| && acts[i] == UserStop(gracefully)
    ensures var q, r := run[i].core, run[i + 1].core;
            r == q.(stopRequested := true, stopRequired := q.stopRequired || !gracefully)
  {
  }

  /** What execute() and stop() owe: a refused job, and the job in execution when stop(false) is the first stop. */
  lemma OwedLaw(run: seq<Global>, acts: seq<Act>, i: nat)
    requires IsRun(run, acts) && i < |acts|
    ensures match acts[i]
            case UserExecute(j) => run[i + 1].owed == run[i].owed + if run[i].core.stopRequested then {j} else {}
            case UserStop(gracefully) =>
              run[i + 1].owed == run[i].owed +
                if run[i].core.stopRequested || (gracefully && !run[i].core.stopRequired) || run[i].core.current == None
                then {} else {run[i].core.current.value}
            case PayCancel(j) =>
              j in run[i + 1].jobs && IsDone(run[i + 1].jobs[j].job) && run[i + 1].owed == run[i].owed - {j}
            case _ => run[i + 1].owed == run[i].owed
  {
    RunInvariant(run, acts, i);
    if acts[i].PayCancel? {
      JobInvOf(run[i], acts[i].j);
      CancelEnabled(run[i].jobs[acts[i].j]);
      DoneIsKept(run[i].jobs[acts[i].j], Cancel(true));
    }
  }

  /** A reincarnator waits, then gives up or starts the queue again. */
  lemma ReincarnationLaw(run: seq<Global>, acts: seq<Act>, i: nat)
    requires IsRun(run, acts) && i < |acts|
    ensures match acts[i]
            case Revive(t) => run[i + 1].waiting == run[i].waiting + 1 && run[i + 1].waking == run[i].waking
            case Wake(giveUp) =>
              run[i].waiting == run[i + 1].waiting + 1 && run[i + 1].waking == run[i].waking + if giveUp then 0 else 1
            case WakeStart(t) => run[i].waking == run[i + 1].waking + 1 && run[i + 1].waiting == run[i].waiting
            case _ => run[i + 1].waiting == run[i].waiting && run[i + 1].waking == run[i].waking
  {
  }

  /** A thread whose job has returned goes on to the next one, unless a ThreadDeath came out. */
  lemma AfterLaw(run: seq<Global>, acts: seq<Act>, i: nat, t: Tid)
    requires IsRun(run, acts) && i < |acts| && acts[i] == AfterExecute(t)
    ensures run[i].threads[t].Executing? && run[i].threads[t].job in run[i].jobs && t in run[i + 1].threads
    ensures var s := run[i].jobs[run[i].threads[t].job];
            s.runner.Returned? && run[i + 1].threads[t] == if s.runner.rethrow == Some(Death) then Stopping else AtLock
  {
  }

  /** A thread that ends without a stop is reincarnated if that is possible, and no job is lost; otherwise the queue is
      stopped and every pending job dropped. */
  lemma ThreadStoppedLaw(run: seq<Global>, acts: seq<Act>, i: nat, t: Tid)
    requires IsRun(run, acts) && i < |acts| && acts[i] == ThreadStopped(t)
    ensures t in run[i + 1].threads && run[i + 1].core.thread == None
    ensures var g, h := run[i], run[i + 1];
            if !g.core.stopRequested && g.possible
            then h.threads[t] == Reviving && h.core.jobs == g.core.jobs && h.dropped == g.dropped
                 && !h.core.stopRequested
            else h.threads[t] == Dropping(g.core.jobs) && h.core.jobs == [] && h.dropped == g.dropped + g.core.jobs
                 && h.core.stopRequested
  {
  }

  // ---------------------------------------------------------------- a graceful stop

  /** No stop(false) so far, and no thread has ended by an exception. */
  ghost predicate Calm(run: seq<Global>, acts: seq<Act>, i: nat) {
    forall m :: 0 <= m < i && m < |acts| && m < |run| ==> CalmStep(run[m], acts[m])
  }

  predicate CalmStep(g: Global, a: Act) {
    match a
    case UserStop(gracefully) => gracefully
    case OpenFails(_) => false
    case Interrupted(_) => false
    case AfterExecute(t) =>
      t in g.threads && g.threads[t].Executing? && g.threads[t].job in g.jobs &&
      var r := g.jobs[g.threads[t].job].runner; !(r.Returned? && r.rethrow == Some(Death))
    case _ => true
  }

  /** A thread leaves the loop only when a stop is requested and nothing is pending; so nothing is ever dropped. */
  ghost predicate CalmInv(g: Global) {
    && !g.core.stopRequired && g.dropped == []
    && (forall t :: t in g.threads && g.threads[t] == Stopping ==> g.core.stopRequested && g.core.jobs == [])
    && (forall t :: t in g.threads ==> g.threads[t] != Reviving)
  }

  lemma CalmHolds(g: Global, a: Act)
    requires OneThread(g) && CalmInv(g) && CanAct(g, a) && CalmStep(g, a)
    ensures CalmInv(Act1(g, a))
  {
    hide Do, Enabled, NeedsRollback, IsCancelStep;
  }

  lemma {:induction false} CalmRun(run: seq<Global>, acts: seq<Act>, i: nat)
    requires IsRun(run, acts) && i < |run| && Calm(run, acts, i)
    ensures CalmInv(run[i])
  {
    hide Act1, CanAct, OneThread, Fifo, JobsInv, DropsInv, LogInv, CurrentInv, ConnInv, CalmStep;
    if i > 0 {
      CalmRun(run, acts, i - 1);
      RunInvariant(run, acts, i - 1);
      assert CalmStep(run[i - 1], acts[i - 1]);
      CalmHolds(run[i - 1], acts[i - 1]);
    }
  }

  /** After a graceful stop all jobs already queued are executed: as long as nobody calls stop(false) and no thread
      dies, nothing is dropped, and when the thread has completed, every accepted job was selected and its execution
      is over. */
  lemma GracefulStopRunsAll(run: seq<Global>, acts: seq<Act>, i: nat, t: Tid)
    requires IsRun(run, acts) && i < |run| && Calm(run, acts, i)
    ensures run[i].dropped == [] && run[i].accepted == run[i].selected + run[i].core.jobs
    ensures At(run[i], t, Completed) ==>
              run[i].core.jobs == [] && run[i].selected == run[i].accepted
              && forall j :: j in run[i].accepted ==> j in run[i].jobs && run[i].jobs[j].runner.Returned?
  {
    CalmRun(run, acts, i);
    RunInvariant(run, acts, i);
  }

  // ---------------------------------------------------------------- a stop without a thread

  lemma NoThreadStep(g: Global, a: Act)
    requires OneThread(g) && CanAct(g, a) && g.core.stopRequested && g.core.thread.None?
    ensures var h := Act1(g, a);
            && h.core.stopRequested && h.core.thread.None? && h.core.jobs == g.core.jobs
            && h.selected == g.selected && h.dropped == g.dropped
  {
  }

  /** A queue that is stopped without a thread, because it was never started or a reincarnator is waiting, never does
      anything again: its jobs stay pending, their bodies never run, and they are done only if somebody cancels them. */
  lemma {:induction false} StoppedWithoutThread(run: seq<Global>, acts: seq<Act>, i: nat, k: nat)
    requires IsRun(run, acts) && i <= k < |run| && run[i].core.stopRequested && run[i].core.thread.None?
    ensures run[k].core.stopRequested && run[k].core.thread.None?
    ensures run[k].core.jobs == run[i].core.jobs && run[k].selected == run[i].selected
            && run[k].dropped == run[i].dropped
    ensures forall j :: j in run[i].core.jobs ==>
              j in run[k].jobs && run[k].jobs[j].bodyRuns == 0 && run[k].jobs[j].job.state in {PENDING, CANCELLED}
    decreases k
  {
    hide Act1, CanAct, DropsInv, LogInv, CurrentInv, ConnInv;
    if i < k {
      StoppedWithoutThread(run, acts, i, k - 1);
      RunInvariant(run, acts, k - 1);
      NoThreadStep(run[k - 1], acts[k - 1]);
    }
    RunInvariant(run, acts, k);
    PendingUntouched(run[k]);
  }

  /** A job still in the queue has not begun. */
  lemma PendingUntouched(g: Global)
    requires Fifo(g) && JobsInv(g)
    ensures forall j :: j in g.core.jobs ==>
              j in g.jobs && g.jobs[j].bodyRuns == 0 && g.jobs[j].job.state in {PENDING, CANCELLED}
  {
    forall j | j in g.core.jobs
      ensures j in g.jobs && g.jobs[j].bodyRuns == 0 && g.jobs[j].job.state in {PENDING, CANCELLED}
    {
      var k :| 0 <= k < |g.core.jobs| && g.core.jobs[k] == j;
      var p := |g.selected| + |g.dropped| + k;
      assert g.accepted[p] == j;
      assert forall m :: 0 <= m < |g.selected| ==> g.accepted[m] == g.selected[m];
      assert j !in g.selected;
      assert Inv(g.jobs[j]) && g.jobs[j].runner == Idle;
      IdleIsUntouched(g.jobs[j]);
    }
  }

  lemma IdleIsUntouched(s: Sys)
    requires Inv(s) && s.runner == Idle
    ensures s.bodyRuns == 0 && s.job.state in {PENDING, CANCELLED}
  {
  }

  /** When threadStopped has completed without reincarnating, every accepted job is done. */
  lemma AllDone(run: seq<Global>, acts: seq<Act>, i: nat, t: Tid)
    requires IsRun(run, acts) && i < |run| && At(run[i], t, Completed)
    ensures forall j :: j in run[i].accepted ==> j in run[i].jobs && IsDone(run[i].jobs[j].job)
  {
    RunInvariant(run, acts, i);
    var g := run[i];
    forall j | j in g.accepted
      ensures j in g.jobs && IsDone(g.jobs[j].job)
    {
      if j in g.selected {
        var k :| 0 <= k < |g.selected| && g.selected[k] == j;
        assert Inv(g.jobs[j]);
      } else {
        assert j in g.dropped;
      }
    }
  }

  lemma {:induction false} PhaseOfPrefix(log: seq<Event>, i: nat)
    requires i <= |log| && PhaseOf(log) != Broken
    ensures PhaseOf(log[..i]) != Broken
    decreases |log| - i
  {
    if i < |log| {
      assert log[..|log| - 1][..i] == log[..i];
      PhaseOfPrefix(log[..|log| - 1], i);
    } else {
      assert log[..i] == log;
    }
  }

  /** In a well-formed log, rollbacks come right behind the endings that need one, and nowhere else. */
  lemma RollbackPlaces(log: seq<Event>, i: nat)
    requires PhaseOf(log) != Broken && PhaseOf(log) != Owing && i < |log|
    ensures log[i] == RolledBack ==> i > 0 && log[i - 1].Ended? && NeedsRollback(log[i - 1].state, log[i - 1].threw)
    ensures log[i].Ended? && NeedsRollback(log[i].state, log[i].threw) ==> i + 1 < |log| && log[i + 1] == RolledBack
  {
    PhaseOfPrefix(log, i);
    PhaseOfPrefix(log, i + 1);
    assert log[..i + 1][..i] == log[..i];
    if i > 0 {
      PhaseOfPrefix(log, i - 1);
      assert log[..i][..i - 1] == log[..i - 1];
    }
    if i + 1 < |log| {
      PhaseOfPrefix(log, i + 2);
      assert log[..i + 2][..i + 1] == log[..i + 1];
    } else {
      assert log[..i + 1] == log;
    }
  }

  /** A rollback follows a job immediately if and only if the job ended CANCELLED or in ERROR, or a callback killed
      the thread; so it always lies between such a job and the next one selected, and never behind a job that
      succeeded quietly. */
  lemma RollbackExactly(run: seq<Global>, acts: seq<Act>, i: nat, k: nat)
    requires IsRun(run, acts) && i < |run| && k < |run[i].log| && run[i].log[k].Ended?
    ensures var e := run[i].log[k];
            && e.job in run[i].jobs && e.state == run[i].jobs[e.job].job.state && run[i].jobs[e.job].runner.Returned?
            && (k + 1 < |run[i].log| && run[i].log[k + 1] == RolledBack <==>
                e.state == CANCELLED || e.state == ERROR || run[i].jobs[e.job].runner.rethrow.Some?)
  {
    RunInvariant(run, acts, i);
    var log := run[i].log;
    RollbackPlaces(log, k);
    if k + 1 < |log| { RollbackPlaces(log, k + 1); }
    assert Inv(run[i].jobs[log[k].job]);
  }

  /** The first stop(false) during the execution of a job gets that very job to cancel; stop(true), and stop(false)
      behind another stop, get none; and what is got is never a job that the queue has not selected last. */
  lemma StopHitsTheCurrentJob(run: seq<Global>, acts: seq<Act>, i: nat, t: Tid, gracefully: bool)
    requires IsRun(run, acts) && i < |run|
    ensures var g := run[i]; var hit := StopBlock(g.core, gracefully).1;
            && (t in g.threads && g.threads[t].Executing? && !gracefully && !g.core.stopRequested ==>
                  hit == Some(g.threads[t].job))
            && (g.core.stopRequested || gracefully ==> hit == None)
            && (hit.Some? ==> |g.selected| > 0 && g.selected[|g.selected| - 1] == hit.value)
  {
    hide Fifo, JobsInv, DropsInv, LogInv, ConnInv;
    RunInvariant(run, acts, i);
  }

  /** The connection cancel() decides to interrupt is, at that moment, the one of the thread that executes this very
      job. */
  lemma CancelInterruptsItsOwnThread(run: seq<Global>, acts: seq<Act>, i: nat, j: JobId, mayInterrupt: bool)
    requires IsRun(run, acts) && i < |run| && j in run[i].jobs
    ensures var outcome := CancelBlock(run[i].jobs[j].job, mayInterrupt).1;
            outcome.Interrupt? ==> At(run[i], outcome.connection, Executing(j))
  {
    hide Fifo, JobsInv, DropsInv, LogInv, CurrentInv;
    RunInvariant(run, acts, i);
    assert ConnOk(run[i], j);
  }
}
