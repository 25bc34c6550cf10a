/** SQLiteJob: one unit of work, run at most once by a database thread while any number of other
    threads may cancel it. Every block synchronized on the job's lock is one atomic step. */
module Job {
  import opened Wrappers

  datatype State = PENDING | RUNNING | SUCCEEDED | ERROR | CANCELLED

  /** What the body of a job can throw: SQLiteInterruptedException, ThreadDeath, anything else. */
  datatype Thrown = Interrupted | Death | Other

  type Conn = nat
  type Result = Option<int>   // None is Java's null

  /** The fields protected by the job's lock. */
  datatype Fields = Fields(state: State, error: Option<Thrown>, connection: Option<Conn>, queued: bool, result: Result)

  const NEW_JOB := Fields(PENDING, None, None, false, None)

  predicate IsDone(j: Fields) { j.state == SUCCEEDED || j.state == CANCELLED || j.state == ERROR }

  // ---------------------------------------------------------------- the synchronized blocks

  datatype CancelOutcome = Refused | Interrupt(connection: Conn) | MustFinish

  /** cancel(): afterwards the caller interrupts the connection, or finishes the job itself. */
  function CancelBlock(j: Fields, mayInterrupt: bool): (Fields, CancelOutcome) {
    if IsDone(j) || (j.state == RUNNING && !mayInterrupt) then (j, Refused)
    else (j.(state := CANCELLED), if j.connection.Some? then Interrupt(j.connection.value) else MustFinish)
  }

  /** startJob(). */
  function StartBlock(j: Fields, connection: Conn): (Fields, bool) {
    if j.state != PENDING then (j, false)
    else (j.(state := RUNNING, connection := Some(connection), queued := true), true)
  }

  /** processJobError(): true if the exception is thrown on. */
  function ErrorBlock(j: Fields, e: Thrown): (Fields, bool) {
    if e == Interrupted then (j.(state := CANCELLED), false)
    else (j.(error := Some(e), state := ERROR), true)
  }

  /** The first block of finishJob(). */
  function FinishBlock(j: Fields, result: Result): Fields {
    if j.state == RUNNING then j.(connection := None, state := SUCCEEDED, result := result)
    else j.(connection := None)
  }

  /** The second block of finishJob(). */
  function ReleaseBlock(j: Fields): Fields { j.(queued := false) }

  /** SQLiteJob: the blocks as they update the object's fields. */
  class SQLiteJob {
    var myState: State
    var myError: Option<Thrown>
    var myConnection: Option<Conn>
    var myQueue: bool
    var myResult: Result

    function Abs(): Fields
      reads this
    {
      Fields(myState, myError, myConnection, myQueue, myResult)
    }

    constructor ()
      ensures Abs() == NEW_JOB
    {
      myState, myError, myConnection, myQueue, myResult := PENDING, None, None, false, None;
    }

    method Cancel(mayInterruptIfRunning: bool) returns (outcome: CancelOutcome)
      modifies this`myState
      ensures (Abs(), outcome) == CancelBlock(old(Abs()), mayInterruptIfRunning)
      ensures outcome == Refused <==> old(myState) in {SUCCEEDED, CANCELLED, ERROR}
                                      || (old(myState) == RUNNING && !mayInterruptIfRunning)
      ensures myState == if outcome == Refused then old(myState) else CANCELLED
      ensures outcome != Refused ==> outcome == if myConnection.Some? then Interrupt(myConnection.value) else MustFinish
    {
      if myState == SUCCEEDED || myState == CANCELLED || myState == ERROR { return Refused; }
      if myState == RUNNING && !mayInterruptIfRunning { return Refused; }
      myState := CANCELLED;
      outcome := match myConnection case Some(c) => Interrupt(c) case None => MustFinish;
    }

    method StartJob(connection: Conn) returns (started: bool)
      modifies this`myState, this`myConnection, this`myQueue
      ensures (Abs(), started) == StartBlock(old(Abs()), connection)
      ensures started <==> old(myState) == PENDING
      ensures if started then myState == RUNNING && myConnection == Some(connection) && myQueue
              else Abs() == old(Abs())
    {
      if myState != PENDING { return false; }
      myState := RUNNING;
      myConnection := Some(connection);
      myQueue := true;
      started := true;
    }

    method ProcessJobError(e: Thrown) returns (rethrow: bool)
      modifies this`myState, this`myError
      ensures (Abs(), rethrow) == ErrorBlock(old(Abs()), e)
      ensures rethrow <==> e != Interrupted
      ensures myState == (if rethrow then ERROR else CANCELLED)
      ensures myError == if rethrow then Some(e) else old(myError)
    {
      if e.Interrupted? {
        myState := CANCELLED;
        rethrow := false;
      } else {
        myError := Some(e);
        myState := ERROR;
        rethrow := true;
      }
    }

    method FinishFirst(result: Result)
      modifies this`myConnection, this`myState, this`myResult
      ensures Abs() == FinishBlock(old(Abs()), result)
      ensures myConnection == None
      ensures if old(myState) == RUNNING then myState == SUCCEEDED && myResult == result
              else myState == old(myState) && myResult == old(myResult)
    {
      myConnection := None;
      if myState == RUNNING {
        myState := SUCCEEDED;
        myResult := result;
      }
    }

    method FinishSecond()
      modifies this`myQueue
      ensures Abs() == ReleaseBlock(old(Abs())) && !myQueue
    {
      myQueue := false;
    }

    /** get(), once it does not wait any more. */
    method Get() returns (r: Observation)
      requires IsDone(Abs())
      ensures r == Observe(Abs())
      ensures r == if myState == ERROR then Failed(myError) else Value(myResult)
    {
      if myState == ERROR { return Failed(myError); }
      return Value(myResult);
    }
  }

  /** What get() does: Failed is the ExecutionException. */
  datatype Observation = Failed(error: Option<Thrown>) | Value(result: Result)

  function Observe(j: Fields): Observation
    requires IsDone(j)
  {
    if j.state == ERROR then Failed(j.error) else Value(j.result)
  }

  // ---------------------------------------------------------------- one job and the threads around it

  /** Where the database thread is inside execute(). */
  datatype Runner =
    | Idle                                  // execute() not called
    | InBody                                // startJob succeeded; job() runs
    | Threw(e: Thrown)                      // job() threw; before processJobError
    | Finishing(result: Result, rethrow: Option<Thrown>)   // before finishJob's first block
    | Calling(result: Result, rethrow: Option<Thrown>)     // jobCancelled or jobError, before jobFinished
    | Ending(rethrow: Option<Thrown>)       // jobFinished, before finishJob's second block
    | Returned(rethrow: Option<Thrown>)     // execute() is over, normally or by an exception

  /** `owed`: cancel() calls that decided to finish the job and have not reached the first block of finishJob;
      `calling`: those before jobFinished; `ending`: those before the second block. The rest is history: `lost`
      counts finishJob calls that died before jobFinished, `told` is what jobFinished was given last, `ended`
      how the body ended, and `hit` whether a cancel(true) came while the job was RUNNING. */
  datatype Sys = Sys(job: Fields, runner: Runner, owed: nat, calling: nat, ending: nat,
                     bodyRuns: nat, finishes: nat, lost: nat, tells: nat, cancelledPending: bool,
                     told: Option<Result>, ended: Option<End>, hit: bool)

  datatype End = Gave(result: Result) | Raised(e: Thrown)

  const NEW_SYS := Sys(NEW_JOB, Idle, 0, 0, 0, 0, 0, 0, 0, false, None, None, false)

  datatype Action =
    | Cancel(mayInterrupt: bool)
    | CancelFinish
    | CancelTell
    | CancelRelease
    | CancelDies(late: bool)
    | Start(connection: Conn)
    | BodyReturns(result: Result)
    | BodyThrows(e: Thrown)
    | ProcessError
    | Finish
    | Tell
    | CallbackDies
    | Release

  /** A callback that throws ThreadDeath ends finishJob. A job that succeeded has no callback before jobFinished. */
  predicate Enabled(s: Sys, a: Action) {
    match a
    case Cancel(_) => true
    case CancelFinish => s.owed > 0
    case CancelTell => s.calling > 0
    case CancelRelease => s.ending > 0
    case CancelDies(late) => if late then s.ending > 0 else s.calling > 0
    case Start(_) => s.runner == Idle
    case BodyReturns(_) => s.runner == InBody
    case BodyThrows(_) => s.runner == InBody
    case ProcessError => s.runner.Threw?
    case Finish => s.runner.Finishing?
    case Tell => s.runner.Calling?
    case CallbackDies => s.runner.Ending? || (s.runner.Calling? && s.job.state != SUCCEEDED)
    case Release => s.runner.Ending?
  }

  function Do(s: Sys, a: Action): Sys
    requires Enabled(s, a)
  {
    match a
    case Cancel(mayInterrupt) =>
      var (j, outcome) := CancelBlock(s.job, mayInterrupt);
      s.(job := j,
         owed := if outcome.MustFinish? then s.owed + 1 else s.owed,
         cancelledPending := s.cancelledPending || s.job.state == PENDING,
         hit := s.hit || (mayInterrupt && s.job.state == RUNNING))
    case CancelFinish =>
      s.(job := FinishBlock(s.job, None), owed := s.owed - 1, calling := s.calling + 1, finishes := s.finishes + 1)
    case CancelTell =>
      s.(calling := s.calling - 1, ending := s.ending + 1, tells := s.tells + 1, told := Some(None))
    case CancelRelease => s.(job := ReleaseBlock(s.job), ending := s.ending - 1)
    case CancelDies(late) =>
      if late then s.(ending := s.ending - 1) else s.(calling := s.calling - 1, lost := s.lost + 1)
    case Start(connection) =>
      var (j, started) := StartBlock(s.job, connection);
      if started then s.(job := j, runner := InBody, bodyRuns := s.bodyRuns + 1)
      else s.(job := j, runner := Returned(None))
    case BodyReturns(result) => s.(runner := Finishing(result, None), ended := Some(Gave(result)))
    case BodyThrows(e) => s.(runner := Threw(e), ended := Some(Raised(e)))
    case ProcessError =>
      var (j, rethrow) := ErrorBlock(s.job, s.runner.e);
      s.(job := j, runner := Finishing(None, if rethrow then Some(s.runner.e) else None))
    case Finish =>
      s.(job := FinishBlock(s.job, s.runner.result), runner := Calling(s.runner.result, s.runner.rethrow),
         finishes := s.finishes + 1)
    case Tell => s.(runner := Ending(s.runner.rethrow), tells := s.tells + 1, told := Some(s.runner.result))
    case CallbackDies =>
      s.(runner := Returned(Some(Death)), lost := if s.runner.Calling? then s.lost + 1 else s.lost)
    case Release => s.(job := ReleaseBlock(s.job), runner := Returned(s.runner.rethrow))
  }

  predicate WillFinish(r: Runner) { r == InBody || r.Threw? || r.Finishing? }

  predicate Rethrows(r: Runner) { (r.Finishing? || r.Calling? || r.Ending? || r.Returned?) && r.rethrow.Some? }

  /** Exactly one call of finishJob is made, or still to be made, once the job has left PENDING; and it is before
      jobFinished, has died there, or has called it. */
  predicate Counts(s: Sys) {
    && s.finishes + s.owed + (if WillFinish(s.runner) then 1 else 0) == (if s.job.state == PENDING then 0 else 1)
    && s.tells + s.lost + s.calling + (if s.runner.Calling? then 1 else 0) == s.finishes
    && s.bodyRuns == (if s.cancelledPending || s.runner == Idle then 0 else 1)
    && (s.told.Some? <==> s.tells > 0)
  }

  predicate States(s: Sys) {
    && (s.job.connection.Some? <==> WillFinish(s.runner))
    && (s.job.state == RUNNING ==> WillFinish(s.runner))
    && (s.job.state == PENDING ==> s.runner == Idle && !s.cancelledPending)
    && (s.cancelledPending ==> s.job.state == CANCELLED && (s.runner == Idle || s.runner == Returned(None)))
    && (s.runner.Idle? && s.job.state != PENDING ==> s.cancelledPending)
    && (s.job.state == SUCCEEDED ==> s.finishes == 1 && s.lost == 0)
    && (s.job.state != SUCCEEDED ==> s.job.result == None)
    && (s.job.state == ERROR <==> s.job.error.Some?)
    && (s.runner.Finishing? && s.runner.rethrow.Some? ==> s.job.state == ERROR)
    && (s.job.state == ERROR ==> Rethrows(s.runner))
    && (s.runner.Returned? ==> IsDone(s.job))
  }

  /** What the body gave, if it gave anything. */
  function GivenBy(e: End): Result { if e.Gave? then e.result else None }

  /** What execute() throws on. */
  function RaisedBy(e: End): Option<Thrown> { if e.Raised? && e.e != Interrupted then Some(e.e) else None }

  /** What is handed on to jobFinished. */
  predicate Results(s: Sys) {
    && (s.ended.Some? <==> s.bodyRuns == 1 && s.runner != InBody)
    && (s.runner.Threw? ==> s.ended == Some(Raised(s.runner.e)))
    && (s.runner.Finishing? || s.runner.Calling? ==> s.ended.Some? && s.runner.result == GivenBy(s.ended.value))
    && (s.runner.Finishing? ==> s.runner.rethrow == RaisedBy(s.ended.value))
    && (s.told.Some? ==> s.told.value == if s.ended.Some? then GivenBy(s.ended.value) else None)
    && (s.owed > 0 || s.calling > 0 || s.ending > 0 ==> s.cancelledPending)
    && (s.cancelledPending ==> !s.hit)
  }

  /** The state a job is in, by what happened to it. */
  function Verdict(ended: Option<End>, hit: bool, finished: bool): State {
    match ended
    case Some(Raised(e)) => if e == Interrupted then CANCELLED else ERROR
    case _ => if hit then CANCELLED else if finished then SUCCEEDED else RUNNING
  }

  predicate Judged(s: Sys) {
    && (s.bodyRuns == 1 ==>
          s.job.state == Verdict(if s.runner.Threw? then None else s.ended, s.hit, s.finishes > 0))
    && (s.bodyRuns == 0 ==> !s.hit)
    && (s.job.state == ERROR ==> s.job.error.Some? && s.ended == Some(Raised(s.job.error.value)))
    && (s.job.state == SUCCEEDED ==> s.ended == Some(Gave(s.job.result)))
  }

  /** The reference to the queue is there while the database thread executes the job. */
  predicate QueueRef(s: Sys) {
    && (s.bodyRuns == 0 ==> !s.job.queued)
    && (s.bodyRuns == 1 && !s.runner.Returned? ==> s.job.queued)
  }

  predicate Inv(s: Sys) { Counts(s) && States(s) && Results(s) && Judged(s) && QueueRef(s) }

  lemma CountsHold(s: Sys, a: Action)
    requires Inv(s) && Enabled(s, a)
    ensures Counts(Do(s, a)) && QueueRef(Do(s, a))
  {
  }

  lemma StatesHold(s: Sys, a: Action)
    requires Inv(s) && Enabled(s, a)
    ensures States(Do(s, a))
  {
  }

  lemma ResultsHold(s: Sys, a: Action)
    requires Inv(s) && Enabled(s, a)
    ensures Results(Do(s, a)) && Judged(Do(s, a))
  {
  }

  lemma InvHolds(s: Sys, a: Action)
    requires Inv(s) && Enabled(s, a)
    ensures Inv(Do(s, a))
  {
    hide Do, Enabled, Counts, States, Results, Judged, QueueRef;
    CountsHold(s, a);
    StatesHold(s, a);
    ResultsHold(s, a);
  }

  /** A continuation of s. */
  ghost predicate IsRunFrom(s: Sys, run: seq<Sys>, acts: seq<Action>) {
    && |run| == |acts| + 1 && run[0] == s
    && forall i :: 0 <= i < |acts| ==> Enabled(run[i], acts[i]) && run[i + 1] == Do(run[i], acts[i])
  }

  ghost predicate IsRun(run: seq<Sys>, acts: seq<Action>) { IsRunFrom(NEW_SYS, run, acts) }

  lemma {:induction false} RunInv(run: seq<Sys>, acts: seq<Action>, i: nat)
    requires IsRun(run, acts) && i < |run|
    ensures Inv(run[i])
  {
    if i > 0 {
      RunInv(run, acts, i - 1);
      InvHolds(run[i - 1], acts[i - 1]);
    }
  }

  /** In every interleaving: the body runs at most once, and never after a cancel of the pending job; a running job
      has a recorded connection; finishJob is never called twice, and has been called exactly once when the runner
      and every canceller that owed it are through. */
  lemma OnceOnly(run: seq<Sys>, acts: seq<Action>, i: nat)
    requires IsRun(run, acts) && i < |run|
    ensures run[i].bodyRuns <= 1 && (run[i].cancelledPending ==> run[i].bodyRuns == 0)
    ensures run[i].job.state == RUNNING ==> run[i].job.connection.Some?
    ensures run[i].finishes <= 1
    ensures IsDone(run[i].job) && run[i].owed == 0 && !WillFinish(run[i].runner) ==> run[i].finishes == 1
    ensures run[i].runner.Returned? && run[i].owed == 0 ==> run[i].finishes == 1
  {
    RunInv(run, acts, i);
  }

  /** jobFinished is called at most once; and exactly once when everybody is through with the job, unless a callback
      before it killed its thread, which cannot happen to a job that succeeded. */
  lemma FinishedOnce(run: seq<Sys>, acts: seq<Action>, i: nat)
    requires IsRun(run, acts) && i < |run|
    ensures run[i].tells <= 1
    ensures run[i].runner.Returned? && run[i].owed == 0 && run[i].calling == 0 ==> run[i].tells + run[i].lost == 1
    ensures run[i].job.state == SUCCEEDED && run[i].runner.Returned? ==> run[i].tells == 1
  {
    RunInv(run, acts, i);
  }

  // ---------------------------------------------------------------- what is final

  predicate IsFinal(t: State) { t == SUCCEEDED || t == ERROR || t == CANCELLED }

  /** The body of a cancelled job is still running, or has thrown something that is not an interruption and is about
      to be processed. */
  predicate MayStillFail(s: Sys) {
    s.job.state == CANCELLED && (s.runner == InBody || (s.runner.Threw? && s.runner.e != Interrupted))
  }

  /** The only moves between states that are ever made. */
  predicate MayBecome(s: Sys, t: State) {
    match s.job.state
    case PENDING => t == PENDING || t == RUNNING || t == CANCELLED
    case RUNNING => t == RUNNING || IsFinal(t)
    case CANCELLED => t == CANCELLED || (t == ERROR && s.runner.Threw? && s.runner.e != Interrupted)
    case _ => t == s.job.state
  }

  lemma StepMoves(s: Sys, a: Action)
    requires Inv(s) && Enabled(s, a)
    ensures MayBecome(s, Do(s, a).job.state)
    ensures IsDone(s.job) && !MayStillFail(s) ==> !MayStillFail(Do(s, a))
    ensures s.finishes > 0 ==> Do(s, a).finishes > 0
    ensures s.finishes > 0 && IsDone(s.job) ==> Observe(Do(s, a).job) == Observe(s.job)
  {
  }

  /** Done stays done: SUCCEEDED and ERROR are final, and CANCELLED can only turn into ERROR, and only if the body has
      not been left by then. */
  lemma {:induction false} DoneStaysDone(s: Sys, run: seq<Sys>, acts: seq<Action>, k: nat)
    requires Inv(s) && IsDone(s.job) && IsRunFrom(s, run, acts) && k < |run|
    ensures Inv(run[k]) && IsDone(run[k].job)
    ensures run[k].job.state == s.job.state || (run[k].job.state == ERROR && MayStillFail(s))
    ensures !MayStillFail(s) ==> !MayStillFail(run[k])
    decreases k
  {
    hide Do, Inv, Enabled;
    if k > 0 {
      DoneStaysDone(s, run, acts, k - 1);
      InvHolds(run[k - 1], acts[k - 1]);
      StepMoves(run[k - 1], acts[k - 1]);
    }
  }

  ghost predicate StaysForEver(s: Sys) {
    forall run: seq<Sys>, acts: seq<Action> :: IsRunFrom(s, run, acts) ==> run[|acts|].job.state == s.job.state
  }

  /** Exactly when the state of a done job is final: unless it is CANCELLED and its body is still running or has
      thrown something that is not an interruption. */
  lemma FinalExactly(s: Sys)
    requires Inv(s) && IsDone(s.job)
    ensures StaysForEver(s) <==> !MayStillFail(s)
  {
    if MayStillFail(s) {
      var run, acts := FailsLater(s);
      assert run[|acts|].job.state != s.job.state;
    } else {
      forall run: seq<Sys>, acts: seq<Action> | IsRunFrom(s, run, acts)
        ensures run[|acts|].job.state == s.job.state
      {
        DoneStaysDone(s, run, acts, |acts|);
      }
    }
  }

  lemma FailsLater(s: Sys) returns (run: seq<Sys>, acts: seq<Action>)
    requires MayStillFail(s)
    ensures IsRunFrom(s, run, acts) && run[|acts|].job.state == ERROR
  {
    if s.runner == InBody {
      acts := [BodyThrows(Other), ProcessError];
      var t := Do(s, acts[0]);
      run := [s, t, Do(t, acts[1])];
    } else {
      acts := [ProcessError];
      run := [s, Do(s, acts[0])];
    }
  }

  /** Once finishJob has been called, get() gives the same answer for ever. */
  lemma {:induction false} AnswerIsFinal(run: seq<Sys>, acts: seq<Action>, i: nat, k: nat)
    requires IsRun(run, acts) && i <= k < |run| && run[i].finishes > 0
    ensures IsDone(run[i].job) && IsDone(run[k].job) && run[k].finishes > 0
    ensures Observe(run[k].job) == Observe(run[i].job)
    decreases k
  {
    hide Do, Enabled;
    RunInv(run, acts, i);
    RunInv(run, acts, k);
    if i < k {
      AnswerIsFinal(run, acts, i, k - 1);
      RunInv(run, acts, k - 1);
      StepMoves(run[k - 1], acts[k - 1]);
    }
  }

  // ---------------------------------------------------------------- what jobFinished is told

  /** The body has returned a value other than null. */
  ghost predicate BodyGave(acts: seq<Action>, i: nat) {
    exists m :: 0 <= m < i && m < |acts| && acts[m].BodyReturns? && acts[m].result.Some?
  }

  /** The body has ended so. */
  ghost predicate BodyEnded(acts: seq<Action>, i: nat, end: End) {
    exists m :: 0 <= m < i && m < |acts| && acts[m] == if end.Gave? then BodyReturns(end.result) else BodyThrows(end.e)
  }

  /** A cancel(true) came while the job was running. */
  ghost predicate CancelHit(run: seq<Sys>, acts: seq<Action>, i: nat) {
    exists m :: 0 <= m < i && m < |acts| && m < |run| && acts[m] == Cancel(true) && run[m].job.state == RUNNING
  }

  lemma {:induction false} HistoryIs(run: seq<Sys>, acts: seq<Action>, i: nat)
    requires IsRun(run, acts) && i < |run|
    ensures forall end :: run[i].ended == Some(end) <==> BodyEnded(acts, i, end)
    ensures run[i].hit <==> CancelHit(run, acts, i)
    ensures BodyGave(acts, i) <==> run[i].ended.Some? && GivenBy(run[i].ended.value).Some?
  {
    hide Inv, Enabled;
    if i > 0 {
      HistoryIs(run, acts, i - 1);
      RunInv(run, acts, i - 1);
      var a := acts[i - 1];
      EndsOnce(run[i - 1], a);
      forall end ensures run[i].ended == Some(end) <==> BodyEnded(acts, i, end) {
        var now := a == if end.Gave? then BodyReturns(end.result) else BodyThrows(end.e);
        assert BodyEnded(acts, i, end) <==> BodyEnded(acts, i - 1, end) || now;
      }
      assert CancelHit(run, acts, i) <==>
             CancelHit(run, acts, i - 1) || (a == Cancel(true) && run[i - 1].job.state == RUNNING);
      assert BodyGave(acts, i) <==> BodyGave(acts, i - 1) || (a.BodyReturns? && a.result.Some?);
    }
  }

  lemma EndsOnce(s: Sys, a: Action)
    requires Inv(s) && Enabled(s, a)
    ensures a.BodyReturns? || a.BodyThrows? ==> s.ended == None
  {
  }

  /** jobFinished() is told what get() answers if and only if the job succeeded, or was cancelled and its body has
      given no value: the documentation promises it for every cancelled job. */
  lemma ToldTheResult(run: seq<Sys>, acts: seq<Action>, i: nat)
    requires IsRun(run, acts) && i < |run| && run[i].told.Some?
    ensures IsDone(run[i].job)
    ensures Observe(run[i].job) == Value(run[i].told.value) <==>
            run[i].job.state == SUCCEEDED || (run[i].job.state == CANCELLED && !BodyGave(acts, i))
  {
    RunInv(run, acts, i);
    HistoryIs(run, acts, i);
  }

  // ---------------------------------------------------------------- what happens to a job

  /** Every started job whose finishJob has been called ends by these rules, whatever the interleaving: the body's
      exception decides, unless it was an interruption; otherwise the job is cancelled if it was interrupted or a
      cancel(true) came while it was running; otherwise it has succeeded, with what the body returned. jobFinished is
      told what the body returned in any case. */
  lemma Outcome(run: seq<Sys>, acts: seq<Action>, i: nat) returns (end: End)
    requires IsRun(run, acts) && i < |run| && run[i].bodyRuns == 1 && run[i].finishes == 1
    ensures BodyEnded(acts, i, end)
    ensures var j := run[i].job;
            match end
            case Raised(Interrupted) => j.state == CANCELLED && j.error == None && j.result == None
            case Raised(e) => j.state == ERROR && j.error == Some(e) && j.result == None
            case Gave(r) =>
              if CancelHit(run, acts, i) then j.state == CANCELLED && j.error == None && j.result == None
              else j.state == SUCCEEDED && j.error == None && j.result == r
    ensures run[i].told.Some? ==> run[i].told.value == if end.Gave? then end.result else None
  {
    RunInv(run, acts, i);
    HistoryIs(run, acts, i);
    end := run[i].ended.value;
  }

  /** cancel() of a job that is done, or running and not to be interrupted, changes nothing; otherwise the job is
      CANCELLED, and the caller has to finish it if it was pending. */
  lemma CancelLaw(run: seq<Sys>, acts: seq<Action>, i: nat)
    requires IsRun(run, acts) && i < |acts| && acts[i].Cancel?
    ensures var s, t := run[i], run[i + 1];
            if s.job.state in {SUCCEEDED, ERROR, CANCELLED} || (s.job.state == RUNNING && !acts[i].mayInterrupt)
            then t == s
            else
              && t.job == s.job.(state := CANCELLED) && t.runner == s.runner
              && t.owed == s.owed + if s.job.state == PENDING then 1 else 0
    ensures var outcome := CancelBlock(run[i].job, acts[i].mayInterrupt).1;
            match run[i].job.state
            case PENDING => outcome == MustFinish
            case RUNNING =>
              if acts[i].mayInterrupt
              then run[i].job.connection.Some? && outcome == Interrupt(run[i].job.connection.value)
              else outcome == Refused
            case _ => outcome == Refused
  {
    RunInv(run, acts, i);
  }

  /** startJob() of a pending job makes it run on that connection; of any other job, nothing. */
  lemma StartLaw(run: seq<Sys>, acts: seq<Action>, i: nat)
    requires IsRun(run, acts) && i < |acts| && acts[i].Start?
    ensures var s, t := run[i], run[i + 1];
            if s.job.state == PENDING then
              && t.job == Fields(RUNNING, None, Some(acts[i].connection), true, None)
              && t.runner == InBody && t.bodyRuns == s.bodyRuns + 1
            else t.job == s.job && t.runner == Returned(None) && t.bodyRuns == s.bodyRuns
  {
    RunInv(run, acts, i);
  }

  /** The job refers to its queue from the start of its execution to the end, unless a callback kills the thread. */
  lemma QueueLaw(run: seq<Sys>, acts: seq<Action>, i: nat)
    requires IsRun(run, acts) && i < |acts|
    ensures run[i].bodyRuns == 0 ==> !run[i].job.queued
    ensures run[i].bodyRuns == 1 && !run[i].runner.Returned? ==> run[i].job.queued
    ensures acts[i] == Release ==> !run[i + 1].job.queued && run[i + 1].job.connection == None
  {
    RunInv(run, acts, i);
    RunInv(run, acts, i + 1);
  }

  ghost predicate Gentle(acts: seq<Action>, i: nat) {
    forall m :: 0 <= m < i && m < |acts| ==> acts[m] != Cancel(true) && acts[m] != BodyThrows(Interrupted)
  }

  /** When nobody may interrupt it and its body is not interrupted, a job that has started is never CANCELLED. */
  lemma GentleCancels(run: seq<Sys>, acts: seq<Action>, i: nat)
    requires IsRun(run, acts) && i < |run| && Gentle(acts, i) && run[i].bodyRuns == 1
    ensures run[i].job.state != CANCELLED
    ensures run[i].finishes == 1 ==> run[i].job.state == SUCCEEDED || run[i].job.state == ERROR
  {
    RunInv(run, acts, i);
    HistoryIs(run, acts, i);
    if run[i].ended == Some(Raised(Interrupted)) { assert BodyEnded(acts, i, Raised(Interrupted)); }
  }

  /** A cancelled job that is told a value: cancelled while running, its body returns 1. */
  lemma CancelledYetToldAResult(c: Conn)
    ensures var acts := [Start(c), Cancel(true), BodyReturns(Some(1)), Finish, Tell];
            exists run: seq<Sys> :: IsRun(run, acts) && run[5].job.state == CANCELLED && run[5].told == Some(Some(1))
                          && Observe(run[5].job) == Value(None)
  {
    var acts := [Start(c), Cancel(true), BodyReturns(Some(1)), Finish, Tell];
    var s1 := Do(NEW_SYS, acts[0]);
    var s2 := Do(s1, acts[1]);
    var s3 := Do(s2, acts[2]);
    var s4 := Do(s3, acts[3]);
    var s5 := Do(s4, acts[4]);
    assert IsRun([NEW_SYS, s1, s2, s3, s4, s5], acts);
  }

  /** The one change a finished job can still make: cancelled while running, its body throws, and get(), which
      answered null, now fails. */
  lemma CancelledBecomesError(c: Conn)
    ensures var acts := [Start(c), Cancel(true), BodyThrows(Other), ProcessError];
            exists run: seq<Sys> :: IsRun(run, acts) && IsDone(run[2].job) && IsDone(run[4].job)
                          && Observe(run[2].job) == Value(None) && Observe(run[4].job) == Failed(Some(Other))
  {
    var acts := [Start(c), Cancel(true), BodyThrows(Other), ProcessError];
    var s1 := Do(NEW_SYS, acts[0]);
    var s2 := Do(s1, acts[1]);
    var s3 := Do(s2, acts[2]);
    var s4 := Do(s3, acts[3]);
    assert IsRun([NEW_SYS, s1, s2, s3, s4], acts);
  }
}
