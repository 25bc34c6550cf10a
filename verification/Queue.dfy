/** SQLiteQueue: the fields protected by the queue's lock and the blocks synchronized on it. */
module Queue {
  import opened Wrappers

  type JobId = nat
  type Tid = nat

  datatype Core = Core(jobs: seq<JobId>, thread: Option<Tid>, stopRequested: bool, stopRequired: bool,
                       current: Option<JobId>)

  const NEW_CORE := Core([], None, false, false, None)

  /** start(): true if t becomes the queue thread. */
  function StartQueueBlock(q: Core, t: Tid): (Core, bool) {
    if q.thread.Some? || q.stopRequested then (q, false) else (q.(thread := Some(t)), true)
  }

  /** stop(): the job to cancel, if any. */
  function StopBlock(q: Core, gracefully: bool): (Core, Option<JobId>) {
    var q := if gracefully then q else q.(stopRequired := true);
    if q.stopRequested then (q, None)
    else (q.(stopRequested := true), if q.stopRequired then q.current else None)
  }

  /** execute(): false if the caller has to cancel the job instead. */
  function ExecuteBlock(q: Core, job: JobId): (Core, bool) {
    if q.stopRequested then (q, false) else (q.(jobs := q.jobs + [job]), true)
  }

  datatype Decision = Exit | Wait | Run(job: JobId)

  /** One pass of the service loop under the lock. */
  function LoopBlock(q: Core): (Core, Decision) {
    var q := q.(current := None);
    if q.stopRequested && (q.stopRequired || q.jobs == []) then (q, Exit)
    else if q.jobs == [] then (q, Wait)
    else (q.(jobs := q.jobs[1..], current := Some(q.jobs[0])), Run(q.jobs[0]))
  }

  /** threadStopped(): whether to reincarnate, and otherwise the jobs dropped. */
  function ThreadStoppedBlock(q: Core, possible: bool): (Core, bool, seq<JobId>) {
    if !q.stopRequested && possible then (q.(thread := None), true, [])
    else (q.(stopRequested := true, jobs := [], thread := None), false, q.jobs)
  }

  class SQLiteQueue {
    var myJobs: seq<JobId>
    var myThread: Option<Tid>
    var myStopRequested: bool
    var myStopRequired: bool
    var myCurrentJob: Option<JobId>

    function Abs(): Core
      reads this
    {
      Core(myJobs, myThread, myStopRequested, myStopRequired, myCurrentJob)
    }

    constructor ()
      ensures Abs() == NEW_CORE
    {
      myJobs, myThread, myStopRequested, myStopRequired, myCurrentJob := [], None, false, false, None;
    }

    method Start(thread: Tid) returns (started: bool)
      modifies this`myThread
      ensures (Abs(), started) == StartQueueBlock(old(Abs()), thread)
      ensures started <==> old(myThread) == None && !myStopRequested
      ensures myThread == if started then Some(thread) else old(myThread)
    {
      if myThread.Some? || myStopRequested { return false; }
      myThread := Some(thread);
      started := true;
    }

    method Stop(gracefully: bool) returns (currentJob: Option<JobId>)
      modifies this`myStopRequested, this`myStopRequired
      ensures (Abs(), currentJob) == StopBlock(old(Abs()), gracefully)
      ensures myStopRequested && (myStopRequired <==> old(myStopRequired) || !gracefully)
      ensures currentJob == if old(myStopRequested) || !myStopRequired then None else myCurrentJob
    {
      currentJob := None;
      if !gracefully { myStopRequired := true; }
      if myStopRequested { return; }
      myStopRequested := true;
      if myStopRequired { currentJob := myCurrentJob; }
    }

    method Execute(job: JobId) returns (queued: bool)
      modifies this`myJobs
      ensures (Abs(), queued) == ExecuteBlock(old(Abs()), job)
      ensures queued <==> !myStopRequested
      ensures myJobs == old(myJobs) + if queued then [job] else []
    {
      if myStopRequested { return false; }
      AddJob(job);
      queued := true;
    }

    method AddJob(job: JobId)
      modifies this`myJobs
      ensures myJobs == old(myJobs) + [job]
    {
      myJobs := myJobs + [job];
    }

    /** selectJob: the oldest job, which leaves the collection. */
    method SelectJob() returns (r: Option<JobId>)
      modifies this`myJobs
      ensures r == if old(myJobs) == [] then None else Some(old(myJobs)[0])
      ensures myJobs == if old(myJobs) == [] then [] else old(myJobs)[1..]
    {
      if myJobs == [] { return None; }
      r := Some(myJobs[0]);
      myJobs := myJobs[1..];
    }

    method LoopPass() returns (decision: Decision)
      modifies this`myJobs, this`myCurrentJob
      ensures (Abs(), decision) == LoopBlock(old(Abs()))
      ensures decision == Exit <==> myStopRequested && (myStopRequired || old(myJobs) == [])
      ensures decision == Wait <==> !myStopRequested && old(myJobs) == []
      ensures match decision
              case Run(j) => [j] + myJobs == old(myJobs) && myCurrentJob == Some(j)
              case _ => myJobs == old(myJobs) && myCurrentJob == None
    {
      myCurrentJob := None;
      if myStopRequested && (myStopRequired || myJobs == []) { return Exit; }
      var job := SelectJob();
      if job.Some? {
        myCurrentJob := job;
        return Run(job.value);
      }
      decision := Wait;
    }

    method ThreadStopped(reincarnationPossible: bool) returns (reincarnate: bool, droppedJobs: seq<JobId>)
      modifies this`myJobs, this`myThread, this`myStopRequested
      ensures (Abs(), reincarnate, droppedJobs) == ThreadStoppedBlock(old(Abs()), reincarnationPossible)
      ensures myThread == None && (reincarnate <==> !old(myStopRequested) && reincarnationPossible)
      ensures if reincarnate then myJobs == old(myJobs) && droppedJobs == [] && !myStopRequested
              else myJobs == [] && droppedJobs == old(myJobs) && myStopRequested
    {
      reincarnate, droppedJobs := !myStopRequested, [];
      if reincarnate && !reincarnationPossible {
        reincarnate := false;
        myStopRequested := true;
      }
      if !reincarnate { droppedJobs, myJobs := myJobs, []; }
      myThread := None;
    }
  }
}
