/** The job table, and a worker that takes jobs off it (packages/shared/src/components/jobs.ts). */
module JobQueue {
  import opened Jobs
  import opened Wrappers

  function TriesLeft(job: Job): nat
    requires job.payload.Obj?
  {
    var left := Budget(job.payload.fields) - FailedTry(job.payload.fields, 1);
    if left > 0 then left else 0
  }

  class JobTable {
    var jobs: seq<Job>

    constructor ()
      ensures jobs == []
    {
      jobs := [];
    }

    method AddJob(job: Job)
      modifies this
      ensures jobs == old(jobs) + [job]
    {
      jobs := jobs + [job];
    }

    method EnqueueJob(input: JobInput, now: int)
      modifies this
      ensures |jobs| == |old(jobs)| + 1 && jobs[..|old(jobs)|] == old(jobs)
      ensures Accepted(input, jobs[|old(jobs)|], now)
      ensures jobs == old(jobs) + [Enqueued(input, now)]
    {
      EnqueuedIsAccepted(input, now);
      var runAt := Or(input.runAt, now);
      var queued := input.queueName.Some? && input.queueName.value != "";
      var maxAttempts := Or(input.maxAttempts, 25);
      var mode, priority := Or(input.jobKeyMode, Replace), Or(input.priority, 0);
      if queued && runAt > now {
        AddJob(Job(
          SCHEDULED_JOB,
          ScheduledPayload(Scheduled(input.identifier, input.payload, input.queueName.value, input.jobKey, mode,
                                     priority, maxAttempts)),
          None, runAt, if input.jobKey.Some? then Some(ScheduledJobKey(input.jobKey.value)) else None, mode, 1,
          priority));
        return;
      }
      var payload := if queued then Obj(StampRetryBudget(input.payload, maxAttempts, input.queueName.value))
                     else PayloadOr(input.payload);
      AddJob(Job(input.identifier, payload, input.queueName, runAt, input.jobKey, mode,
                 if queued then 1 else maxAttempts, priority));
    }

    /** `ok` is false when the payload is invalid, which the source throws on. */
    method RunScheduledJob(wrapper: Job, now: int) returns (ok: bool)
      modifies this
      ensures ok <==> Released(wrapper, now).Some?
      ensures jobs == if ok then old(jobs) + [Released(wrapper, now).value] else old(jobs)
    {
      var scheduled := ParseScheduledJob(wrapper.payload);
      if scheduled.None? { return false; }
      EnqueueJob(InputOf(scheduled.value, now), now);
      return true;
    }

    method ScheduleQueuedJobRetry(job: Job, queueName: string, attempts: int, now: int) returns (retried: bool)
      requires RetryQueue(job) == Some(queueName)
      modifies this
      ensures retried <==> MayRetry(job, attempts)
      ensures jobs == if retried then old(jobs) + [Retry(job, attempts, now)] else old(jobs)
    {
      var body := Or(AsRecord(job.payload), map[]);
      var failedTry := Or(AsNumber(Lookup(body, TRIES)), attempts);
      var maxAttempts := Or(AsNumber(Lookup(body, MAX_ATTEMPTS)), 25);
      if failedTry >= maxAttempts { return false; }
      EnqueueJob(RetryInput(job, queueName, attempts, now), now);
      return true;
    }

    /** The failure path of `traced`: false means the error goes on to the job library. */
    method Failed(job: Job, attempts: int, now: int) returns (handled: bool)
      modifies this
      ensures handled <==> RetryQueue(job).Some?
      ensures jobs == if MayRetry(job, if attempts > 1 then attempts else 1)
                      then old(jobs) + [Retry(job, if attempts > 1 then attempts else 1, now)] else old(jobs)
    {
      var queueName := RetryQueue(job);
      if queueName.None? { return false; }
      var retried := ScheduleQueuedJobRetry(job, queueName.value, if attempts > 1 then attempts else 1, now);
      return true;
    }

    /** The wrapper's hop: the job it carries comes onto its queue. */
    method Release(wrapper: Job, now: int) returns (job: Job)
      requires jobs == [wrapper] && Released(wrapper, now).Some?
      modifies this
      ensures job == Released(wrapper, now).value && jobs == [job]
    {
      jobs := [];
      var ok := RunScheduledJob(wrapper, now);
      job := jobs[0];
    }

    /** One failing execution: the wrapper it leaves, if any. */
    method FailOnce(job: Job, now: int) returns (wrapper: Option<Job>)
      requires jobs == [job]
      modifies this
      ensures wrapper == if MayRetry(job, 1) then Some(Retry(job, 1, now)) else None
      ensures jobs == if wrapper.Some? then [wrapper.value] else []
    {
      jobs := [];
      var handled := Failed(job, 1, now);
      return if jobs == [] then None else Some(jobs[0]);
    }

    /** One failing execution and the wait after it. */
    method OneTry(job: Job, now: int, later: int) returns (next: Option<Job>)
      requires OnQueue(job) && jobs == [job]
      modifies this
      ensures next == if MayRetry(job, 1) then Some(NextTry(job, later)) else None
      ensures jobs == if next.Some? then [next.value] else []
    {
      var wrapper := FailOnce(job, now);
      if wrapper.None? { return None; }
      HopThroughTheWrapper(job, now, later);
      var released := Release(wrapper.value, later);
      return Some(released);
    }

    /** A worker alone with one job that always fails, until the table is empty. */
    method WorkOff(job: Job, clock: nat -> int) returns (executed: seq<Job>)
      requires OnQueue(job) && jobs == [job]
      modifies this
      ensures jobs == [] && executed == Executions(job, clock, 0)
    {
      executed := [];
      var hop, current := 0, Some(job);
      ghost var goal := Executions(job, clock, 0);
      while current.Some?
        invariant jobs == if current.Some? then [current.value] else []
        invariant current.Some? ==> OnQueue(current.value)
        invariant goal == executed + (if current.Some? then Executions(current.value, clock, hop) else [])
        decreases if current.Some? then TriesLeft(current.value) + 1 else 0
      {
        UnfoldExecutions(current.value, clock, hop, executed);
        executed := executed + [current.value];
        if MayRetry(current.value, 1) {
          NextTryIsOnQueue(current.value, clock(hop + 1));
        }
        current := OneTry(current.value, clock(hop), clock(hop + 1));
        hop := hop + 2;
      }
    }
  }

  lemma UnfoldExecutions(job: Job, clock: nat -> int, hop: nat, before: seq<Job>)
    requires OnQueue(job)
    ensures MayRetry(job, 1) ==> OnQueue(NextTry(job, clock(hop + 1)))
    ensures before + Executions(job, clock, hop) ==
              before + [job] +
              (if MayRetry(job, 1) then Executions(NextTry(job, clock(hop + 1)), clock, hop + 2) else [])
  {
    if MayRetry(job, 1) {
      NextTryIsOnQueue(job, clock(hop + 1));
    }
  }
}
