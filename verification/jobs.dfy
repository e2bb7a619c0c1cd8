/**
 * The job queue's retry budget (packages/shared/src/components/jobs.ts and the failure path of
 * packages/worker/src/tasks.ts). A job on a named queue runs once there; its retries wait outside
 * the queue in a scheduled wrapper, and the budget travels in the payload.
 */
module Jobs {
  import opened Wrappers

  // ---- payloads -------------------------------------------------------------------------------

  /**
   * JSON. A string knows the number and the object it would be coerced to; an array is the record
   * of its index keys.
   */
  datatype Json =
    | Null
    | Num(n: int)
    | Str(text: string, numeric: Option<int>, parsed: Option<map<string, Json>>)
    | Bool(b: bool)
    | Arr(items: map<string, Json>)
    | Obj(fields: map<string, Json>)

  type Record = map<string, Json>

  function Text(s: string): Json { Str(s, None, None) }

  function AsNumber(j: Option<Json>): Option<int> {
    match j
    case Some(Num(n)) => Some(n)
    case Some(Str(_, numeric, _)) => numeric
    case _ => None
  }

  function AsString(j: Option<Json>): Option<string> {
    match j
    case Some(Str(text, _, _)) => if text == "" then None else Some(text)
    case _ => None
  }

  function AsRecord(j: Json): Option<Record> {
    match j
    case Arr(items) => Some(items)
    case Obj(fields) => Some(fields)
    case _ => None
  }

  function ReadJobPayload(j: Json): Record {
    match j
    case Str(_, _, Some(fields)) => fields
    case Obj(fields) => fields
    case _ => map[]
  }

  function Or<T>(a: Option<T>, b: T): T { if a.Some? then a.value else b }

  /** `payload ?? {}` */
  function PayloadOr(payload: Option<Json>): Json {
    if payload.None? || payload.value.Null? then Obj(map[]) else payload.value
  }

  // ---- jobs -----------------------------------------------------------------------------------

  datatype KeyMode = Replace | PreserveRunAt | UnsafeDedupe

  datatype Job = Job(
    identifier: string, payload: Json, queueName: Option<string>, runAt: int,
    jobKey: Option<string>, jobKeyMode: KeyMode, maxAttempts: int, priority: int)

  datatype JobInput = JobInput(
    identifier: string, payload: Option<Json>, queueName: Option<string>, runAt: Option<int>,
    jobKey: Option<string>, jobKeyMode: Option<KeyMode>, maxAttempts: Option<int>, priority: Option<int>)

  const SCHEDULED_JOB: string := "run_scheduled_job"
  const LATER: string := "later:"
  const TRIES: string := "_tries"
  const MAX_ATTEMPTS: string := "_maxAttempts"
  const QUEUE_NAME: string := "_queueName"

  function ScheduledJobKey(key: string): string {
    if LATER <= key then key else LATER + key
  }

  /** Milliseconds before a try after the `failedTry`-th one. */
  function JobRetryDelayMs(failedTry: int): int {
    var n := if failedTry > 1 then failedTry else 1;
    if n <= 1 then 30000
    else if n <= 2 then 60000
    else if n <= 5 then 180000
    else if n <= 10 then 900000
    else 3600000
  }

  lemma DelaysNeverDecrease(a: int, b: int)
    requires a <= b
    ensures 0 < JobRetryDelayMs(a) <= JobRetryDelayMs(b) <= 3600000
  {
  }

  /** The waits before tries 2 to `tries`. */
  function WaitsBefore(tries: nat): int {
    if tries <= 1 then 0 else WaitsBefore(tries - 1) + JobRetryDelayMs(tries - 1)
  }

  /**
   * The schedule of a failing job: half a minute and a minute, three minutes up to the fifth wait, a
   * quarter of an hour up to the tenth, and then an hour each.
   */
  lemma {:induction false} Schedule(tries: nat)
    ensures WaitsBefore(tries) ==
              if tries <= 1 then 0
              else if tries == 2 then 30000
              else if tries <= 3 then 90000
              else if tries <= 6 then 90000 + (tries - 3) * 180000
              else if tries <= 11 then 630000 + (tries - 6) * 900000
              else 5130000 + (tries - 11) * 3600000
  {
    if tries > 1 {
      Schedule(tries - 1);
    }
  }

  function StampRetryBudget(payload: Option<Json>, maxAttempts: int, queueName: string): Record {
    match (if payload.Some? then AsRecord(payload.value) else None)
    case None => map[MAX_ATTEMPTS := Num(maxAttempts), QUEUE_NAME := Text(queueName)]
    case Some(body) =>
      body[MAX_ATTEMPTS := Num(Or(AsNumber(Lookup(body, MAX_ATTEMPTS)), maxAttempts))]
          [QUEUE_NAME := Text(Or(AsString(Lookup(body, QUEUE_NAME)), queueName))]
  }

  /** What the scheduled wrapper carries. */
  datatype Scheduled = Scheduled(
    identifier: string, payload: Option<Json>, queueName: string, jobKey: Option<string>,
    jobKeyMode: KeyMode, priority: int, maxAttempts: int)

  function ModeText(m: KeyMode): string {
    match m
    case Replace => "replace"
    case PreserveRunAt => "preserve_run_at"
    case UnsafeDedupe => "unsafe_dedupe"
  }

  function ScheduledPayload(s: Scheduled): Json {
    Obj(map[
      "identifier" := Text(s.identifier),
      "payload" := PayloadOr(s.payload),
      "queueName" := Text(s.queueName),
      "jobKey" := if s.jobKey.Some? then Text(s.jobKey.value) else Null,
      "jobKeyMode" := Text(ModeText(s.jobKeyMode)),
      "priority" := Num(s.priority),
      "maxAttempts" := Num(s.maxAttempts)])
  }

  function ParseScheduledJob(payload: Json): Option<Scheduled> {
    match AsRecord(payload)
    case None => None
    case Some(body) =>
      var identifier, queueName := AsString(Lookup(body, "identifier")), AsString(Lookup(body, "queueName"));
      if identifier.None? || queueName.None? then None
      else
        var mode := AsString(Lookup(body, "jobKeyMode"));
        Some(Scheduled(
          identifier.value, Lookup(body, "payload"), queueName.value, AsString(Lookup(body, "jobKey")),
          if mode == Some("preserve_run_at") then PreserveRunAt
          else if mode == Some("unsafe_dedupe") then UnsafeDedupe
          else Replace,
          Or(AsNumber(Lookup(body, "priority")), 0), Or(AsNumber(Lookup(body, "maxAttempts")), 25)))
  }

  function NonEmpty(key: Option<string>): Option<string> { if key == Some("") then None else key }

  /** The wrapper is read back as it was written; only an empty key is lost. */
  lemma ScheduledReadBack(s: Scheduled)
    ensures ParseScheduledJob(ScheduledPayload(s)) ==
              if s.identifier == "" || s.queueName == "" then None
              else Some(s.(payload := Some(PayloadOr(s.payload)), jobKey := NonEmpty(s.jobKey)))
  {
  }

  // ---- enqueueing -----------------------------------------------------------------------------

  predicate Queued(input: JobInput) { input.queueName.Some? && input.queueName.value != "" }

  /** The job that enqueueJob adds. */
  function Enqueued(input: JobInput, now: int): Job {
    var runAt := Or(input.runAt, now);
    var mode, priority, maxAttempts := Or(input.jobKeyMode, Replace), Or(input.priority, 0), Or(input.maxAttempts, 25);
    if Queued(input) && runAt > now then
      Job(SCHEDULED_JOB,
          ScheduledPayload(Scheduled(input.identifier, input.payload, input.queueName.value, input.jobKey, mode,
                                     priority, maxAttempts)),
          None, runAt, if input.jobKey.Some? then Some(ScheduledJobKey(input.jobKey.value)) else None, mode, 1,
          priority)
    else
      Job(input.identifier,
          if Queued(input) then Obj(StampRetryBudget(input.payload, maxAttempts, input.queueName.value))
          else PayloadOr(input.payload),
          input.queueName, runAt, input.jobKey, mode, if Queued(input) then 1 else maxAttempts, priority)
  }

  /** What a payload carries into its job: the fields of a record, nothing of anything else. */
  function UserFields(payload: Option<Json>): Record {
    if payload.Some? then Or(AsRecord(payload.value), map[]) else map[]
  }

  /** A queued job whose time has not come waits outside every queue, and everything it is to be is written down. */
  ghost predicate WaitsOutside(input: JobInput, job: Job, now: int)
    requires Queued(input)
  {
    && job.identifier == SCHEDULED_JOB && job.queueName.None? && job.maxAttempts == 1 && job.runAt > now
    && Some(job.runAt) == input.runAt && job.priority == Or(input.priority, 0)
    && (job.jobKey.Some? <==> input.jobKey.Some?)
    && (job.jobKey.Some? ==> LATER <= job.jobKey.value
                             && job.jobKey.value == if LATER <= input.jobKey.value then input.jobKey.value
                                                    else LATER + input.jobKey.value)
    && (input.identifier != "" ==>
          ParseScheduledJob(job.payload) ==
            Some(Scheduled(input.identifier, Some(PayloadOr(input.payload)), input.queueName.value,
                           NonEmpty(input.jobKey), Or(input.jobKeyMode, Replace), Or(input.priority, 0),
                           Or(input.maxAttempts, 25))))
  }

  /** A queued job that is due stands on its queue for one attempt, its budget and queue in its payload. */
  ghost predicate StandsOnQueue(input: JobInput, job: Job, now: int)
    requires Queued(input)
  {
    var fields := UserFields(input.payload);
    && job.identifier == input.identifier && job.queueName == input.queueName && job.maxAttempts == 1
    && job.jobKey == input.jobKey && job.runAt == Or(input.runAt, now) <= now
    && job.payload.Obj?
    && Budget(job.payload.fields) == Or(AsNumber(Lookup(fields, MAX_ATTEMPTS)), Or(input.maxAttempts, 25))
    && RetryQueue(job) == Some(Or(AsString(Lookup(fields, QUEUE_NAME)), input.queueName.value))
    && forall k | k != MAX_ATTEMPTS && k != QUEUE_NAME :: Lookup(job.payload.fields, k) == Lookup(fields, k)
  }

  /** A job without a queue is left to the job library, attempts and all. */
  ghost predicate LeftToLibrary(input: JobInput, job: Job, now: int) {
    && job.identifier == input.identifier && job.queueName == input.queueName
    && job.maxAttempts == Or(input.maxAttempts, 25) && job.jobKey == input.jobKey
    && job.runAt == Or(input.runAt, now)
    && job.payload == (if input.payload.None? || input.payload.value.Null? then Obj(map[]) else input.payload.value)
  }

  ghost predicate Accepted(input: JobInput, job: Job, now: int) {
    && job.jobKeyMode == Or(input.jobKeyMode, Replace) && job.priority == Or(input.priority, 0)
    && (if !Queued(input) then LeftToLibrary(input, job, now)
        else if Or(input.runAt, now) > now then WaitsOutside(input, job, now)
        else StandsOnQueue(input, job, now))
  }

  lemma StampedFields(payload: Option<Json>, maxAttempts: int, queueName: string)
    requires queueName != ""
    ensures var stamped, fields := StampRetryBudget(payload, maxAttempts, queueName), UserFields(payload);
            && Budget(stamped) == Or(AsNumber(Lookup(fields, MAX_ATTEMPTS)), maxAttempts)
            && AsString(Lookup(stamped, QUEUE_NAME)) == Some(Or(AsString(Lookup(fields, QUEUE_NAME)), queueName))
            && forall k | k != MAX_ATTEMPTS && k != QUEUE_NAME :: Lookup(stamped, k) == Lookup(fields, k)
  {
    KeysDiffer();
  }

  /** What enqueueJob adds is the job that was asked for. */
  lemma EnqueuedIsAccepted(input: JobInput, now: int)
    ensures Accepted(input, Enqueued(input, now), now)
  {
    if Queued(input) {
      if Or(input.runAt, now) > now {
        ScheduledReadBack(Scheduled(input.identifier, input.payload, input.queueName.value, input.jobKey,
                                    Or(input.jobKeyMode, Replace), Or(input.priority, 0),
                                    Or(input.maxAttempts, 25)));
      } else {
        StampedFields(input.payload, Or(input.maxAttempts, 25), input.queueName.value);
      }
    }
  }

  function InputOf(s: Scheduled, now: int): JobInput {
    JobInput(s.identifier, s.payload, Some(s.queueName), Some(now), s.jobKey, Some(s.jobKeyMode),
             Some(s.maxAttempts), Some(s.priority))
  }

  /** The job runScheduledJob adds when a wrapper's time has come. */
  function Released(wrapper: Job, now: int): Option<Job> {
    match ParseScheduledJob(wrapper.payload)
    case None => None
    case Some(s) => Some(Enqueued(InputOf(s, now), now))
  }

  // ---- failing --------------------------------------------------------------------------------

  /** Which try has just failed, and how many there may be. */
  function FailedTry(body: Record, attempts: int): int { Or(AsNumber(Lookup(body, TRIES)), attempts) }

  function Budget(body: Record): int { Or(AsNumber(Lookup(body, MAX_ATTEMPTS)), 25) }

  function RetryInput(job: Job, queueName: string, attempts: int, now: int): JobInput {
    var body := Or(AsRecord(job.payload), map[]);
    var failedTry := FailedTry(body, attempts);
    JobInput(job.identifier, Some(Obj(body[TRIES := Num(failedTry + 1)][MAX_ATTEMPTS := Num(Budget(body))])),
             Some(queueName), Some(now + JobRetryDelayMs(failedTry)), job.jobKey, Some(Replace),
             Some(Budget(body)), Some(job.priority))
  }

  /** The queue a failed job is retried on: the one it was stamped with, or the one it ran on. */
  function RetryQueue(job: Job): Option<string> {
    var stamped := AsString(Lookup(ReadJobPayload(job.payload), QUEUE_NAME));
    if stamped.Some? then stamped else NonEmpty(job.queueName)
  }

  predicate MayRetry(job: Job, attempts: int) {
    var body := Or(AsRecord(job.payload), map[]);
    RetryQueue(job).Some? && FailedTry(body, attempts) < Budget(body)
  }

  /** scheduleQueuedJobRetry after the `attempts`-th attempt of this job failed. */
  function Retry(job: Job, attempts: int, now: int): Job
    requires MayRetry(job, attempts)
  {
    Enqueued(RetryInput(job, RetryQueue(job).value, attempts, now), now)
  }

  /** A job that was put on its queue by other means is retried there, up to 25 tries counted by the library. */
  lemma UnstampedJobIsRetried(job: Job, attempts: int)
    requires job.payload.Obj? && TRIES !in job.payload.fields && MAX_ATTEMPTS !in job.payload.fields
    requires QUEUE_NAME !in job.payload.fields
    ensures MayRetry(job, attempts) <==> job.queueName.Some? && job.queueName.value != "" && attempts < 25
    ensures RetryQueue(job) == NonEmpty(job.queueName)
  {
  }

  /** A wrapper that says nothing but what to run and where releases a job like any other. */
  lemma BareWrapper(identifier: string, queueName: string)
    requires identifier != "" && queueName != ""
    ensures ParseScheduledJob(Obj(map["identifier" := Text(identifier), "queueName" := Text(queueName)]))
            == Some(Scheduled(identifier, None, queueName, None, Replace, 0, 25))
  {
  }

  // ---- one try after another ------------------------------------------------------------------

  /** A job as it stands on its named queue. */
  predicate OnQueue(job: Job) {
    && job.identifier != "" && job.payload.Obj?
    && job.queueName.Some? && job.queueName.value != ""
    && AsNumber(Lookup(job.payload.fields, MAX_ATTEMPTS)).Some?
    && AsString(Lookup(job.payload.fields, QUEUE_NAME)).Some?
  }

  /** The try after this one, as it comes back onto its queue. */
  function NextTry(job: Job, now: int): Job
    requires OnQueue(job)
  {
    var body := job.payload.fields;
    Job(job.identifier,
        Obj(body[TRIES := Num(FailedTry(body, 1) + 1)][MAX_ATTEMPTS := Num(Budget(body))]
                [QUEUE_NAME := Text(AsString(Lookup(body, QUEUE_NAME)).value)]),
        AsString(Lookup(body, QUEUE_NAME)), now, NonEmpty(job.jobKey), Replace, 1, job.priority)
  }

  lemma KeysDiffer()
    ensures TRIES != MAX_ATTEMPTS && TRIES != QUEUE_NAME && MAX_ATTEMPTS != QUEUE_NAME
  {
    assert |TRIES| == 6 && |MAX_ATTEMPTS| == 12 && |QUEUE_NAME| == 10;
  }

  /** Stamping a retry's payload keeps the budget and the queue it carries. */
  lemma StampKeepsBudget(body: Record, tries: int, budget: int, queue: string, queueName: string)
    requires AsString(Lookup(body, QUEUE_NAME)) == Some(queue)
    ensures var retried := body[TRIES := Num(tries)][MAX_ATTEMPTS := Num(budget)];
            StampRetryBudget(Some(Obj(retried)), budget, queueName) == retried[QUEUE_NAME := Text(queue)]
  {
    KeysDiffer();
    var retried := body[TRIES := Num(tries)][MAX_ATTEMPTS := Num(budget)];
    assert retried[MAX_ATTEMPTS := Num(budget)] == retried;
    assert Lookup(retried, QUEUE_NAME) == Lookup(body, QUEUE_NAME);
  }

  /** The hop through the wrapper: it waits out the delay outside every queue, then releases the next try. */
  lemma HopThroughTheWrapper(job: Job, now: int, later: int)
    requires OnQueue(job) && MayRetry(job, 1)
    ensures var wrapper := Retry(job, 1, now);
            && wrapper.identifier == SCHEDULED_JOB && wrapper.queueName == None && wrapper.maxAttempts == 1
            && wrapper.runAt == now + JobRetryDelayMs(FailedTry(job.payload.fields, 1)) > now
            && Released(wrapper, later) == Some(NextTry(job, later))
  {
    var input := RetryInput(job, RetryQueue(job).value, 1, now);
    var body := job.payload.fields;
    DelaysNeverDecrease(FailedTry(body, 1), FailedTry(body, 1));
    StampKeepsBudget(body, FailedTry(body, 1) + 1, Budget(body), AsString(Lookup(body, QUEUE_NAME)).value,
                     RetryQueue(job).value);
    ScheduledReadBack(Scheduled(input.identifier, input.payload, input.queueName.value, input.jobKey, Replace,
                                input.priority.value, input.maxAttempts.value));
  }

  /** The next try carries the budget, the queue and every field of the user's. */
  lemma NextTryIsOnQueue(job: Job, now: int)
    requires OnQueue(job)
    ensures OnQueue(NextTry(job, now))
    ensures FailedTry(NextTry(job, now).payload.fields, 1) == FailedTry(job.payload.fields, 1) + 1
    ensures Budget(NextTry(job, now).payload.fields) == Budget(job.payload.fields)
    ensures RetryQueue(NextTry(job, now)) == RetryQueue(job)
    ensures forall k | k != TRIES && k != MAX_ATTEMPTS && k != QUEUE_NAME ::
              Lookup(NextTry(job, now).payload.fields, k) == Lookup(job.payload.fields, k)
  {
    KeysDiffer();
  }

  /** Every execution of a job that always fails; hop `i` happens at `clock(i)`. */
  function Executions(job: Job, clock: nat -> int, hop: nat): seq<Job>
    requires OnQueue(job)
    decreases Budget(job.payload.fields) - FailedTry(job.payload.fields, 1)
  {
    if !MayRetry(job, 1) then [job]
    else
      NextTryIsOnQueue(job, clock(hop + 1));
      [job] + Executions(NextTry(job, clock(hop + 1)), clock, hop + 2)
  }

  /** A try of the same job: its own number, and everything else as it was enqueued. */
  ghost predicate SameJob(first: Job, job: Job, tries: int) {
    && OnQueue(first) && OnQueue(job)
    && job.identifier == first.identifier && job.priority == first.priority
    && job.jobKey == NonEmpty(first.jobKey)
    && job.queueName == RetryQueue(first) && RetryQueue(job) == RetryQueue(first)
    && Budget(job.payload.fields) == Budget(first.payload.fields)
    && Lookup(job.payload.fields, TRIES) == Some(Num(tries))
    && forall k ::
         k != TRIES && k != MAX_ATTEMPTS && k != QUEUE_NAME ==>
           Lookup(job.payload.fields, k) == Lookup(first.payload.fields, k)
  }

  lemma NextTryIsSameJob(first: Job, job: Job, now: int)
    requires OnQueue(first)
    requires job == first || (OnQueue(job) && SameJob(first, job, FailedTry(job.payload.fields, 1)))
    ensures SameJob(first, NextTry(job, now), FailedTry(job.payload.fields, 1) + 1)
  {
    KeysDiffer();
    NextTryIsOnQueue(job, now);
  }

  /** The executions that follow from a job: its tries up to the budget, each the same job. */
  ghost predicate AllTries(first: Job, job: Job, all: seq<Job>)
    requires job.payload.Obj?
  {
    var tries, budget := FailedTry(job.payload.fields, 1), Budget(job.payload.fields);
    && |all| == (if budget > tries then budget - tries + 1 else 1)
    && all[0] == job
    && forall i | 1 <= i < |all| :: SameJob(first, all[i], tries + i)
  }

  lemma OneTryMore(first: Job, job: Job, next: Job, rest: seq<Job>)
    requires job.payload.Obj? && next.payload.Obj? && AllTries(first, next, rest)
    requires FailedTry(next.payload.fields, 1) == FailedTry(job.payload.fields, 1) + 1
    requires FailedTry(job.payload.fields, 1) < Budget(job.payload.fields) == Budget(next.payload.fields)
    requires SameJob(first, next, FailedTry(job.payload.fields, 1) + 1)
    ensures AllTries(first, job, [job] + rest)
  {
    forall i | 1 <= i < |rest| + 1 ensures SameJob(first, ([job] + rest)[i], FailedTry(job.payload.fields, 1) + i) {
      assert ([job] + rest)[i] == rest[i - 1];
    }
  }

  lemma OnlyTry(first: Job, job: Job)
    requires OnQueue(job) && !MayRetry(job, 1)
    ensures AllTries(first, job, [job])
  {
  }

  lemma {:induction false} ExecutionsAreTries(first: Job, job: Job, clock: nat -> int, hop: nat)
    requires OnQueue(first)
    requires job == first || (OnQueue(job) && SameJob(first, job, FailedTry(job.payload.fields, 1)))
    ensures AllTries(first, job, Executions(job, clock, hop))
    decreases Budget(job.payload.fields) - FailedTry(job.payload.fields, 1)
  {
    if MayRetry(job, 1) {
      var next := NextTry(job, clock(hop + 1));
      NextTryIsOnQueue(job, clock(hop + 1));
      NextTryIsSameJob(first, job, clock(hop + 1));
      ExecutionsAreTries(first, next, clock, hop + 2);
      OneTryMore(first, job, next, Executions(next, clock, hop + 2));
    } else {
      OnlyTry(first, job);
    }
  }

  /** What enqueueJob puts on a named queue at once. */
  lemma EnqueuedIsOnQueue(input: JobInput, now: int)
    requires input.identifier != "" && Queued(input) && Or(input.runAt, now) <= now
    ensures OnQueue(Enqueued(input, now)) && Enqueued(input, now).maxAttempts == 1
  {
    KeysDiffer();
  }

  /**
   * A job put on a named queue with `m` attempts, whose payload of any kind carries no retry fields of
   * its own, is executed exactly max(1, m) times when every try fails. Execution `i` carries `_tries` =
   * i + 1, which the first one lacks; identifier, queue, priority, key, budget and the user's fields
   * never change.
   */
  lemma ExecutedExactlyBudgetTimes(input: JobInput, m: int, clock: nat -> int)
    requires input.identifier != "" && Queued(input) && Or(input.runAt, clock(0)) <= clock(0)
    requires Or(input.maxAttempts, 25) == m
    requires forall k | k in UserFields(input.payload) :: k != TRIES && k != MAX_ATTEMPTS && k != QUEUE_NAME
    ensures OnQueue(Enqueued(input, clock(0)))
    ensures var first := Enqueued(input, clock(0));
            var all := Executions(first, clock, 1);
            && |all| == (if m > 1 then m else 1)
            && all[0] == first && TRIES !in first.payload.fields && Budget(first.payload.fields) == m
            && first.queueName == input.queueName && first.jobKey == input.jobKey
            && (forall k | k in UserFields(input.payload) ::
                  Lookup(first.payload.fields, k) == Lookup(UserFields(input.payload), k))
            && forall i | 1 <= i < |all| :: SameJob(first, all[i], i + 1)
  {
    KeysDiffer();
    EnqueuedIsOnQueue(input, clock(0));
    var first := Enqueued(input, clock(0));
    StampedFields(input.payload, m, input.queueName.value);
    ExecutionsAreTries(first, first, clock, 1);
  }

  /** A job meant for later waits in the wrapper first, and then is the job it would have been. */
  lemma LaterIsTheSameJob(input: JobInput, now: int, later: int)
    requires input.identifier != "" && Queued(input) && Or(input.runAt, now) > now
    ensures var wrapper := Enqueued(input, now);
            && wrapper.identifier == SCHEDULED_JOB && wrapper.queueName == None
            && wrapper.runAt == Or(input.runAt, now)
            && Released(wrapper, later)
               == Some(Enqueued(input.(runAt := None, jobKey := NonEmpty(input.jobKey)), later))
  {
    ScheduledReadBack(Scheduled(input.identifier, input.payload, input.queueName.value, input.jobKey,
                                Or(input.jobKeyMode, Replace), Or(input.priority, 0), Or(input.maxAttempts, 25)));
  }
}
