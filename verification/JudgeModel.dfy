/**
 The judge's durable state and its atomic steps: two tables (executions and the
 callback outbox), the task table, and the unique index on idempotency keys.
 One store call is one step; every clock reading it takes is a parameter.
 */
module JudgeModel {
  import opened Common
  import opened TextOrder

  type Id = string
  type Time = int                       // microseconds
  const SECOND: Time := 1_000_000

  datatype Status = Queued | Running | Completed | Failed | Canceled

  predicate Terminal(status: Status) {
    status.Completed? || status.Failed? || status.Canceled?
  }

  /** The result columns; the JSON ones are kept as text, `{}` when empty. */
  datatype Outcome = Outcome(
    score: Option<real>, metrics: string, scores: string,
    winner: Option<string>, artifacts: string, failure: Option<string>)

  const EMPTY_JSON := "{}"
  const BLANK := Outcome(None, EMPTY_JSON, EMPTY_JSON, None, EMPTY_JSON, None)
  const CANCELED_WHILE_RUNNING := "execution canceled while running"

  /** A registered task: what `claim_next` and `submit` read of its manifest. */
  datatype Task = Task(path: string, kind: string, required: set<string>, digest: Option<string>)

  /** A submission; everything but the key is covered by the fingerprint. */
  datatype Request = Request(
    key: string, taskRef: string, submissionPath: string,
    callbackUrl: Option<string>, callbackToken: Option<string>,
    metadata: string, required: set<string>,
    queue: string, resourceClass: string, priority: int, timeout: Option<int>)

  datatype Execution = Execution(
    request: Request, stamp: Task,
    status: Status, outcome: Outcome, cancelRequested: bool,
    worker: Option<string>, lease: Option<Time>,
    createdAt: Time, updatedAt: Time)

  datatype Delivery = Delivery(
    url: string, token: Option<string>, attempts: nat, nextAttempt: Time,
    deliveredAt: Option<Time>, lastError: Option<string>,
    owner: Option<string>, lease: Option<Time>)

  datatype State = State(
    tasks: map<string, Task>,
    execs: map<Id, Execution>,
    byKey: map<string, Id>,
    outbox: map<Id, Delivery>)

  const EMPTY := State(map[], map[], map[], map[])

  /** What a result callback carries: the columns `_result` reads. */
  datatype Payload = Payload(
    id: Id, taskRef: string, status: Status, outcome: Outcome, metadata: string, stamp: Task,
    queue: string, resourceClass: string, priority: int)

  function PayloadOf(id: Id, e: Execution): Payload {
    Payload(id, e.request.taskRef, e.status, e.outcome, e.request.metadata, e.stamp,
            e.request.queue, e.request.resourceClass, e.request.priority)
  }

  /** The worker's report to `finish`; `conforms` is the payload validator's verdict. */
  datatype Report = Report(id: Id, taskRef: string, status: Status, outcome: Outcome, conforms: bool)

  /** Claim filters; an empty queue or class set filters nothing. */
  datatype Filter = Filter(queues: set<string>, classes: set<string>, capabilities: set<string>)

  predicate HasUrl(e: Execution) {
    e.request.callbackUrl.Some? && e.request.callbackUrl.value != ""
  }

  function Max(a: int, b: int): int { if a < b then b else a }

  function Min(a: int, b: int): int { if a < b then a else b }

  function LeaseEnd(now: Time, seconds: int): Time {
    now + Max(1, seconds) * SECOND
  }

  predicate Blank(text: string) {
    forall i :: 0 <= i < |text| ==> Space(text[i])
  }

  // ---- outbox rows ----

  function FreshDelivery(e: Execution, now: Time): Delivery
    requires HasUrl(e)
  {
    Delivery(e.request.callbackUrl.value, e.request.callbackToken, 0, now, None, None, None, None)
  }

  /** Inserts the row, or readdresses the one that is there unless it has been delivered. */
  function MirrorRow(outbox: map<Id, Delivery>, id: Id, e: Execution, now: Time): Delivery
    requires HasUrl(e)
  {
    if id !in outbox then FreshDelivery(e, now)
    else if outbox[id].deliveredAt.None? then
      outbox[id].(url := e.request.callbackUrl.value, token := e.request.callbackToken)
    else outbox[id]
  }

  function Mirror(outbox: map<Id, Delivery>, id: Id, e: Execution, now: Time): map<Id, Delivery> {
    if HasUrl(e) then outbox[id := MirrorRow(outbox, id, e, now)] else outbox
  }

  // ---- task registration and submission ----

  function Register(s: State, ref: string, task: Task): State {
    if ref in s.tasks then s else s.(tasks := s.tasks[ref := task])
  }

  datatype SubmitReply = UnknownTask | KeyReused | IdTaken | Accepted(id: Id)

  predicate SameFingerprint(a: Request, b: Request) {
    a.(key := "") == b.(key := "")
  }

  function SubmitAnswer(s: State, id: Id, r: Request): SubmitReply {
    if r.taskRef !in s.tasks then UnknownTask
    else if r.key in s.byKey then
      var prior := s.byKey[r.key];
      if prior in s.execs && !SameFingerprint(s.execs[prior].request, r) then KeyReused else Accepted(prior)
    else if id in s.execs then IdTaken
    else Accepted(id)
  }

  predicate Inserts(s: State, id: Id, r: Request) {
    r.taskRef in s.tasks && r.key !in s.byKey && id !in s.execs
  }

  function NewExecution(s: State, r: Request, now: Time): Execution
    requires r.taskRef in s.tasks
  {
    Execution(r, s.tasks[r.taskRef], Queued, BLANK, false, None, None, now, now)
  }

  function Submit(s: State, id: Id, r: Request, now: Time): State {
    if Inserts(s, id, r) then
      s.(execs := s.execs[id := NewExecution(s, r, now)], byKey := s.byKey[r.key := id])
    else s
  }

  // ---- claiming ----

  predicate Expired(e: Execution, now: Time) {
    e.status.Running? && e.lease.Some? && e.lease.value <= now
  }

  function ReclaimRow(e: Execution, now: Time): Execution {
    if Expired(e, now) then
      e.(status := if e.cancelRequested then Canceled else Queued, worker := None, lease := None, updatedAt := now)
    else e
  }

  /** The canceled executions whose lease ran out: they end here. */
  function Abandoned(s: State, now: Time): set<Id> {
    set id | id in s.execs && Expired(s.execs[id], now) && s.execs[id].cancelRequested
  }

  function Notified(s: State, now: Time): set<Id> {
    set id | id in Abandoned(s, now) && HasUrl(s.execs[id])
  }

  function Reclaim(s: State, now: Time): State {
    s.(execs := map id | id in s.execs :: ReclaimRow(s.execs[id], now),
       outbox := map id | id in s.outbox.Keys + Notified(s, now) ::
         if id in Notified(s, now) then MirrorRow(s.outbox, id, s.execs[id], now) else s.outbox[id])
  }

  predicate Eligible(s: State, f: Filter, id: Id)
    requires id in s.execs
  {
    var e := s.execs[id];
    && e.status.Queued? && !e.cancelRequested && e.request.taskRef in s.tasks
    && (f.queues == {} || e.request.queue in f.queues)
    && (f.classes == {} || e.request.resourceClass in f.classes)
  }

  predicate Compatible(s: State, f: Filter, id: Id)
    requires id in s.execs && s.execs[id].request.taskRef in s.tasks
  {
    s.tasks[s.execs[id].request.taskRef].required + s.execs[id].request.required <= f.capabilities
  }

  predicate Claimable(s: State, f: Filter, id: Id) {
    id in s.execs && Eligible(s, f, id) && Compatible(s, f, id)
  }

  /** Higher priority first, then the earlier submission, then the smaller id. */
  predicate Before(s: State, a: Id, b: Id)
    requires a in s.execs && b in s.execs
  {
    var x, y := s.execs[a], s.execs[b];
    || x.request.priority > y.request.priority
    || (x.request.priority == y.request.priority &&
        (x.createdAt < y.createdAt || (x.createdAt == y.createdAt && TextLess(a, b))))
  }

  ghost predicate IsFirst(s: State, f: Filter, id: Id) {
    && Claimable(s, f, id)
    && (forall other :: Claimable(s, f, other) && other != id ==> Before(s, id, other))
  }

  /** The row a claim takes from a reclaimed table. */
  ghost function Pick(s: State, f: Filter): Option<Id> {
    if exists id :: IsFirst(s, f, id) then
      var id :| IsFirst(s, f, id);
      Some(id)
    else None
  }

  function ClaimRow(e: Execution, worker: string, seconds: int, now: Time): Execution {
    e.(status := Running, worker := Some(worker), lease := Some(LeaseEnd(now, seconds)), updatedAt := now)
  }

  function TakeRow(s: State, id: Id, worker: string, seconds: int, now: Time): State
    requires id in s.execs
  {
    s.(execs := s.execs[id := ClaimRow(s.execs[id], worker, seconds, now)])
  }

  ghost function Claimed(s: State, f: Filter, now: Time): Option<Id> {
    Pick(Reclaim(s, now), f)
  }

  ghost function ClaimNext(s: State, worker: string, f: Filter, seconds: int, now: Time): State {
    var r := Reclaim(s, now);
    var pick := Pick(r, f);
    if pick.Some? then TakeRow(r, pick.value, worker, seconds, now) else r
  }

  // ---- finishing, renewing, canceling ----

  datatype FinishReply = Refused | Ignored | Stored

  predicate HoldsLease(s: State, id: Id, worker: string, now: Time) {
    && id in s.execs && s.execs[id].status.Running? && s.execs[id].worker == Some(worker)
    && s.execs[id].lease.Some? && s.execs[id].lease.value >= now
  }

  predicate ValidReport(s: State, id: Id, report: Report)
    requires id in s.execs
  {
    report.id == id && report.taskRef == s.execs[id].request.taskRef && report.conforms
  }

  function FinishAnswer(s: State, id: Id, report: Report, worker: string, now: Time): FinishReply {
    if Blank(worker) || !Terminal(report.status) then Refused
    else if id !in s.execs then Ignored
    else if !ValidReport(s, id, report) then Refused
    else if HoldsLease(s, id, worker, now) then Stored
    else Ignored
  }

  function FinishRow(e: Execution, report: Report, now: Time): Execution {
    if e.cancelRequested then
      e.(status := Canceled, outcome := BLANK.(failure := Some(CANCELED_WHILE_RUNNING)),
         worker := None, lease := None, updatedAt := now)
    else
      e.(status := report.status, outcome := report.outcome, worker := None, lease := None, updatedAt := now)
  }

  function Finish(s: State, id: Id, report: Report, worker: string, now: Time, mirrorNow: Time): State {
    if FinishAnswer(s, id, report, worker, now).Stored? then
      var e := FinishRow(s.execs[id], report, now);
      s.(execs := s.execs[id := e], outbox := Mirror(s.outbox, id, e, mirrorNow))
    else s
  }

  predicate Renews(s: State, id: Id, worker: string, now: Time) {
    HoldsLease(s, id, worker, now) && !s.execs[id].cancelRequested
  }

  function Renew(s: State, id: Id, worker: string, seconds: int, now: Time): State {
    if Renews(s, id, worker, now) then
      s.(execs := s.execs[id := s.execs[id].(lease := Some(LeaseEnd(now, seconds)), updatedAt := now)])
    else s
  }

  function CancelRow(e: Execution, now: Time): Execution {
    e.(cancelRequested := true, status := if e.status.Queued? then Canceled else e.status, updatedAt := now)
  }

  function Cancel(s: State, id: Id, now: Time, mirrorNow: Time): State {
    if id in s.execs then
      var e := s.execs[id];
      s.(execs := s.execs[id := CancelRow(e, now)],
         outbox := if e.status.Queued? then Mirror(s.outbox, id, e, mirrorNow) else s.outbox)
    else s
  }

  // ---- the outbox ----

  /** A foreign key ties outbox rows to executions, so an unknown id changes nothing. */
  function Enqueue(s: State, id: Id, url: string, token: Option<string>, now: Time): State {
    if id !in s.execs then s
    else if id in s.outbox then s.(outbox := s.outbox[id := s.outbox[id].(url := url, token := token)])
    else s.(outbox := s.outbox[id := Delivery(url, token, 0, now, None, None, None, None)])
  }

  predicate Pending(s: State, id: Id, now: Time) {
    && id in s.outbox && id in s.execs && s.outbox[id].deliveredAt.None?
    && Terminal(s.execs[id].status) && s.outbox[id].nextAttempt <= now
  }

  predicate GrantsCallback(s: State, id: Id, now: Time) {
    && id in s.outbox && s.outbox[id].deliveredAt.None? && s.outbox[id].nextAttempt <= now
    && (s.outbox[id].owner.None? || s.outbox[id].lease.None? || s.outbox[id].lease.value <= now)
  }

  function ClaimCallback(s: State, id: Id, worker: string, seconds: int, now: Time): State {
    if GrantsCallback(s, id, now) then
      s.(outbox := s.outbox[id := s.outbox[id].(owner := Some(worker), lease := Some(LeaseEnd(now, seconds)))])
    else s
  }

  function DeliveredRow(d: Delivery, now: Time): Delivery {
    d.(deliveredAt := Some(now), lastError := None, owner := None, lease := None)
  }

  function MarkDelivered(s: State, id: Id, now: Time): State {
    if id in s.outbox then s.(outbox := s.outbox[id := DeliveredRow(s.outbox[id], now)]) else s
  }

  predicate Acknowledges(s: State, id: Id, worker: string) {
    id in s.outbox && s.outbox[id].deliveredAt.None? && s.outbox[id].owner == Some(worker)
  }

  function Acknowledge(s: State, id: Id, worker: string, now: Time): State {
    if Acknowledges(s, id, worker) then s.(outbox := s.outbox[id := DeliveredRow(s.outbox[id], now)]) else s
  }

  function Pow2(n: nat): nat { if n == 0 then 1 else 2 * Pow2(n - 1) }

  /** Seconds before the next attempt, given the failures recorded so far. */
  function RetryDelay(attempts: nat): int {
    Min(3600, 5 * Pow2(Min(8, attempts)))
  }

  predicate RecordsFailure(s: State, id: Id, worker: Option<string>) {
    id in s.outbox && (worker.None? || s.outbox[id].owner == worker)
  }

  function MarkFailed(s: State, id: Id, error: string, worker: Option<string>, now: Time): State {
    if RecordsFailure(s, id, worker) then
      var d := s.outbox[id];
      s.(outbox := s.outbox[id := d.(attempts := d.attempts + 1,
        nextAttempt := now + RetryDelay(d.attempts) * SECOND,
        lastError := Some(error[..Min(2000, |error|)]), owner := None, lease := None)])
    else s
  }

  predicate Replays(s: State, id: Id) {
    id in s.execs && Terminal(s.execs[id].status) && HasUrl(s.execs[id])
  }

  function ReplayRow(s: State, id: Id, now: Time): Delivery
    requires Replays(s, id)
  {
    FreshDelivery(s.execs[id], now).(attempts := if id in s.outbox then s.outbox[id].attempts else 0)
  }

  function Replay(s: State, id: Id, now: Time): State {
    if Replays(s, id) then s.(outbox := s.outbox[id := ReplayRow(s, id, now)]) else s
  }

  // ---- one step, and whole runs ----

  datatype Op =
    | OpRegister(ref: string, task: Task)
    | OpSubmit(id: Id, request: Request, now: Time)
    | OpClaim(worker: string, filter: Filter, seconds: int, now: Time)
    | OpFinish(id: Id, report: Report, worker: string, now: Time, mirrorNow: Time)
    | OpRenew(id: Id, worker: string, seconds: int, now: Time)
    | OpCancel(id: Id, now: Time, mirrorNow: Time)
    | OpEnqueue(id: Id, url: string, token: Option<string>, now: Time)
    | OpClaimCallback(id: Id, worker: string, seconds: int, now: Time)
    | OpDelivered(id: Id, now: Time)
    | OpAcknowledge(id: Id, worker: string, now: Time)
    | OpFailed(id: Id, error: string, owner: Option<string>, now: Time)
    | OpReplay(id: Id, now: Time)

  ghost function Apply(s: State, op: Op): State {
    match op
    case OpRegister(ref, task) => Register(s, ref, task)
    case OpSubmit(id, request, now) => Submit(s, id, request, now)
    case OpClaim(worker, filter, seconds, now) => ClaimNext(s, worker, filter, seconds, now)
    case OpFinish(id, report, worker, now, mirrorNow) => Finish(s, id, report, worker, now, mirrorNow)
    case OpRenew(id, worker, seconds, now) => Renew(s, id, worker, seconds, now)
    case OpCancel(id, now, mirrorNow) => Cancel(s, id, now, mirrorNow)
    case OpEnqueue(id, url, token, now) => Enqueue(s, id, url, token, now)
    case OpClaimCallback(id, worker, seconds, now) => ClaimCallback(s, id, worker, seconds, now)
    case OpDelivered(id, now) => MarkDelivered(s, id, now)
    case OpAcknowledge(id, worker, now) => Acknowledge(s, id, worker, now)
    case OpFailed(id, error, owner, now) => MarkFailed(s, id, error, owner, now)
    case OpReplay(id, now) => Replay(s, id, now)
  }

  /** The state a run reaches: any steps by anyone, in any order, with any clock readings. */
  ghost function After(ops: seq<Op>): State {
    if ops == [] then EMPTY else Apply(After(ops[..|ops| - 1]), ops[|ops| - 1])
  }

  lemma AfterStep(ops: seq<Op>, i: nat)
    requires i < |ops|
    ensures After(ops[..i + 1]) == Apply(After(ops[..i]), ops[i])
  {
    assert ops[..i + 1][..i] == ops[..i];
  }

  /** Which execution, if any, the step hands to a worker. */
  ghost predicate Hands(s: State, op: Op, id: Id) {
    op.OpClaim? && Claimed(s, op.filter, op.now) == Some(id)
  }

  ghost predicate Finishes(s: State, op: Op, id: Id) {
    op.OpFinish? && op.id == id && FinishAnswer(s, id, op.report, op.worker, op.now).Stored?
  }
}
