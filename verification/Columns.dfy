/**
 What every store call does, said on the columns of the rows before and after it
 and on nothing else: an independent account of the steps in JudgeModel.
 */
module Columns {
  import opened Common
  import opened TextOrder
  import opened JudgeModel
  import opened Scheduling
  import opened Leases

  /** Nothing changes but this execution and its outbox row. */
  ghost predicate OnlyTouches(s: State, t: State, id: Id) {
    && t.tasks == s.tasks && t.byKey == s.byKey
    && t.execs.Keys == s.execs.Keys && (forall other :: other in s.execs && other != id ==> t.execs[other] == s.execs[other])
    && (forall other :: other != id ==> (other in t.outbox <==> other in s.outbox))
    && (forall other :: other in s.outbox && other != id ==> t.outbox[other] == s.outbox[other])
  }

  function Seconds(seconds: int): Time {
    if seconds <= 1 then 1_000_000 else seconds * 1_000_000
  }

  ghost predicate WantsCallback(e: Execution) {
    match e.request.callbackUrl
    case None => false
    case Some(url) => |url| > 0
  }

  // ---- submitting ----

  ghost predicate SameRequest(a: Request, b: Request) {
    && a.taskRef == b.taskRef && a.submissionPath == b.submissionPath && a.metadata == b.metadata
    && a.callbackUrl == b.callbackUrl && a.callbackToken == b.callbackToken && a.required == b.required
    && a.queue == b.queue && a.resourceClass == b.resourceClass && a.priority == b.priority && a.timeout == b.timeout
  }

  /** A used key answers for an equal request and refuses any other; nothing is stored. */
  lemma RefusalOnColumns(s: State, id: Id, r: Request, now: Time)
    requires Inv(s) && (r.taskRef !in s.tasks || r.key in s.byKey || id in s.execs)
    ensures Submit(s, id, r, now) == s
    ensures r.key in s.byKey ==> s.byKey[r.key] in s.execs
    ensures SubmitAnswer(s, id, r) ==
      if r.taskRef !in s.tasks then UnknownTask
      else if r.key !in s.byKey then IdTaken
      else if SameRequest(s.execs[s.byKey[r.key]].request, r) then Accepted(s.byKey[r.key])
      else KeyReused
  {
    assert KeysSound(s);
    hide Inv, KeysSound;
  }

  /** A fresh key queues the request as it is, and changes nothing else. */
  lemma SubmitOnColumns(s: State, id: Id, r: Request, now: Time)
    requires r.taskRef in s.tasks && r.key !in s.byKey && id !in s.execs
    ensures SubmitAnswer(s, id, r) == Accepted(id)
    ensures var t := Submit(s, id, r, now);
      && t.byKey == s.byKey[r.key := id] && t.tasks == s.tasks && t.outbox == s.outbox
      && t.execs.Keys == s.execs.Keys + {id} && (forall other :: other in s.execs ==> t.execs[other] == s.execs[other])
      && var e := t.execs[id];
      && e.request == r && e.stamp == s.tasks[r.taskRef] && e.createdAt == now && e.updatedAt == now
      && e.status == Queued && !e.cancelRequested && e.worker == None && e.lease == None
      && e.outcome == Outcome(None, "{}", "{}", None, "{}", None)
  {
  }

  // ---- claiming ----

  /** Queued, or running on a lease that has run out; and nobody canceled it. */
  ghost predicate Waiting(e: Execution, now: Time) {
    !e.cancelRequested && (e.status.Queued? || (e.status.Running? && e.lease.Some? && e.lease.value <= now))
  }

  /** In a queue and class the worker serves, asking for nothing the worker lacks. */
  ghost predicate Fits(e: Execution, task: Task, f: Filter) {
    && (f.queues == {} || e.request.queue in f.queues)
    && (f.classes == {} || e.request.resourceClass in f.classes)
    && (forall c :: c in task.required ==> c in f.capabilities)
    && (forall c :: c in e.request.required ==> c in f.capabilities)
  }

  ghost predicate Candidate(s: State, f: Filter, now: Time, id: Id) {
    && id in s.execs && Waiting(s.execs[id], now) && s.execs[id].request.taskRef in s.tasks
    && Fits(s.execs[id], s.tasks[s.execs[id].request.taskRef], f)
  }

  ghost predicate Outranks(a: Id, x: Execution, b: Id, y: Execution) {
    if x.request.priority != y.request.priority then x.request.priority > y.request.priority
    else if x.createdAt != y.createdAt then x.createdAt < y.createdAt
    else TextLess(a, b)
  }

  lemma CandidateIsClaimable(s: State, f: Filter, now: Time, id: Id)
    ensures Candidate(s, f, now, id) <==> Claimable(Reclaim(s, now), f, id)
  {
  }

  /** A claim hands out nothing exactly when there is no candidate, and otherwise the one that outranks all others. */
  lemma ClaimPicks(s: State, f: Filter, now: Time)
    ensures Claimed(s, f, now) == None <==> forall id :: !Candidate(s, f, now, id)
    ensures Claimed(s, f, now).Some? ==>
      var id := Claimed(s, f, now).value;
      && Candidate(s, f, now, id)
      && forall other :: Candidate(s, f, now, other) && other != id ==> Outranks(id, s.execs[id], other, s.execs[other])
  {
    hide Waiting, Fits, Claimable, Reclaim, Before;
    var r := Reclaim(s, now);
    PickSpec(r, f);
    forall id ensures Candidate(s, f, now, id) <==> Claimable(r, f, id) {
      CandidateIsClaimable(s, f, now, id);
    }
    if Claimed(s, f, now).Some? {
      var id := Claimed(s, f, now).value;
      forall other | Candidate(s, f, now, other) && other != id ensures Outranks(id, s.execs[id], other, s.execs[other]) {
        BeforeOutranks(s, f, now, id, other);
      }
    }
  }

  lemma BeforeOutranks(s: State, f: Filter, now: Time, a: Id, b: Id)
    requires Candidate(s, f, now, a) && Candidate(s, f, now, b)
    ensures a in Reclaim(s, now).execs && b in Reclaim(s, now).execs
    ensures Before(Reclaim(s, now), a, b) ==> Outranks(a, s.execs[a], b, s.execs[b])
  {
  }

  /** What a claim leaves of a row: handed out, ended, queued again, or as it was. */
  ghost predicate AfterClaim(e: Execution, f: Execution, handed: bool, worker: string, seconds: int, now: Time) {
    var ranOut := e.status.Running? && e.lease.Some? && e.lease.value <= now;
    && f.request == e.request && f.stamp == e.stamp && f.outcome == e.outcome
    && f.cancelRequested == e.cancelRequested && f.createdAt == e.createdAt
    && if handed then
         f.status == Running && f.worker == Some(worker) && f.lease == Some(now + Seconds(seconds)) && f.updatedAt == now
       else if ranOut then
         f.status == (if e.cancelRequested then Canceled else Queued) && f.worker == None && f.lease == None && f.updatedAt == now
       else f == e
  }

  lemma ClaimOnColumns(s: State, op: Op, id: Id)
    requires op.OpClaim? && id in s.execs
    ensures id in Apply(s, op).execs
    ensures AfterClaim(s.execs[id], Apply(s, op).execs[id], Hands(s, op, id), op.worker, op.seconds, op.now)
  {
    ClaimMoves(s, op, id);
  }

  /** In every run, an expired lease nobody canceled is queued again or handed on, and the claim finds work. */
  lemma ExpiredLeaseComesBack(ops: seq<Op>, k: nat, id: Id)
    requires k < |ops| && ops[k].OpClaim? && id in After(ops[..k]).execs
    requires var e := After(ops[..k]).execs[id];
      e.status.Running? && !e.cancelRequested && e.lease.Some? && e.lease.value <= ops[k].now
    ensures id in After(ops[..k + 1]).execs
    ensures HandedAt(ops, k, id) ||
      var e := After(ops[..k + 1]).execs[id]; e.status == Queued && e.worker == None && e.lease == None
    ensures After(ops[..k]).execs[id].request.taskRef in After(ops[..k]).tasks
    ensures var e := After(ops[..k]).execs[id];
      Fits(e, After(ops[..k]).tasks[e.request.taskRef], ops[k].filter) ==> exists other :: HandedAt(ops, k, other)
  {
    hide After, Apply, Claimed;
    var s := After(ops[..k]);
    AfterStep(ops, k);
    ClaimOnColumns(s, ops[k], id);
    ClaimPicks(s, ops[k].filter, ops[k].now);
    ReachableInv(ops[..k]);
    assert RowSound(s, id);
    if Fits(s.execs[id], s.tasks[s.execs[id].request.taskRef], ops[k].filter) {
      assert Candidate(s, ops[k].filter, ops[k].now, id);
      assert HandedAt(ops, k, Claimed(s, ops[k].filter, ops[k].now).value);
    }
  }

  // ---- finishing, renewing, canceling ----

  /** Running under this worker on a lease that has not run out before this reading. */
  ghost predicate Holds(s: State, id: Id, worker: string, now: Time) {
    && id in s.execs && s.execs[id].status == Running && s.execs[id].worker == Some(worker)
    && match s.execs[id].lease case None => false case Some(end) => now <= end
  }

  ghost predicate AllBlank(worker: string) {
    forall i :: 0 <= i < |worker| ==> Space(worker[i])
  }

  /** The report is fit to be stored on this row. */
  ghost predicate Fitting(s: State, id: Id, report: Report) {
    && (report.status == Completed || report.status == Failed || report.status == Canceled)
    && (id in s.execs ==> report.id == id && report.taskRef == s.execs[id].request.taskRef && report.conforms)
  }

  ghost predicate Notifies(s: State, t: State, id: Id, now: Time)
    requires id in s.execs
  {
    var url := s.execs[id].request.callbackUrl;
    if !WantsCallback(s.execs[id]) then t.outbox == s.outbox
    else if id !in s.outbox then
      t.outbox.Keys == s.outbox.Keys + {id} &&
      t.outbox[id] == Delivery(url.value, s.execs[id].request.callbackToken, 0, now, None, None, None, None)
    else
      && t.outbox.Keys == s.outbox.Keys
      && if s.outbox[id].deliveredAt.Some? then t.outbox[id] == s.outbox[id]
         else t.outbox[id] == s.outbox[id].(url := url.value, token := s.execs[id].request.callbackToken)
  }

  lemma FinishAnswerOnColumns(s: State, id: Id, report: Report, worker: string, now: Time)
    ensures var answer := FinishAnswer(s, id, report, worker, now);
      && (answer == Refused <==> AllBlank(worker) || !Fitting(s, id, report))
      && (answer == Stored <==> !AllBlank(worker) && Fitting(s, id, report) && Holds(s, id, worker, now))
  {
  }

  /** A stored report is the row's result, or the row was canceled; an unstored one changes nothing. */
  lemma FinishOnColumns(s: State, id: Id, report: Report, worker: string, now: Time, mirrorNow: Time)
    ensures var t, answer := Finish(s, id, report, worker, now, mirrorNow), FinishAnswer(s, id, report, worker, now);
      && (answer != Stored ==> t == s)
      && (answer == Stored ==>
            && OnlyTouches(s, t, id) && Notifies(s, t, id, mirrorNow)
            && var e, f := s.execs[id], t.execs[id];
            && f == e.(status := f.status, outcome := f.outcome, worker := None, lease := None, updatedAt := now)
            && if e.cancelRequested then
                 f.status == Canceled &&
                 f.outcome == Outcome(None, "{}", "{}", None, "{}", Some("execution canceled while running"))
               else f.status == report.status && f.outcome == report.outcome)
  {
    hide Blank;
  }

  lemma RenewOnColumns(s: State, id: Id, worker: string, seconds: int, now: Time)
    ensures var t := Renew(s, id, worker, seconds, now);
      if Holds(s, id, worker, now) && !s.execs[id].cancelRequested then
        && OnlyTouches(s, t, id) && t.outbox == s.outbox
        && t.execs[id] == s.execs[id].(lease := Some(now + Seconds(seconds)), updatedAt := now)
      else t == s
  {
  }

  lemma CancelOnColumns(s: State, id: Id, now: Time, mirrorNow: Time)
    ensures var t := Cancel(s, id, now, mirrorNow);
      if id !in s.execs then t == s
      else
        var e, f := s.execs[id], t.execs[id];
        && OnlyTouches(s, t, id)
        && f == e.(cancelRequested := true, status := f.status, updatedAt := now)
        && f.status == (if e.status == Queued then Canceled else e.status)
        && if e.status == Queued then Notifies(s, t, id, mirrorNow) else t.outbox == s.outbox
  {
  }

  // ---- the outbox ----

  ghost predicate Ended(s: State, id: Id) {
    id in s.execs && s.execs[id].status != Queued && s.execs[id].status != Running
  }

  ghost predicate Deliverable(s: State, id: Id, now: Time) {
    id in s.outbox && s.outbox[id].deliveredAt == None && s.outbox[id].nextAttempt <= now
  }

  /** Listed: of an ended execution, not delivered, and due. */
  lemma PendingOnColumns(s: State, id: Id, now: Time)
    ensures Pending(s, id, now) <==> Ended(s, id) && Deliverable(s, id, now)
  {
  }

  lemma EnqueueOnColumns(s: State, id: Id, url: string, token: Option<string>, now: Time)
    ensures var t := Enqueue(s, id, url, token, now);
      if id !in s.execs then t == s
      else
        && OnlyTouches(s, t, id) && t.execs == s.execs && id in t.outbox
        && t.outbox[id] == if id in s.outbox then s.outbox[id].(url := url, token := token)
                           else Delivery(url, token, 0, now, None, None, None, None)
  {
  }

  lemma ClaimCallbackOnColumns(s: State, id: Id, worker: string, seconds: int, now: Time)
    ensures var t := ClaimCallback(s, id, worker, seconds, now);
      var leased := id in s.outbox && s.outbox[id].owner.Some? && s.outbox[id].lease.Some? && s.outbox[id].lease.value > now;
      && (GrantsCallback(s, id, now) <==> Deliverable(s, id, now) && !leased)
      && if Deliverable(s, id, now) && !leased then
           && OnlyTouches(s, t, id) && t.execs == s.execs && id in t.outbox
           && t.outbox[id] == s.outbox[id].(owner := Some(worker), lease := Some(now + Seconds(seconds)))
         else t == s
  {
  }

  ghost predicate Settled(s: State, t: State, id: Id, now: Time) {
    && OnlyTouches(s, t, id) && t.execs == s.execs && id in s.outbox && id in t.outbox
    && t.outbox[id] == s.outbox[id].(deliveredAt := Some(now), lastError := None, owner := None, lease := None)
  }

  /** The unconditional settlement, and the one that needs the lease. */
  lemma DeliveredOnColumns(s: State, id: Id, worker: string, now: Time)
    ensures if id in s.outbox then Settled(s, MarkDelivered(s, id, now), id, now) else MarkDelivered(s, id, now) == s
    ensures if id in s.outbox && s.outbox[id].deliveredAt == None && s.outbox[id].owner == Some(worker)
      then Settled(s, Acknowledge(s, id, worker, now), id, now) else Acknowledge(s, id, worker, now) == s
  {
  }

  /** Five seconds doubled with every failure, up to eight times; the error cut at 2000 characters. */
  lemma FailedOnColumns(s: State, id: Id, error: string, worker: Option<string>, now: Time)
    ensures var t := MarkFailed(s, id, error, worker, now);
      if id in s.outbox && (worker == None || s.outbox[id].owner == worker) then
        var d, f := s.outbox[id], t.outbox[id];
        && OnlyTouches(s, t, id) && t.execs == s.execs && id in t.outbox
        && f == d.(attempts := d.attempts + 1, nextAttempt := f.nextAttempt, lastError := f.lastError, owner := None, lease := None)
        && f.nextAttempt == now + 5_000_000 * Pow2(if d.attempts < 8 then d.attempts else 8)
        && f.lastError.Some? && f.lastError.value <= error && |f.lastError.value| == (if |error| < 2000 then |error| else 2000)
      else t == s
  {
    if id in s.outbox {
      Doubling(s.outbox[id].attempts);
    }
  }

  lemma Doubling(attempts: nat)
    ensures Pow2(Min(8, attempts)) <= 256
  {
    assert Pow2(8) == 256 && Pow2(7) == 128 && Pow2(6) == 64 && Pow2(5) == 32 && Pow2(4) == 16;
  }

  lemma ReplayOnColumns(s: State, id: Id, now: Time)
    ensures var t := Replay(s, id, now);
      if Ended(s, id) && WantsCallback(s.execs[id]) then
        && OnlyTouches(s, t, id) && t.execs == s.execs && id in t.outbox
        && t.outbox[id] == Delivery(s.execs[id].request.callbackUrl.value, s.execs[id].request.callbackToken,
             if id in s.outbox then s.outbox[id].attempts else 0, now, None, None, None, None)
      else t == s
  {
  }
}
