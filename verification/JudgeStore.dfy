/**
 The store as the program has it: tables updated in place, one method per
 transaction. Every method is one step of JudgeModel and keeps Leases.Inv.
 */
module JudgeStore {
  import opened Common
  import opened JudgeModel
  import opened Scheduling
  import opened Leases

  class Store {
    var tasks: map<string, Task>
    var executions: map<Id, Execution>
    var byKey: map<string, Id>
    var outbox: map<Id, Delivery>

    function View(): State
      reads this
    {
      State(tasks, executions, byKey, outbox)
    }

    constructor ()
      ensures View() == EMPTY && Inv(View())
    {
      tasks, executions, byKey, outbox := map[], map[], map[], map[];
    }

    method RegisterTask(ref: string, task: Task) returns (ok: bool)
      requires Inv(View())
      modifies this
      ensures View() == Apply(old(View()), OpRegister(ref, task)) && Inv(View())
      ensures ok <==> View().tasks[ref] == task
    {
      StepKeepsInv(View(), OpRegister(ref, task));
      if ref in tasks {
        return tasks[ref] == task;
      }
      tasks := tasks[ref := task];
      ok := true;
    }

    method SubmitRequest(id: Id, request: Request, now: Time) returns (reply: SubmitReply)
      requires Inv(View())
      modifies this
      ensures View() == Apply(old(View()), OpSubmit(id, request, now)) && Inv(View())
      ensures reply == SubmitAnswer(old(View()), id, request)
      ensures reply.Accepted? ==> request.key in byKey && byKey[request.key] == reply.id && reply.id in executions
      ensures reply.Accepted? ==> SameFingerprint(executions[reply.id].request, request)
      ensures !reply.Accepted? ==> View() == old(View())
    {
      hide Inv;
      KeyedRow(View(), request.key);
      StepKeepsInv(View(), OpSubmit(id, request, now));
      if request.taskRef !in tasks {
        return UnknownTask;
      }
      if request.key in byKey {
        var existing := byKey[request.key];
        if !SameFingerprint(executions[existing].request, request) {
          return KeyReused;
        }
        return Accepted(existing);
      }
      if id in executions {
        return IdTaken;
      }
      executions := executions[id := Execution(request, tasks[request.taskRef], Queued, BLANK, false, None, None, now, now)];
      byKey := byKey[request.key := id];
      reply := Accepted(id);
    }

    /** Reclaims expired leases, mirrors the canceled ones, then scans the queue page by page. */
    method ClaimNextExecution(worker: string, filter: Filter, seconds: int, now: Time) returns (claimed: Option<Id>)
      requires Inv(View())
      modifies this
      ensures View() == Apply(old(View()), OpClaim(worker, filter, seconds, now)) && Inv(View())
      ensures claimed == Claimed(old(View()), filter, now)
      ensures claimed.Some? ==> claimed.value in executions && executions[claimed.value].worker == Some(worker)
      ensures claimed.Some? ==> executions[claimed.value].lease == Some(LeaseEnd(now, seconds))
    {
      hide Inv, Reclaim, Pick;
      StepKeepsInv(View(), OpClaim(worker, filter, seconds, now));
      ReclaimExpired(now);
      claimed := PagedScan(View(), filter);
      PickSpec(View(), filter);
      if claimed.Some? {
        var row := executions[claimed.value];
        executions := executions[claimed.value :=
          row.(status := Running, worker := Some(worker), lease := Some(LeaseEnd(now, seconds)), updatedAt := now)];
      }
    }

    method ReclaimExpired(now: Time)
      modifies this
      ensures View() == Reclaim(old(View()), now)
      ensures executions.Keys == old(executions).Keys && tasks == old(tasks) && byKey == old(byKey)
      ensures forall id :: id in executions ==>
        var e := old(executions)[id];
        executions[id] ==
          if e.status == Running && e.lease.Some? && e.lease.value <= now then
            e.(status := if e.cancelRequested then Canceled else Queued, worker := None, lease := None, updatedAt := now)
          else e
    {
      ghost var s := View();
      var expired := set id | id in executions && Expired(executions[id], now) && executions[id].cancelRequested;
      outbox := MirrorEach(outbox, View(), expired, now);
      executions := map id | id in executions :: ReclaimRow(executions[id], now);
      assert expired == Abandoned(s, now);
      MirrorsAbandoned(s, now);
    }

    method FinishExecution(id: Id, report: Report, worker: string, now: Time, mirrorNow: Time) returns (reply: FinishReply)
      requires Inv(View())
      modifies this
      ensures View() == Apply(old(View()), OpFinish(id, report, worker, now, mirrorNow)) && Inv(View())
      ensures reply == FinishAnswer(old(View()), id, report, worker, now)
      ensures reply.Stored? ==> id in executions && Terminal(executions[id].status)
      ensures reply.Stored? && HasUrl(executions[id]) ==> id in outbox
      ensures !reply.Stored? ==> View() == old(View())
    {
      hide Inv;
      StepKeepsInv(View(), OpFinish(id, report, worker, now, mirrorNow));
      if Blank(worker) || !Terminal(report.status) {
        return Refused;
      }
      if id !in executions {
        return Ignored;
      }
      var row := executions[id];
      if report.id != id || report.taskRef != row.request.taskRef || !report.conforms {
        return Refused;
      }
      if row.worker != Some(worker) || !row.status.Running? || row.lease.None? || row.lease.value < now {
        return Ignored;
      }
      row := FinishRow(row, report, now);
      executions := executions[id := row];
      if HasUrl(row) {
        outbox := outbox[id := MirrorRow(outbox, id, row, mirrorNow)];
      }
      reply := Stored;
    }

    method RenewLease(id: Id, worker: string, seconds: int, now: Time) returns (renewed: bool)
      requires Inv(View())
      modifies this
      ensures View() == Apply(old(View()), OpRenew(id, worker, seconds, now)) && Inv(View())
      ensures renewed == Renews(old(View()), id, worker, now)
      ensures renewed ==> HoldsLease(View(), id, worker, now + Max(1, seconds) * SECOND) && outbox == old(outbox)
    {
      hide Inv;
      StepKeepsInv(View(), OpRenew(id, worker, seconds, now));
      if id !in executions {
        return false;
      }
      var row := executions[id];
      if row.worker != Some(worker) || !row.status.Running? || row.cancelRequested || row.lease.None? || row.lease.value < now {
        return false;
      }
      executions := executions[id := row.(lease := Some(LeaseEnd(now, seconds)), updatedAt := now)];
      renewed := true;
    }

    method CancelExecution(id: Id, now: Time, mirrorNow: Time) returns (known: bool)
      requires Inv(View())
      modifies this
      ensures View() == Apply(old(View()), OpCancel(id, now, mirrorNow)) && Inv(View())
      ensures known == (id in old(executions))
      ensures known ==> id in executions && executions[id].cancelRequested && !executions[id].status.Queued?
    {
      hide Inv;
      StepKeepsInv(View(), OpCancel(id, now, mirrorNow));
      if id !in executions {
        return false;
      }
      var existing := executions[id];
      executions := executions[id := CancelRow(existing, now)];
      if existing.status.Queued? && HasUrl(existing) {
        outbox := outbox[id := MirrorRow(outbox, id, existing, mirrorNow)];
      }
      known := true;
    }

    method ClaimDelivery(id: Id, worker: string, seconds: int, now: Time) returns (granted: bool)
      requires Inv(View())
      modifies this
      ensures View() == Apply(old(View()), OpClaimCallback(id, worker, seconds, now)) && Inv(View())
      ensures granted == GrantsCallback(old(View()), id, now)
      ensures granted ==> Acknowledges(View(), id, worker)
      ensures granted ==> forall t :: t < now + Max(1, seconds) * SECOND ==> !GrantsCallback(View(), id, t)
    {
      hide Inv;
      StepKeepsInv(View(), OpClaimCallback(id, worker, seconds, now));
      if id !in outbox || outbox[id].deliveredAt.Some? || outbox[id].nextAttempt > now {
        return false;
      }
      var row := outbox[id];
      if row.owner.Some? && row.lease.Some? && row.lease.value > now {
        return false;
      }
      outbox := outbox[id := row.(owner := Some(worker), lease := Some(LeaseEnd(now, seconds)))];
      granted := true;
    }

    /** A foreign key guards the outbox: unknown executions are refused. */
    method EnqueueCallback(id: Id, url: string, token: Option<string>, now: Time) returns (known: bool)
      requires Inv(View())
      modifies this
      ensures View() == Apply(old(View()), OpEnqueue(id, url, token, now)) && Inv(View())
      ensures known == (id in executions) && (known ==> id in outbox && outbox[id].url == url)
    {
      hide Inv;
      StepKeepsInv(View(), OpEnqueue(id, url, token, now));
      known := id in executions;
      if known && id in outbox {
        outbox := outbox[id := outbox[id].(url := url, token := token)];
      } else if known {
        outbox := outbox[id := Delivery(url, token, 0, now, None, None, None, None)];
      }
    }

    /** Not delivered, due, and of an execution that has ended. */
    predicate DueRow(id: Id, now: Time)
      reads this
    {
      && id in outbox && outbox[id].deliveredAt == None && outbox[id].nextAttempt <= now
      && id in executions && executions[id].status != Queued && executions[id].status != Running
    }

    /** The due rows of ended executions, the earliest first; a negative limit is none. */
    method PendingCallbacks(limit: int, now: Time) returns (rows: seq<Id>)
      ensures forall i :: 0 <= i < |rows| ==> rows[i] in outbox && DueRow(rows[i], now)
      ensures forall i, j :: 0 <= i < j < |rows| ==>
        rows[i] != rows[j] && outbox[rows[i]].nextAttempt <= outbox[rows[j]].nextAttempt
      ensures limit >= 0 ==> |rows| <= limit
      ensures forall id :: id in outbox && DueRow(id, now) && id !in rows ==>
        limit == |rows| && forall i :: 0 <= i < |rows| ==> outbox[rows[i]].nextAttempt <= outbox[id].nextAttempt
    {
      hide DueRow;
      var due := set id | id in outbox && DueRow(id, now);
      rows := [];
      var rest := due;
      while (limit < 0 || |rows| < limit) && rest != {}
        invariant rest <= due && (limit >= 0 ==> |rows| <= limit)
        invariant forall i :: 0 <= i < |rows| ==> rows[i] in due && rows[i] !in rest
        invariant forall id :: id in due ==> id in rest || id in rows
        invariant forall i, j :: 0 <= i < j < |rows| ==>
          rows[i] != rows[j] && outbox[rows[i]].nextAttempt <= outbox[rows[j]].nextAttempt
        invariant forall i, id :: 0 <= i < |rows| && id in rest ==> outbox[rows[i]].nextAttempt <= outbox[id].nextAttempt
        decreases rest
      {
        var next := Earliest(outbox, rest);
        rows := rows + [next];
        rest := rest - {next};
      }
    }

    method FailDelivery(id: Id, error: string, worker: Option<string>, now: Time) returns (recorded: bool)
      requires Inv(View())
      modifies this
      ensures View() == Apply(old(View()), OpFailed(id, error, worker, now)) && Inv(View())
      ensures recorded == RecordsFailure(old(View()), id, worker)
      ensures recorded ==> forall t :: t < now + 5 * SECOND ==> !GrantsCallback(View(), id, t)
    {
      hide Inv;
      StepKeepsInv(View(), OpFailed(id, error, worker, now));
      recorded := id in outbox && (worker == None || outbox[id].owner == worker);
      if recorded {
        var row := outbox[id];
        outbox := outbox[id := row.(attempts := row.attempts + 1,
          nextAttempt := now + RetryDelay(row.attempts) * SECOND,
          lastError := Some(error[..Min(2000, |error|)]), owner := None, lease := None)];
      }
    }

    /** Settles the row whoever holds it. */
    method MarkDelivered(id: Id, now: Time)
      requires Inv(View())
      modifies this
      ensures View() == Apply(old(View()), OpDelivered(id, now)) && Inv(View())
      ensures id in outbox ==> outbox[id].deliveredAt == Some(now) && outbox[id].attempts == old(outbox)[id].attempts
    {
      hide Inv;
      StepKeepsInv(View(), OpDelivered(id, now));
      if id in outbox {
        outbox := outbox[id := outbox[id].(deliveredAt := Some(now), lastError := None, owner := None, lease := None)];
      }
    }

    method AcknowledgeDelivery(id: Id, worker: string, now: Time) returns (acknowledged: bool)
      requires Inv(View())
      modifies this
      ensures View() == Apply(old(View()), OpAcknowledge(id, worker, now)) && Inv(View())
      ensures acknowledged == Acknowledges(old(View()), id, worker)
      ensures acknowledged ==> forall t :: !GrantsCallback(View(), id, t) && !Pending(View(), id, t)
    {
      hide Inv;
      StepKeepsInv(View(), OpAcknowledge(id, worker, now));
      acknowledged := id in outbox && outbox[id].deliveredAt == None && outbox[id].owner == Some(worker);
      if acknowledged {
        outbox := outbox[id := outbox[id].(deliveredAt := Some(now), lastError := None, owner := None, lease := None)];
      }
    }

    method ReplayDelivery(id: Id, now: Time) returns (replayed: bool)
      requires Inv(View())
      modifies this
      ensures View() == Apply(old(View()), OpReplay(id, now)) && Inv(View())
      ensures replayed ==> id in outbox && outbox[id].deliveredAt.None? && outbox[id].nextAttempt == now
      ensures !replayed ==> View() == old(View())
    {
      hide Inv;
      StepKeepsInv(View(), OpReplay(id, now));
      if id !in executions || !Terminal(executions[id].status) || !HasUrl(executions[id]) {
        return false;
      }
      var request := executions[id].request;
      var attempts := if id in outbox then outbox[id].attempts else 0;
      outbox := outbox[id := Delivery(request.callbackUrl.value, request.callbackToken, attempts, now, None, None, None, None)];
      replayed := true;
    }

    /** One pass over the rows, each counted under its status. */
    method Stats() returns (counts: Counts)
      requires Inv(View())
      ensures forall st :: counts.Of(st) == |WithStatus(View(), st)|
      ensures counts.queued + counts.running + counts.completed + counts.failed + counts.canceled == |byKey|
    {
      ghost var s := View();
      assert |s.byKey| == |s.execs|;
      hide Inv;
      counts := Counts(0, 0, 0, 0, 0);
      var todo := executions.Keys;
      NothingCounted(s);
      while todo != {}
        invariant todo <= executions.Keys
        invariant Counted(s, counts, todo)
        decreases todo
      {
        var id :| id in todo;
        CountedStep(s, counts, todo, id);
        counts := counts.Add(executions[id].status);
        todo := todo - {id};
      }
      AllCounted(s, counts);
    }

    /** The outbox counters; none pending means that every result with a callback has been delivered. */
    method CallbackStats() returns (pending: nat, inFlight: nat, failed: nat)
      requires Inv(View())
      ensures pending == |Awaiting(View())| && inFlight == |InFlight(View())| && failed == |Failing(View())|
      ensures pending == 0 ==> forall id :: id in executions && Terminal(executions[id].status) && HasUrl(executions[id]) ==>
        id in outbox && outbox[id].deliveredAt.Some?
    {
      hide Inv, CountedCallbacks;
      ghost var s := View();
      var c := CallbackCounts(0, 0, 0);
      var todo := outbox.Keys;
      NothingAwaited(s);
      while todo != {}
        invariant todo <= outbox.Keys
        invariant CountedCallbacks(s, c, todo)
        decreases todo
      {
        var id :| id in todo;
        AwaitedStep(s, c, todo, id);
        var awaited := id in executions && outbox[id].deliveredAt.None? && Terminal(executions[id].status);
        c := c.Add(awaited, outbox[id]);
        todo := todo - {id};
      }
      AllAwaited(s, c);
      pending, inFlight, failed := c.pending, c.inFlight, c.failed;
    }
  }

  datatype CallbackCounts = CallbackCounts(pending: nat, inFlight: nat, failed: nat) {
    function Add(awaited: bool, row: Delivery): CallbackCounts {
      if awaited then
        CallbackCounts(pending + 1, inFlight + if row.owner.Some? then 1 else 0, failed + if row.attempts > 0 then 1 else 0)
      else this
    }
  }

  predicate Awaited(s: State, id: Id) {
    id in s.outbox && id in s.execs && s.outbox[id].deliveredAt.None? && Terminal(s.execs[id].status)
  }

  ghost predicate CountedCallbacks(s: State, c: CallbackCounts, todo: set<Id>) {
    c.pending == |Awaiting(s) - todo| && c.inFlight == |InFlight(s) - todo| && c.failed == |Failing(s) - todo|
  }

  lemma AwaitedStep(s: State, c: CallbackCounts, todo: set<Id>, id: Id)
    requires id in todo && id in s.outbox && CountedCallbacks(s, c, todo)
    ensures CountedCallbacks(s, c.Add(Awaited(s, id), s.outbox[id]), todo - {id})
  {
    CountOne(Awaiting(s), todo, id);
    CountOne(InFlight(s), todo, id);
    CountOne(Failing(s), todo, id);
  }

  lemma NothingAwaited(s: State)
    ensures CountedCallbacks(s, CallbackCounts(0, 0, 0), s.outbox.Keys)
  {
    assert Awaiting(s) - s.outbox.Keys == {} && InFlight(s) - s.outbox.Keys == {} && Failing(s) - s.outbox.Keys == {};
  }

  lemma AllAwaited(s: State, c: CallbackCounts)
    requires Inv(s) && CountedCallbacks(s, c, {})
    ensures c == CallbackCounts(|Awaiting(s)|, |InFlight(s)|, |Failing(s)|)
    ensures c.pending == 0 ==> forall id :: id in s.execs && Terminal(s.execs[id].status) && HasUrl(s.execs[id]) ==>
      id in s.outbox && s.outbox[id].deliveredAt.Some?
  {
    assert Awaiting(s) - {} == Awaiting(s) && InFlight(s) - {} == InFlight(s) && Failing(s) - {} == Failing(s);
    forall id | c.pending == 0 && id in s.execs && Terminal(s.execs[id].status) && HasUrl(s.execs[id])
      ensures id in s.outbox && s.outbox[id].deliveredAt.Some?
    {
      assert RowSound(s, id);
      assert id !in Awaiting(s);
    }
  }

  function Awaiting(s: State): set<Id> {
    set id | id in s.outbox && Awaited(s, id)
  }

  function InFlight(s: State): set<Id> {
    set id | id in s.outbox && Awaited(s, id) && s.outbox[id].owner.Some?
  }

  function Failing(s: State): set<Id> {
    set id | id in s.outbox && Awaited(s, id) && s.outbox[id].attempts > 0
  }

  method Earliest(outbox: map<Id, Delivery>, ids: set<Id>) returns (m: Id)
    requires ids != {} && ids <= outbox.Keys
    ensures m in ids && forall id :: id in ids ==> outbox[m].nextAttempt <= outbox[id].nextAttempt
  {
    m :| m in ids;
    var rest := ids - {m};
    while rest != {}
      invariant rest <= ids && m in ids
      invariant forall id :: id in ids - rest ==> outbox[m].nextAttempt <= outbox[id].nextAttempt
      decreases rest
    {
      var x :| x in rest;
      if outbox[x].nextAttempt < outbox[m].nextAttempt {
        m := x;
      }
      rest := rest - {x};
    }
  }

  datatype Counts = Counts(queued: nat, running: nat, completed: nat, failed: nat, canceled: nat) {
    function Of(st: Status): nat {
      match st
      case Queued => queued
      case Running => running
      case Completed => completed
      case Failed => failed
      case Canceled => canceled
    }

    function Add(st: Status): (c: Counts)
      ensures forall other :: c.Of(other) == Of(other) + if other == st then 1 else 0
    {
      match st
      case Queued => this.(queued := queued + 1)
      case Running => this.(running := running + 1)
      case Completed => this.(completed := completed + 1)
      case Failed => this.(failed := failed + 1)
      case Canceled => this.(canceled := canceled + 1)
    }
  }

  /** The rows outside `todo` have been counted, each under its status. */
  ghost predicate Counted(s: State, counts: Counts, todo: set<Id>) {
    forall st :: counts.Of(st) == |WithStatus(s, st) - todo|
  }

  lemma NothingCounted(s: State)
    ensures Counted(s, Counts(0, 0, 0, 0, 0), s.execs.Keys)
  {
    forall st ensures Counts(0, 0, 0, 0, 0).Of(st) == |WithStatus(s, st) - s.execs.Keys| {
      assert WithStatus(s, st) - s.execs.Keys == {};
    }
  }

  lemma CountedStep(s: State, counts: Counts, todo: set<Id>, id: Id)
    requires Counted(s, counts, todo) && id in todo && id in s.execs
    ensures Counted(s, counts.Add(s.execs[id].status), todo - {id})
  {
    forall st ensures counts.Add(s.execs[id].status).Of(st) == |WithStatus(s, st) - (todo - {id})| {
      CountOne(WithStatus(s, st), todo, id);
    }
  }

  lemma AllCounted(s: State, counts: Counts)
    requires Counted(s, counts, {})
    ensures forall st :: counts.Of(st) == |WithStatus(s, st)|
    ensures counts.queued + counts.running + counts.completed + counts.failed + counts.canceled == |s.execs|
  {
    hide WithStatus;
    forall st ensures counts.Of(st) == |WithStatus(s, st)| {
      assert WithStatus(s, st) - {} == WithStatus(s, st);
    }
    StatusesPartition(s);
    assert |s.execs.Keys| == |s.execs|;
    assert counts.Of(Queued) == counts.queued && counts.Of(Running) == counts.running;
    assert counts.Of(Completed) == counts.completed && counts.Of(Failed) == counts.failed;
    assert counts.Of(Canceled) == counts.canceled;
  }

  lemma KeyedRow(s: State, key: string)
    requires Inv(s)
    ensures key in s.byKey ==> s.byKey[key] in s.execs && s.execs[s.byKey[key]].request.key == key
  {
  }

  lemma CountOne(counted: set<Id>, todo: set<Id>, id: Id)
    requires id in todo
    ensures |counted - (todo - {id})| == |counted - todo| + if id in counted then 1 else 0
  {
    if id in counted {
      assert counted - (todo - {id}) == (counted - todo) + {id};
    } else {
      assert counted - (todo - {id}) == counted - todo;
    }
  }
}
