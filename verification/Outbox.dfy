/**
 The durable callback outbox over whole runs: no ended execution is without its
 row, delivery is only undone by a replay, and failed deliveries back off.
 */
module Outbox {
  import opened Common
  import opened JudgeModel
  import opened Scheduling
  import opened Leases

  // ---- what a step does to one outbox row ----

  datatype Post =
    | Keep
    | Readdress(url: string, token: Option<string>)
    | Lease(worker: string, seconds: int, now: Time)
    | Settle(now: Time)
    | Fail(error: string, now: Time)
    | Reset(url: string, token: Option<string>, now: Time)

  function Posted(d: Delivery, p: Post): Delivery {
    match p
    case Keep => d
    case Readdress(url, token) => d.(url := url, token := token)
    case Lease(worker, seconds, now) => d.(owner := Some(worker), lease := Some(LeaseEnd(now, seconds)))
    case Settle(now) => DeliveredRow(d, now)
    case Fail(error, now) =>
      d.(attempts := d.attempts + 1, nextAttempt := now + RetryDelay(d.attempts) * SECOND,
         lastError := Some(error), owner := None, lease := None)
    case Reset(url, token, now) => Delivery(url, token, d.attempts, now, None, None, None, None)
  }

  function MirrorPost(d: Delivery, e: Execution): Post {
    if HasUrl(e) && d.deliveredAt.None? then Readdress(e.request.callbackUrl.value, e.request.callbackToken) else Keep
  }

  ghost function PostOf(s: State, op: Op, id: Id): Post
    requires id in s.outbox && id in s.execs
  {
    var d, e := s.outbox[id], s.execs[id];
    if op.OpClaim? then if id in Abandoned(s, op.now) then MirrorPost(d, e) else Keep
    else if op.OpRegister? || op.id != id then Keep
    else match op
      case OpFinish(_, _, _, _, _) => if Finishes(s, op, id) then MirrorPost(d, e) else Keep
      case OpCancel(_, _, _) => if e.status.Queued? then MirrorPost(d, e) else Keep
      case OpEnqueue(_, url, token, _) => Readdress(url, token)
      case OpClaimCallback(_, worker, seconds, now) =>
        if GrantsCallback(s, id, now) then Lease(worker, seconds, now) else Keep
      case OpDelivered(_, now) => Settle(now)
      case OpAcknowledge(_, worker, now) => if Acknowledges(s, id, worker) then Settle(now) else Keep
      case OpFailed(_, error, owner, now) =>
        if RecordsFailure(s, id, owner) then Fail(error[..Min(2000, |error|)], now) else Keep
      case OpReplay(_, now) =>
        if Replays(s, id) then Reset(e.request.callbackUrl.value, e.request.callbackToken, now) else Keep
      case _ => Keep
  }

  lemma ClaimPosts(s: State, op: Op, id: Id)
    requires op.OpClaim?
    ensures Apply(s, op).outbox == Reclaim(s, op.now).outbox
    ensures id in s.outbox && id in s.execs ==>
      id in Reclaim(s, op.now).outbox && Reclaim(s, op.now).outbox[id] == Posted(s.outbox[id], PostOf(s, op, id))
    ensures id !in s.outbox && id in Reclaim(s, op.now).outbox ==>
      id in s.execs && HasUrl(s.execs[id]) && Reclaim(s, op.now).outbox[id] == FreshDelivery(s.execs[id], op.now)
  {
    PickSpec(Reclaim(s, op.now), op.filter);
  }

  lemma DeliveryMoves(s: State, op: Op, id: Id)
    requires id in s.outbox && id in s.execs
    ensures id in Apply(s, op).outbox && Apply(s, op).outbox[id] == Posted(s.outbox[id], PostOf(s, op, id))
  {
    if op.OpClaim? {
      ClaimPosts(s, op, id);
    }
  }

  predicate Fresh(d: Delivery) {
    d.attempts == 0 && d.deliveredAt.None? && d.owner.None?
  }

  lemma NewDelivery(s: State, op: Op, id: Id)
    requires id !in s.outbox && id in Apply(s, op).outbox
    ensures Fresh(Apply(s, op).outbox[id]) && !op.OpClaimCallback? && !op.OpFailed?
  {
    if op.OpClaim? {
      ClaimPosts(s, op, id);
    }
  }

  // ---- durability ----

  /** Whichever route ended it, an execution with a callback URL has an outbox row. */
  lemma EndedIsMirrored(ops: seq<Op>, id: Id)
    requires id in After(ops).execs && Terminal(After(ops).execs[id].status) && HasUrl(After(ops).execs[id])
    ensures id in After(ops).outbox
  {
    ReachableInv(ops);
    assert RowSound(After(ops), id);
  }

  lemma DeliveryStays(s: State, op: Op, id: Id)
    requires Inv(s) && id in s.outbox
    ensures id in Apply(s, op).outbox
    ensures s.outbox[id].deliveredAt.Some? && Apply(s, op).outbox[id].deliveredAt.None? ==> op.OpReplay? && op.id == id
  {
    DeliveryMoves(s, op, id);
    hide Apply;
  }

  /** A row once in the outbox stays, and stays delivered until a replay of that execution. */
  lemma {:induction false} DeliveredStays(ops: seq<Op>, i: nat, j: nat, id: Id)
    requires i <= j <= |ops| && id in After(ops[..i]).outbox
    ensures id in After(ops[..j]).outbox
    ensures After(ops[..i]).outbox[id].deliveredAt.Some? && After(ops[..j]).outbox[id].deliveredAt.None? ==>
              exists k :: i <= k < j && ops[k].OpReplay? && ops[k].id == id
    decreases j
  {
    hide After, Apply, Inv;
    if i < j {
      DeliveredStays(ops, i, j - 1, id);
      ReachableInv(ops[..j - 1]);
      AfterStep(ops, j - 1);
      DeliveryStays(After(ops[..j - 1]), ops[j - 1], id);
    }
  }

  /** The row goes where the request asked, unless somebody enqueued it with another address. */
  predicate Addressed(d: Delivery, r: Request) {
    r.callbackUrl == Some(d.url) && |d.url| > 0 && r.callbackToken == d.token
  }

  lemma NewAddress(s: State, op: Op, id: Id)
    requires id !in s.outbox && id in Apply(s, op).outbox && !(op.OpEnqueue? && op.id == id)
    ensures id in s.execs && Addressed(Apply(s, op).outbox[id], s.execs[id].request)
  {
    if op.OpClaim? {
      ClaimPosts(s, op, id);
    }
  }

  lemma KeptAddress(s: State, op: Op, id: Id)
    requires id in s.outbox && id in s.execs && Addressed(s.outbox[id], s.execs[id].request)
    requires !(op.OpEnqueue? && op.id == id)
    ensures Addressed(Posted(s.outbox[id], PostOf(s, op, id)), s.execs[id].request)
  {
  }

  /** Without an explicit enqueue, only executions that asked for a callback have a row, addressed as they asked. */
  lemma {:induction false} AddressedAsAsked(ops: seq<Op>, id: Id)
    requires id in After(ops).outbox && forall k :: 0 <= k < |ops| && ops[k].OpEnqueue? ==> ops[k].id != id
    ensures id in After(ops).execs && Addressed(After(ops).outbox[id], After(ops).execs[id].request)
  {
    hide Addressed, Posted, PostOf;
    assert ops != [] by { assert ops == [] ==> After(ops) == EMPTY; }
    var before, op := ops[..|ops| - 1], ops[|ops| - 1];
    var s := After(before);
    ReachableInv(before);
    if id in s.outbox {
      assert forall k :: 0 <= k < |before| && before[k].OpEnqueue? ==> before[k].id != id;
      AddressedAsAsked(before, id);
      KeptAddress(s, op, id);
      DeliveryMoves(s, op, id);
    } else {
      NewAddress(s, op, id);
    }
    RequestStays(s, op, id);
  }

  /** From which time on the row is listed and its delivery granted. */
  function DueFrom(d: Delivery): Time {
    if d.lease.Some? then Max(d.nextAttempt, d.lease.value) else d.nextAttempt
  }

  /**
   No result is ever stuck: in every reachable state, an ended execution with a
   callback URL is delivered, or is listed and grantable to any dispatcher from a
   known time on.
   */
  lemma NeverStuck(ops: seq<Op>, id: Id, now: Time)
    requires id in After(ops).execs && Terminal(After(ops).execs[id].status) && HasUrl(After(ops).execs[id])
    ensures id in After(ops).outbox
    ensures var d := After(ops).outbox[id];
      d.deliveredAt.Some? || (now >= DueFrom(d) ==> Pending(After(ops), id, now) && GrantsCallback(After(ops), id, now))
  {
    EndedIsMirrored(ops, id);
  }

  /** A replay makes the delivery due at once, whatever its past. */
  lemma ReplayReopens(ops: seq<Op>, i: nat, id: Id, now: Time)
    requires i < |ops| && ops[i].OpReplay? && ops[i].id == id && Replays(After(ops[..i]), id) && ops[i].now <= now
    ensures Pending(After(ops[..i + 1]), id, now) && GrantsCallback(After(ops[..i + 1]), id, now)
    ensures id in After(ops[..i]).outbox ==>
      After(ops[..i + 1]).outbox[id].attempts == After(ops[..i]).outbox[id].attempts
  {
    hide After;
    AfterStep(ops, i);
  }

  // ---- backoff ----

  function Waited(failures: nat): nat {
    if failures == 0 then 0 else Waited(failures - 1) + RetryDelay(failures - 1)
  }

  lemma {:induction false} Pow2Grows(m: nat, n: nat)
    requires m <= n
    ensures Pow2(m) <= Pow2(n)
    decreases n
  {
    if m < n {
      Pow2Grows(m, n - 1);
    }
  }

  /** The 3600 second cap never binds: the delay after k failures is 5 * 2^min(8, k). */
  lemma CapNeverBinds(attempts: nat)
    ensures RetryDelay(attempts) == 5 * Pow2(Min(8, attempts)) <= 1280
  {
    Pow2Grows(Min(8, attempts), 8);
    assert Pow2(8) == 256 by { assert Pow2(4) == 16; }
  }

  lemma {:induction false} WaitedClosedForm(failures: nat)
    ensures failures <= 9 ==> Waited(failures) == 5 * (Pow2(failures) - 1)
    ensures failures >= 9 ==> Waited(failures) == 5 * 511 + 1280 * (failures - 9)
  {
    assert Pow2(8) == 256 && Pow2(9) == 512 by { assert Pow2(4) == 16; }
    if failures > 0 {
      WaitedClosedForm(failures - 1);
      CapNeverBinds(failures - 1);
    }
  }

  datatype Attempts = Attempts(first: Option<Time>, latest: Option<Time>, failures: nat, failedAt: Option<Time>)

  const NO_ATTEMPTS := Attempts(None, None, 0, None)

  ghost predicate Granted(s: State, op: Op, id: Id) {
    op.OpClaimCallback? && op.id == id && GrantsCallback(s, id, op.now)
  }

  ghost predicate FailedOnce(s: State, op: Op, id: Id) {
    op.OpFailed? && op.id == id && RecordsFailure(s, id, op.owner)
  }

  ghost function NextAttempts(s: State, op: Op, id: Id, a: Attempts): Attempts {
    if Granted(s, op, id) then a.(first := if a.first.None? then Some(op.now) else a.first, latest := Some(op.now))
    else if FailedOnce(s, op, id) then a.(failures := a.failures + 1, failedAt := Some(op.now))
    else a
  }

  /** When delivery of this execution was first and last granted, how often it failed, and when last. */
  ghost function AttemptsOf(ops: seq<Op>, id: Id): Attempts {
    if ops == [] then NO_ATTEMPTS
    else NextAttempts(After(ops[..|ops| - 1]), ops[|ops| - 1], id, AttemptsOf(ops[..|ops| - 1], id))
  }

  predicate Timed(op: Op, id: Id) {
    (op.OpClaimCallback? || op.OpFailed?) && op.id == id
  }

  ghost predicate NoReplay(ops: seq<Op>, id: Id) {
    forall k :: 0 <= k < |ops| && ops[k].OpReplay? ==> ops[k].id != id
  }

  /** The summed waits of a number of failures have passed since the first attempt. */
  predicate Passed(a: Attempts, failures: nat, now: Time) {
    a.first.Some? && now >= a.first.value + Waited(failures) * SECOND
  }

  // ---- exactly when the waits add up ----

  /** The row's counter and next attempt, from the failures alone. */
  ghost predicate Counts(d: Delivery, a: Attempts) {
    && d.attempts == a.failures
    && (a.failures > 0 ==> a.failedAt.Some? && d.nextAttempt == a.failedAt.value + RetryDelay(a.failures - 1) * SECOND)
  }

  lemma StepCounts(s: State, op: Op, id: Id, a: Attempts)
    requires id in s.outbox && id in s.execs && Counts(s.outbox[id], a) && (op.OpReplay? ==> op.id != id)
    ensures Counts(Posted(s.outbox[id], PostOf(s, op, id)), NextAttempts(s, op, id, a))
  {
    if !Granted(s, op, id) && !FailedOnce(s, op, id) {
      OtherPosts(s, op, id);
    }
  }

  /** Over every run without a replay, whoever reports failures and whatever the clocks say. */
  lemma {:induction false} RowCountsFailures(ops: seq<Op>, id: Id)
    requires NoReplay(ops, id)
    ensures var s, a := After(ops), AttemptsOf(ops, id);
      if id in s.outbox then Counts(s.outbox[id], a) else a == NO_ATTEMPTS
  {
    if ops != [] {
      var before, op := ops[..|ops| - 1], ops[|ops| - 1];
      var s, a := After(before), AttemptsOf(before, id);
      assert NoReplay(before, id);
      RowCountsFailures(before, id);
      ReachableInv(before);
      if id in s.outbox {
        DeliveryMoves(s, op, id);
        StepCounts(s, op, id, a);
      } else if id in Apply(s, op).outbox {
        NewDelivery(s, op, id);
      }
    }
  }

  /** Whoever is granted the delivery next, and whenever, has waited out all failures since the first attempt. */
  ghost predicate NextGrantWaits(ops: seq<Op>, id: Id) {
    forall now :: GrantsCallback(After(ops), id, now) ==> Passed(AttemptsOf(ops, id), AttemptsOf(ops, id).failures, now)
  }

  /** The earliest time at which an undelivered row is granted. */
  function GrantedFrom(d: Delivery): Time {
    if d.owner.Some? && d.lease.Some? then Max(d.nextAttempt, d.lease.value) else d.nextAttempt
  }

  lemma GrantedFromIs(s: State, id: Id, now: Time)
    requires id in s.outbox && s.outbox[id].deliveredAt.None?
    ensures GrantsCallback(s, id, now) <==> now >= GrantedFrom(s.outbox[id])
  {
  }

  /**
   After every run without a replay, with an attempt made and a failure recorded:
   the next grant waits out the summed backoff if and only if the row is delivered,
   or the last failure came no earlier than the schedule allowed the attempt it
   ended, or a lease still stands until the schedule is met.
   */
  lemma BackoffHoldsIff(ops: seq<Op>, id: Id)
    requires NoReplay(ops, id) && AttemptsOf(ops, id).first.Some? && AttemptsOf(ops, id).failures > 0
    ensures id in After(ops).outbox && AttemptsOf(ops, id).failedAt.Some?
    ensures var a, d := AttemptsOf(ops, id), After(ops).outbox[id];
      NextGrantWaits(ops, id) <==>
        || d.deliveredAt.Some?
        || Passed(a, a.failures - 1, a.failedAt.value)
        || (d.owner.Some? && d.lease.Some? && Passed(a, a.failures, d.lease.value))
  {
    hide After, AttemptsOf, GrantsCallback;
    RowCountsFailures(ops, id);
    var s, a := After(ops), AttemptsOf(ops, id);
    var d := s.outbox[id];
    assert Waited(a.failures) == Waited(a.failures - 1) + RetryDelay(a.failures - 1);
    if d.deliveredAt.None? {
      forall now ensures GrantsCallback(s, id, now) <==> now >= GrantedFrom(d) {
        GrantedFromIs(s, id, now);
      }
      assert NextGrantWaits(ops, id) <==> Passed(a, a.failures, GrantedFrom(d)) by {
        assert GrantsCallback(s, id, GrantedFrom(d));
      }
    } else {
      DeliveredGrantsNothing(s, id);
    }
  }

  lemma DeliveredGrantsNothing(s: State, id: Id)
    requires id in s.outbox && s.outbox[id].deliveredAt.Some?
    ensures forall now :: !GrantsCallback(s, id, now)
  {
  }

  // ---- runs in which they do ----

  /** The failure ends a granted attempt, as it does whenever the owner reports, or comes late enough anyway. */
  ghost predicate OnTime(s: State, op: Op, id: Id, a: Attempts) {
    FailedOnce(s, op, id) ==> s.outbox[id].owner.Some? || Passed(a, a.failures, op.now)
  }

  /** No replay, no early failure, and clock readings that never go back. */
  ghost predicate Orderly(ops: seq<Op>, id: Id) {
    && NoReplay(ops, id)
    && (forall k :: 0 <= k < |ops| ==> OnTime(After(ops[..k]), ops[k], id, AttemptsOf(ops[..k], id)))
    && (forall j, k :: 0 <= j < k < |ops| && Timed(ops[j], id) && Timed(ops[k], id) ==> ops[j].now <= ops[k].now)
  }

  /** How the outbox row reflects the attempts so far. */
  ghost predicate Reflects(d: Delivery, a: Attempts) {
    && d.attempts == a.failures
    && (a.first.Some? <==> a.latest.Some?) && (a.first.Some? ==> a.first.value <= a.latest.value)
    && (a.failures > 0 ==> a.first.Some? && d.nextAttempt >= a.first.value + Waited(a.failures) * SECOND)
    && (d.owner.Some? ==> a.first.Some? && a.latest.value >= a.first.value + Waited(a.failures) * SECOND)
  }

  ghost predicate RowReflects(s: State, id: Id, a: Attempts) {
    if id in s.outbox then Reflects(s.outbox[id], a) else a == NO_ATTEMPTS
  }

  ghost predicate NotAfter(a: Attempts, now: Time) {
    a.latest.Some? ==> a.latest.value <= now
  }

  lemma ReflectFailure(d: Delivery, a: Attempts, p: Post)
    requires Reflects(d, a) && p.Fail? && (d.owner.Some? || Passed(a, a.failures, p.now)) && NotAfter(a, p.now)
    ensures Reflects(Posted(d, p), a.(failures := a.failures + 1, failedAt := Some(p.now)))
  {
    assert Waited(a.failures + 1) == Waited(a.failures) + RetryDelay(a.failures);
  }

  lemma ReflectGrant(d: Delivery, a: Attempts, p: Post)
    requires Reflects(d, a) && p.Lease? && d.nextAttempt <= p.now && NotAfter(a, p.now)
    ensures Reflects(Posted(d, p), a.(first := if a.first.None? then Some(p.now) else a.first, latest := Some(p.now)))
  {
    assert Waited(0) == 0;
  }

  lemma OtherPosts(s: State, op: Op, id: Id)
    requires id in s.outbox && id in s.execs && !Granted(s, op, id) && !FailedOnce(s, op, id)
    requires op.OpReplay? ==> op.id != id
    ensures var d := Posted(s.outbox[id], PostOf(s, op, id));
      && d.attempts == s.outbox[id].attempts && d.nextAttempt == s.outbox[id].nextAttempt
      && (d.owner.Some? ==> s.outbox[id].owner.Some?)
  {
  }

  lemma StepReflects(s: State, op: Op, id: Id, a: Attempts)
    requires id in s.outbox && id in s.execs && Reflects(s.outbox[id], a)
    requires op.OpReplay? ==> op.id != id
    requires Timed(op, id) ==> NotAfter(a, op.now)
    requires OnTime(s, op, id, a)
    ensures Reflects(Posted(s.outbox[id], PostOf(s, op, id)), NextAttempts(s, op, id, a))
  {
    var d, p := s.outbox[id], PostOf(s, op, id);
    if Granted(s, op, id) {
      ReflectGrant(d, a, p);
    } else if FailedOnce(s, op, id) {
      ReflectFailure(d, a, p);
    } else {
      OtherPosts(s, op, id);
    }
  }

  lemma {:induction false} LatestIsTimed(ops: seq<Op>, id: Id)
    ensures AttemptsOf(ops, id).latest.Some? ==>
      exists k :: 0 <= k < |ops| && Timed(ops[k], id) && ops[k].now == AttemptsOf(ops, id).latest.value
  {
    if ops != [] {
      var before, op := ops[..|ops| - 1], ops[|ops| - 1];
      LatestIsTimed(before, id);
      if Granted(After(before), op, id) {
        assert Timed(ops[|ops| - 1], id);
      } else if AttemptsOf(before, id).latest.Some? {
        var k :| 0 <= k < |before| && Timed(before[k], id) && before[k].now == AttemptsOf(before, id).latest.value;
        assert ops[k] == before[k];
      }
    }
  }

  lemma TimedNotBeforeGrant(ops: seq<Op>, id: Id)
    requires Orderly(ops, id) && ops != [] && Timed(ops[|ops| - 1], id)
    ensures NotAfter(AttemptsOf(ops[..|ops| - 1], id), ops[|ops| - 1].now)
  {
    var before := ops[..|ops| - 1];
    LatestIsTimed(before, id);
    if AttemptsOf(before, id).latest.Some? {
      var k :| 0 <= k < |before| && Timed(before[k], id) && before[k].now == AttemptsOf(before, id).latest.value;
      assert ops[k] == before[k];
    }
  }

  lemma OrderlyPrefix(ops: seq<Op>, n: nat, id: Id)
    requires n <= |ops| && Orderly(ops, id)
    ensures Orderly(ops[..n], id)
    ensures n < |ops| ==> OnTime(After(ops[..n]), ops[n], id, AttemptsOf(ops[..n], id))
  {
    hide After, OnTime, AttemptsOf;
    forall k | 0 <= k < n ensures OnTime(After(ops[..n][..k]), ops[..n][k], id, AttemptsOf(ops[..n][..k], id)) {
      assert ops[..n][..k] == ops[..k];
    }
  }

  /** A report by the lease owner is always on time. */
  lemma OwnerIsOnTime(s: State, op: Op, id: Id, a: Attempts)
    ensures op.OpFailed? && op.owner.Some? ==> OnTime(s, op, id, a)
  {
  }

  lemma {:induction false} RowReflectsAttempts(ops: seq<Op>, id: Id)
    requires Orderly(ops, id)
    ensures RowReflects(After(ops), id, AttemptsOf(ops, id))
  {
    if ops != [] {
      var before, op := ops[..|ops| - 1], ops[|ops| - 1];
      var s, a := After(before), AttemptsOf(before, id);
      OrderlyPrefix(ops, |ops| - 1, id);
      RowReflectsAttempts(before, id);
      ReachableInv(before);
      if Timed(op, id) {
        TimedNotBeforeGrant(ops, id);
      }
      if id in s.outbox {
        DeliveryMoves(s, op, id);
        StepReflects(s, op, id, a);
      } else if id in Apply(s, op).outbox {
        NewDelivery(s, op, id);
      }
    }
  }

  /**
   With n failures recorded, no delivery is granted earlier than the summed
   backoff after the first one: 5 * (2^n - 1) seconds up to nine failures, then
   1280 more for each.
   */
  lemma NoEarlyRetry(ops: seq<Op>, i: nat, id: Id)
    requires i < |ops| && Orderly(ops, id) && Granted(After(ops[..i]), ops[i], id)
    requires AttemptsOf(ops[..i], id).first.Some?
    ensures var a := AttemptsOf(ops[..i], id);
      && a.failures == After(ops[..i]).outbox[id].attempts
      && (a.failures <= 9 ==> ops[i].now >= a.first.value + 5 * (Pow2(a.failures) - 1) * SECOND)
      && (a.failures >= 9 ==> ops[i].now >= a.first.value + (2555 + 1280 * (a.failures - 9)) * SECOND)
  {
    var before := ops[..i];
    OrderlyPrefix(ops, i, id);
    RowReflectsAttempts(before, id);
    var a := AttemptsOf(before, id);
    WaitedClosedForm(a.failures);
    var upTo := ops[..i + 1];
    OrderlyPrefix(ops, i + 1, id);
    assert upTo[..i] == before && Timed(upTo[i], id);
    TimedNotBeforeGrant(upTo, id);
  }

  // ---- a run in which they do not ----

  /** A canceled execution with a callback: one delivery granted, then two failures reported by nobody, all at once. */
  const OVERLAP: seq<Op> := [
    OpRegister("task", Task("path", "kind", {}, None)),
    OpSubmit("id", Request("key", "task", "path", Some("url"), None, "", {}, "queue", "class", 0, None), 0),
    OpCancel("id", 0, 0),
    OpClaimCallback("id", "worker", 60, 0),
    OpFailed("id", "refused", None, 0),
    OpFailed("id", "refused", None, 0)]

  lemma OverlapClaimed()
    ensures var s := After(OVERLAP[..4]);
      && "id" in s.outbox && s.outbox["id"].attempts == 0 && s.outbox["id"].deliveredAt.None?
      && AttemptsOf(OVERLAP[..4], "id") == Attempts(Some(0), Some(0), 0, None)
  {
    assert OVERLAP[..0] == [];
    AfterStep(OVERLAP, 0);
    AfterStep(OVERLAP, 1);
    AfterStep(OVERLAP, 2);
    AfterStep(OVERLAP, 3);
    AttemptsStep(OVERLAP, 0, "id");
    AttemptsStep(OVERLAP, 1, "id");
    AttemptsStep(OVERLAP, 2, "id");
    AttemptsStep(OVERLAP, 3, "id");
  }

  lemma AttemptsStep(ops: seq<Op>, i: nat, id: Id)
    requires i < |ops|
    ensures AttemptsOf(ops[..i + 1], id) == NextAttempts(After(ops[..i]), ops[i], id, AttemptsOf(ops[..i], id))
  {
    assert ops[..i + 1][..i] == ops[..i];
  }

  /** Two such failures cost ten seconds of waiting, not fifteen. */
  lemma UnownedFailuresOverlap()
    ensures NoReplay(OVERLAP, "id") && AttemptsOf(OVERLAP, "id") == Attempts(Some(0), Some(0), 2, Some(0))
    ensures GrantsCallback(After(OVERLAP), "id", 10 * SECOND) && Waited(2) == 15 && !NextGrantWaits(OVERLAP, "id")
  {
    hide After, AttemptsOf, Apply;
    OverlapClaimed();
    OverlapFails();
  }

  lemma OverlapFails()
    requires "id" in After(OVERLAP[..4]).outbox && After(OVERLAP[..4]).outbox["id"].attempts == 0
    requires After(OVERLAP[..4]).outbox["id"].deliveredAt.None?
    requires AttemptsOf(OVERLAP[..4], "id") == Attempts(Some(0), Some(0), 0, None)
    ensures AttemptsOf(OVERLAP, "id") == Attempts(Some(0), Some(0), 2, Some(0))
    ensures GrantsCallback(After(OVERLAP), "id", 10 * SECOND) && Waited(2) == 15
  {
    hide After, AttemptsOf;
    AfterStep(OVERLAP, 4);
    AfterStep(OVERLAP, 5);
    AttemptsStep(OVERLAP, 4, "id");
    AttemptsStep(OVERLAP, 5, "id");
    assert OVERLAP[..6] == OVERLAP;
    assert RetryDelay(0) == 5 && RetryDelay(1) == 10;
  }

  // ---- delivery leases exclude each other ----

  /** Delivered, or under a lease that lasts at least until then. */
  predicate Kept(d: Delivery, until: Time) {
    d.deliveredAt.Some? || (d.owner.Some? && d.lease.Some? && d.lease.value >= until)
  }

  ghost predicate Reopened(s: State, op: Op, id: Id) {
    FailedOnce(s, op, id) || (op.OpReplay? && op.id == id && Replays(s, id))
  }

  lemma KeptStep(s: State, op: Op, id: Id, until: Time)
    requires Inv(s) && id in s.outbox && Kept(s.outbox[id], until) && !Reopened(s, op, id)
    ensures id in Apply(s, op).outbox && Kept(Apply(s, op).outbox[id], until)
    ensures Granted(s, op, id) ==> op.now >= until
  {
    DeliveryMoves(s, op, id);
    hide Apply;
  }

  lemma GrantKeeps(s: State, op: Op, id: Id)
    requires Granted(s, op, id)
    ensures id in Apply(s, op).outbox && Kept(Apply(s, op).outbox[id], LeaseEnd(op.now, op.seconds))
  {
  }

  lemma {:induction false} KeptThrough(ops: seq<Op>, i: nat, j: nat, id: Id)
    requires i < j <= |ops| && Granted(After(ops[..i]), ops[i], id)
    requires forall k :: i < k < j ==> !Reopened(After(ops[..k]), ops[k], id)
    ensures id in After(ops[..j]).outbox && Kept(After(ops[..j]).outbox[id], LeaseEnd(ops[i].now, ops[i].seconds))
    decreases j
  {
    hide After, Apply, Inv, Kept, Reopened, GrantsCallback;
    AfterStep(ops, j - 1);
    if i == j - 1 {
      GrantKeeps(After(ops[..i]), ops[i], id);
    } else {
      KeptThrough(ops, i, j - 1, id);
      ReachableInv(ops[..j - 1]);
      KeptStep(After(ops[..j - 1]), ops[j - 1], id, LeaseEnd(ops[i].now, ops[i].seconds));
    }
  }

  /**
   Two dispatchers never hold one delivery at a time: if it is granted again before
   the first lease ends, a failure was recorded or the callback replayed in between.
   */
  lemma LeasesExclude(ops: seq<Op>, i: nat, j: nat, id: Id)
    requires i < j < |ops| && Granted(After(ops[..i]), ops[i], id) && Granted(After(ops[..j]), ops[j], id)
    requires ops[j].now < LeaseEnd(ops[i].now, ops[i].seconds)
    ensures exists k :: i < k < j && Reopened(After(ops[..k]), ops[k], id)
  {
    hide After, Inv, Kept, Reopened, LeaseEnd, GrantsCallback;
    if forall k :: i < k < j ==> !Reopened(After(ops[..k]), ops[k], id) {
      KeptThrough(ops, i, j, id);
      ReachableInv(ops[..j]);
      NotReopenedByGrant(After(ops[..j]), ops[j], id);
      KeptStep(After(ops[..j]), ops[j], id, LeaseEnd(ops[i].now, ops[i].seconds));
    }
  }

  lemma NotReopenedByGrant(s: State, op: Op, id: Id)
    requires Granted(s, op, id)
    ensures !Reopened(s, op, id)
  {
  }
}
