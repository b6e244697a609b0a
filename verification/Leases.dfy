/**
 Safety of execution leases over whole runs: what every step keeps, who may
 finish, what a cancel fixes, and what an idempotency key means.
 */
module Leases {
  import opened Common
  import opened JudgeModel
  import opened Scheduling

  // ---- the invariant ----

  /** A row is running exactly when it has a worker and a lease; it has results only once ended. */
  predicate RowShape(e: Execution) {
    && (e.status.Running? <==> e.worker.Some?)
    && (e.status.Running? <==> e.lease.Some?)
    && (e.status.Queued? ==> !e.cancelRequested)
    && (!Terminal(e.status) ==> e.outcome == BLANK)
  }

  ghost predicate RowSound(s: State, id: Id)
    requires id in s.execs
  {
    var e := s.execs[id];
    && RowShape(e)
    && e.request.taskRef in s.tasks && s.tasks[e.request.taskRef] == e.stamp
    && e.request.key in s.byKey && s.byKey[e.request.key] == id
    && (Terminal(e.status) && HasUrl(e) ==> id in s.outbox)
  }

  ghost predicate RowsSound(s: State) {
    forall id :: id in s.execs ==> RowSound(s, id)
  }

  ghost predicate KeysSound(s: State) {
    && (forall k :: k in s.byKey ==> s.byKey[k] in s.execs && s.execs[s.byKey[k]].request.key == k)
    && |s.byKey| == |s.execs|
  }

  ghost predicate OutboxSound(s: State) {
    && (forall id :: id in s.outbox ==> id in s.execs)
    && (forall id :: id in s.outbox && s.outbox[id].deliveredAt.Some? ==> s.outbox[id].owner.None?)
  }

  ghost predicate Inv(s: State) {
    RowsSound(s) && KeysSound(s) && OutboxSound(s)
  }

  // ---- what a step does to one execution row ----

  datatype Move =
    | Stay
    | Reclaimed(now: Time)
    | Handed(worker: string, seconds: int, now: Time)
    | Ended(report: Report, now: Time)
    | Extended(seconds: int, now: Time)
    | Marked(now: Time)

  function Moved(e: Execution, m: Move): Execution {
    match m
    case Stay => e
    case Reclaimed(now) => ReclaimRow(e, now)
    case Handed(worker, seconds, now) => ClaimRow(ReclaimRow(e, now), worker, seconds, now)
    case Ended(report, now) => FinishRow(e, report, now)
    case Extended(seconds, now) => e.(lease := Some(LeaseEnd(now, seconds)), updatedAt := now)
    case Marked(now) => CancelRow(e, now)
  }

  predicate Legal(e: Execution, m: Move) {
    match m
    case Handed(_, _, now) => ReclaimRow(e, now).status.Queued? && !e.cancelRequested
    case Ended(report, _) => e.status.Running? && Terminal(report.status)
    case Extended(_, _) => e.status.Running? && !e.cancelRequested
    case _ => true
  }

  ghost function MoveOf(s: State, op: Op, id: Id): Move {
    if op.OpClaim? then
      if Hands(s, op, id) then Handed(op.worker, op.seconds, op.now) else Reclaimed(op.now)
    else if op.OpFinish? && Finishes(s, op, id) then Ended(op.report, op.now)
    else if op.OpRenew? && op.id == id && Renews(s, id, op.worker, op.now) then Extended(op.seconds, op.now)
    else if op.OpCancel? && op.id == id then Marked(op.now)
    else Stay
  }

  lemma ClaimMoves(s: State, op: Op, id: Id)
    requires op.OpClaim? && id in s.execs
    ensures ClaimNext(s, op.worker, op.filter, op.seconds, op.now).execs.Keys == s.execs.Keys
    ensures ClaimNext(s, op.worker, op.filter, op.seconds, op.now).execs[id] == Moved(s.execs[id], MoveOf(s, op, id))
    ensures Legal(s.execs[id], MoveOf(s, op, id))
  {
    var r := Reclaim(s, op.now);
    assert r.execs.Keys == s.execs.Keys && r.execs[id] == ReclaimRow(s.execs[id], op.now);
    PickSpec(r, op.filter);
  }

  /** Every step leaves an existing row alone or moves it in one of five ways. */
  lemma RowMoves(s: State, op: Op, id: Id)
    requires id in s.execs
    ensures id in Apply(s, op).execs && Apply(s, op).execs[id] == Moved(s.execs[id], MoveOf(s, op, id))
    ensures Legal(s.execs[id], MoveOf(s, op, id))
  {
    if op.OpClaim? {
      ClaimMoves(s, op, id);
    }
  }

  lemma NewRow(s: State, op: Op, id: Id)
    requires id !in s.execs && id in Apply(s, op).execs
    ensures op.OpSubmit? && op.id == id && Inserts(s, id, op.request)
    ensures Apply(s, op).execs[id] == NewExecution(s, op.request, op.now)
  {
    if op.OpClaim? {
      PickSpec(Reclaim(s, op.now), op.filter);
    }
  }

  // ---- every step keeps the invariant ----

  lemma MoveKeepsShape(e: Execution, m: Move)
    requires RowShape(e) && Legal(e, m)
    ensures RowShape(Moved(e, m)) && Moved(e, m).request == e.request && Moved(e, m).stamp == e.stamp
  {
  }

  /** Tasks, keys and outbox rows are only ever added. */
  lemma TablesGrow(s: State, op: Op)
    ensures var t := Apply(s, op);
      && (forall ref :: ref in s.tasks ==> ref in t.tasks && t.tasks[ref] == s.tasks[ref])
      && (forall k :: k in s.byKey ==> k in t.byKey && t.byKey[k] == s.byKey[k])
      && s.outbox.Keys <= t.outbox.Keys
  {
    hide Pick;
  }

  /** Whatever ends an execution mirrors it, in the same step. */
  lemma EndingMirrors(s: State, op: Op, id: Id)
    requires id in s.execs && RowShape(s.execs[id]) && !Terminal(s.execs[id].status) && HasUrl(s.execs[id])
    requires Terminal(Moved(s.execs[id], MoveOf(s, op, id)).status) && Legal(s.execs[id], MoveOf(s, op, id))
    ensures id in Apply(s, op).outbox
  {
    hide Claimed, Pick;
  }

  lemma StepKeepsRow(s: State, op: Op, id: Id)
    requires id in s.execs && RowSound(s, id)
    ensures id in Apply(s, op).execs && RowSound(Apply(s, op), id)
  {
    TablesGrow(s, op);
    RowMoves(s, op, id);
    var e, m := s.execs[id], MoveOf(s, op, id);
    MoveKeepsShape(e, m);
    if Terminal(Moved(e, m).status) && !Terminal(e.status) && HasUrl(e) {
      EndingMirrors(s, op, id);
    }
    hide Apply, MoveOf, RowShape;
    assert Terminal(e.status) ==> Moved(e, m).status == e.status;
  }

  lemma InsertedRowSound(s: State, op: Op)
    requires op.OpSubmit? && Inserts(s, op.id, op.request)
    ensures op.id in Apply(s, op).execs && RowSound(Apply(s, op), op.id)
  {
  }

  lemma StepKeepsRows(s: State, op: Op)
    requires RowsSound(s)
    ensures RowsSound(Apply(s, op))
  {
    forall id | id in Apply(s, op).execs ensures RowSound(Apply(s, op), id) {
      if id in s.execs {
        StepKeepsRow(s, op, id);
      } else {
        NewRow(s, op, id);
        InsertedRowSound(s, op);
      }
    }
  }

  lemma ClaimKeepsIds(s: State, op: Op)
    requires op.OpClaim?
    ensures Apply(s, op).execs.Keys == s.execs.Keys && Apply(s, op).byKey == s.byKey
  {
    PickSpec(Reclaim(s, op.now), op.filter);
    assert Reclaim(s, op.now).execs.Keys == s.execs.Keys;
  }

  lemma IdsStay(s: State, op: Op)
    requires !op.OpSubmit? && !op.OpClaim?
    ensures Apply(s, op).execs.Keys == s.execs.Keys && Apply(s, op).byKey == s.byKey
  {
  }

  lemma StepKeepsKeys(s: State, op: Op)
    requires KeysSound(s)
    ensures KeysSound(Apply(s, op))
  {
    var t := Apply(s, op);
    if op.OpSubmit? {
      assert Inserts(s, op.id, op.request) ==> |t.execs| == |s.execs| + 1 && |t.byKey| == |s.byKey| + 1;
    } else {
      if op.OpClaim? {
        ClaimKeepsIds(s, op);
      } else {
        IdsStay(s, op);
      }
      forall k | k in t.byKey ensures t.byKey[k] in t.execs && t.execs[t.byKey[k]].request.key == k {
        RequestStays(s, op, s.byKey[k]);
      }
      hide Apply;
      assert |t.execs.Keys| == |t.execs| && |s.execs.Keys| == |s.execs|;
    }
  }

  lemma RequestStays(s: State, op: Op, id: Id)
    requires id in s.execs
    ensures id in Apply(s, op).execs && Apply(s, op).execs[id].request == s.execs[id].request
  {
    RowMoves(s, op, id);
    hide Apply, MoveOf;
  }

  lemma StepKeepsOutbox(s: State, op: Op)
    requires OutboxSound(s)
    ensures OutboxSound(Apply(s, op))
  {
    if op.OpClaim? {
      ClaimKeepsIds(s, op);
      ReclaimKeepsOutbox(s, op.now);
      hide Pick, Reclaim;
    }
  }

  lemma ReclaimKeepsOutbox(s: State, now: Time)
    requires OutboxSound(s)
    ensures OutboxSound(Reclaim(s, now))
  {
    assert Reclaim(s, now).execs.Keys == s.execs.Keys;
    hide Expired;
  }

  lemma StepKeepsInv(s: State, op: Op)
    requires Inv(s)
    ensures Inv(Apply(s, op))
  {
    hide Apply, RowsSound, KeysSound, OutboxSound;
    StepKeepsRows(s, op);
    StepKeepsKeys(s, op);
    StepKeepsOutbox(s, op);
  }

  lemma {:induction false} ReachableInv(ops: seq<Op>)
    ensures Inv(After(ops))
  {
    if ops != [] {
      ReachableInv(ops[..|ops| - 1]);
      StepKeepsInv(After(ops[..|ops| - 1]), ops[|ops| - 1]);
    }
  }

  // ---- terminal rows are frozen ----

  ghost predicate Evolves(e: Execution, later: Execution) {
    && later.request == e.request && later.stamp == e.stamp && later.createdAt == e.createdAt
    && (Terminal(e.status) ==> later.status == e.status && later.outcome == e.outcome)
    && (e.cancelRequested ==> later.cancelRequested)
  }

  lemma StepEvolves(s: State, op: Op, id: Id)
    requires Inv(s) && id in s.execs
    ensures id in Apply(s, op).execs && Evolves(s.execs[id], Apply(s, op).execs[id])
  {
    assert RowSound(s, id);
    RowMoves(s, op, id);
    MoveEvolves(s.execs[id], MoveOf(s, op, id));
  }

  lemma MoveEvolves(e: Execution, m: Move)
    requires RowShape(e) && Legal(e, m)
    ensures Evolves(e, Moved(e, m))
  {
  }

  lemma {:induction false} RunEvolves(ops: seq<Op>, i: nat, j: nat, id: Id)
    requires i <= j <= |ops| && id in After(ops[..i]).execs
    ensures id in After(ops[..j]).execs
    ensures Evolves(After(ops[..i]).execs[id], After(ops[..j]).execs[id])
    decreases j
  {
    if i < j {
      RunEvolves(ops, i, j - 1, id);
      ReachableInv(ops[..j - 1]);
      AfterStep(ops, j - 1);
      StepEvolves(After(ops[..j - 1]), ops[j - 1], id);
    }
  }

  /** Once an execution is terminal, what a callback would carry never changes again. */
  lemma TerminalIsFinal(ops: seq<Op>, i: nat, j: nat, id: Id)
    requires i <= j <= |ops| && id in After(ops[..i]).execs
    requires Terminal(After(ops[..i]).execs[id].status)
    ensures id in After(ops[..j]).execs
    ensures PayloadOf(id, After(ops[..j]).execs[id]) == PayloadOf(id, After(ops[..i]).execs[id])
    ensures var e, f := After(ops[..i]).execs[id], After(ops[..j]).execs[id];
      f.status == e.status && f.outcome == e.outcome && f.request == e.request && f.stamp == e.stamp
  {
    RunEvolves(ops, i, j, id);
  }

  // ---- who finishes ----

  /** The step gives the worker a lease on the execution: a claim, or an accepted renewal. */
  ghost predicate Grants(s: State, op: Op, id: Id) {
    MoveOf(s, op, id).Handed? || MoveOf(s, op, id).Extended?
  }

  ghost predicate HandedAt(ops: seq<Op>, k: nat, id: Id) {
    k < |ops| && Hands(After(ops[..k]), ops[k], id)
  }

  ghost predicate GrantedAt(ops: seq<Op>, k: nat, id: Id) {
    k < |ops| && Grants(After(ops[..k]), ops[k], id)
  }

  ghost predicate FinishedAt(ops: seq<Op>, k: nat, id: Id) {
    k < |ops| && Finishes(After(ops[..k]), ops[k], id)
  }

  ghost predicate Latest(marks: seq<bool>, k: nat, i: nat) {
    k < i <= |marks| && marks[k] && forall j :: k < j < i ==> !marks[j]
  }

  /** At which steps of the run the execution was handed out, or its lease granted. */
  ghost function Handings(ops: seq<Op>, id: Id): seq<bool> {
    seq(|ops|, k requires 0 <= k < |ops| => HandedAt(ops, k, id))
  }

  ghost function Grantings(ops: seq<Op>, id: Id): seq<bool> {
    seq(|ops|, k requires 0 <= k < |ops| => GrantedAt(ops, k, id))
  }

  ghost predicate LatestClaim(ops: seq<Op>, c: nat, i: nat, id: Id) {
    Latest(Handings(ops, id), c, i)
  }

  ghost predicate LatestGrant(ops: seq<Op>, g: nat, i: nat, id: Id) {
    Latest(Grantings(ops, id), g, i)
  }

  ghost predicate HeldSince(ops: seq<Op>, c: nat, g: nat, i: nat, id: Id)
    requires i <= |ops| && id in After(ops[..i]).execs
  {
    && LatestClaim(ops, c, i, id) && LatestGrant(ops, g, i, id)
    && ops[c].OpClaim? && (ops[g].OpClaim? || ops[g].OpRenew?)
    && After(ops[..i]).execs[id].worker == Some(ops[c].worker)
    && After(ops[..i]).execs[id].lease == Some(LeaseEnd(ops[g].now, ops[g].seconds))
  }

  /** A running row was just granted, or was running before under the same worker and lease. */
  lemma MoveHolds(e: Execution, m: Move)
    requires RowShape(e) && Legal(e, m) && Moved(e, m).status.Running?
    ensures m.Handed? ==> Moved(e, m).worker == Some(m.worker)
    ensures m.Handed? || m.Extended? ==> Moved(e, m).lease == Some(LeaseEnd(m.now, m.seconds))
    ensures !m.Handed? ==> e.status.Running? && Moved(e, m).worker == e.worker
    ensures !m.Handed? && !m.Extended? ==> Moved(e, m).lease == e.lease
  {
  }

  lemma RunningBefore(ops: seq<Op>, i: nat, id: Id) returns (m: Move)
    requires 0 < i <= |ops| && id in After(ops[..i]).execs && After(ops[..i]).execs[id].status.Running?
    ensures m == MoveOf(After(ops[..i - 1]), ops[i - 1], id)
    ensures id in After(ops[..i - 1]).execs
    ensures RowShape(After(ops[..i - 1]).execs[id]) && Legal(After(ops[..i - 1]).execs[id], m)
    ensures After(ops[..i]).execs[id] == Moved(After(ops[..i - 1]).execs[id], m)
    ensures HandedAt(ops, i - 1, id) <==> m.Handed?
    ensures GrantedAt(ops, i - 1, id) <==> m.Handed? || m.Extended?
    ensures m.Handed? ==> ops[i - 1].OpClaim? && ops[i - 1].worker == m.worker
    ensures m.Handed? || m.Extended? ==> ops[i - 1].OpClaim? || ops[i - 1].OpRenew?
    ensures m.Handed? || m.Extended? ==> ops[i - 1].now == m.now && ops[i - 1].seconds == m.seconds
  {
    var s, op := After(ops[..i - 1]), ops[i - 1];
    ReachableInv(ops[..i - 1]);
    AfterStep(ops, i - 1);
    m := MoveOf(s, op, id);
    if id in s.execs {
      assert RowSound(s, id);
      RowMoves(s, op, id);
    } else {
      NewRow(s, op, id);
    }
  }

  lemma {:induction false} RunningHasClaim(ops: seq<Op>, i: nat, id: Id) returns (c: nat, g: nat)
    requires i <= |ops| && id in After(ops[..i]).execs && After(ops[..i]).execs[id].status.Running?
    ensures HeldSince(ops, c, g, i, id)
    decreases i
  {
    assert i > 0 by { assert ops[..0] == []; }
    var m := RunningBefore(ops, i, id);
    MoveHolds(After(ops[..i - 1]).execs[id], m);
    if m.Handed? {
      c, g := i - 1, i - 1;
    } else {
      c, g := RunningHasClaim(ops, i - 1, id);
      LaterLatest(Handings(ops, id), c, i);
      if m.Extended? {
        g := i - 1;
      } else {
        LaterLatest(Grantings(ops, id), g, i);
      }
    }
  }

  lemma LaterLatest(marks: seq<bool>, k: nat, i: nat)
    requires 0 < i <= |marks| && Latest(marks, k, i - 1) && !marks[i - 1]
    ensures Latest(marks, k, i)
  {
  }

  /**
   An accepted finish comes from the worker of the latest claim, within the last
   lease granted, and no other finish of that execution is ever accepted.
   */
  lemma FinishIsUnique(ops: seq<Op>, i: nat, id: Id)
    requires FinishedAt(ops, i, id)
    ensures exists c: nat, g: nat :: LatestClaim(ops, c, i, id) && LatestGrant(ops, g, i, id) &&
              ops[c].OpClaim? && (ops[g].OpClaim? || ops[g].OpRenew?) &&
              ops[c].worker == ops[i].worker && ops[i].now <= LeaseEnd(ops[g].now, ops[g].seconds)
    ensures forall j: nat :: FinishedAt(ops, j, id) ==> j == i
  {
    var c, g := RunningHasClaim(ops, i, id);
    forall j: nat | FinishedAt(ops, j, id) ensures j == i {
      if j < i {
        FinishedOnce(ops, j, i, id);
      } else if i < j {
        FinishedOnce(ops, i, j, id);
      }
    }
  }

  lemma FinishedOnce(ops: seq<Op>, i: nat, j: nat, id: Id)
    requires FinishedAt(ops, i, id) && i < j < |ops|
    ensures !FinishedAt(ops, j, id)
  {
    AfterStep(ops, i);
    assert Terminal(After(ops[..i + 1]).execs[id].status);
    RunEvolves(ops, i + 1, j, id);
  }

  // ---- cancel wins ----

  ghost predicate NoResult(o: Outcome) {
    o.score.None? && o.winner.None? && o.metrics == EMPTY_JSON && o.scores == EMPTY_JSON && o.artifacts == EMPTY_JSON
  }

  /** What an accepted cancel leaves possible, relative to the row it marked. */
  ghost predicate Doomed(marked: Execution, e: Execution) {
    && e.cancelRequested
    && (|| (e.status.Canceled? && NoResult(e.outcome))
        || (e.status.Running? && e.outcome == BLANK && e.worker == marked.worker && e.lease == marked.lease))
  }

  lemma DoomedStep(s: State, op: Op, id: Id, marked: Execution)
    requires id in s.execs && Doomed(marked, s.execs[id])
    ensures id in Apply(s, op).execs && Doomed(marked, Apply(s, op).execs[id])
    ensures !Hands(s, op, id)
    ensures op.OpClaim? && marked.lease.Some? && marked.lease.value <= op.now ==>
              Apply(s, op).execs[id].status.Canceled?
  {
    RowMoves(s, op, id);
    hide Apply, Claimed;
    MoveDooms(marked, s.execs[id], MoveOf(s, op, id));
  }

  lemma MoveDooms(marked: Execution, e: Execution, m: Move)
    requires Doomed(marked, e) && Legal(e, m)
    ensures !m.Handed? && Doomed(marked, Moved(e, m))
    ensures m.Reclaimed? && marked.lease.Some? && marked.lease.value <= m.now ==> Moved(e, m).status.Canceled?
  {
  }

  lemma CancelDooms(ops: seq<Op>, i: nat, id: Id)
    requires i < |ops| && ops[i].OpCancel? && ops[i].id == id
    requires id in After(ops[..i]).execs && !Terminal(After(ops[..i]).execs[id].status)
    ensures id in Apply(After(ops[..i]), ops[i]).execs
    ensures var marked := Apply(After(ops[..i]), ops[i]).execs[id];
      Doomed(marked, marked) && marked.lease == After(ops[..i]).execs[id].lease
  {
    ReachableInv(ops[..i]);
    hide After;
    assert RowSound(After(ops[..i]), id);
    RowMoves(After(ops[..i]), ops[i], id);
  }

  /**
   After a cancel is accepted on an execution that has not ended: it is never
   handed out again, its lease never grows, it can only end canceled and without
   results, and a claim at or after the lease deadline ends it.
   */
  lemma {:induction false} CancelWins(ops: seq<Op>, i: nat, j: nat, id: Id)
    requires i < j <= |ops| && ops[i].OpCancel? && ops[i].id == id
    requires id in After(ops[..i]).execs && !Terminal(After(ops[..i]).execs[id].status)
    ensures id in After(ops[..i + 1]).execs && id in After(ops[..j]).execs
    ensures Doomed(After(ops[..i + 1]).execs[id], After(ops[..j]).execs[id])
    ensures After(ops[..i + 1]).execs[id].lease == After(ops[..i]).execs[id].lease
    ensures j < |ops| ==> !HandedAt(ops, j, id)
    ensures j < |ops| && ops[j].OpClaim? && After(ops[..i]).execs[id].lease.Some?
              && After(ops[..i]).execs[id].lease.value <= ops[j].now
            ==> id in After(ops[..j + 1]).execs && After(ops[..j + 1]).execs[id].status.Canceled?
    decreases j
  {
    hide After, Apply, Doomed, Hands;
    AfterStep(ops, i);
    CancelDooms(ops, i, id);
    var marked := After(ops[..i + 1]).execs[id];
    if i + 1 < j {
      CancelWins(ops, i, j - 1, id);
      AfterStep(ops, j - 1);
      DoomedStep(After(ops[..j - 1]), ops[j - 1], id, marked);
    }
    if j < |ops| {
      AfterStep(ops, j);
      DoomedStep(After(ops[..j]), ops[j], id, marked);
    }
  }

  // ---- where a result comes from ----

  /** The execution was ended by an accepted report at step i, and carries exactly that report. */
  ghost predicate ReportedAt(ops: seq<Op>, i: nat, id: Id, e: Execution) {
    && FinishedAt(ops, i, id) && !After(ops[..i]).execs[id].cancelRequested
    && e.status == ops[i].report.status && e.outcome == ops[i].report.outcome
    && ops[i].report.conforms && ops[i].report.id == id && ops[i].report.taskRef == e.request.taskRef
  }

  /** Somebody canceled the execution, and it ended without a result. */
  ghost predicate CanceledBy(ops: seq<Op>, i: nat, id: Id, e: Execution) {
    i < |ops| && ops[i].OpCancel? && ops[i].id == id && e.status.Canceled? && NoResult(e.outcome)
  }

  ghost predicate Explained(ops: seq<Op>, n: nat, id: Id, e: Execution) {
    exists i: nat :: i < n && (ReportedAt(ops, i, id, e) || CanceledBy(ops, i, id, e))
  }

  lemma {:induction false} CancelHasCause(ops: seq<Op>, n: nat, id: Id) returns (i: nat)
    requires n <= |ops| && id in After(ops[..n]).execs && After(ops[..n]).execs[id].cancelRequested
    ensures i < n && ops[i].OpCancel? && ops[i].id == id
    decreases n
  {
    hide Inv, Claimed;
    assert n > 0 by { assert ops[..0] == []; }
    var m := RowBefore(ops, n, id);
    if m.Some? && !m.value.Marked? {
      MoveKeepsCancel(After(ops[..n - 1]).execs[id], m.value);
      i := CancelHasCause(ops, n - 1, id);
    } else {
      i := n - 1;
    }
  }

  lemma MoveKeepsCancel(e: Execution, m: Move)
    ensures !m.Marked? ==> Moved(e, m).cancelRequested == e.cancelRequested
  {
  }

  /** The row before a step and how the step moved it, or None when the step inserted it. */
  lemma RowBefore(ops: seq<Op>, n: nat, id: Id) returns (m: Option<Move>)
    requires 0 < n <= |ops| && id in After(ops[..n]).execs
    ensures m.Some? <==> id in After(ops[..n - 1]).execs
    ensures m.Some? ==> m.value == MoveOf(After(ops[..n - 1]), ops[n - 1], id)
    ensures m.Some? ==> RowShape(After(ops[..n - 1]).execs[id]) && Legal(After(ops[..n - 1]).execs[id], m.value)
    ensures m.Some? ==> After(ops[..n]).execs[id] == Moved(After(ops[..n - 1]).execs[id], m.value)
    ensures m.None? ==> !After(ops[..n]).execs[id].cancelRequested && After(ops[..n]).execs[id].status.Queued?
    ensures m.Some? && m.value.Marked? ==> ops[n - 1].OpCancel? && ops[n - 1].id == id
    ensures m.Some? && m.value.Ended? ==> FinishedAt(ops, n - 1, id) && ops[n - 1].report == m.value.report
  {
    hide After, Apply, Claimed;
    var s, op := After(ops[..n - 1]), ops[n - 1];
    ReachableInv(ops[..n - 1]);
    AfterStep(ops, n - 1);
    if id in s.execs {
      assert RowSound(s, id);
      RowMoves(s, op, id);
      m := Some(MoveOf(s, op, id));
    } else {
      NewRow(s, op, id);
      m := None;
    }
  }

  lemma TerminalMoves(e: Execution, m: Move)
    requires RowShape(e) && Legal(e, m) && Terminal(e.status)
    ensures Moved(e, m).status == e.status && Moved(e, m).outcome == e.outcome
  {
  }

  /** How a row that has not ended can end. */
  lemma MoveEnds(e: Execution, m: Move)
    requires RowShape(e) && Legal(e, m) && !Terminal(e.status) && Terminal(Moved(e, m).status)
    ensures m.Ended? || m.Reclaimed? || m.Marked?
    ensures m.Ended? && !e.cancelRequested ==>
      Moved(e, m).status == m.report.status && Moved(e, m).outcome == m.report.outcome
    ensures !m.Ended? || e.cancelRequested ==> Moved(e, m).status.Canceled? && NoResult(Moved(e, m).outcome)
    ensures m.Ended? || m.Reclaimed? ==> e.status.Running?
    ensures m.Reclaimed? ==> e.cancelRequested
  {
  }

  /**
   Every ended execution carries exactly one accepted worker report, or was
   canceled and carries no result; there is no third way to end.
   */
  lemma {:induction false} EveryResultIsExplained(ops: seq<Op>, n: nat, id: Id)
    requires n <= |ops| && id in After(ops[..n]).execs && Terminal(After(ops[..n]).execs[id].status)
    ensures Explained(ops, n, id, After(ops[..n]).execs[id])
    decreases n
  {
    hide After, Inv, Moved, MoveOf, NoResult;
    EmptyStart(ops, n, id);
    var m := RowBefore(ops, n, id);
    var before, e := After(ops[..n - 1]).execs[id], After(ops[..n]).execs[id];
    if Terminal(before.status) {
      EveryResultIsExplained(ops, n - 1, id);
      TerminalMoves(before, m.value);
      MoveKeepsShape(before, m.value);
      var i: nat :| i < n - 1 && (ReportedAt(ops, i, id, before) || CanceledBy(ops, i, id, before));
      assert ReportedAt(ops, i, id, e) || CanceledBy(ops, i, id, e);
    } else {
      MoveEnds(before, m.value);
      MoveKeepsShape(before, m.value);
      if m.value.Ended? && !before.cancelRequested {
        assert ReportedAt(ops, n - 1, id, e);
      } else if m.value.Marked? {
        assert CanceledBy(ops, n - 1, id, e);
      } else {
        var i := CancelHasCause(ops, n - 1, id);
        assert CanceledBy(ops, i, id, e);
      }
    }
  }

  lemma EmptyStart(ops: seq<Op>, n: nat, id: Id)
    requires n <= |ops| && id in After(ops[..n]).execs
    ensures n > 0
  {
    assert ops[..0] == [];
  }

  /** What was submitted stays what is run: request, task and submission time never change. */
  lemma SubmissionStays(ops: seq<Op>, i: nat, j: nat)
    requires i < j <= |ops| && ops[i].OpSubmit? && Inserts(After(ops[..i]), ops[i].id, ops[i].request)
    ensures ops[i].id in After(ops[..j]).execs
    ensures var e := After(ops[..j]).execs[ops[i].id];
      && e.request == ops[i].request && e.createdAt == ops[i].now
      && e.stamp == After(ops[..i]).tasks[ops[i].request.taskRef]
  {
    AfterStep(ops, i);
    RunEvolves(ops, i + 1, j, ops[i].id);
  }

  /** Reachable queues are sound, so Scheduling.Drain applies to them. */
  lemma QueueIsSound(s: State)
    requires Inv(s)
    ensures QueueSound(s)
  {
    forall id | id in s.execs && s.execs[id].status.Queued?
      ensures !s.execs[id].cancelRequested && s.execs[id].request.taskRef in s.tasks
    {
      assert RowSound(s, id);
    }
  }

  // ---- idempotency keys ----

  /** The key index only grows, and no two keys ever share an execution. */
  lemma {:induction false} KeysOnlyGrow(ops: seq<Op>, i: nat, j: nat, key: string)
    requires i <= j <= |ops| && key in After(ops[..i]).byKey
    ensures key in After(ops[..j]).byKey && After(ops[..j]).byKey[key] == After(ops[..i]).byKey[key]
    ensures forall other :: other in After(ops[..j]).byKey && other != key ==>
              After(ops[..j]).byKey[other] != After(ops[..j]).byKey[key]
    ensures forall ref :: ref in After(ops[..i]).tasks ==> ref in After(ops[..j]).tasks
    decreases j
  {
    hide After, Apply, RowsSound, OutboxSound;
    ReachableInv(ops[..j]);
    if i < j {
      KeysOnlyGrow(ops, i, j - 1, key);
      AfterStep(ops, j - 1);
      TablesGrow(After(ops[..j - 1]), ops[j - 1]);
    }
  }

  /**
   A repeat of an accepted submission, however much later, answers with the
   original id; a different request under the same key is refused, if its task is
   known at all. Neither changes the store.
   */
  lemma RepeatedSubmit(ops: seq<Op>, i: nat, j: nat, first: Request, id: Id, again: Request, other: Id, now: Time)
    requires i < j <= |ops|
    requires ops[i].OpSubmit? && ops[i].id == id && ops[i].request == first && Inserts(After(ops[..i]), id, first)
    requires again.key == first.key
    ensures Submit(After(ops[..j]), other, again, now) == After(ops[..j])
    ensures SubmitAnswer(After(ops[..j]), other, again) ==
              if again.taskRef !in After(ops[..j]).tasks then UnknownTask
              else if SameFingerprint(first, again) then Accepted(id) else KeyReused
    ensures SameFingerprint(first, again) ==> SubmitAnswer(After(ops[..j]), other, again) == Accepted(id)
  {
    AfterStep(ops, i);
    KeysOnlyGrow(ops, i + 1, j, first.key);
    RunEvolves(ops, i + 1, j, id);
  }

  ghost function AcceptedKeys(ops: seq<Op>): set<string> {
    if ops == [] then {}
    else
      var before, op := ops[..|ops| - 1], ops[|ops| - 1];
      AcceptedKeys(before) +
      if op.OpSubmit? && SubmitAnswer(After(before), op.id, op.request).Accepted? then {op.request.key} else {}
  }

  function WithStatus(s: State, status: Status): set<Id> {
    set id | id in s.execs && s.execs[id].status == status
  }

  lemma {:induction false} KeysAreAccepted(ops: seq<Op>)
    ensures After(ops).byKey.Keys == AcceptedKeys(ops)
  {
    if ops != [] {
      KeysAreAccepted(ops[..|ops| - 1]);
      StepAddsKey(After(ops[..|ops| - 1]), ops[|ops| - 1]);
      hide Apply;
    }
  }

  lemma StepAddsKey(s: State, op: Op)
    ensures Apply(s, op).byKey.Keys == s.byKey.Keys +
      if op.OpSubmit? && SubmitAnswer(s, op.id, op.request).Accepted? then {op.request.key} else {}
  {
    if op.OpClaim? {
      ClaimKeepsIds(s, op);
    }
  }

  /** The five status counts add up to the number of distinct accepted keys. */
  lemma CountsAddUp(ops: seq<Op>)
    ensures var s := After(ops);
      |WithStatus(s, Queued)| + |WithStatus(s, Running)| + |WithStatus(s, Completed)| +
      |WithStatus(s, Failed)| + |WithStatus(s, Canceled)| == |AcceptedKeys(ops)|
  {
    var s := After(ops);
    ReachableInv(ops);
    KeysAreAccepted(ops);
    StatusesPartition(s);
    assert |s.byKey.Keys| == |s.byKey| && |s.execs.Keys| == |s.execs|;
  }

  lemma StatusesPartition(s: State)
    ensures |WithStatus(s, Queued)| + |WithStatus(s, Running)| + |WithStatus(s, Completed)| +
            |WithStatus(s, Failed)| + |WithStatus(s, Canceled)| == |s.execs.Keys|
  {
    var a, b, c := WithStatus(s, Queued), WithStatus(s, Running), WithStatus(s, Completed);
    var d, e := WithStatus(s, Failed), WithStatus(s, Canceled);
    assert forall id :: id in s.execs.Keys <==> id in a || id in b || id in c || id in d || id in e;
    assert a !! b && a !! c && a !! d && a !! e && b !! c && b !! d && b !! e && c !! d && c !! e && d !! e;
    hide WithStatus;
    FiveParts(s.execs.Keys, a, b, c, d, e);
  }

  lemma FiveParts(all: set<Id>, a: set<Id>, b: set<Id>, c: set<Id>, d: set<Id>, e: set<Id>)
    requires forall id :: id in all <==> id in a || id in b || id in c || id in d || id in e
    requires a !! b && a !! c && a !! d && a !! e && b !! c && b !! d && b !! e && c !! d && c !! e && d !! e
    ensures |a| + |b| + |c| + |d| + |e| == |all|
  {
    Without(all, a);
    Without(all - a, b);
    Without(all - a - b, c);
    Without(all - a - b - c, d);
    assert all - a - b - c - d == e;
  }

  lemma Without(all: set<Id>, part: set<Id>)
    requires part <= all
    ensures |all - part| == |all| - |part|
  {
  }
}
