/**
 The lease renewer that runs beside a sandbox, in real time. The worker's calls
 are spread over several store transactions; anything may happen between them.
 */
module Heartbeat {
  import opened Common
  import opened JudgeModel
  import opened Leases
  import Scheduling

  /** Seconds between renewals for a lease of the given length. */
  function Interval(seconds: int): real {
    var third := Max(1, seconds) as real / 3.0;
    var capped := if third < 30.0 then third else 30.0;
    if capped < 0.25 then 0.25 else capped
  }

  /** For every lease length the tick is positive and at most a third of the lease. */
  lemma IntervalIsAThird(seconds: int)
    ensures 0.0 < Interval(seconds) <= Max(1, seconds) as real / 3.0
  {
    assert Max(1, seconds) as real >= 1.0;
  }

  /** The interval is exactly a third of the lease up to a minute and a half, and half a minute beyond. */
  lemma IntervalIs(seconds: int)
    ensures seconds <= 1 ==> 3.0 * Interval(seconds) == 1.0
    ensures 1 <= seconds <= 90 ==> 3.0 * Interval(seconds) == seconds as real
    ensures seconds >= 90 ==> Interval(seconds) == 30.0
  {
  }

  /** One renewal call: when it started, the step at which it committed, when it returned. */
  datatype Tick = Tick(start: Time, index: nat, end: Time)

  datatype Job = Job(
    id: Id, worker: string, seconds: int,
    claim: nat,               // step of the claim
    ready: Time,              // the renewer starts
    ticks: seq<Tick>,         // renewals committed before the finish
    stop: Time,               // the sandbox returns and the renewer is told to stop
    late: Option<Tick>,       // a renewal still in flight when the finish commits
    finish: nat)              // step of the finish

  /** Less than a third of the lease. */
  predicate Brief(j: Job, d: Time) {
    0 <= d && 3 * d < Max(1, j.seconds) * SECOND
  }

  predicate OneInterval(j: Job, d: Time) {
    0 <= d && d as real <= Interval(j.seconds) * SECOND as real
  }

  lemma IntervalBound(j: Job, d: Time)
    requires OneInterval(j, d)
    ensures 3 * d <= Max(1, j.seconds) * SECOND
  {
    IntervalIsAThird(j.seconds);
    var l := Max(1, j.seconds);
    assert Interval(j.seconds) * SECOND as real <= (l as real / 3.0) * SECOND as real;
    assert 3.0 * (d as real) <= (l as real) * (SECOND as real);
    assert (l * SECOND) as real == (l as real) * (SECOND as real);
    assert (3 * d) as real == 3.0 * (d as real);
  }

  /** When the renewer last came back to waiting, after its first n calls. */
  function Resting(j: Job, n: nat): Time
    requires n <= |j.ticks|
  {
    if n == 0 then j.ready else j.ticks[n - 1].end
  }

  /** A run in real time: steps commit in order, and a claim reads its clock inside the lock. */
  ghost predicate RealTime(ops: seq<Op>, at: seq<Time>) {
    && |at| == |ops|
    && (forall i, k :: 0 <= i <= k < |at| ==> at[i] <= at[k])
    && (forall k :: 0 <= k < |ops| && ops[k].OpClaim? ==> ops[k].now == at[k])
  }

  ghost predicate TickRuns(ops: seq<Op>, at: seq<Time>, j: Job, n: nat)
    requires n < |j.ticks| && |at| == |ops|
  {
    var t := j.ticks[n];
    && j.claim < t.index < j.finish < |ops| && (n > 0 ==> j.ticks[n - 1].index < t.index)
    && OneInterval(j, t.start - Resting(j, n)) && Brief(j, t.end - t.start)
    && ops[t.index].OpRenew? && ops[t.index].id == j.id && ops[t.index].worker == j.worker
    && ops[t.index].seconds == j.seconds && t.start <= ops[t.index].now <= at[t.index] <= t.end
  }

  /** The worker's own timeline around one execution. */
  ghost predicate Schedule(ops: seq<Op>, at: seq<Time>, j: Job) {
    && |at| == |ops| && j.claim < j.finish < |ops|
    && ops[j.claim].OpClaim? && HandedAt(ops, j.claim, j.id) && ops[j.claim].worker == j.worker && ops[j.claim].seconds == j.seconds
    && Brief(j, j.ready - at[j.claim])
    && (forall n :: 0 <= n < |j.ticks| ==> TickRuns(ops, at, j, n))
    && ops[j.finish].OpFinish? && ops[j.finish].id == j.id && ops[j.finish].worker == j.worker
    && ops[j.finish].now <= at[j.finish]
    && j.stop <= at[j.finish] && Brief(j, at[j.finish] - j.stop)
    && StopsOnTime(at, j)
  }

  /** At the stop the renewer is in its last call or waiting, or has one more call in flight. */
  ghost predicate StopsOnTime(at: seq<Time>, j: Job)
    requires j.finish < |at|
  {
    var rest := Resting(j, |j.ticks|);
    || j.stop <= rest || OneInterval(j, j.stop - rest)
    || (j.late.Some? && OneInterval(j, j.late.value.start - rest) &&
        Brief(j, j.late.value.end - j.late.value.start) && at[j.finish] <= j.late.value.end)
  }

  /** Nobody cancels, and nobody else acts under this worker id on this execution. */
  ghost predicate Undisturbed(ops: seq<Op>, j: Job)
    requires j.finish < |ops|
  {
    forall k :: j.claim < k < j.finish ==>
      && !(ops[k].OpCancel? && ops[k].id == j.id)
      && !(ops[k].OpFinish? && ops[k].id == j.id && ops[k].worker == j.worker)
      && (ops[k].OpRenew? && ops[k].id == j.id && ops[k].worker == j.worker ==>
            exists n :: 0 <= n < |j.ticks| && j.ticks[n].index == k)
  }

  /** The clock reading behind the lease that n renewals leave in place. */
  function Reading(ops: seq<Op>, j: Job, n: nat): Time
    requires n <= |j.ticks| && j.claim < |ops| && ops[j.claim].OpClaim?
    requires n > 0 ==> j.ticks[n - 1].index < |ops| && ops[j.ticks[n - 1].index].OpRenew?
  {
    if n == 0 then ops[j.claim].now else ops[j.ticks[n - 1].index].now
  }

  /** The step at which the next renewal, or else the finish, commits. */
  function NextStep(j: Job, n: nat): nat
    requires n <= |j.ticks|
  {
    if n < |j.ticks| then j.ticks[n].index else j.finish
  }

  lemma RestedSoon(ops: seq<Op>, at: seq<Time>, j: Job, n: nat)
    requires RealTime(ops, at) && Schedule(ops, at, j) && n <= |j.ticks|
    requires n > 0 ==> TickRuns(ops, at, j, n - 1)
    ensures 3 * (Resting(j, n) - Reading(ops, j, n)) < Max(1, j.seconds) * SECOND
  {
  }

  /** The next commit always falls before the current lease runs out. */
  lemma NextInTime(ops: seq<Op>, at: seq<Time>, j: Job, n: nat)
    requires RealTime(ops, at) && Schedule(ops, at, j) && n <= |j.ticks|
    requires n > 0 ==> TickRuns(ops, at, j, n - 1)
    requires n < |j.ticks| ==> TickRuns(ops, at, j, n)
    ensures NextStep(j, n) < |ops| && at[NextStep(j, n)] < LeaseEnd(Reading(ops, j, n), j.seconds)
  {
    RestedSoon(ops, at, j, n);
    var rest := Resting(j, n);
    if n < |j.ticks| {
      IntervalBound(j, j.ticks[n].start - rest);
    } else if j.stop <= rest {
    } else if OneInterval(j, j.stop - rest) {
      IntervalBound(j, j.stop - rest);
    } else {
      IntervalBound(j, j.late.value.start - rest);
    }
  }

  ghost predicate Held(s: State, j: Job, reading: Time) {
    && j.id in s.execs && s.execs[j.id].status.Running? && s.execs[j.id].worker == Some(j.worker)
    && !s.execs[j.id].cancelRequested && s.execs[j.id].lease == Some(LeaseEnd(reading, j.seconds))
  }

  ghost predicate Position(j: Job, n: nat, k: nat) {
    && n <= |j.ticks| && k <= NextStep(j, n) && (n > 0 ==> j.ticks[n - 1].index < k)
  }

  /** A step by anyone else leaves the lease alone, as long as it commits before it runs out. */
  lemma ForeignStep(s: State, op: Op, j: Job, reading: Time)
    requires Inv(s) && Held(s, j, reading)
    requires op.OpClaim? ==> op.now < LeaseEnd(reading, j.seconds)
    requires !(op.OpCancel? && op.id == j.id)
    requires !((op.OpFinish? || op.OpRenew?) && op.id == j.id && op.worker == j.worker)
    ensures Held(Apply(s, op), j, reading) && !Hands(s, op, j.id)
  {
    hide Apply, Inv, Claimed;
    RowMoves(s, op, j.id);
  }

  lemma OwnRenewal(s: State, op: Op, j: Job, reading: Time)
    requires Inv(s) && Held(s, j, reading)
    requires op.OpRenew? && op.id == j.id && op.worker == j.worker && op.seconds == j.seconds
    requires op.now <= LeaseEnd(reading, j.seconds)
    ensures Held(Apply(s, op), j, op.now)
  {
    RowMoves(s, op, j.id);
  }

  lemma ClaimHolds(ops: seq<Op>, j: Job)
    requires j.claim < |ops| && HandedAt(ops, j.claim, j.id)
    requires ops[j.claim].worker == j.worker && ops[j.claim].seconds == j.seconds
    ensures Held(After(ops[..j.claim + 1]), j, ops[j.claim].now)
  {
    hide After, Apply, Inv, Claimed, Schedule;
    var s := After(ops[..j.claim]);
    AfterStep(ops, j.claim);
    HandedExists(s, ops[j.claim], j.id);
    RowMoves(s, ops[j.claim], j.id);
  }

  lemma HandedExists(s: State, op: Op, id: Id)
    requires Hands(s, op, id)
    ensures id in s.execs
  {
    Scheduling.PickSpec(Reclaim(s, op.now), op.filter);
  }

  /** Before step k the worker holds the lease its claim and first n renewals granted. */
  ghost predicate OnTrack(ops: seq<Op>, at: seq<Time>, j: Job, k: nat, n: nat) {
    && RealTime(ops, at) && Schedule(ops, at, j) && j.claim < k <= j.finish && Position(j, n, k)
    && (n > 0 ==> TickRuns(ops, at, j, n - 1)) && (n < |j.ticks| ==> TickRuns(ops, at, j, n))
    && Held(After(ops[..k]), j, Reading(ops, j, n))
  }

  lemma FirstOnTrack(ops: seq<Op>, at: seq<Time>, j: Job)
    requires RealTime(ops, at) && Schedule(ops, at, j)
    ensures OnTrack(ops, at, j, j.claim + 1, 0)
  {
    ClaimHolds(ops, j);
    assert j.ticks != [] ==> TickRuns(ops, at, j, 0);
  }

  lemma NextOnTrack(ops: seq<Op>, at: seq<Time>, j: Job, k: nat, n: nat) returns (m: nat)
    requires OnTrack(ops, at, j, k, n) && Undisturbed(ops, j) && k < j.finish
    ensures OnTrack(ops, at, j, k + 1, m) && !HandedAt(ops, k, j.id)
  {
    hide After, Apply, Inv, Claimed;
    var s, op := After(ops[..k]), ops[k];
    ReachableInv(ops[..k]);
    AfterStep(ops, k);
    NextInTime(ops, at, j, n);
    if n < |j.ticks| && j.ticks[n].index == k {
      OwnRenewal(s, op, j, Reading(ops, j, n));
      m := n + 1;
      assert m < |j.ticks| ==> TickRuns(ops, at, j, m);
    } else {
      NotATick(ops, at, j, k, n);
      ForeignStep(s, op, j, Reading(ops, j, n));
      m := n;
    }
  }

  /** Between claim and finish the worker holds the execution, renewal by renewal. */
  lemma {:induction false} HeldThrough(ops: seq<Op>, at: seq<Time>, j: Job, k: nat) returns (n: nat)
    requires RealTime(ops, at) && Schedule(ops, at, j) && Undisturbed(ops, j)
    requires j.claim < k <= j.finish
    ensures OnTrack(ops, at, j, k, n)
    decreases k
  {
    hide *;
    if k == j.claim + 1 {
      FirstOnTrack(ops, at, j);
      n := 0;
    } else {
      n := HeldThrough(ops, at, j, k - 1);
      n := NextOnTrack(ops, at, j, k - 1, n);
    }
  }

  lemma {:induction false} TicksAscend(ops: seq<Op>, at: seq<Time>, j: Job, a: nat, b: nat)
    requires Schedule(ops, at, j) && a < b < |j.ticks|
    ensures j.ticks[a].index < j.ticks[b].index
    decreases b
  {
    assert TickRuns(ops, at, j, b);
    if a + 1 < b {
      TicksAscend(ops, at, j, a, b - 1);
    }
  }

  lemma NotATick(ops: seq<Op>, at: seq<Time>, j: Job, k: nat, n: nat)
    requires Schedule(ops, at, j) && Position(j, n, k) && (n < |j.ticks| ==> j.ticks[n].index != k)
    ensures forall i :: 0 <= i < |j.ticks| ==> j.ticks[i].index != k
  {
    forall i | 0 <= i < |j.ticks| ensures j.ticks[i].index != k {
      if i + 1 < n {
        TicksAscend(ops, at, j, i, n - 1);
      } else if n < i {
        TicksAscend(ops, at, j, n, i);
      }
    }
  }

  /**
   If set-up, each renewal call and the post-run work each take under a third of
   the lease and nobody cancels, no claim takes the execution away and the finish
   is accepted.
   */
  lemma HeartbeatIsSafe(ops: seq<Op>, at: seq<Time>, j: Job)
    requires RealTime(ops, at) && Schedule(ops, at, j) && Undisturbed(ops, j)
    requires !Blank(j.worker) && Terminal(ops[j.finish].report.status)
    requires j.id in After(ops[..j.finish]).execs && ValidReport(After(ops[..j.finish]), j.id, ops[j.finish].report)
    ensures forall k :: j.claim < k < j.finish ==> !HandedAt(ops, k, j.id)
    ensures FinishedAt(ops, j.finish, j.id)
  {
    forall k | j.claim < k < j.finish ensures !HandedAt(ops, k, j.id) {
      var n := HeldThrough(ops, at, j, k);
      var m := NextOnTrack(ops, at, j, k, n);
    }
    var n := HeldThrough(ops, at, j, j.finish);
    NextInTime(ops, at, j, n);
  }

  // ---- the timeline is not empty: a run that outlives its first lease ----

  const TASK := Task("path", "kind", {}, None)
  const REQUEST := Request("key", "task", "path", None, None, "", {}, "queue", "class", 0, None)
  const REPORT := Report("id", "task", Completed, BLANK, true)

  /** A three second lease, one renewal, and a finish half a second after the first lease would have ended. */
  function LongRun(): seq<Op> {
    [OpRegister("task", TASK), OpSubmit("id", REQUEST, 0),
     OpClaim("worker", Filter({}, {}, {}), 3, 0),
     OpRenew("id", "worker", 3, 1_500_000),
     OpFinish("id", REPORT, "worker", 3_500_000, 3_500_000)]
  }

  const LONG_TIMES: seq<Time> := [0, 0, 0, 1_550_000, 3_500_000]
  const LONG_JOB := Job("id", "worker", 3, 2, 500_000, [Tick(1_500_000, 3, 1_600_000)], 2_600_000, None, 4)

  lemma LongRunStarts(s: State, op: Op)
    requires s == Submit(Register(EMPTY, "task", TASK), "id", REQUEST, 0) && op == LongRun()[2]
    ensures Hands(s, op, "id")
  {
    var r := Reclaim(s, 0);
    assert r.execs["id"] == NewExecution(Register(EMPTY, "task", TASK), REQUEST, 0);
    assert forall other :: other in r.execs ==> other == "id";
    Scheduling.PickIs(r, op.filter, "id");
  }

  lemma LongRunSubmitted()
    ensures After(LongRun()[..2]) == Submit(Register(EMPTY, "task", TASK), "id", REQUEST, 0)
  {
    var ops := LongRun();
    assert ops[..0] == [];
    AfterStep(ops, 0);
    AfterStep(ops, 1);
  }

  lemma LongRunIsScheduled()
    ensures RealTime(LongRun(), LONG_TIMES) && Schedule(LongRun(), LONG_TIMES, LONG_JOB)
    ensures Undisturbed(LongRun(), LONG_JOB)
  {
    hide After, Hands;
    var ops := LongRun();
    LongRunSubmitted();
    LongRunStarts(After(ops[..2]), ops[2]);
    assert TickRuns(ops, LONG_TIMES, LONG_JOB, 0);
    assert LONG_JOB.ticks[0].index == 3;
  }

  /** The assumptions of HeartbeatIsSafe can be met, past the end of the first lease. */
  lemma LongRunFinishes()
    ensures Schedule(LongRun(), LONG_TIMES, LONG_JOB) && FinishedAt(LongRun(), 4, "id")
    ensures LeaseEnd(LongRun()[2].now, 3) < LongRun()[4].now
  {
    hide After, Finishes, Schedule, RealTime, Undisturbed;
    var ops := LongRun();
    LongRunSubmitted();
    LongRunIsScheduled();
    RunEvolves(ops, 2, 4, "id");
    assert !Blank("worker") by { assert "worker"[0] == 'w'; }
    HeartbeatIsSafe(ops, LONG_TIMES, LONG_JOB);
  }
}
