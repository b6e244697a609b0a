/**
 Result callbacks as they leave the judge. Dispatchers list, claim, re-read and
 post in separate transactions; remote workers post the answer to their own
 finish, and keep it for a retry. Any store step may come in between.
 */
module Dispatch {
  import opened Common
  import opened JudgeModel
  import opened Leases

  datatype Letter = Letter(id: Id, body: Payload)

  /** A dispatcher or worker between two of its own transactions. */
  datatype Agent = Agent(
    listing: seq<Id>,           // rows of the last pending listing, still to be visited
    held: Option<Id>,           // delivery lease granted, execution not yet re-read
    letter: Option<Letter>,     // ready to post
    finished: Option<Id>,       // own finish accepted, answer not yet read
    answer: Option<Letter>,     // the answer to that finish, delivery not yet claimed
    retries: seq<Letter>)       // posts that failed, kept by a remote worker

  const IDLE := Agent([], None, None, None, None, [])

  datatype System = System(store: State, agents: map<string, Agent>, sent: seq<Letter>)

  const START := System(EMPTY, map[], [])

  datatype Step =
    | StoreStep(op: Op)
    | Join(who: string)
    | Crash(who: string)                 // loses everything it carried, and may start again under its name
    | List(who: string, ids: seq<Id>, now: Time)
    | ClaimListed(who: string, seconds: int, now: Time)
    | ReadHeld(who: string)
    | Send(who: string, keep: bool)
    | FinishOwn(who: string, id: Id, report: Report, now: Time, mirrorNow: Time)
    | ReadAnswer(who: string)
    | ClaimAnswer(who: string, seconds: int, now: Time)
    | SendRetry(who: string, keep: bool)

  /** `get_execution`, as a letter. */
  function Fetch(s: State, id: Id): Option<Letter> {
    if id in s.execs then Some(Letter(id, PayloadOf(id, s.execs[id]))) else None
  }

  /** The store transaction an agent's own step runs, if it writes. */
  function OwnOp(a: Agent, step: Step): Option<Op> {
    match step
    case ClaimListed(who, seconds, now) =>
      if a.listing != [] && a.held.None? then Some(OpClaimCallback(a.listing[0], who, seconds, now)) else None
    case FinishOwn(who, id, report, now, mirrorNow) => Some(OpFinish(id, report, who, now, mirrorNow))
    case ClaimAnswer(who, seconds, now) =>
      if a.answer.Some? && a.letter.None? then Some(OpClaimCallback(a.answer.value.id, who, seconds, now)) else None
    case _ => None
  }

  /** The agent's local state after its step, given the store it acted on. */
  function Act(s: State, a: Agent, step: Step): Agent {
    match step
    case List(_, ids, now) =>
      if forall i :: 0 <= i < |ids| ==> Pending(s, ids[i], now) then a.(listing := ids) else a
    case ClaimListed(_, _, now) =>
      if a.listing == [] || a.held.Some? then a
      else a.(listing := a.listing[1..], held := if GrantsCallback(s, a.listing[0], now) then Some(a.listing[0]) else None)
    case ReadHeld(_) =>
      if a.held.Some? && a.letter.None? then a.(held := None, letter := Fetch(s, a.held.value)) else a
    case Send(_, keep) =>
      if a.letter.None? then a
      else a.(letter := None, retries := if keep then a.retries + [a.letter.value] else a.retries)
    case FinishOwn(who, id, report, now, _) =>
      if FinishAnswer(s, id, report, who, now).Stored? then a.(finished := Some(id)) else a
    case ReadAnswer(_) =>
      if a.finished.Some? then a.(finished := None, answer := Fetch(s, a.finished.value)) else a
    case ClaimAnswer(_, _, now) =>
      if a.answer.None? || a.letter.Some? then a
      else a.(answer := None, letter := if GrantsCallback(s, a.answer.value.id, now) then a.answer else None)
    case SendRetry(_, keep) =>
      if a.retries == [] then a else a.(retries := a.retries[1..] + if keep then [a.retries[0]] else [])
    case Crash(_) => IDLE
    case _ => a
  }

  /** What the step posts. */
  function PostedBy(a: Agent, step: Step): seq<Letter> {
    if step.Send? && a.letter.Some? then [a.letter.value]
    else if step.SendRetry? && a.retries != [] then [a.retries[0]]
    else []
  }

  ghost function Next(sys: System, step: Step): System {
    match step
    case StoreStep(op) => sys.(store := Apply(sys.store, op))
    case Join(who) => if who in sys.agents then sys else sys.(agents := sys.agents[who := IDLE])
    case _ =>
      if step.who in sys.agents then
        var a := sys.agents[step.who];
        System(if OwnOp(a, step).Some? then Apply(sys.store, OwnOp(a, step).value) else sys.store,
               sys.agents[step.who := Act(sys.store, a, step)],
               sys.sent + PostedBy(a, step))
      else sys
  }

  ghost function Reach(steps: seq<Step>): System {
    if steps == [] then START else Next(Reach(steps[..|steps| - 1]), steps[|steps| - 1])
  }

  // ---- what stays true of everything an agent carries ----

  ghost predicate Settled(s: State, id: Id) {
    id in s.execs && Terminal(s.execs[id].status)
  }

  ghost predicate Truthful(s: State, l: Letter) {
    Settled(s, l.id) && l.body == PayloadOf(l.id, s.execs[l.id])
  }

  ghost predicate AllTruthful(s: State, letters: seq<Letter>) {
    forall i :: 0 <= i < |letters| ==> Truthful(s, letters[i])
  }

  ghost predicate AgentSound(s: State, a: Agent) {
    && (forall i :: 0 <= i < |a.listing| ==> Settled(s, a.listing[i]))
    && (a.held.Some? ==> Settled(s, a.held.value))
    && (a.finished.Some? ==> Settled(s, a.finished.value))
    && (a.letter.Some? ==> Truthful(s, a.letter.value))
    && (a.answer.Some? ==> Truthful(s, a.answer.value))
    && AllTruthful(s, a.retries)
  }

  ghost predicate SystemSound(sys: System) {
    && Inv(sys.store)
    && (forall who :: who in sys.agents ==> AgentSound(sys.store, sys.agents[who]))
    && AllTruthful(sys.store, sys.sent)
  }

  /** Rows only evolve, so a terminal row keeps its payload. */
  ghost predicate Later(s: State, t: State) {
    Inv(t) && forall id :: id in s.execs ==> id in t.execs && Evolves(s.execs[id], t.execs[id])
  }

  lemma StepIsLater(s: State, op: Op)
    requires Inv(s)
    ensures Later(s, Apply(s, op))
  {
    StepKeepsInv(s, op);
    forall id | id in s.execs ensures id in Apply(s, op).execs && Evolves(s.execs[id], Apply(s, op).execs[id]) {
      StepEvolves(s, op, id);
    }
  }

  lemma LaterKeepsLetters(s: State, t: State, letters: seq<Letter>)
    requires Later(s, t) && AllTruthful(s, letters)
    ensures AllTruthful(t, letters)
  {
  }

  lemma LaterKeepsAgent(s: State, t: State, a: Agent)
    requires Later(s, t) && AgentSound(s, a)
    ensures AgentSound(t, a)
  {
    LaterKeepsLetters(s, t, a.retries);
  }

  /** Everything but a fresh finish is already settled when the agent picks it up. */
  lemma ActIsSound(s: State, a: Agent, step: Step)
    requires AgentSound(s, a) && !step.FinishOwn?
    ensures AgentSound(s, Act(s, a, step)) && AllTruthful(s, PostedBy(a, step))
  {
  }

  lemma FinishOwnIsSound(s: State, t: State, a: Agent, step: Step)
    requires step.FinishOwn? && t == Apply(s, OwnOp(a, step).value) && AgentSound(t, a)
    ensures AgentSound(t, Act(s, a, step)) && AllTruthful(t, PostedBy(a, step))
  {
  }

  lemma OwnStepIsSound(sys: System, step: Step)
    requires SystemSound(sys) && !step.StoreStep? && !step.Join? && step.who in sys.agents
    ensures var t, a := Next(sys, step).store, sys.agents[step.who];
      Later(sys.store, t) && AgentSound(t, Act(sys.store, a, step)) && AllTruthful(t, PostedBy(a, step))
  {
    hide Apply, Inv, Act, PostedBy, AllTruthful;
    var s, t, a := sys.store, Next(sys, step).store, sys.agents[step.who];
    if OwnOp(a, step).Some? {
      StepIsLater(s, OwnOp(a, step).value);
    }
    if step.FinishOwn? {
      LaterKeepsAgent(s, t, a);
      FinishOwnIsSound(s, t, a, step);
    } else {
      ActIsSound(s, a, step);
      LaterKeepsAgent(s, t, Act(s, a, step));
      LaterKeepsLetters(s, t, PostedBy(a, step));
    }
  }

  /** Everyone else is unaffected: the store is later, one agent is replaced, sound letters are added. */
  lemma Reassemble(sys: System, t: State, agents: map<string, Agent>, posted: seq<Letter>)
    requires SystemSound(sys) && Later(sys.store, t) && AllTruthful(t, posted)
    requires forall who :: who in agents ==>
      (who in sys.agents && agents[who] == sys.agents[who]) || AgentSound(t, agents[who])
    ensures SystemSound(System(t, agents, sys.sent + posted))
  {
    LaterKeepsLetters(sys.store, t, sys.sent);
    forall who | who in agents ensures AgentSound(t, agents[who]) {
      if who in sys.agents && agents[who] == sys.agents[who] {
        LaterKeepsAgent(sys.store, t, agents[who]);
      }
    }
  }

  lemma NextIsSound(sys: System, step: Step)
    requires SystemSound(sys)
    ensures SystemSound(Next(sys, step))
  {
    hide Apply, Inv, Act, OwnOp, PostedBy, Later;
    if step.StoreStep? {
      StepIsLater(sys.store, step.op);
      Reassemble(sys, Apply(sys.store, step.op), sys.agents, []);
      assert sys.sent + [] == sys.sent;
    } else if !step.Join? && step.who in sys.agents {
      var a := sys.agents[step.who];
      OwnStepIsSound(sys, step);
      Reassemble(sys, Next(sys, step).store, sys.agents[step.who := Act(sys.store, a, step)], PostedBy(a, step));
    }
  }

  lemma {:induction false} ReachIsSound(steps: seq<Step>)
    ensures SystemSound(Reach(steps))
  {
    if steps != [] {
      ReachIsSound(steps[..|steps| - 1]);
      NextIsSound(Reach(steps[..|steps| - 1]), steps[|steps| - 1]);
    }
  }

  /**
   In every interleaving, every posted payload is terminal, and all payloads ever
   posted for one execution are the same.
   */
  lemma PostedPayloadsAgree(steps: seq<Step>)
    ensures var sent := Reach(steps).sent;
      && (forall i :: 0 <= i < |sent| ==> Terminal(sent[i].body.status) && sent[i].body.id == sent[i].id)
      && (forall i, j :: 0 <= i < |sent| && 0 <= j < |sent| && sent[i].id == sent[j].id ==> sent[i] == sent[j])
  {
    ReachIsSound(steps);
    var sys := Reach(steps);
    assert forall i :: 0 <= i < |sys.sent| ==> Truthful(sys.store, sys.sent[i]);
  }

  // ---- what a payload says, and where it comes from ----

  /** Every column of the row a callback reports. */
  ghost predicate Reports(body: Payload, id: Id, e: Execution) {
    && body.id == id && body.status == e.status && body.outcome == e.outcome && body.stamp == e.stamp
    && body.taskRef == e.request.taskRef && body.metadata == e.request.metadata && body.queue == e.request.queue
    && body.resourceClass == e.request.resourceClass && body.priority == e.request.priority
  }

  lemma PayloadReports(id: Id, e: Execution)
    ensures Reports(PayloadOf(id, e), id, e)
  {
  }

  /** The store transaction a step runs, if any. */
  ghost function StepOp(sys: System, step: Step): Option<Op> {
    match step
    case StoreStep(op) => Some(op)
    case Join(_) => None
    case _ => if step.who in sys.agents then OwnOp(sys.agents[step.who], step) else None
  }

  /** The store transactions of a run, in order. */
  ghost function OpsOf(steps: seq<Step>): seq<Op> {
    if steps == [] then []
    else
      var before := steps[..|steps| - 1];
      var op := StepOp(Reach(before), steps[|steps| - 1]);
      OpsOf(before) + if op.Some? then [op.value] else []
  }

  lemma AfterAppend(ops: seq<Op>, op: Op)
    ensures After(ops + [op]) == Apply(After(ops), op)
  {
    assert (ops + [op])[..|ops|] == ops;
  }

  /** To the store, an interleaving is the run of its transactions. */
  lemma {:induction false} StoreIsARun(steps: seq<Step>)
    ensures Reach(steps).store == After(OpsOf(steps))
  {
    hide Apply, Act, OwnOp;
    if steps != [] {
      var before := steps[..|steps| - 1];
      StoreIsARun(before);
      var op := StepOp(Reach(before), steps[|steps| - 1]);
      if op.Some? {
        AfterAppend(OpsOf(before), op.value);
      } else {
        assert OpsOf(before) + [] == OpsOf(before);
      }
    }
  }

  lemma {:induction false} OpHasStep(steps: seq<Step>, i: nat) returns (k: nat)
    requires i < |OpsOf(steps)|
    ensures k < |steps| && StepOp(Reach(steps[..k]), steps[k]) == Some(OpsOf(steps)[i])
  {
    hide Reach, StepOp;
    var before := steps[..|steps| - 1];
    if i < |OpsOf(before)| {
      k := OpHasStep(before, i);
      assert before[..k] == steps[..k];
    } else {
      k := |steps| - 1;
    }
  }

  /** A finish by this step, in the worker's own loop or over the wire, reported exactly this. */
  ghost predicate ReportedBy(sys: System, step: Step, body: Payload) {
    var op := StepOp(sys, step);
    && op.Some? && op.value.OpFinish? && (step.StoreStep? || step.FinishOwn?)
    && op.value.id == body.id && op.value.report.id == body.id && op.value.report.taskRef == body.taskRef
    && op.value.report.status == body.status && op.value.report.outcome == body.outcome && op.value.report.conforms
  }

  ghost predicate CanceledIn(sys: System, step: Step, body: Payload) {
    step.StoreStep? && step.op.OpCancel? && step.op.id == body.id && body.status == Canceled && NoResult(body.outcome)
  }

  ghost predicate HasCause(sys: System, step: Step, body: Payload) {
    ReportedBy(sys, step, body) || CanceledIn(sys, step, body)
  }

  lemma FinishStep(sys: System, step: Step)
    requires StepOp(sys, step).Some?
    ensures StepOp(sys, step).value.OpFinish? ==> step.StoreStep? || step.FinishOwn?
    ensures StepOp(sys, step).value.OpCancel? ==> step.StoreStep? && step.op == StepOp(sys, step).value
  {
  }

  lemma CauseOf(steps: seq<Step>, i: nat, body: Payload, e: Execution)
    requires var ops := OpsOf(steps);
      i < |ops| && Reports(body, body.id, e) && (ReportedAt(ops, i, body.id, e) || CanceledBy(ops, i, body.id, e))
    ensures exists k :: 0 <= k < |steps| && HasCause(Reach(steps[..k]), steps[k], body)
  {
    hide Reach, OpsOf, StepOp, After, NoResult;
    var k := OpHasStep(steps, i);
    FinishStep(Reach(steps[..k]), steps[k]);
    assert HasCause(Reach(steps[..k]), steps[k], body);
  }

  /**
   In every interleaving, a posted payload carries every reported column of the stored
   row, and its status and result are exactly those of an accepted worker report, or
   the execution was canceled and there is no result.
   */
  lemma PostedPayloadsAreTrue(steps: seq<Step>, i: nat)
    requires i < |Reach(steps).sent|
    ensures var l, s := Reach(steps).sent[i], Reach(steps).store;
      l.id in s.execs && Reports(l.body, l.id, s.execs[l.id])
    ensures var body := Reach(steps).sent[i].body;
      exists k :: 0 <= k < |steps| && HasCause(Reach(steps[..k]), steps[k], body)
  {
    ReachIsSound(steps);
    var l, s := Reach(steps).sent[i], Reach(steps).store;
    assert Truthful(s, l);
    hide Reach, OpsOf, StepOp, After, HasCause, ReportedAt, CanceledBy, SystemSound;
    PayloadReports(l.id, s.execs[l.id]);
    StoreIsARun(steps);
    var ops := OpsOf(steps);
    assert ops[..|ops|] == ops;
    EveryResultIsExplained(ops, |ops|, l.id);
    var c: nat :| c < |ops| && (ReportedAt(ops, c, l.id, s.execs[l.id]) || CanceledBy(ops, c, l.id, s.execs[l.id]));
    CauseOf(steps, c, l.body, s.execs[l.id]);
  }

  // ---- what is due is posted ----

  /** An idle dispatcher that lists, claims, re-reads and sends posts the stored row, once. */
  lemma DueIsPosted(sys: System, who: string, id: Id, seconds: int, now: Time, keep: bool)
    requires who in sys.agents && sys.agents[who] == IDLE && Pending(sys.store, id, now) && GrantsCallback(sys.store, id, now)
    ensures var listed := Next(sys, List(who, [id], now));
      var claimed := Next(listed, ClaimListed(who, seconds, now));
      var sent := Next(Next(claimed, ReadHeld(who)), Send(who, keep)).sent;
      |sent| == |sys.sent| + 1 && sent[..|sys.sent|] == sys.sent &&
      sent[|sys.sent|].id == id && Reports(sent[|sys.sent|].body, id, sys.store.execs[id])
  {
  }

  /** A worker whose finish is stored reads it back, claims the delivery and posts that row. */
  lemma OwnFinishIsPosted(sys: System, step: Step, seconds: int, now: Time, keep: bool)
    requires step.FinishOwn? && step.who in sys.agents && sys.agents[step.who] == IDLE
    requires FinishAnswer(sys.store, step.id, step.report, step.who, step.now).Stored?
    requires GrantsCallback(Next(sys, step).store, step.id, now)
    ensures var finished := Next(sys, step);
      var claimed := Next(Next(finished, ReadAnswer(step.who)), ClaimAnswer(step.who, seconds, now));
      var sent := Next(claimed, Send(step.who, keep)).sent;
      && step.id in finished.store.execs && |sent| == |sys.sent| + 1 && sent[..|sys.sent|] == sys.sent
      && sent[|sys.sent|].id == step.id && Reports(sent[|sys.sent|].body, step.id, finished.store.execs[step.id])
  {
  }

  /** A crash loses what the agent carried, and nothing else. */
  lemma CrashForgets(sys: System, who: string)
    requires who in sys.agents
    ensures Next(sys, Crash(who)) == sys.(agents := sys.agents[who := IDLE])
  {
    assert sys.sent + [] == sys.sent;
  }

  /** A post that failed is kept and posted again as it was, until a retry succeeds. */
  lemma FailedPostIsRetried(sys: System, who: string, letter: Letter, keep: bool)
    requires who in sys.agents && sys.agents[who] == IDLE.(letter := Some(letter))
    ensures var failed := Next(sys, Send(who, true));
      var retried := Next(failed, SendRetry(who, keep));
      && retried.sent == sys.sent + [letter, letter] && retried.store == sys.store
      && retried.agents == sys.agents[who := IDLE.(retries := if keep then [letter] else [])]
    ensures Next(sys, Send(who, false)).agents == sys.agents[who := IDLE]
  {
    var failed := Next(sys, Send(who, true));
    assert failed == System(sys.store, sys.agents[who := IDLE.(retries := [letter])], sys.sent + [letter]) by {
      assert [] + [letter] == [letter];
    }
    assert [letter][1..] + [letter] == [letter] && [letter][1..] + [] == [];
    assert (sys.sent + [letter]) + [letter] == sys.sent + [letter, letter];
  }
}
