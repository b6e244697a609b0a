/**
 Which queued execution a claim takes. The SQLite store scans the ordered queue
 in pages of 100 and filters by capability in Python; the PostgreSQL store filters
 in SQL and takes one row. Both must take the first claimable row.
 */
module Scheduling {
  import opened Common
  import opened TextOrder
  import opened JudgeModel

  // ---- the queue order is a strict total order ----

  lemma BeforeIrreflexive(s: State, a: Id)
    requires a in s.execs
    ensures !Before(s, a, a)
  {
    TextIrreflexive(a);
  }

  lemma BeforeTransitive(s: State, a: Id, b: Id, c: Id)
    requires a in s.execs && b in s.execs && c in s.execs
    requires Before(s, a, b) && Before(s, b, c)
    ensures Before(s, a, c)
  {
    if TextLess(a, b) && TextLess(b, c) {
      TextTransitive(a, b, c);
    }
  }

  lemma BeforeTotal(s: State, a: Id, b: Id)
    requires a in s.execs && b in s.execs
    ensures a == b || Before(s, a, b) || Before(s, b, a)
  {
    TextTotal(a, b);
  }

  ghost predicate IsLowest(s: State, ids: set<Id>, m: Id)
    requires ids <= s.execs.Keys
  {
    m in ids && forall x :: x in ids && x != m ==> Before(s, m, x)
  }

  /** The first of a set of rows. */
  method Lowest(s: State, ids: set<Id>) returns (m: Id)
    requires ids != {} && ids <= s.execs.Keys
    ensures IsLowest(s, ids, m)
  {
    m :| m in ids;
    var rest := ids - {m};
    while rest != {}
      invariant rest <= ids && m in ids && m !in rest
      invariant IsLowest(s, ids - rest, m)
      decreases rest
    {
      var x :| x in rest;
      BeforeTotal(s, m, x);
      ghost var seen := ids - rest;
      if Before(s, x, m) {
        forall y | y in seen && y != m ensures Before(s, x, y) {
          BeforeTransitive(s, x, m, y);
        }
        m := x;
      }
      rest := rest - {x};
      assert ids - rest == seen + {x};
    }
    assert ids - rest == ids;
  }

  lemma {:induction false} LowestExists(s: State, ids: set<Id>)
    requires ids != {} && ids <= s.execs.Keys
    ensures exists m :: IsLowest(s, ids, m)
    decreases |ids|
  {
    var x :| x in ids;
    var rest := ids - {x};
    if rest == {} {
      assert ids == {x};
      assert IsLowest(s, ids, x);
    } else {
      LowestExists(s, rest);
      var m :| IsLowest(s, rest, m);
      BeforeTotal(s, m, x);
      if Before(s, x, m) {
        forall y | y in ids && y != x ensures Before(s, x, y) {
          if y != m {
            BeforeTransitive(s, x, m, y);
          }
        }
        assert IsLowest(s, ids, x);
      } else {
        assert IsLowest(s, ids, m);
      }
    }
  }

  // ---- the ordered queue ----

  ghost predicate Ordered(s: State, q: seq<Id>) {
    && (forall i :: 0 <= i < |q| ==> q[i] in s.execs)
    && (forall i, j :: 0 <= i < j < |q| ==> Before(s, q[i], q[j]))
  }

  ghost predicate Lists(q: seq<Id>, ids: set<Id>) {
    forall id :: id in q <==> id in ids
  }

  ghost function QueueOf(s: State, ids: set<Id>): (q: seq<Id>)
    requires ids <= s.execs.Keys
    ensures Ordered(s, q) && Lists(q, ids)
  {
    if ids == {} then []
    else
      LowestExists(s, ids);
      var m :| IsLowest(s, ids, m);
      [m] + QueueOf(s, ids - {m})
  }

  /** An ordered listing of a set of rows is unique. */
  lemma {:induction false} QueueUnique(s: State, p: seq<Id>, q: seq<Id>, ids: set<Id>)
    requires Ordered(s, p) && Ordered(s, q) && Lists(p, ids) && Lists(q, ids)
    ensures p == q
  {
    assert p == [] <==> ids == {} by {
      assert p != [] ==> p[0] in ids;
    }
    assert q == [] <==> ids == {} by {
      assert q != [] ==> q[0] in ids;
    }
    if ids != {} {
      HeadIsLowest(s, p, q[0]);
      HeadIsLowest(s, q, p[0]);
      if p[0] != q[0] {
        BeforeTransitive(s, p[0], q[0], p[0]);
        BeforeIrreflexive(s, p[0]);
      }
      TailLists(s, p, ids);
      TailLists(s, q, ids);
      QueueUnique(s, p[1..], q[1..], ids - {p[0]});
      assert p == [p[0]] + p[1..] && q == [q[0]] + q[1..];
    }
  }

  lemma HeadIsLowest(s: State, q: seq<Id>, x: Id)
    requires Ordered(s, q) && x in q
    ensures x in s.execs && (x == q[0] || Before(s, q[0], x))
  {
    var i :| 0 <= i < |q| && q[i] == x;
  }

  lemma TailLists(s: State, q: seq<Id>, ids: set<Id>)
    requires Ordered(s, q) && Lists(q, ids) && q != []
    ensures Ordered(s, q[1..]) && Lists(q[1..], ids - {q[0]})
  {
    BeforeIrreflexive(s, q[0]);
    assert q == [q[0]] + q[1..];
  }

  /** A SELECT with ORDER BY, run row by row. */
  method OrderBy(s: State, ids: set<Id>) returns (q: seq<Id>)
    requires ids <= s.execs.Keys
    ensures q == QueueOf(s, ids)
  {
    q := [];
    var rest := ids;
    while rest != {}
      invariant rest <= ids && Ordered(s, q) && Lists(q, ids - rest)
      invariant forall i, x :: 0 <= i < |q| && x in rest ==> Before(s, q[i], x)
      decreases rest
    {
      var m := Lowest(s, rest);
      q := q + [m];
      rest := rest - {m};
    }
    QueueUnique(s, q, QueueOf(s, ids), ids);
  }

  // ---- the claimed row ----

  function EligibleIds(s: State, f: Filter): (ids: set<Id>)
    ensures ids <= s.execs.Keys
  {
    set id | id in s.execs && Eligible(s, f, id)
  }

  lemma PickIs(s: State, f: Filter, id: Id)
    requires IsFirst(s, f, id)
    ensures Pick(s, f) == Some(id)
  {
    var other := Pick(s, f).value;
    assert IsFirst(s, f, other);
    if other != id {
      BeforeTransitive(s, id, other, id);
      BeforeIrreflexive(s, id);
    }
  }

  /** Pick finds a row exactly when there is a claimable one, and it is the first of them. */
  lemma PickSpec(s: State, f: Filter)
    ensures Pick(s, f).Some? ==> IsFirst(s, f, Pick(s, f).value)
    ensures Pick(s, f).None? <==> forall id :: !Claimable(s, f, id)
  {
    var ids := set id | id in s.execs && Claimable(s, f, id);
    if ids != {} {
      LowestExists(s, ids);
      var m :| IsLowest(s, ids, m);
      assert IsFirst(s, f, m);
    }
    assert forall id :: Claimable(s, f, id) <==> id in ids;
  }

  const PAGE := 100

  /** One page of the eligible queue: the SELECT runs afresh with its OFFSET. */
  method SelectPage(s: State, f: Filter, offset: nat, ghost q: seq<Id>) returns (rows: seq<Id>)
    requires q == QueueOf(s, EligibleIds(s, f)) && offset <= |q|
    ensures rows == q[offset..Min(offset + 100, |q|)]
  {
    var all := OrderBy(s, EligibleIds(s, f));
    rows := all[offset..Min(offset + PAGE, |all|)];
  }

  /** The first row of a page the worker can run, or the page's length. */
  method ScanPage(s: State, f: Filter, rows: seq<Id>) returns (i: nat)
    requires forall k :: 0 <= k < |rows| ==> rows[k] in EligibleIds(s, f)
    ensures i <= |rows| && (i < |rows| ==> Claimable(s, f, rows[i]))
    ensures forall k :: 0 <= k < i ==> !Claimable(s, f, rows[k])
  {
    i := 0;
    while i < |rows|
      invariant 0 <= i <= |rows|
      invariant forall k :: 0 <= k < i ==> !Claimable(s, f, rows[k])
    {
      assert rows[i] in EligibleIds(s, f);
      if Compatible(s, f, rows[i]) {
        return;
      }
      i := i + 1;
    }
  }

  /** The SQLite scan: page after page until a compatible row or an empty page. */
  method PagedScan(s: State, f: Filter) returns (row: Option<Id>)
    ensures row == Pick(s, f)
  {
    hide QueueOf, EligibleIds, Claimable, IsFirst, Pick;
    ghost var q := QueueOf(s, EligibleIds(s, f));
    row := None;
    var offset := 0;
    while row.None?
      invariant 0 <= offset <= |q|
      invariant row.None? ==> forall i :: 0 <= i < offset ==> !Claimable(s, f, q[i])
      invariant row.Some? ==> IsFirst(s, f, row.value)
      decreases |q| - offset
    {
      var rows := SelectPage(s, f, offset, q);
      if rows == [] {
        break;
      }
      QueueIsEligible(s, f, q);
      var i := ScanPage(s, f, rows);
      forall k | offset <= k < offset + i ensures !Claimable(s, f, q[k]) {
        assert q[k] == rows[k - offset];
      }
      if i < |rows| {
        FirstCompatible(s, f, q, offset + i);
        row := Some(rows[i]);
      }
      offset := offset + |rows|;
    }
    if row.Some? {
      PickIs(s, f, row.value);
    } else {
      NoneClaimable(s, f, q);
      PickSpec(s, f);
    }
  }

  lemma QueueIsEligible(s: State, f: Filter, q: seq<Id>)
    requires q == QueueOf(s, EligibleIds(s, f))
    ensures forall k :: 0 <= k < |q| ==> q[k] in EligibleIds(s, f)
  {
  }

  lemma NoneClaimable(s: State, f: Filter, q: seq<Id>)
    requires q == QueueOf(s, EligibleIds(s, f)) && forall i :: 0 <= i < |q| ==> !Claimable(s, f, q[i])
    ensures forall id :: !Claimable(s, f, id)
  {
    hide Compatible;
    forall id ensures !Claimable(s, f, id) {
      assert Claimable(s, f, id) ==> id in EligibleIds(s, f);
      assert id in EligibleIds(s, f) ==> id in q;
    }
  }

  lemma FirstCompatible(s: State, f: Filter, q: seq<Id>, k: nat)
    requires q == QueueOf(s, EligibleIds(s, f)) && k < |q|
    requires Claimable(s, f, q[k])
    requires forall i :: 0 <= i < k ==> !Claimable(s, f, q[i])
    ensures IsFirst(s, f, q[k])
  {
    forall other | Claimable(s, f, other) && other != q[k] ensures Before(s, q[k], other) {
      assert other in EligibleIds(s, f) && other in q;
      var j :| 0 <= j < |q| && q[j] == other;
    }
  }

  /** The PostgreSQL query: capability predicate in the WHERE clause, then LIMIT 1. */
  method FilteredSelect(s: State, f: Filter) returns (row: Option<Id>)
    ensures row == Pick(s, f)
  {
    var ids := set id | id in s.execs && Claimable(s, f, id);
    if ids == {} {
      assert forall id :: Claimable(s, f, id) ==> id in ids;
      PickSpec(s, f);
      return None;
    }
    var m := Lowest(s, ids);
    assert forall id :: Claimable(s, f, id) ==> id in ids;
    PickIs(s, f, m);
    row := Some(m);
  }

  // ---- PostgreSQL reclaims with two UPDATEs ----

  function CancelExpired(s: State, now: Time): State {
    s.(execs := map id | id in s.execs ::
      if id in Abandoned(s, now) then
        s.execs[id].(status := Canceled, worker := None, lease := None, updatedAt := now)
      else s.execs[id])
  }

  function RequeueExpired(s: State, now: Time): State {
    s.(execs := map id | id in s.execs :: ReclaimRow(s.execs[id], now))
  }

  function MirrorAll(outbox: map<Id, Delivery>, s: State, returned: set<Id>, now: Time): map<Id, Delivery>
    requires returned <= s.execs.Keys
  {
    map id | id in outbox.Keys + (set r | r in returned && HasUrl(s.execs[r])) ::
      if id in returned && HasUrl(s.execs[id]) then MirrorRow(outbox, id, s.execs[id], now) else outbox[id]
  }

  /** Both stores insert the outbox rows of the executions that ended, one by one. */
  method MirrorEach(outbox: map<Id, Delivery>, s: State, returned: set<Id>, now: Time) returns (mirrored: map<Id, Delivery>)
    requires returned <= s.execs.Keys
    ensures mirrored == MirrorAll(outbox, s, returned, now)
  {
    mirrored := outbox;
    var todo := returned;
    while todo != {}
      invariant todo <= returned
      invariant mirrored == MirrorAll(outbox, s, returned - todo, now)
      decreases todo
    {
      var id :| id in todo;
      MirrorOne(outbox, s, returned - todo, id, now);
      assert returned - (todo - {id}) == (returned - todo) + {id};
      mirrored := Mirror(mirrored, id, s.execs[id], now);
      todo := todo - {id};
    }
    assert returned - todo == returned;
  }

  lemma MirrorOne(outbox: map<Id, Delivery>, s: State, done: set<Id>, id: Id, now: Time)
    requires done <= s.execs.Keys && id in s.execs && id !in done
    ensures MirrorAll(outbox, s, done + {id}, now) == Mirror(MirrorAll(outbox, s, done, now), id, s.execs[id], now)
  {
  }

  lemma MirrorsAbandoned(s: State, now: Time)
    ensures MirrorAll(s.outbox, s, Abandoned(s, now), now) == Reclaim(s, now).outbox
  {
    assert (set r | r in Abandoned(s, now) && HasUrl(s.execs[r])) == Notified(s, now);
  }

  function PostgresReclaim(s: State, now: Time): State {
    var returned := Abandoned(s, now);
    var updated := RequeueExpired(CancelExpired(s, now), now);
    updated.(outbox := MirrorAll(s.outbox, updated, returned, now))
  }

  /** Run serially, the two UPDATEs leave the same tables as SQLite's single one. */
  lemma PostgresReclaimAgrees(s: State, now: Time)
    ensures PostgresReclaim(s, now) == Reclaim(s, now)
  {
    var p, r := PostgresReclaim(s, now), Reclaim(s, now);
    assert p.execs == r.execs;
    var returned := Abandoned(s, now);
    forall id | id in returned ensures HasUrl(p.execs[id]) == HasUrl(s.execs[id]) {
      assert p.execs[id].request == s.execs[id].request;
    }
    assert p.outbox.Keys == r.outbox.Keys;
    assert p.outbox == r.outbox;
  }

  /**
   The PostgreSQL claim as one serial transaction: two UPDATEs, the outbox loop,
   the filtered SELECT and the final UPDATE. It is the same step as the SQLite one.
   */
  method PostgresClaim(s: State, worker: string, f: Filter, seconds: int, now: Time)
    returns (t: State, claimed: Option<Id>)
    ensures claimed == Claimed(s, f, now) && t == ClaimNext(s, worker, f, seconds, now)
  {
    hide Pick, ReclaimRow;
    var returned := Abandoned(s, now);
    t := CancelExpired(s, now);
    t := RequeueExpired(t, now);
    var outbox := MirrorEach(s.outbox, t, returned, now);
    t := t.(outbox := outbox);
    PostgresReclaimAgrees(s, now);
    claimed := FilteredSelect(t, f);
    PickSpec(t, f);
    if claimed.Some? {
      t := TakeRow(t, claimed.value, worker, seconds, now);
    }
  }

  // ---- draining ----

  function QueuedIds(s: State): set<Id> {
    set id | id in s.execs && s.execs[id].status.Queued?
  }

  /** What the store keeps of every queued row (see Leases.Inv). */
  ghost predicate QueueSound(s: State) {
    forall id :: id in s.execs && s.execs[id].status.Queued? ==>
      !s.execs[id].cancelRequested && s.execs[id].request.taskRef in s.tasks
  }

  /** An unfiltered claim by a worker able to run every queued task, with no lease run out. */
  ghost predicate CalmClaim(s: State, op: Op) {
    && op.OpClaim? && op.filter.queues == {} && op.filter.classes == {}
    && (forall id :: id in s.execs ==> !Expired(s.execs[id], op.now))
    && (forall id :: id in QueuedIds(s) && s.execs[id].request.taskRef in s.tasks ==> Compatible(s, op.filter, id))
  }

  ghost predicate Calm(s: State, calls: seq<Op>)
    decreases |calls|
  {
    calls != [] ==> CalmClaim(s, calls[0]) && Calm(Apply(s, calls[0]), calls[1..])
  }

  ghost function HandedOut(s: State, calls: seq<Op>): (ids: seq<Option<Id>>)
    requires forall i :: 0 <= i < |calls| ==> calls[i].OpClaim?
    ensures |ids| == |calls|
    decreases |calls|
  {
    if calls == [] then []
    else [Claimed(s, calls[0].filter, calls[0].now)] + HandedOut(Apply(s, calls[0]), calls[1..])
  }

  lemma CalmReclaims(s: State, op: Op)
    requires CalmClaim(s, op)
    ensures Reclaim(s, op.now) == s
  {
    assert Notified(s, op.now) == {};
    assert Reclaim(s, op.now).execs == s.execs;
    assert Reclaim(s, op.now).outbox == s.outbox;
  }

  /** One calm claim takes the head of the queue and leaves its tail. */
  lemma CalmStep(s: State, op: Op)
    requires CalmClaim(s, op) && QueueSound(s)
    ensures QueueSound(Apply(s, op))
    ensures var q := QueueOf(s, QueuedIds(s));
            if q == [] then Claimed(s, op.filter, op.now) == None && Apply(s, op) == s
            else Claimed(s, op.filter, op.now) == Some(q[0]) &&
                 QueueOf(Apply(s, op), QueuedIds(Apply(s, op))) == q[1..]
  {
    CalmReclaims(s, op);
    var q := QueueOf(s, QueuedIds(s));
    if q == [] {
      assert QueuedIds(s) == {};
      assert forall id :: Claimable(s, op.filter, id) ==> id in QueuedIds(s);
      PickSpec(s, op.filter);
    } else {
      assert q[0] in QueuedIds(s);
      forall other | Claimable(s, op.filter, other) && other != q[0] ensures Before(s, q[0], other) {
        HeadIsLowest(s, q, other);
      }
      PickIs(s, op.filter, q[0]);
      HeadTaken(s, op, q);
    }
  }

  lemma HeadTaken(s: State, op: Op, q: seq<Id>)
    requires QueueSound(s) && op.OpClaim? && q != [] && Ordered(s, q) && Lists(q, QueuedIds(s))
    ensures var t := TakeRow(s, q[0], op.worker, op.seconds, op.now);
      QueueSound(t) && QueueOf(t, QueuedIds(t)) == q[1..]
  {
    var t := TakeRow(s, q[0], op.worker, op.seconds, op.now);
    TailLists(s, q, QueuedIds(s));
    assert QueuedIds(t) == QueuedIds(s) - {q[0]};
    assert Ordered(t, q[1..]);
    hide QueueOf, Ordered, QueuedIds, Before;
    QueueUnique(t, q[1..], QueueOf(t, QueuedIds(t)), QueuedIds(t));
  }

  /**
   Repeated calm claims hand out the queue as a sorted permutation of the queued
   set, each execution once, and then nothing.
   */
  lemma {:induction false} Drain(s: State, calls: seq<Op>)
    requires QueueSound(s)
    requires forall i :: 0 <= i < |calls| ==> calls[i].OpClaim?
    requires Calm(s, calls)
    ensures var q := QueueOf(s, QueuedIds(s));
            && Ordered(s, q) && Lists(q, QueuedIds(s)) && |q| == |QueuedIds(s)|
            && forall i :: 0 <= i < |calls| ==>
                 HandedOut(s, calls)[i] == if i < |q| then Some(q[i]) else None
    decreases |calls|
  {
    var q := QueueOf(s, QueuedIds(s));
    QueueLength(s, QueuedIds(s));
    if calls != [] {
      CalmStep(s, calls[0]);
      var t := Apply(s, calls[0]);
      Drain(t, calls[1..]);
      HandedStep(s, calls);
    }
  }

  lemma HandedStep(s: State, calls: seq<Op>)
    requires calls != [] && forall i :: 0 <= i < |calls| ==> calls[i].OpClaim?
    ensures HandedOut(s, calls)[0] == Claimed(s, calls[0].filter, calls[0].now)
    ensures forall i :: 0 < i < |calls| ==>
              HandedOut(s, calls)[i] == HandedOut(Apply(s, calls[0]), calls[1..])[i - 1]
  {
  }

  lemma {:induction false} QueueLength(s: State, ids: set<Id>)
    requires ids <= s.execs.Keys
    ensures |QueueOf(s, ids)| == |ids|
    decreases |ids|
  {
    var q := QueueOf(s, ids);
    assert q != [] ==> q[0] in ids;
    if ids != {} {
      assert exists x :: x in q;
      TailLists(s, q, ids);
      QueueLength(s, ids - {q[0]});
      QueueUnique(s, q[1..], QueueOf(s, ids - {q[0]}), ids - {q[0]});
    }
  }
}
