/** The life of queued messages over every run of the worker. */
module OutboundRuns {
  import opened OutboundBackoff
  import opened OutboundQueue

  /**
   The worker and the administrators, who may revive or remove any message at any
   time, also one the worker is about to send.
   `batch` is what the worker still holds of its last fetch, made at `fetched`.
   `first` and `gaveUp` are history: when a message first failed, and finally did.
   */
  datatype Sys = Sys(rows: seq<Item>, lastId: int, batch: seq<Item>, fetched: int,
                     first: map<int, int>, gaveUp: map<int, int>)

  datatype Step =
    | Enqueue
    | Fetch(now: int)
    | Work(sent: bool, t: int)
    | Revive(id: int)
    | Remove(id: int)

  predicate Enabled(s: Sys, step: Step) {
    match step
    case Enqueue => true
    case Fetch(_) => s.batch == []
    case Work(_, t) => s.batch != [] && t >= s.fetched
    case Revive(_) => true
    case Remove(_) => true
  }

  function Next(s: Sys, step: Step): Sys
    requires step.Work? ==> s.batch != []
  {
    match step
    case Enqueue => s.(rows := s.rows + [Item(s.lastId + 1, 0, 0, false)], lastId := s.lastId + 1)
    case Fetch(now) => s.(batch := Take(DueRows(s.rows, now), 20), fetched := now)
    case Work(sent, t) =>
      var item := s.batch[0];
      s.(rows := Worked(s.rows, item, sent, t),
         batch := s.batch[1..],
         first := if !sent && item.id !in s.first then s.first[item.id := t] else s.first,
         gaveUp := if !sent && Failed(item, t).failed then s.gaveUp[item.id := t] else s.gaveUp)
    case Revive(id) => s.(rows := Rewritten(s.rows, id, 0, 0, false))
    case Remove(id) => s.(rows := Without(s.rows, id))
  }

  predicate Initially(s: Sys) {
    s.rows == [] && s.lastId == 0 && s.batch == [] && s.first == map[] && s.gaveUp == map[]
  }

  ghost predicate Runs(s: Sys, steps: seq<Step>)
    decreases |steps|
  {
    steps == [] || (Enabled(s, steps[0]) && Runs(Next(s, steps[0]), steps[1..]))
  }

  ghost function Final(s: Sys, steps: seq<Step>): Sys
    requires Runs(s, steps)
    decreases |steps|
  {
    if steps == [] then s else Final(Next(s, steps[0]), steps[1..])
  }

  // ----- A drain is such a run -----

  /** The first k messages of a batch, one Work step each. */
  function Works(k: nat, sent: nat -> bool, clock: nat -> int): seq<Step> {
    if k == 0 then [] else Works(k - 1, sent, clock) + [Work(sent(k - 1), clock(k - 1))]
  }

  lemma {:induction false} RunAppend(s: Sys, steps: seq<Step>, last: Step)
    requires Runs(s, steps) && Enabled(Final(s, steps), last)
    ensures Runs(s, steps + [last]) && Final(s, steps + [last]) == Next(Final(s, steps), last)
    decreases |steps|
  {
    if steps == [] {
      assert [last][1..] == [] && [] + [last] == [last];
    } else {
      RunAppend(Next(s, steps[0]), steps[1..], last);
      assert (steps + [last])[1..] == steps[1..] + [last];
    }
  }

  ghost predicate NotBefore(clock: nat -> int, now: int) {
    forall i: nat :: clock(i) >= now
  }

  lemma {:induction false} WorksRun(s: Sys, k: nat, sent: nat -> bool, clock: nat -> int)
    requires k <= |s.batch| && NotBefore(clock, s.fetched)
    ensures Runs(s, Works(k, sent, clock))
    ensures var t := Final(s, Works(k, sent, clock));
      t.rows == WorkedAll(s.rows, s.batch[..k], sent, clock) && t.batch == s.batch[k..] && t.fetched == s.fetched
  {
    if k > 0 {
      WorksRun(s, k - 1, sent, clock);
      RunAppend(s, Works(k - 1, sent, clock), Work(sent(k - 1), clock(k - 1)));
      assert s.batch[..k][..k - 1] == s.batch[..k - 1] && s.batch[k - 1..][1..] == s.batch[k..];
    }
  }

  /** What Drain does to the table is a fetch and one Work step a message. */
  lemma DrainIsRun(s: Sys, now: int, sent: nat -> bool, clock: nat -> int)
    requires s.batch == [] && NotBefore(clock, now)
    ensures Enabled(s, Fetch(now))
    ensures
      var f := Next(s, Fetch(now));
      var steps := Works(|f.batch|, sent, clock);
      && f.batch == Take(DueRows(s.rows, now), 20)
      && Runs(f, steps)
      && Final(f, steps).batch == []
      && Final(f, steps).rows == WorkedAll(s.rows, f.batch, sent, clock)
  {
    var f := Next(s, Fetch(now));
    WorksRun(f, |f.batch|, sent, clock);
    assert f.batch[..|f.batch|] == f.batch && f.batch[|f.batch|..] == [];
  }

  // ----- Attempts are bounded -----

  predicate Bounded(r: Item) {
    0 <= r.attempts <= MAX_ATTEMPTS && (r.failed <==> r.attempts == MAX_ATTEMPTS)
  }

  ghost predicate AllBounded(s: Sys) {
    && (forall k :: 0 <= k < |s.rows| ==> Bounded(s.rows[k]))
    && (forall k :: 0 <= k < |s.batch| ==> Bounded(s.batch[k]) && !s.batch[k].failed)
  }

  lemma RewrittenBounded(rows: seq<Item>, id: int, attempts: int, next: int, failed: bool)
    requires forall k :: 0 <= k < |rows| ==> Bounded(rows[k])
    requires Bounded(Item(id, attempts, next, failed))
    ensures forall k :: 0 <= k < |rows| ==> Bounded(Rewritten(rows, id, attempts, next, failed)[k])
  {
    forall k | 0 <= k < |rows| ensures Bounded(Rewritten(rows, id, attempts, next, failed)[k]) {
      RewrittenAt(rows, id, attempts, next, failed, k);
    }
  }

  lemma WithoutBounded(rows: seq<Item>, id: int)
    requires forall k :: 0 <= k < |rows| ==> Bounded(rows[k])
    ensures forall k :: 0 <= k < |Without(rows, id)| ==> Bounded(Without(rows, id)[k])
  {
    forall k | 0 <= k < |Without(rows, id)| ensures Bounded(Without(rows, id)[k]) {
      WithoutMembers(rows, id, Without(rows, id)[k]);
    }
  }

  lemma WorkBounded(s: Sys, sent: bool, t: int)
    requires AllBounded(s) && s.batch != []
    ensures AllBounded(Next(s, Work(sent, t)))
  {
    var item := s.batch[0];
    if sent {
      WithoutBounded(s.rows, item.id);
    } else {
      var f := Failed(item, t);
      RewrittenBounded(s.rows, item.id, f.attempts, f.next, f.failed);
    }
  }

  lemma StepBounded(s: Sys, step: Step)
    requires AllBounded(s) && Enabled(s, step)
    ensures AllBounded(Next(s, step))
  {
    match step
    case Enqueue =>
    case Fetch(now) =>
      var due := DueRows(s.rows, now);
      forall k | 0 <= k < |due| ensures due[k] in s.rows && !due[k].failed {
        DueMembers(s.rows, now, due[k]);
      }
    case Work(sent, t) => WorkBounded(s, sent, t);
    case Revive(id) => RewrittenBounded(s.rows, id, 0, 0, false);
    case Remove(id) => WithoutBounded(s.rows, id);
  }

  /** A live message has failed fewer than 20 times, over every run. */
  lemma {:induction false} AttemptsBounded(s: Sys, steps: seq<Step>)
    requires AllBounded(s) && Runs(s, steps)
    ensures AllBounded(Final(s, steps))
    ensures forall k :: 0 <= k < |Final(s, steps).rows| ==>
      var r := Final(s, steps).rows[k]; r.failed || 0 <= r.attempts < MAX_ATTEMPTS
    decreases |steps|
  {
    if steps != [] {
      StepBounded(s, steps[0]);
      AttemptsBounded(Next(s, steps[0]), steps[1..]);
    }
  }

  // ----- Every failure is paid for -----

  ghost predicate HasId(rows: seq<Item>, id: int) {
    exists k :: 0 <= k < |rows| && rows[k].id == id
  }

  /** What the worker holds was due; a row it was read from has not failed any further. */
  ghost predicate InStep(s: Sys) {
    && s.lastId >= 0
    && Ascending(s.rows, s.lastId)
    && Ascending(s.batch, s.lastId)
    && (forall b :: b in s.batch ==> IsDue(b, s.fetched))
    && (forall b, r :: b in s.batch && r in s.rows && r.id == b.id ==> r.attempts <= b.attempts && !r.failed)
  }

  lemma UniqueId(rows: seq<Item>, lastId: int, a: Item, b: Item)
    requires Ascending(rows, lastId) && a in rows && b in rows && a.id == b.id
    ensures a == b
  {
  }

  lemma RewrittenIn(rows: seq<Item>, lastId: int, f: Item, r: Item)
    requires Ascending(rows, lastId)
    ensures Ascending(Rewritten(rows, f.id, f.attempts, f.next, f.failed), lastId)
    ensures r in Rewritten(rows, f.id, f.attempts, f.next, f.failed)
      <==> (r in rows && r.id != f.id) || (r == f && HasId(rows, f.id))
  {
    var out := Rewritten(rows, f.id, f.attempts, f.next, f.failed);
    forall k | 0 <= k < |rows| ensures out[k] == if rows[k].id == f.id then f else rows[k] {
      RewrittenAt(rows, f.id, f.attempts, f.next, f.failed, k);
    }
    if HasId(rows, f.id) {
      var i :| 0 <= i < |rows| && rows[i].id == f.id;
      assert out[i] == f;
    }
    if r in rows && r.id != f.id {
      var k :| 0 <= k < |rows| && rows[k] == r;
      assert out[k] == r;
    }
  }

  lemma StepInStep(s: Sys, step: Step)
    requires InStep(s) && AllBounded(s) && Enabled(s, step)
    ensures InStep(Next(s, step))
  {
    match step
    case Enqueue =>
    case Fetch(now) =>
      DueAscending(s.rows, s.lastId, now);
      forall b | b in DueRows(s.rows, now) ensures b in s.rows && IsDue(b, now) {
        DueMembers(s.rows, now, b);
      }
      forall b, r | b in Next(s, step).batch && r in s.rows && r.id == b.id ensures r == b {
        UniqueId(s.rows, s.lastId, r, b);
      }
    case Work(sent, t) => WorkInStep(s, sent, t);
    case Revive(id) => ReviveInStep(s, id);
    case Remove(id) =>
      WithoutAscending(s.rows, s.lastId, id);
      forall r ensures r in Without(s.rows, id) <==> r in s.rows && r.id != id {
        WithoutMembers(s.rows, id, r);
      }
  }

  lemma ReviveInStep(s: Sys, id: int)
    requires InStep(s) && AllBounded(s)
    ensures InStep(Next(s, Revive(id)))
  {
    var f := Item(id, 0, 0, false);
    RewrittenIn(s.rows, s.lastId, f, f);
    forall b, r | b in s.batch && r in Next(s, Revive(id)).rows && r.id == b.id
      ensures r.attempts <= b.attempts && !r.failed
    {
      RewrittenIn(s.rows, s.lastId, f, r);
      var k :| 0 <= k < |s.batch| && s.batch[k] == b;
      assert Bounded(s.batch[k]);
    }
  }

  lemma WorkInStep(s: Sys, sent: bool, t: int)
    requires InStep(s) && Enabled(s, Work(sent, t))
    ensures InStep(Next(s, Work(sent, t)))
  {
    var item, rest := s.batch[0], s.batch[1..];
    var rows := Next(s, Work(sent, t)).rows;
    assert item in s.batch;
    if sent {
      WithoutAscending(s.rows, s.lastId, item.id);
    } else {
      RewrittenIn(s.rows, s.lastId, Failed(item, t), item);
    }
    forall b | b in rest ensures b in s.batch && b.id != item.id {
    }
    forall b, r | b in rest && r in rows && r.id == b.id ensures r.attempts <= b.attempts && !r.failed {
      if sent {
        WithoutMembers(s.rows, item.id, r);
      } else {
        RewrittenIn(s.rows, s.lastId, Failed(item, t), r);
      }
    }
  }

  /** The attempts the queue still has in it. */
  function Budget(rows: seq<Item>): int {
    if rows == [] then 0 else MAX_ATTEMPTS - rows[0].attempts + Budget(rows[1..])
  }

  /** Messages the worker holds although their rows are gone: each may still fail once. */
  ghost function Orphans(batch: seq<Item>, rows: seq<Item>): nat {
    if batch == [] then 0 else (if HasId(rows, batch[0].id) then 0 else 1) + Orphans(batch[1..], rows)
  }

  ghost function Reserve(s: Sys): int {
    Budget(s.rows) + Orphans(s.batch, s.rows)
  }

  lemma {:induction false} BudgetAppend(rows: seq<Item>, r: Item)
    ensures Budget(rows + [r]) == Budget(rows) + MAX_ATTEMPTS - r.attempts
  {
    if rows != [] {
      BudgetAppend(rows[1..], r);
      assert (rows + [r])[1..] == rows[1..] + [r];
    }
  }

  lemma {:induction false} AbsentUntouched(rows: seq<Item>, id: int, attempts: int, next: int, failed: bool)
    requires !HasId(rows, id)
    ensures Rewritten(rows, id, attempts, next, failed) == rows && Without(rows, id) == rows
  {
    if rows != [] {
      assert rows[0].id != id;
      forall k | 0 <= k < |rows[1..]| ensures rows[1..][k].id != id {
        assert rows[k + 1].id != id;
      }
      AbsentUntouched(rows[1..], id, attempts, next, failed);
    }
  }

  /** Rewriting or deleting a row moves the budget by that row alone. */
  lemma {:induction false} BudgetMoves(rows: seq<Item>, lastId: int, r: Item, attempts: int, next: int, failed: bool)
    requires Ascending(rows, lastId) && r in rows
    ensures Budget(Rewritten(rows, r.id, attempts, next, failed)) == Budget(rows) + r.attempts - attempts
    ensures Budget(Without(rows, r.id)) == Budget(rows) + r.attempts - MAX_ATTEMPTS
  {
    if rows[0].id == r.id {
      UniqueId(rows, lastId, rows[0], r);
      AbsentUntouched(rows[1..], r.id, attempts, next, failed);
      assert [] + rows[1..] == rows[1..];
    } else {
      BudgetMoves(rows[1..], lastId, r, attempts, next, failed);
    }
  }

  lemma {:induction false} OrphansSame(batch: seq<Item>, rows: seq<Item>, rows': seq<Item>)
    requires forall b :: b in batch ==> (HasId(rows, b.id) <==> HasId(rows', b.id))
    ensures Orphans(batch, rows) == Orphans(batch, rows')
  {
    if batch != [] {
      assert batch[0] in batch && forall b :: b in batch[1..] ==> b in batch;
      OrphansSame(batch[1..], rows, rows');
    }
  }

  lemma {:induction false} NoOrphans(batch: seq<Item>, rows: seq<Item>)
    requires forall b :: b in batch ==> b in rows
    ensures Orphans(batch, rows) == 0
  {
    if batch != [] {
      assert batch[0] in batch && forall b :: b in batch[1..] ==> b in batch;
      var k :| 0 <= k < |rows| && rows[k] == batch[0];
      assert HasId(rows, batch[0].id);
      NoOrphans(batch[1..], rows);
    }
  }

  lemma HasIdWithout(rows: seq<Item>, gone: int, id: int)
    ensures HasId(Without(rows, gone), id) <==> HasId(rows, id) && id != gone
  {
    var left := Without(rows, gone);
    if HasId(left, id) {
      var k :| 0 <= k < |left| && left[k].id == id;
      WithoutMembers(rows, gone, left[k]);
      var j :| 0 <= j < |rows| && rows[j] == left[k];
    }
    if HasId(rows, id) && id != gone {
      var k :| 0 <= k < |rows| && rows[k].id == id;
      WithoutMembers(rows, gone, rows[k]);
      var j :| 0 <= j < |left| && left[j] == rows[k];
    }
  }

  lemma HasIdRewritten(rows: seq<Item>, f: Item, id: int)
    ensures HasId(Rewritten(rows, f.id, f.attempts, f.next, f.failed), id) <==> HasId(rows, id)
  {
    var out := Rewritten(rows, f.id, f.attempts, f.next, f.failed);
    forall k | 0 <= k < |rows| ensures out[k].id == rows[k].id {
      RewrittenAt(rows, f.id, f.attempts, f.next, f.failed, k);
    }
    if HasId(rows, id) {
      var k :| 0 <= k < |rows| && rows[k].id == id;
      assert out[k].id == id;
    }
  }

  /** Deleting a row orphans at most the one message the worker holds of it. */
  lemma {:induction false} OrphansWithout(batch: seq<Item>, lastId: int, rows: seq<Item>, id: int)
    requires Ascending(batch, lastId)
    ensures Orphans(batch, Without(rows, id)) <= Orphans(batch, rows) + if HasId(batch, id) then 1 else 0
  {
    if batch != [] {
      var rest := batch[1..];
      HasIdWithout(rows, id, batch[0].id);
      if batch[0].id == id {
        forall b | b in rest ensures HasId(rows, b.id) <==> HasId(Without(rows, id), b.id) {
          HasIdWithout(rows, id, b.id);
        }
        OrphansSame(rest, rows, Without(rows, id));
      } else {
        OrphansWithout(rest, lastId, rows, id);
        if HasId(rest, id) {
          var k :| 0 <= k < |rest| && rest[k].id == id;
          assert batch[k + 1].id == id;
        }
      }
    }
  }

  function FailureCount(steps: seq<Step>): nat {
    if steps == [] then 0
    else (if steps[0].Work? && !steps[0].sent then 1 else 0) + FailureCount(steps[1..])
  }

  /** New messages and manual retries. */
  function FreshStarts(steps: seq<Step>): nat {
    if steps == [] then 0
    else (if steps[0].Enqueue? || steps[0].Revive? then 1 else 0) + FreshStarts(steps[1..])
  }

  lemma WorkReserve(s: Sys, sent: bool, t: int)
    requires InStep(s) && AllBounded(s) && Enabled(s, Work(sent, t))
    ensures Reserve(Next(s, Work(sent, t))) < Reserve(s)
  {
    var item, rest, f := s.batch[0], s.batch[1..], Failed(s.batch[0], t);
    var rows := Next(s, Work(sent, t)).rows;
    assert item in s.batch && Bounded(s.batch[0]);
    forall b | b in rest ensures HasId(s.rows, b.id) <==> HasId(rows, b.id) {
      HasIdWithout(s.rows, item.id, b.id);
      HasIdRewritten(s.rows, f, b.id);
    }
    OrphansSame(rest, s.rows, rows);
    if HasId(s.rows, item.id) {
      var k :| 0 <= k < |s.rows| && s.rows[k].id == item.id;
      assert s.rows[k] in s.rows && Bounded(s.rows[k]);
      BudgetMoves(s.rows, s.lastId, s.rows[k], f.attempts, f.next, f.failed);
    } else {
      AbsentUntouched(s.rows, item.id, f.attempts, f.next, f.failed);
    }
  }

  lemma ReviveReserve(s: Sys, id: int)
    requires InStep(s) && AllBounded(s)
    ensures Reserve(Next(s, Revive(id))) <= Reserve(s) + MAX_ATTEMPTS
  {
    var f := Item(id, 0, 0, false);
    forall b | b in s.batch ensures HasId(s.rows, b.id) <==> HasId(Next(s, Revive(id)).rows, b.id) {
      HasIdRewritten(s.rows, f, b.id);
    }
    OrphansSame(s.batch, s.rows, Next(s, Revive(id)).rows);
    if HasId(s.rows, id) {
      var k :| 0 <= k < |s.rows| && s.rows[k].id == id;
      assert s.rows[k] in s.rows && Bounded(s.rows[k]);
      BudgetMoves(s.rows, s.lastId, s.rows[k], 0, 0, false);
    } else {
      AbsentUntouched(s.rows, id, 0, 0, false);
    }
  }

  /** A removal takes at least the one attempt an orphan can still make. */
  lemma RemoveReserve(s: Sys, id: int)
    requires InStep(s) && AllBounded(s)
    ensures Reserve(Next(s, Remove(id))) <= Reserve(s)
  {
    OrphansWithout(s.batch, s.lastId, s.rows, id);
    if HasId(s.rows, id) {
      var k :| 0 <= k < |s.rows| && s.rows[k].id == id;
      var r := s.rows[k];
      assert r in s.rows && Bounded(r);
      BudgetMoves(s.rows, s.lastId, r, 0, 0, false);
      if HasId(s.batch, id) {
        var j :| 0 <= j < |s.batch| && s.batch[j].id == id;
        assert s.batch[j] in s.batch && !r.failed;
      }
    } else {
      AbsentUntouched(s.rows, id, 0, 0, false);
    }
  }

  lemma EnqueueReserve(s: Sys)
    requires InStep(s)
    ensures Reserve(Next(s, Enqueue)) == Reserve(s) + MAX_ATTEMPTS
  {
    var r := Item(s.lastId + 1, 0, 0, false);
    BudgetAppend(s.rows, r);
    forall b | b in s.batch ensures HasId(s.rows, b.id) <==> HasId(s.rows + [r], b.id) {
      if HasId(s.rows, b.id) {
        var k :| 0 <= k < |s.rows| && s.rows[k].id == b.id;
        assert (s.rows + [r])[k].id == b.id;
      }
    }
    OrphansSame(s.batch, s.rows, s.rows + [r]);
  }

  /** A failed send costs an attempt; only new messages and manual retries bring more. */
  lemma StepReserve(s: Sys, step: Step)
    requires InStep(s) && AllBounded(s) && Enabled(s, step)
    ensures Reserve(Next(s, step)) + (if step.Work? && !step.sent then 1 else 0)
      <= Reserve(s) + if step.Enqueue? || step.Revive? then MAX_ATTEMPTS else 0
    ensures step.Work? ==> Reserve(Next(s, step)) < Reserve(s)
  {
    match step
    case Enqueue => EnqueueReserve(s);
    case Fetch(now) =>
      forall b | b in DueRows(s.rows, now) ensures b in s.rows {
        DueMembers(s.rows, now, b);
      }
      NoOrphans(Next(s, step).batch, s.rows);
    case Work(sent, t) => WorkReserve(s, sent, t);
    case Revive(id) => ReviveReserve(s, id);
    case Remove(id) => RemoveReserve(s, id);
  }

  /** Over every run failed sends are paid for out of twenty attempts a message or manual retry. */
  lemma {:induction false} FailuresPaid(s: Sys, steps: seq<Step>)
    requires InStep(s) && AllBounded(s) && Runs(s, steps)
    ensures FailureCount(steps) + Reserve(Final(s, steps)) <= Reserve(s) + MAX_ATTEMPTS * FreshStarts(steps)
    decreases |steps|
  {
    if steps != [] {
      StepInStep(s, steps[0]);
      StepBounded(s, steps[0]);
      StepReserve(s, steps[0]);
      FailuresPaid(Next(s, steps[0]), steps[1..]);
    }
  }

  lemma {:induction false} BudgetLeft(rows: seq<Item>)
    requires forall k :: 0 <= k < |rows| ==> Bounded(rows[k])
    ensures Budget(rows) >= 0
  {
    if rows != [] {
      assert Bounded(rows[0]) && forall k :: 0 <= k < |rows[1..]| ==> rows[1..][k] == rows[k + 1];
      BudgetLeft(rows[1..]);
    }
  }

  /** From an empty queue on, sends fail at most twenty times per message and manual retry. */
  lemma FailuresBounded(s: Sys, steps: seq<Step>)
    requires Initially(s) && Runs(s, steps)
    ensures FailureCount(steps) <= MAX_ATTEMPTS * FreshStarts(steps)
  {
    FailuresPaid(s, steps);
    AttemptsBounded(s, steps);
    BudgetLeft(Final(s, steps).rows);
  }

  // ----- Giving up takes its time -----

  /** Seconds waited after the first n failures. */
  function Waits(n: nat): int {
    if n == 0 then 0 else Waits(n - 1) + Backoff(n) / SECOND
  }

  lemma {:induction false} WaitsClosed(n: nat)
    ensures n <= 6 ==> Waits(n) == 60 * (Pow2(n) - 1)
    ensures n >= 6 ==> Waits(n) == 60 * (63 + 60 * (n - 6))
  {
    if n > 0 {
      WaitsClosed(n - 1);
      BackoffExact(n);
      Powers();
      if n <= 6 {
        PowSum(n - 1, 6 - n);
        assert Pow2(n) == 2 * Pow2(n - 1);
      }
    }
  }

  /** The row of a message nobody retried by hand bears the marks of its past. */
  ghost predicate Timed(s: Sys, r: Item) {
    && Bounded(r)
    && (r.attempts == 0 ==> r.id !in s.first)
    && (r.attempts > 0 ==> r.id in s.first)
    && (r.attempts > 0 && !r.failed ==> r.next >= s.first[r.id] + Waits(r.attempts))
    && (r.failed ==> r.id in s.first && r.id in s.gaveUp && s.gaveUp[r.id] >= s.first[r.id] + Waits(MAX_ATTEMPTS - 1))
  }

  ghost predicate TimedFor(s: Sys, id: int) {
    && (forall r :: r in s.rows && r.id == id ==> Timed(s, r))
    && (id in s.first ==> id <= s.lastId)
    && (forall b, r :: b in s.batch && r in s.rows && r.id == b.id == id ==> r == b)
  }

  lemma WorkRow(s: Sys, sent: bool, t: int, r: Item)
    requires InStep(s) && Enabled(s, Work(sent, t)) && r in Next(s, Work(sent, t)).rows
    ensures (r in s.rows && r.id != s.batch[0].id) || (!sent && r == Failed(s.batch[0], t) && HasId(s.rows, r.id))
  {
    if sent {
      WithoutMembers(s.rows, s.batch[0].id, r);
    } else {
      RewrittenIn(s.rows, s.lastId, Failed(s.batch[0], t), r);
    }
  }

  lemma WorkRowTimed(s: Sys, sent: bool, t: int, r: Item)
    requires InStep(s) && TimedFor(s, r.id) && Enabled(s, Work(sent, t)) && r in Next(s, Work(sent, t)).rows
    ensures Timed(Next(s, Work(sent, t)), r)
  {
    WorkRow(s, sent, t, r);
    var item := s.batch[0];
    if r.id == item.id {
      var k :| 0 <= k < |s.rows| && s.rows[k].id == r.id;
      assert s.rows[k] in s.rows && item in s.batch;
      assert s.rows[k] == item;
    }
  }

  lemma WorkTimed(s: Sys, sent: bool, t: int, id: int)
    requires InStep(s) && TimedFor(s, id) && Enabled(s, Work(sent, t))
    ensures TimedFor(Next(s, Work(sent, t)), id)
  {
    var s' := Next(s, Work(sent, t));
    assert s.batch[0] in s.batch;
    forall r | r in s'.rows && r.id == id ensures Timed(s', r) {
      WorkRowTimed(s, sent, t, r);
    }
    forall b, r | b in s'.batch && r in s'.rows && r.id == b.id == id ensures r == b {
      WorkRow(s, sent, t, r);
    }
  }

  lemma StepTimed(s: Sys, step: Step, id: int)
    requires InStep(s) && TimedFor(s, id) && Enabled(s, step) && step != Revive(id)
    ensures TimedFor(Next(s, step), id)
  {
    match step
    case Enqueue =>
    case Fetch(now) =>
      forall b | b in DueRows(s.rows, now) ensures b in s.rows {
        DueMembers(s.rows, now, b);
      }
      forall b, r | b in Next(s, step).batch && r in s.rows && r.id == b.id == id ensures r == b {
        UniqueId(s.rows, s.lastId, r, b);
      }
    case Work(sent, t) => WorkTimed(s, sent, t, id);
    case Revive(other) =>
      forall r | r in Next(s, step).rows && r.id == id ensures r in s.rows {
        RewrittenIn(s.rows, s.lastId, Item(other, 0, 0, false), r);
      }
    case Remove(other) =>
      forall r | r in Next(s, step).rows ensures r in s.rows {
        WithoutMembers(s.rows, other, r);
      }
  }

  lemma {:induction false} RunTimed(s: Sys, steps: seq<Step>, id: int)
    requires InStep(s) && AllBounded(s) && TimedFor(s, id) && Runs(s, steps) && Revive(id) !in steps
    ensures TimedFor(Final(s, steps), id)
    decreases |steps|
  {
    if steps != [] {
      assert steps[0] in steps && forall step :: step in steps[1..] ==> step in steps;
      StepInStep(s, steps[0]);
      StepBounded(s, steps[0]);
      StepTimed(s, steps[0], id);
      RunTimed(Next(s, steps[0]), steps[1..], id);
    }
  }

  /**
   A message nobody retried by hand is given up no sooner than 843 minutes after
   its first failure, on the whole-second clock the queue keeps.
   */
  lemma GivingUp(s: Sys, steps: seq<Step>, r: Item)
    requires Initially(s) && Runs(s, steps) && Revive(r.id) !in steps
    requires r in Final(s, steps).rows && r.failed
    ensures var t := Final(s, steps);
      r.id in t.first && r.id in t.gaveUp && t.gaveUp[r.id] - t.first[r.id] >= 843 * 60
  {
    RunTimed(s, steps, r.id);
    WaitsClosed(MAX_ATTEMPTS - 1);
  }
}
