/** The outbound queue and its worker (internal/store/outbox.go, internal/outbound/worker.go: Drain and fail). */
module OutboundQueue {
  import opened OutboundBackoff

  const MAX_ATTEMPTS := 20

  /** Times are whole Unix seconds. */
  datatype Item = Item(id: int, attempts: int, next: int, failed: bool)

  predicate IsDue(r: Item, now: int) {
    !r.failed && r.next <= now
  }

  /** Due rows in id order. */
  function DueRows(rows: seq<Item>, now: int): seq<Item> {
    if rows == [] then []
    else (if IsDue(rows[0], now) then [rows[0]] else []) + DueRows(rows[1..], now)
  }

  function BatchSize(limit: int): nat {
    if limit <= 0 then 10 else limit
  }

  function Take<T>(rows: seq<T>, limit: nat): seq<T> {
    if |rows| > limit then rows[..limit] else rows
  }

  function Without(rows: seq<Item>, id: int): seq<Item> {
    if rows == [] then []
    else (if rows[0].id == id then [] else [rows[0]]) + Without(rows[1..], id)
  }

  /** Every row with this id gets these values, as an UPDATE would do. */
  function Rewritten(rows: seq<Item>, id: int, attempts: int, next: int, failed: bool): (r: seq<Item>)
    ensures |r| == |rows|
  {
    if rows == [] then []
    else
      [if rows[0].id == id then Item(id, attempts, next, failed) else rows[0]]
      + Rewritten(rows[1..], id, attempts, next, failed)
  }

  /** A failed send, recorded at time t: the last attempt allowed is final. */
  function Failed(item: Item, t: int): Item {
    var attempts := item.attempts + 1;
    if attempts >= MAX_ATTEMPTS then Item(item.id, attempts, 0, true)
    else Item(item.id, attempts, t + Backoff(attempts) / SECOND, false)
  }

  /**
   The twentieth failure is final; after any earlier one the message waits for as many
   minutes as two to the number of failures before it, an hour at most.
   */
  lemma FailedMeaning(item: Item, t: int)
    requires item.attempts >= 0
    ensures var f := Failed(item, t);
      && f.id == item.id && f.attempts == item.attempts + 1
      && (f.failed <==> f.attempts >= 20)
      && (!f.failed ==> f.next == t + 60 * if item.attempts >= 6 then 60 else Pow2(item.attempts))
  {
    BackoffExact(item.attempts + 1);
    Powers();
    if item.attempts < 6 {
      PowSum(item.attempts, 5 - item.attempts);
      WholeSeconds(Pow2(item.attempts));
    }
  }

  lemma WholeSeconds(minutes: nat)
    ensures 60_000_000_000 * minutes / SECOND == 60 * minutes
  {
  }

  /** One message of a batch, as it was read when the batch was fetched. */
  function Worked(rows: seq<Item>, item: Item, sent: bool, t: int): seq<Item> {
    if sent then Without(rows, item.id)
    else
      var f := Failed(item, t);
      Rewritten(rows, item.id, f.attempts, f.next, f.failed)
  }

  function WorkedAll(rows: seq<Item>, batch: seq<Item>, sent: nat -> bool, clock: nat -> int): seq<Item> {
    if batch == [] then rows
    else
      var n := |batch| - 1;
      Worked(WorkedAll(rows, batch[..n], sent, clock), batch[n], sent(n), clock(n))
  }

  class Queue {
    var rows: seq<Item>
    var lastId: int

    ghost predicate Valid()
      reads this
    {
      0 <= lastId && Ascending(rows, lastId)
    }

    constructor ()
      ensures Valid() && rows == [] && lastId == 0
    {
      rows, lastId := [], 0;
    }

    /** A new row under an id never given out before, due at once. */
    method EnqueueOutbound() returns (id: int)
      requires Valid()
      modifies this
      ensures Valid() && id == old(lastId) + 1 == lastId
      ensures rows == old(rows) + [Item(id, 0, 0, false)]
    {
      lastId := lastId + 1;
      id := lastId;
      rows := rows + [Item(id, 0, 0, false)];
    }

    /**
     Due rows, each once and in id order, no more than the limit; a due row left out
     comes after all of a full batch.
     */
    method DueOutbound(now: int, limit: int) returns (batch: seq<Item>)
      requires Valid()
      ensures IsBatch(rows, lastId, now, if limit > 0 then limit else 10, batch)
    {
      batch := Take(DueRows(rows, now), BatchSize(limit));
      TakeMeaning(rows, lastId, now, BatchSize(limit));
    }

    /** The row with this id, if there is one, is rewritten where it stands; every other row stays. */
    method RetryOutbound(id: int, attempts: int, next: int, failed: bool)
      requires Valid()
      modifies this`rows
      ensures Valid() && |rows| == |old(rows)|
      ensures forall k :: 0 <= k < |rows| ==>
        rows[k] == if old(rows)[k].id == id then Item(id, attempts, next, failed) else old(rows)[k]
    {
      var was := rows;
      rows := Rewritten(rows, id, attempts, next, failed);
      forall k | 0 <= k < |rows|
        ensures rows[k] == if was[k].id == id then Item(id, attempts, next, failed) else was[k]
      {
        RewrittenAt(was, id, attempts, next, failed, k);
      }
    }

    /** A manual retry: the row is as good as new and due at any time from 0 on. */
    method RetryOutboundNow(id: int)
      requires Valid()
      modifies this`rows
      ensures Valid() && |rows| == |old(rows)|
      ensures forall k :: 0 <= k < |rows| && old(rows)[k].id != id ==> rows[k] == old(rows)[k]
      ensures forall k :: 0 <= k < |rows| && old(rows)[k].id == id ==>
        rows[k].id == id && rows[k].attempts == 0 && !rows[k].failed && rows[k].next <= 0
    {
      var was := rows;
      rows := Rewritten(rows, id, 0, 0, false);
      forall k | 0 <= k < |rows| ensures rows[k] == if was[k].id == id then Item(id, 0, 0, false) else was[k] {
        RewrittenAt(was, id, 0, 0, false, k);
      }
    }

    /** Exactly the row with this id goes; the others keep their order. */
    method DeleteOutbound(id: int)
      requires Valid()
      modifies this`rows
      ensures Valid()
      ensures forall r :: r in rows <==> r in old(rows) && r.id != id
    {
      var was := rows;
      rows := Without(rows, id);
      WithoutAscending(was, lastId, id);
      forall r ensures r in rows <==> r in was && r.id != id {
        WithoutMembers(was, id, r);
      }
    }
  }

  class Worker {
    const queue: Queue

    constructor (queue: Queue)
      ensures this.queue == queue
    {
      this.queue := queue;
    }

    /** FailedMeaning says what becomes of the row. */
    method Fail(item: Item, t: int)
      requires queue.Valid()
      modifies queue
      ensures queue.Valid() && queue.lastId == old(queue.lastId)
      ensures queue.rows == Worked(old(queue.rows), item, false, t)
    {
      ghost var was := queue.rows;
      var attempts := item.attempts + 1;
      if attempts >= MAX_ATTEMPTS {
        queue.RetryOutbound(item.id, attempts, 0, true);
        SameRewrite(was, queue.rows, Failed(item, t));
        return;
      }
      var delay := Backoff(attempts);
      queue.RetryOutbound(item.id, attempts, t + delay / SECOND, false);
      SameRewrite(was, queue.rows, Failed(item, t));
    }

    method Delivered(item: Item)
      requires queue.Valid()
      modifies queue
      ensures queue.Valid() && queue.lastId == old(queue.lastId)
      ensures queue.rows == Without(old(queue.rows), item.id)
    {
      ghost var was := queue.rows;
      queue.DeleteOutbound(item.id);
      WithoutAscending(was, queue.lastId, item.id);
      forall r ensures r in queue.rows <==> r in Without(was, item.id) {
        WithoutMembers(was, item.id, r);
      }
      SameRows(queue.rows, Without(was, item.id), queue.lastId);
    }

    /** `sent` and `clock` are, by batch position, the relay's answer and the time it came. */
    method Drain(enabled: bool, now: int, sent: nat -> bool, clock: nat -> int)
      requires queue.Valid()
      modifies queue
      ensures queue.Valid()
      ensures queue.rows ==
        if enabled then WorkedAll(old(queue.rows), Take(DueRows(old(queue.rows), now), 20), sent, clock)
        else old(queue.rows)
    {
      if !enabled {
        return;
      }
      var items := queue.DueOutbound(now, 20);
      OneBatch(queue.rows, queue.lastId, now, 20, items);
      WorkBatch(items, sent, clock);
    }

    method WorkBatch(items: seq<Item>, sent: nat -> bool, clock: nat -> int)
      requires queue.Valid()
      modifies queue
      ensures queue.Valid() && queue.rows == WorkedAll(old(queue.rows), items, sent, clock)
    {
      for i := 0 to |items|
        invariant queue.Valid()
        invariant queue.rows == WorkedAll(old(queue.rows), items[..i], sent, clock)
      {
        assert items[..i + 1][..i] == items[..i];
        if !sent(i) {
          Fail(items[i], clock(i));
          continue;
        }
        Delivered(items[i]);
      }
      assert items[..|items|] == items;
    }
  }

  // ----- Facts about the rows -----

  ghost predicate Ascending(rows: seq<Item>, lastId: int) {
    && (forall i :: 0 <= i < |rows| ==> 0 < rows[i].id <= lastId)
    && (forall i, j :: 0 <= i < j < |rows| ==> rows[i].id < rows[j].id)
  }

  lemma HeadIn(a: seq<Item>)
    requires a != []
    ensures a[0] in a
  {
  }

  lemma FirstIsLeast(a: seq<Item>, lastId: int, r: Item)
    requires Ascending(a, lastId) && r in a
    ensures a != [] && a[0].id <= r.id && (a[0].id == r.id ==> a[0] == r)
  {
    var k :| 0 <= k < |a| && a[k] == r;
    assert k == 0 || a[0].id < a[k].id;
  }

  /** Rows in id order are determined by their members. */
  lemma {:induction false} SameRows(a: seq<Item>, b: seq<Item>, lastId: int)
    requires Ascending(a, lastId) && Ascending(b, lastId) && forall r :: r in a <==> r in b
    ensures a == b
  {
    if a == [] {
      if b != [] {
        HeadIn(b);
        assert false;
      }
    } else {
      HeadIn(a);
      FirstIsLeast(b, lastId, a[0]);
      HeadIn(b);
      FirstIsLeast(a, lastId, b[0]);
      RestMembers(a, lastId);
      RestMembers(b, lastId);
      SameRows(a[1..], b[1..], lastId);
      assert a == [a[0]] + a[1..] && b == [b[0]] + b[1..];
    }
  }

  lemma RestMembers(a: seq<Item>, lastId: int)
    requires Ascending(a, lastId) && a != []
    ensures Ascending(a[1..], lastId) && forall r :: r in a[1..] <==> r in a && r != a[0]
  {
    assert a == [a[0]] + a[1..];
    forall r | r in a[1..] ensures r != a[0] {
      var k :| 0 <= k < |a[1..]| && a[1..][k] == r;
      assert a[k + 1] == r && a[0].id < a[k + 1].id;
    }
  }

  lemma SameRewrite(was: seq<Item>, rows: seq<Item>, f: Item)
    requires |rows| == |was|
    requires forall k :: 0 <= k < |rows| ==> rows[k] == if was[k].id == f.id then f else was[k]
    ensures rows == Rewritten(was, f.id, f.attempts, f.next, f.failed)
  {
    forall k | 0 <= k < |rows| ensures rows[k] == Rewritten(was, f.id, f.attempts, f.next, f.failed)[k] {
      RewrittenAt(was, f.id, f.attempts, f.next, f.failed, k);
    }
  }

  lemma {:induction false} DueMembers(rows: seq<Item>, now: int, r: Item)
    ensures r in DueRows(rows, now) <==> r in rows && !r.failed && r.next <= now
  {
    if rows != [] {
      DueMembers(rows[1..], now, r);
      assert rows == [rows[0]] + rows[1..];
    }
  }

  lemma AscendingFront(r: Item, rest: seq<Item>, lastId: int)
    requires Ascending(rest, lastId) && 0 < r.id <= lastId
    requires forall q :: q in rest ==> r.id < q.id
    ensures Ascending([r] + rest, lastId)
  {
    var all := [r] + rest;
    forall k | 0 < k < |all| ensures r.id < all[k].id {
      assert all[k] in rest;
    }
  }

  lemma {:induction false} DueAscending(rows: seq<Item>, lastId: int, now: int)
    requires Ascending(rows, lastId)
    ensures Ascending(DueRows(rows, now), lastId)
  {
    if rows != [] {
      DueAscending(rows[1..], lastId, now);
      var rest := DueRows(rows[1..], now);
      assert [] + rest == rest;
      if IsDue(rows[0], now) {
        forall q | q in rest ensures rows[0].id < q.id {
          DueMembers(rows[1..], now, q);
        }
        AscendingFront(rows[0], rest, lastId);
      }
    }
  }

  lemma {:induction false} WithoutMembers(rows: seq<Item>, id: int, r: Item)
    ensures r in Without(rows, id) <==> r in rows && r.id != id
  {
    if rows != [] {
      WithoutMembers(rows[1..], id, r);
      assert rows == [rows[0]] + rows[1..];
    }
  }

  lemma {:induction false} WithoutAscending(rows: seq<Item>, lastId: int, id: int)
    requires Ascending(rows, lastId)
    ensures Ascending(Without(rows, id), lastId)
  {
    if rows != [] {
      WithoutAscending(rows[1..], lastId, id);
      var rest := Without(rows[1..], id);
      assert [] + rest == rest;
      if rows[0].id != id {
        forall q | q in rest ensures rows[0].id < q.id {
          WithoutMembers(rows[1..], id, q);
        }
        AscendingFront(rows[0], rest, lastId);
      }
    }
  }

  /** What a batch promises, and what determines it. */
  ghost predicate IsBatch(rows: seq<Item>, lastId: int, now: int, size: nat, batch: seq<Item>) {
    && Ascending(batch, lastId)
    && (forall r :: r in batch ==> r in rows && !r.failed && r.next <= now)
    && |batch| <= size
    && (forall r :: r in rows && !r.failed && r.next <= now && r !in batch ==>
          |batch| == size && forall b :: b in batch ==> b.id < r.id)
  }

  lemma TakeMeaning(rows: seq<Item>, lastId: int, now: int, size: nat)
    requires Ascending(rows, lastId)
    ensures IsBatch(rows, lastId, now, size, Take(DueRows(rows, now), size))
  {
    var due := DueRows(rows, now);
    var batch := Take(due, size);
    DueAscending(rows, lastId, now);
    forall r | r in batch ensures r in rows && IsDue(r, now) {
      DueMembers(rows, now, r);
    }
    forall r | r in rows && IsDue(r, now) && r !in batch
      ensures |batch| == size && forall b :: b in batch ==> b.id < r.id
    {
      DueMembers(rows, now, r);
      var k :| 0 <= k < |due| && due[k] == r;
      forall j | 0 <= j < |batch| ensures due[j] in batch {
        assert batch[j] == due[j];
      }
    }
  }

  /** The k smallest due rows are the k smallest due rows. */
  lemma {:induction false} SamePrefix(due: seq<Item>, batch: seq<Item>, lastId: int)
    requires Ascending(due, lastId) && Ascending(batch, lastId)
    requires forall b :: b in batch ==> b in due
    requires forall r :: r in due && r !in batch ==> forall b :: b in batch ==> b.id < r.id
    ensures |batch| <= |due| && batch == due[..|batch|]
  {
    if batch != [] {
      assert batch[0] in batch;
      FirstIsLeast(due, lastId, batch[0]);
      assert due[0] in due && due[0] in batch;
      FirstIsLeast(batch, lastId, due[0]);
      RestMembers(due, lastId);
      RestMembers(batch, lastId);
      SamePrefix(due[1..], batch[1..], lastId);
      PrefixFront(due, batch);
    }
  }

  lemma PrefixFront(due: seq<Item>, batch: seq<Item>)
    requires due != [] && batch != [] && due[0] == batch[0]
    requires |batch| <= |due| && batch[1..] == due[1..][..|batch| - 1]
    ensures batch == due[..|batch|]
  {
    assert due[..|batch|] == [due[0]] + due[1..][..|batch| - 1];
    assert batch == [batch[0]] + batch[1..];
  }

  lemma OneBatch(rows: seq<Item>, lastId: int, now: int, size: nat, batch: seq<Item>)
    requires Ascending(rows, lastId) && IsBatch(rows, lastId, now, size, batch)
    ensures batch == Take(DueRows(rows, now), size)
  {
    var due := DueRows(rows, now);
    DueAscending(rows, lastId, now);
    forall r ensures r in due <==> r in rows && IsDue(r, now) {
      DueMembers(rows, now, r);
    }
    SamePrefix(due, batch, lastId);
    if |batch| < |due| {
      var r := due[|batch|];
      assert r in due && r !in due[..|batch|];
      assert |batch| == size;
    }
  }

  lemma {:induction false} RewrittenAt(rows: seq<Item>, id: int, attempts: int, next: int, failed: bool, k: nat)
    requires k < |rows|
    ensures Rewritten(rows, id, attempts, next, failed)[k]
      == if rows[k].id == id then Item(id, attempts, next, failed) else rows[k]
  {
    if k > 0 {
      RewrittenAt(rows[1..], id, attempts, next, failed, k - 1);
    }
  }
}
