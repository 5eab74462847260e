/** One window of the change feed. */
module FeedWindow {
  import opened ChangeStore

  /*
   internal/eas/sync.go, first half of serverChanges: which rows a Sync consumes, and the
   per-item work list it collapses them into.
   */

  datatype Pending = Pending(id: int, kind: Kind)

  /** Position of an item in the work list, or the list's length. */
  function Find(order: seq<Pending>, id: int): (k: nat)
    ensures k <= |order|
    ensures k < |order| ==> order[k].id == id
    ensures forall j :: 0 <= j < k ==> order[j].id != id
  {
    if order == [] then 0 else if order[0].id == id then 0 else 1 + Find(order[1..], id)
  }

  /** A later row for a listed item replaces its kind; a new item goes to the end. */
  function Note(order: seq<Pending>, id: int, kind: Kind): seq<Pending> {
    var k := Find(order, id);
    if k < |order| then order[k := Pending(id, kind)] else order + [Pending(id, kind)]
  }

  /** The work list of a run of rows. */
  function Collate(rows: seq<Entry>, skipped: set<int>): seq<Pending> {
    if rows == [] then []
    else
      var order := Collate(rows[..|rows| - 1], skipped);
      var e := rows[|rows| - 1];
      if e.nr in skipped then order else Note(order, e.item, e.kind)
  }

  /** True when the scan goes on past the row at position k. */
  predicate Takes(rows: seq<Entry>, window: nat, skipped: set<int>, k: nat)
    requires k < |rows|
  {
    rows[k].nr in skipped || |Collate(rows[..k], skipped)| < window
  }

  /** How many rows the scan consumes, given that the first k were taken. */
  function Cut(rows: seq<Entry>, window: nat, skipped: set<int>, k: nat): (c: nat)
    requires k <= |rows|
    ensures k <= c <= |rows|
    ensures forall j :: k <= j < c ==> Takes(rows, window, skipped, j)
    ensures c < |rows| ==> !Takes(rows, window, skipped, c)
    decreases |rows| - k
  {
    if k < |rows| && Takes(rows, window, skipped, k) then Cut(rows, window, skipped, k + 1) else k
  }

  datatype Window = Window(order: seq<Pending>, cursor: int)

  /** The window a Sync takes out of the rows it fetched. */
  function TakeWindow(rows: seq<Entry>, after: int, window: nat, skipped: set<int>): Window {
    var c := Cut(rows, window, skipped, 0);
    Window(Collate(rows[..c], skipped), if c == 0 then after else rows[c - 1].nr)
  }

  method CollectWindow(rows: seq<Entry>, after: int, window: nat, skipped: set<int>)
    returns (order: seq<Pending>, lastSeq: int)
    ensures Window(order, lastSeq) == TakeWindow(rows, after, window, skipped)
  {
    order, lastSeq := [], after;
    var index: map<int, nat> := map[];
    var i := 0;
    while i < |rows|
      invariant 0 <= i <= |rows|
      invariant order == Collate(rows[..i], skipped)
      invariant lastSeq == if i == 0 then after else rows[i - 1].nr
      invariant Cut(rows, window, skipped, 0) == Cut(rows, window, skipped, i)
      invariant forall id :: id in index ==> index[id] < |order| && order[index[id]].id == id
      invariant forall k :: 0 <= k < |order| ==> order[k].id in index && index[order[k].id] == k
    {
      var e := rows[i];
      assert rows[..i + 1][..i] == rows[..i];
      if e.nr in skipped {
        lastSeq := e.nr;
        i := i + 1;
        continue;
      }
      if |order| >= window {
        break;
      }
      if e.item in index {
        assert Find(order, e.item) == index[e.item];
        order := order[index[e.item] := Pending(e.item, e.kind)];
      } else {
        assert Find(order, e.item) == |order|;
        index := index[e.item := |order|];
        order := order + [Pending(e.item, e.kind)];
      }
      lastSeq := e.nr;
      i := i + 1;
    }
    assert Cut(rows, window, skipped, 0) == i;
  }

  // ----- What a window means -----

  ghost predicate Distinct(order: seq<Pending>) {
    forall i, j :: 0 <= i < j < |order| ==> order[i].id != order[j].id
  }

  ghost predicate Listed(order: seq<Pending>, id: int) {
    exists k :: 0 <= k < |order| && order[k].id == id
  }

  /** Some row of the run names the item and is not skipped. */
  ghost predicate Touched(rows: seq<Entry>, skipped: set<int>, id: int) {
    exists k :: 0 <= k < |rows| && rows[k].item == id && rows[k].nr !in skipped
  }

  /** Row k is the last unskipped row of its item in the run. */
  ghost predicate LastWord(rows: seq<Entry>, skipped: set<int>, k: nat)
    requires k < |rows|
  {
    && rows[k].nr !in skipped
    && forall j :: k < j < |rows| && rows[j].nr !in skipped ==> rows[j].item != rows[k].item
  }

  /** The work list names every touched item once, with the kind of its final row. */
  lemma {:induction false} CollateMeaning(rows: seq<Entry>, skipped: set<int>)
    ensures Distinct(Collate(rows, skipped))
    ensures forall id :: Listed(Collate(rows, skipped), id) <==> Touched(rows, skipped, id)
    ensures forall k :: 0 <= k < |rows| && LastWord(rows, skipped, k) ==>
      Pending(rows[k].item, rows[k].kind) in Collate(rows, skipped)
  {
    if rows != [] {
      var init, e := rows[..|rows| - 1], rows[|rows| - 1];
      var order := Collate(init, skipped);
      CollateMeaning(init, skipped);
      var result := Collate(rows, skipped);
      forall id
        ensures Listed(result, id) <==> Touched(rows, skipped, id)
      {
        assert rows == init + [e];
        TouchedLast(init, e, skipped, id);
        if e.nr !in skipped {
          NoteMeaning(order, e.item, e.kind, id);
        }
      }
      forall k | 0 <= k < |rows| && LastWord(rows, skipped, k)
        ensures Pending(rows[k].item, rows[k].kind) in result
      {
        if k < |init| {
          assert LastWord(init, skipped, k);
          var p := Pending(rows[k].item, rows[k].kind);
          var i :| 0 <= i < |order| && order[i] == p;
          assert result[i] == p;
        } else {
          NoteMeaning(order, e.item, e.kind, e.item);
        }
      }
    }
  }

  lemma TouchedLast(init: seq<Entry>, e: Entry, skipped: set<int>, id: int)
    ensures Touched(init + [e], skipped, id) <==>
      Touched(init, skipped, id) || (e.item == id && e.nr !in skipped)
  {
    var rows := init + [e];
    if e.item == id && e.nr !in skipped {
      assert rows[|init|].item == id;
    }
    if Touched(init, skipped, id) {
      var k :| 0 <= k < |init| && init[k].item == id && init[k].nr !in skipped;
      assert rows[k].item == id;
    }
  }

  lemma NoteMeaning(order: seq<Pending>, item: int, kind: Kind, id: int)
    ensures Listed(Note(order, item, kind), id) <==> Listed(order, id) || id == item
    ensures Pending(item, kind) in Note(order, item, kind)
  {
    var k := Find(order, item);
    var result := Note(order, item, kind);
    assert result[k] == Pending(item, kind);
    if Listed(order, id) {
      var i :| 0 <= i < |order| && order[i].id == id;
      assert result[i].id == id;
    }
    if Listed(result, id) && id != item {
      var i :| 0 <= i < |result| && result[i].id == id;
      assert order[i].id == id;
    }
  }

  /** Items keep the place they get at their first row: a longer run only adds to the end of the list. */
  lemma {:induction false} CollateStable(rows: seq<Entry>, skipped: set<int>, k: nat, i: nat)
    requires k <= |rows| && i < |Collate(rows[..k], skipped)|
    ensures i < |Collate(rows, skipped)|
    ensures Collate(rows, skipped)[i].id == Collate(rows[..k], skipped)[i].id
  {
    if k == |rows| {
      assert rows[..k] == rows;
    } else {
      var init := rows[..|rows| - 1];
      assert init[..k] == rows[..k];
      CollateStable(init, skipped, k, i);
    }
  }

  lemma {:induction false} CollateBound(rows: seq<Entry>, window: nat, skipped: set<int>, c: nat)
    requires c <= |rows|
    requires forall j :: 0 <= j < c ==> Takes(rows, window, skipped, j)
    ensures |Collate(rows[..c], skipped)| <= window
  {
    if c > 0 {
      CollateBound(rows, window, skipped, c - 1);
      assert rows[..c][..c - 1] == rows[..c - 1];
      assert Takes(rows, window, skipped, c - 1);
    }
  }

  /** How many of the pending rows of a folder one Sync consumes. */
  function Consumed(pending: seq<Entry>, window: nat, skipped: set<int>): (c: nat)
    ensures c <= |pending|
  {
    Cut(Limit(pending, window * 4 + |skipped|), window, skipped, 0)
  }

  function NextWindow(log: seq<Entry>, folder: int, after: int, window: nat, skipped: set<int>): Window {
    TakeWindow(Limit(Since(log, folder, after), window * 4 + |skipped|), after, window, skipped)
  }

  lemma ConsumedRun(log: seq<Entry>, last: int, folder: int, after: int, window: nat, skipped: set<int>)
    requires Ordered(log, last) && window > 0
    ensures
      var all := Since(log, folder, after);
      var c := Consumed(all, window, skipped);
      var w := NextWindow(log, folder, after, window, skipped);
      && w.order == Collate(all[..c], skipped)
      && w.cursor == (if c == 0 then after else all[c - 1].nr)
      && (c == 0 <==> all == [])
      && Since(log, folder, w.cursor) == all[c..]
  {
    var all := Since(log, folder, after);
    var rows := Limit(all, window * 4 + |skipped|);
    var c := Consumed(all, window, skipped);
    assert rows[..c] == all[..c];
    if all != [] {
      assert Takes(rows, window, skipped, 0);
    }
    if c > 0 {
      SinceSuffix(log, last, folder, after, c);
    }
  }

  /** The rows up to a mark are a run of the pending rows. */
  lemma RunMembers(log: seq<Entry>, last: int, folder: int, after: int, all: seq<Entry>, c: nat, mark: int)
    requires Ordered(log, last) && all == Since(log, folder, after)
    requires c <= |all| && mark == if c == 0 then after else all[c - 1].nr
    ensures forall e :: e in all[..c] <==> e in log && e.folder == folder && after < e.nr <= mark
  {
    SinceOrdered(log, last, folder, after);
    forall e ensures e in all[..c] <==> e in log && e.folder == folder && after < e.nr <= mark {
      SinceMember(log, folder, after, e);
      assert e in all[..c] ==> e in all;
    }
  }

  lemma WindowRows(log: seq<Entry>, last: int, folder: int, after: int, window: nat, skipped: set<int>)
    requires Ordered(log, last) && window > 0
    ensures
      var all := Since(log, folder, after);
      var c := Consumed(all, window, skipped);
      var w := NextWindow(log, folder, after, window, skipped);
      && Since(log, folder, w.cursor) == all[c..]
      && (all == [] ==> w.cursor == after)
      && (all != [] ==> after < w.cursor <= last)
  {
    ConsumedRun(log, last, folder, after, window, skipped);
    SinceOrdered(log, last, folder, after);
  }

  lemma WindowList(log: seq<Entry>, last: int, folder: int, after: int, window: nat, skipped: set<int>)
    requires Ordered(log, last) && window > 0
    ensures
      var all := Since(log, folder, after);
      var c := Consumed(all, window, skipped);
      var w := NextWindow(log, folder, after, window, skipped);
      w.order == Collate(all[..c], skipped) && |w.order| <= window
  {
    ConsumedRun(log, last, folder, after, window, skipped);
    var all := Since(log, folder, after);
    var c := Consumed(all, window, skipped);
    var rows := Limit(all, window * 4 + |skipped|);
    assert rows[..c] == all[..c];
    CollateBound(rows, window, skipped, c);
  }

  /**
   Windows are filled. Every consumed row was skipped or found room in the list; and a
   row is left behind only because the list is full and the row would need it, or
   because as many rows were consumed as are fetched at a time.
   */
  lemma WindowFilled(log: seq<Entry>, last: int, folder: int, after: int, window: nat, skipped: set<int>)
    requires Ordered(log, last) && window > 0
    ensures
      var all := Since(log, folder, after);
      var c := Consumed(all, window, skipped);
      var w := NextWindow(log, folder, after, window, skipped);
      && (forall k :: 0 <= k < c ==> all[k].nr in skipped || |Collate(all[..k], skipped)| < window)
      && c <= window * 4 + |skipped|
      && (c < |all| ==> (|w.order| == window && all[c].nr !in skipped) || c == window * 4 + |skipped|)
  {
    WindowList(log, last, folder, after, window, skipped);
    var all := Since(log, folder, after);
    var rows := Limit(all, window * 4 + |skipped|);
    var c := Consumed(all, window, skipped);
    forall k | 0 <= k <= c ensures rows[..k] == all[..k] {}
    forall k | 0 <= k < c ensures all[k].nr in skipped || |Collate(all[..k], skipped)| < window {
      assert Takes(rows, window, skipped, k);
    }
    if c < |rows| {
      assert !Takes(rows, window, skipped, c);
    }
  }

  /**
   Window consumption. Out of the rows of a folder past `after`, a Sync with the
   given window and skip set consumes a run: exactly the rows up to the new
   cursor. It lists at most `window` items, each once, namely those with an
   unskipped consumed row, under the kind of the last such row; and it consumes
   something, and moves the cursor, whenever something is pending.
   */
  lemma WindowConsumption(log: seq<Entry>, last: int, folder: int, after: int, window: nat, skipped: set<int>)
    requires Ordered(log, last) && window > 0
    ensures
      var all := Since(log, folder, after);
      var c := Consumed(all, window, skipped);
      var w := NextWindow(log, folder, after, window, skipped);
      && Since(log, folder, w.cursor) == all[c..]
      && (forall e :: e in all[..c] <==> e in log && e.folder == folder && after < e.nr <= w.cursor)
      && |w.order| <= window
      && Distinct(w.order)
      && (forall id :: Listed(w.order, id) <==> Touched(all[..c], skipped, id))
      && (forall k :: 0 <= k < c && LastWord(all[..c], skipped, k) ==> Pending(all[k].item, all[k].kind) in w.order)
      && (all == [] ==> w.cursor == after)
      && (all != [] ==> after < w.cursor <= last)
  {
    WindowRows(log, last, folder, after, window, skipped);
    WindowList(log, last, folder, after, window, skipped);
    ConsumedRun(log, last, folder, after, window, skipped);
    var all := Since(log, folder, after);
    var c := Consumed(all, window, skipped);
    RunMembers(log, last, folder, after, all, c, NextWindow(log, folder, after, window, skipped).cursor);
    CollateMeaning(all[..c], skipped);
  }
}
