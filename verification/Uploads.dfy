/** What a Sync answer says about each item, exactly. */
module Uploads {
  import opened Options
  import opened ChangeStore
  import opened FeedWindow
  import opened CollectionSync

  /*
   And why a device that uploads items is not told when they go (internal/eas/sync.go:
   applyClientCommands beside serverChanges and itemCommand).
   */

  function IdOf(c: Command): int {
    match c
    case Add(id, _) => id
    case Change(id, _) => id
    case Delete(id) => id
  }

  /** The verdict on one work-list entry. */
  function VerdictOn(p: Pending, items: map<int, Item>, folder: int, broken: set<int>, cutoff: int): Verdict {
    Judge(p.kind, LoadItem(items, p.id, folder, p.id in broken), cutoff)
  }

  /** Unlisted items stay as they were. */
  lemma {:induction false} WorkUnlisted(order: seq<Pending>, items: map<int, Item>, folder: int, broken: set<int>,
                                        known: set<int>, cutoff: int, id: int)
    requires !Listed(order, id)
    ensures var w := Work(order, items, folder, broken, known, cutoff);
      (id in w.known <==> id in known) && forall c :: c in w.commands ==> IdOf(c) != id
  {
    if order != [] {
      var init, p := order[..|order| - 1], order[|order| - 1];
      assert p.id != id;
      forall k | 0 <= k < |init| ensures init[k].id != id {
        assert order[k].id != id;
      }
      WorkUnlisted(init, items, folder, broken, known, cutoff, id);
    }
  }

  /** A listed item gets the one command its verdict and the known set call for, and no other. */
  lemma {:induction false} WorkListed(order: seq<Pending>, items: map<int, Item>, folder: int, broken: set<int>,
                                      known: set<int>, cutoff: int, k: nat)
    requires Distinct(order) && k < |order|
    ensures
      var id := order[k].id;
      var v := VerdictOn(order[k], items, folder, broken, cutoff);
      var w := Work(order, items, folder, broken, known, cutoff);
      && (id in w.known <==> id in Learn(v, id, known))
      && (forall c :: c in w.commands && IdOf(c) == id <==> Tell(v, id, known) == Some(c))
  {
    var n := |order| - 1;
    var init, p := order[..n], order[n];
    var before := Work(init, items, folder, broken, known, cutoff);
    if k < n {
      WorkListed(init, items, folder, broken, known, cutoff, k);
    } else {
      forall j | 0 <= j < n ensures init[j].id != p.id {
        assert order[j].id != order[n].id;
      }
      WorkUnlisted(init, items, folder, broken, known, cutoff, p.id);
    }
  }

  /**
   The device is told to delete an item exactly when a consumed row made the server
   look at it, it is gone or was deleted, and the server thinks the device has it.
   */
  lemma DeleteTold(items: map<int, Item>, log: seq<Entry>, last: int, folder: int, start: Rows, window: nat,
                   cutoff: int, applied: bool, skipped: set<int>, broken: set<int>, id: int)
    requires Ordered(log, last) && window > 0 && start.state.Some?
    ensures
      var w := NextWindow(log, folder, start.state.value.cursor, window, skipped);
      var answer := Finish(items, log, folder, start, w, cutoff, applied, broken).response;
      Delete(id) in answer.commands <==>
        && id in start.known
        && exists p :: p in w.order && p.id == id && VerdictOn(p, items, folder, broken, cutoff) == Hide
  {
    var w := NextWindow(log, folder, start.state.value.cursor, window, skipped);
    WindowConsumption(log, last, folder, start.state.value.cursor, window, skipped);
    if k :| 0 <= k < |w.order| && w.order[k].id == id {
      WorkListed(w.order, items, folder, broken, start.known, cutoff, k);
      assert w.order[k] in w.order;
      assert IdOf(Delete(id)) == id;
    } else {
      WorkUnlisted(w.order, items, folder, broken, start.known, cutoff, id);
      assert IdOf(Delete(id)) == id;
    }
  }

  /** The feed after a client's Add: its own row, which the same request skips. */
  function Uploaded(log: seq<Entry>, last: int, folder: int, id: int): seq<Entry> {
    log + [Entry(last + 1, folder, id, Added)]
  }

  /** The only row of a new item is the one its upload left. */
  lemma OnlyRow(log: seq<Entry>, last: int, folder: int, after: int, id: int, e: Entry)
    requires forall r :: r in log ==> r.item != id
    requires e in Since(Uploaded(log, last, folder, id), folder, after) && e.item == id
    ensures e.nr == last + 1
  {
    SinceMember(Uploaded(log, last, folder, id), folder, after, e);
  }

  lemma FreshUnlisted(log: seq<Entry>, last: int, folder: int, after: int, window: nat, id: int)
    requires Ordered(log, last) && last >= 0 && window > 0 && forall r :: r in log ==> r.item != id
    ensures !Listed(NextWindow(Uploaded(log, last, folder, id), folder, after, window, {last + 1}).order, id)
  {
    var full := Uploaded(log, last, folder, id);
    var all := Since(full, folder, after);
    var c := Consumed(all, window, {last + 1});
    WindowConsumption(full, last + 1, folder, after, window, {last + 1});
    forall k | 0 <= k < c && all[..c][k].item == id ensures all[..c][k].nr in {last + 1} {
      OnlyRow(log, last, folder, after, id, all[k]);
    }
  }

  /** The request that uploads an item does not learn that its device has it. */
  lemma UploadNotLearned(items: map<int, Item>, log: seq<Entry>, last: int, rows: Rows, folder: int, key: nat,
                         window: nat, cutoff: int, broken: set<int>, id: int)
    requires Ordered(log, last) && last >= 0 && window > 0
    requires rows.state.Some? && rows.state.value.key == key && id !in rows.known
    requires forall r :: r in log ==> r.item != id
    ensures
      var t := Serve(items, Uploaded(log, last, folder, id), rows, folder, Key(key), window, cutoff, true,
                     {last + 1}, broken);
      && t.response.Answer? && t.rows.state.Some? && id !in t.rows.known
      && forall c :: c in t.response.commands ==> IdOf(c) != id
  {
    var after := rows.state.value.cursor;
    var w := NextWindow(Uploaded(log, last, folder, id), folder, after, window, {last + 1});
    FreshUnlisted(log, last, folder, after, window, id);
    WorkUnlisted(w.order, items, folder, broken, rows.known, cutoff, id);
  }

  /**
   So an uploaded item that is deleted on the server is never taken off its device:
   whatever else happened in between, as long as the item was not sent to it, the
   answer that passes the "delete" row has no Delete for it.
   */
  lemma UploadOrphaned(items: map<int, Item>, log: seq<Entry>, last: int, start: Rows, folder: int, window: nat,
                       cutoff: int, applied: bool, skipped: set<int>, broken: set<int>, id: int)
    requires Ordered(log, last) && window > 0 && start.state.Some? && id !in start.known
    requires !Live(items, id, folder)
    ensures
      var w := NextWindow(log, folder, start.state.value.cursor, window, skipped);
      var t := Finish(items, log, folder, start, w, cutoff, applied, broken);
      && id !in t.rows.known
      && forall c :: c in t.response.commands ==> IdOf(c) != id
  {
    var w := NextWindow(log, folder, start.state.value.cursor, window, skipped);
    WindowConsumption(log, last, folder, start.state.value.cursor, window, skipped);
    if k :| 0 <= k < |w.order| && w.order[k].id == id {
      WorkListed(w.order, items, folder, broken, start.known, cutoff, k);
    } else {
      WorkUnlisted(w.order, items, folder, broken, start.known, cutoff, id);
    }
  }
}
