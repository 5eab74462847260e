/** What holds at the end of every run of the replication protocol. */
module ReplicationRuns {
  import opened Options
  import opened ChangeStore
  import opened FeedWindow
  import opened CollectionSync
  import opened Replication
  import opened ReplicationSafety

  ghost predicate Runs(s: Sys, steps: seq<Step>)
    decreases |steps|
  {
    steps == [] || (Enabled(s, steps[0]) && Runs(Next(s, steps[0]), steps[1..]))
  }

  ghost function Final(s: Sys, steps: seq<Step>): Sys
    requires Runs(s, steps)
    decreases |steps|
  {
    if steps == [] then s else Final(Next(s, steps[0]), steps[1..])
  }

  lemma {:induction false} RunKeeps(s: Sys, steps: seq<Step>)
    requires Inv(s) && Runs(s, steps)
    ensures Inv(Final(s, steps)) && Final(s, steps).folder == s.folder
    decreases |steps|
  {
    if steps != [] {
      StepKeeps(s, steps[0]);
      RunKeeps(Next(s, steps[0]), steps[1..]);
    }
  }

  /** The device holds the server's current key and nothing is pending or half-written. */
  ghost predicate Quiescent(s: Sys) {
    && s.session.None? && s.rows.state.Some? && s.key == s.rows.state.value.key
    && Since(s.log, s.folder, s.rows.state.value.cursor) == []
    && forall id :: id in s.owed ==> LastOwed(s.owed[id], s.folder).None?
  }

  function LiveView(items: map<int, Item>, folder: int): map<int, int> {
    map id | id in items && Live(items, id, folder) :: items[id].content
  }

  /** No pruning, no date filter and no load error. */
  ghost predicate Plain(step: Step) {
    !step.Prune? && (step.Begin? ==> step.cutoff <= 0) && (step.LoadNext? ==> !step.broken)
  }

  /** Without pruning every live item has a row, and nothing is ever left out. */
  ghost predicate NothingLeftOut(s: Sys) {
    && s.stale == {}
    && (forall id :: Live(s.items, id, s.folder) ==> Latest(s, id).Some?)
    && (s.session.Some? ==> s.session.value.cutoff <= 0)
  }

  lemma PlainKeeps(s: Sys, step: Step)
    requires Inv(s) && Enabled(s, step) && Plain(step) && NothingLeftOut(s)
    ensures NothingLeftOut(Next(s, step))
  {
    var t := Next(s, step);
    if step.Write? {
      var id, o := step.id, LastOwed(step.owes, s.folder);
      assert OwedTo(t.owed, id, s.folder) == o;
      forall x | Live(t.items, x, t.folder) ensures Latest(t, x).Some? {
        assert x == id && o.None? ==> Shown(t.items, x, s.folder) == Shown(s.items, x, s.folder);
        assert Live(s.items, x, s.folder) || OwedTo(t.owed, x, s.folder).Some?;
      }
    } else if step.Append? {
      forall x ensures Latest(t, x) == Latest(s, x) {
        AppendItem(s, step.id, x, 0);
      }
    } else {
      forall x ensures Latest(t, x) == Latest(s, x) && Live(t.items, x, t.folder) == Live(s.items, x, s.folder) {
      }
    }
  }

  lemma {:induction false} PlainRun(s: Sys, steps: seq<Step>)
    requires Inv(s) && Runs(s, steps) && NothingLeftOut(s)
    requires forall k :: 0 <= k < |steps| ==> Plain(steps[k])
    ensures NothingLeftOut(Final(s, steps))
    decreases |steps|
  {
    if steps != [] {
      StepKeeps(s, steps[0]);
      PlainKeeps(s, steps[0]);
      PlainRun(Next(s, steps[0]), steps[1..]);
    }
  }

  lemma QuiescentAgrees(s: Sys)
    requires Inv(s) && Quiescent(s)
    ensures forall id :: id !in s.stale ==> Held(s.view, id) == Shown(s.items, id, s.folder)
    ensures s.stale == {} ==> s.view == LiveView(s.items, s.folder)
  {
    var c := s.rows.state.value.cursor;
    forall id | id !in s.stale ensures Held(s.view, id) == Shown(s.items, id, s.folder) {
      assert Settled(s, id, c);
      LastInSince(s.log, s.folder, id, c);
    }
    if s.stale == {} {
      forall id ensures id in s.view <==> id in LiveView(s.items, s.folder) {
        assert Held(s.view, id) == Shown(s.items, id, s.folder);
      }
      forall id | id in s.view ensures s.view[id] == LiveView(s.items, s.folder)[id] {
        assert Held(s.view, id) == Shown(s.items, id, s.folder);
      }
    }
  }

  /** The device has the item exactly while it lives in the folder, and then with its present content. */
  ghost predicate Right(view: map<int, int>, items: map<int, Item>, folder: int, id: int) {
    && (id in view <==> id in items && !items[id].deleted && items[id].folder == folder)
    && (id in view ==> view[id] == items[id].content)
  }

  lemma RightIff(view: map<int, int>, items: map<int, Item>, folder: int, id: int)
    ensures Right(view, items, folder, id) <==> Held(view, id) == Shown(items, id, folder)
  {
  }

  /**
   Convergence, for every run with any interleaving of writers, Syncs, lost
   responses, retries and resets: at quiescence the device's view agrees with the
   folder on every item not left out on purpose.
   */
  lemma Convergence(s: Sys, steps: seq<Step>)
    requires Initially(s) && Runs(s, steps) && Quiescent(Final(s, steps))
    ensures var t := Final(s, steps);
      forall id :: id !in t.stale ==> Right(t.view, t.items, t.folder, id)
  {
    InvInit(s);
    RunKeeps(s, steps);
    var t := Final(s, steps);
    QuiescentAgrees(t);
    forall id | id !in t.stale ensures Right(t.view, t.items, t.folder, id) {
      RightIff(t.view, t.items, t.folder, id);
    }
  }

  /** In runs without pruning, filters and load errors nothing is left out. */
  lemma PlainConvergence(s: Sys, steps: seq<Step>)
    requires Initially(s) && Runs(s, steps) && Quiescent(Final(s, steps))
    requires forall k :: 0 <= k < |steps| ==> Plain(steps[k])
    ensures var t := Final(s, steps);
      t.view == LiveView(t.items, t.folder) && forall id :: Right(t.view, t.items, t.folder, id)
  {
    InvInit(s);
    PlainRun(s, steps);
    RunKeeps(s, steps);
    var t := Final(s, steps);
    QuiescentAgrees(t);
    forall id ensures Right(t.view, t.items, t.folder, id) {
      RightIff(t.view, t.items, t.folder, id);
    }
  }

  /**
   No silent loss, for every run: when the keys agree, the device holds exactly
   the items the server thinks it knows; and whatever response is on the wire,
   each Add in it names an item the device lacks, each Change or Delete one it has.
   */
  lemma NoSilentLoss(s: Sys, steps: seq<Step>)
    requires Initially(s) && Runs(s, steps)
    ensures
      var t := Final(s, steps);
      && (t.session.None? && t.rows.state.Some? && t.key == t.rows.state.value.key ==>
            t.view.Keys == t.rows.known)
      && (t.wire.Some? && t.wire.value.Answer? ==> Fits(t.view, t.wire.value.commands))
  {
    InvInit(s);
    RunKeeps(s, steps);
  }

  /**
   A lost response that carried commands is noticed: the device's old key is
   refused with Status 3 and nothing moves; a device still at key 0 starts over.
   */
  lemma LostResponseNoticed(s: Sys, steps: seq<Step>, window: nat, cutoff: int)
    requires Initially(s) && Runs(s, steps) && window > 0
    requires
      var t := Final(s, steps);
      t.wire.Some? && t.wire.value.Answer? && t.wire.value.commands != [] && t.session.None?
    ensures
      var t := Final(s, steps);
      var u := Next(Next(t, Lose), Begin(window, cutoff));
      if t.key != 0 then u == t.(wire := Some(Refused(3)))
      else u.rows == Rows(Some(SyncState(1, 0)), {}) && u.told == map[]
  {
    InvInit(s);
    RunKeeps(s, steps);
  }

  // ----- The source's writers are honest -----

  /** An insert: InsertMessage, InsertContact or InsertEvent, then an "add" row. */
  lemma InsertHonest(items: map<int, Item>, id: int, item: Item)
    requires id !in items
    ensures Honest(items, id, item, [Owe(item.folder, Added)])
  {
    OneOwe(Owe(item.folder, Added));
  }

  /** An update in place, which may also bring a deleted item back, then a "change" row. */
  lemma UpdateHonest(items: map<int, Item>, id: int, date: int, content: int)
    requires id in items
    ensures Honest(items, id, Item(items[id].folder, false, date, content), [Owe(items[id].folder, Changed)])
  {
    OneOwe(Owe(items[id].folder, Changed));
  }

  lemma SoftDeleteHonest(items: map<int, Item>, id: int)
    requires id in items
    ensures Honest(items, id, items[id].(deleted := true), [Owe(items[id].folder, Removed)])
  {
    OneOwe(Owe(items[id].folder, Removed));
  }

  /** A move writes a "delete" row to the source and an "add" row to the destination, in either order. */
  lemma MoveHonest(items: map<int, Item>, id: int, to: int)
    requires id in items && to != items[id].folder
    ensures Honest(items, id, items[id].(folder := to), [Owe(items[id].folder, Removed), Owe(to, Added)])
    ensures Honest(items, id, items[id].(folder := to), [Owe(to, Added), Owe(items[id].folder, Removed)])
  {
    var a, b := Owe(items[id].folder, Removed), Owe(to, Added);
    TwoOwes(a, b);
    TwoOwes(b, a);
  }

  lemma OneOwe(a: Owe)
    ensures forall f :: LastOwed([a], f) == if f == a.folder then Some(a.kind) else None
  {
  }

  lemma TwoOwes(a: Owe, b: Owe)
    ensures forall f :: LastOwed([a, b], f) ==
                        (if f == b.folder then Some(b.kind) else if f == a.folder then Some(a.kind) else None)
  {
    assert [a, b][1..] == [b];
    OneOwe(b);
  }
}
