/** What becomes of an item that cannot be loaded. */
module Unloadable {
  import opened Options
  import opened ChangeStore
  import opened FeedWindow
  import opened CollectionSync
  import opened Replication
  import opened ReplicationSafety
  import opened ReplicationRuns
  import opened Draining
  import opened Uploads

  /*
   A comment in itemCommand (internal/eas/sync.go) speaks of never failing silently; the
   answer says nothing of such an item, the cursor passes its row, and nothing is said
   of it later either, until something appends a row for it.
   */

  ghost predicate Names(commands: seq<Command>, id: int) {
    exists c :: c in commands && IdOf(c) == id
  }

  // ----- One answer -----

  predicate TooOld(item: Item, cutoff: int) {
    cutoff > 0 && 0 < item.date < cutoff
  }

  /**
   A live item whose turn has come, not to be deleted, is named in the answer if and
   only if it can be loaded and the date filter lets it through.
   */
  lemma NamedIffLoads(items: map<int, Item>, log: seq<Entry>, last: int, folder: int, start: Rows, window: nat,
                      cutoff: int, applied: bool, skipped: set<int>, broken: set<int>, p: Pending)
    requires Ordered(log, last) && window > 0 && start.state.Some?
    requires p in NextWindow(log, folder, start.state.value.cursor, window, skipped).order
    requires p.kind != Removed && Live(items, p.id, folder)
    ensures
      var w := NextWindow(log, folder, start.state.value.cursor, window, skipped);
      var named := Names(Finish(items, log, folder, start, w, cutoff, applied, broken).response.commands, p.id);
      named <==> p.id !in broken && !TooOld(items[p.id], cutoff)
  {
    var w := NextWindow(log, folder, start.state.value.cursor, window, skipped);
    WindowConsumption(log, last, folder, start.state.value.cursor, window, skipped);
    var k :| 0 <= k < |w.order| && w.order[k] == p;
    WorkListed(w.order, items, folder, broken, start.known, cutoff, k);
    var v := VerdictOn(p, items, folder, broken, cutoff);
    var done := Work(w.order, items, folder, broken, start.known, cutoff);
    match Tell(v, p.id, start.known)
    case None => assert forall c :: c in done.commands ==> IdOf(c) != p.id;
    case Some(c) => assert c in done.commands && IdOf(c) == p.id;
  }

  /** Its rows up to the new cursor are consumed all the same. */
  lemma CursorPasses(log: seq<Entry>, last: int, folder: int, after: int, window: nat, skipped: set<int>, p: Pending)
    requires Ordered(log, last) && window > 0
    requires p in NextWindow(log, folder, after, window, skipped).order
    ensures
      var w := NextWindow(log, folder, after, window, skipped);
      exists e :: e in log && e.folder == folder && e.item == p.id && after < e.nr <= w.cursor
  {
    var w := NextWindow(log, folder, after, window, skipped);
    var all := Since(log, folder, after);
    var c := Consumed(all, window, skipped);
    WindowConsumption(log, last, folder, after, window, skipped);
    var k :| 0 <= k < |w.order| && w.order[k] == p;
    assert Listed(w.order, p.id);
    var j :| 0 <= j < |all[..c]| && all[..c][j].item == p.id;
    assert all[..c][j] in all[..c];
  }

  lemma OneRowSince(e: Entry, after: int)
    ensures Since([e], e.folder, after) == if e.nr > after then [e] else []
  {
    assert [e][..0] == [];
  }

  lemma OneRowWindow(e: Entry, window: nat)
    requires e.nr > 0 && window > 0
    ensures NextWindow([e], e.folder, 0, window, {}) == Window([Pending(e.item, e.kind)], e.nr)
  {
    var rows := [e];
    OneRowSince(e, 0);
    assert rows[..0] == [] && rows[..1] == rows;
    assert Collate([], {}) == [] && Takes(rows, window, {}, 0);
    assert Cut(rows, window, {}, 1) == 1;
    assert Cut(rows, window, {}, 0) == Cut(rows, window, {}, 1);
    assert Note([], e.item, e.kind) == [Pending(e.item, e.kind)];
  }

  lemma OneWork(p: Pending, items: map<int, Item>, folder: int)
    requires p.kind != Removed
    ensures Work([p], items, folder, {p.id}, {}, 0) == Progress([], {})
  {
    assert [p][..0] == [];
  }

  /** One live message, one row, one load error: an empty answer, a new key and nothing pending. */
  lemma Vanished(folder: int, id: int, date: int, content: int)
    ensures
      var items := map[id := Item(folder, false, date, content)];
      var log := [Entry(1, folder, id, Added)];
      var t := Serve(items, log, Rows(Some(SyncState(1, 0)), {}), folder, Key(1), 100, 0, false, {}, {id});
      && Live(items, id, folder)
      && t == Served(Rows(Some(SyncState(2, 1)), {}), Answer(2, [], false))
      && Since(log, folder, t.rows.state.value.cursor) == []
  {
    var items := map[id := Item(folder, false, date, content)];
    OneRowWindow(Entry(1, folder, id, Added), 100);
    OneRowSince(Entry(1, folder, id, Added), 1);
    OneWork(Pending(id, Added), items, folder);
  }

  // ----- Every later run -----

  /** All rows of the item are behind the device, and nothing under way speaks of it. */
  ghost predicate Passed(s: Sys, id: int) {
    && (s.rows.state.Some? ==> LastSince(s.log, s.folder, id, s.rows.state.value.cursor).None?)
    && (s.session.Some? ==>
          var q := s.session.value;
          && LastSince(s.log, s.folder, id, q.cursor).None?
          && !Listed(q.todo, id) && !Names(q.commands, id))
    && (s.wire.Some? && s.wire.value.Answer? ==> !Names(s.wire.value.commands, id))
  }

  /** No new row for the item, and no start from key 0. */
  predicate NoNews(s: Sys, step: Step, id: int) {
    step != Append(id) && (step.Begin? ==> s.key != 0)
  }

  lemma {:induction false} ViewUntouched(view: map<int, int>, commands: seq<Command>, id: int)
    requires !Names(commands, id)
    ensures Held(ApplyAll(view, commands), id) == Held(view, id)
  {
    if commands != [] {
      var init, c := commands[..|commands| - 1], commands[|commands| - 1];
      assert c in commands && IdOf(c) != id;
      assert forall d :: d in init ==> d in commands;
      ViewUntouched(view, init, id);
    }
  }

  lemma BeginPassed(s: Sys, window: nat, cutoff: int, id: int)
    requires Inv(s) && Passed(s, id) && Enabled(s, Begin(window, cutoff)) && s.key != 0
    ensures Passed(Next(s, Begin(window, cutoff)), id)
  {
    var t := BeginStep(s, window, cutoff);
    if t.session.Some? {
      WindowCurrent(s, s.rows.state.value.cursor, window, id);
    }
  }

  lemma LoadPassed(s: Sys, broken: bool, id: int)
    requires Passed(s, id) && Enabled(s, LoadNext(broken))
    ensures var t := Next(s, LoadNext(broken));
      Passed(t, id) && Held(t.told, id) == Held(s.told, id)
  {
    var q, t := s.session.value, LoadStep(s, broken);
    assert q.todo[0].id != id;
    forall k | 0 <= k < |q.todo[1..]| ensures q.todo[1..][k].id != id {
      assert q.todo[k + 1].id != id;
    }
    var v := Judge(q.todo[0].kind, LoadItem(s.items, q.todo[0].id, s.folder, broken), q.cutoff);
    forall c | c in t.session.value.commands ensures IdOf(c) != id {
      assert c in q.commands || Tell(v, q.todo[0].id, s.rows.known) == Some(c);
    }
  }

  /** No step but a new row, or a start from key 0, brings the item back. */
  lemma StepPassed(s: Sys, step: Step, id: int)
    requires Inv(s) && Passed(s, id) && Enabled(s, step) && NoNews(s, step, id)
    ensures var t := Next(s, step);
      Passed(t, id) && Held(t.told, id) == Held(s.told, id) && (id !in s.view ==> id !in t.view)
  {
    match step
    case Write(_, _, _) =>
    case Append(other) =>
      var e := Entry(s.lastSeq + 1, s.owed[other][0].folder, other, s.owed[other][0].kind);
      if s.rows.state.Some? {
        LastSinceAppend(s.log, e, s.folder, id, s.rows.state.value.cursor);
      }
      if s.session.Some? {
        LastSinceAppend(s.log, e, s.folder, id, s.session.value.cursor);
      }
    case Begin(window, cutoff) => BeginPassed(s, window, cutoff, id);
    case LoadNext(broken) => LoadPassed(s, broken, id);
    case End =>
    case Deliver =>
      if s.wire.value.Answer? {
        ViewUntouched(s.view, s.wire.value.commands, id);
        assert Held(Next(s, step).view, id) == Held(s.view, id);
      }
    case Lose =>
    case DeviceReset =>
    case ServerReset =>
    case Prune(mark) =>
      if s.rows.state.Some? {
        LastSinceDrop(s.log, s.lastSeq, s.folder, id, s.rows.state.value.cursor, mark);
      }
      if s.session.Some? {
        LastSinceDrop(s.log, s.lastSeq, s.folder, id, s.session.value.cursor, mark);
      }
  }

  ghost predicate QuietRun(s: Sys, steps: seq<Step>, id: int)
    requires Runs(s, steps)
    decreases |steps|
  {
    steps == [] || (NoNews(s, steps[0], id) && QuietRun(Next(s, steps[0]), steps[1..], id))
  }

  /**
   Over every run from there, with any writers, Syncs, losses and prunes, the device
   is told nothing of the item until a row is appended for it or it starts over.
   */
  lemma {:induction false} StaysPassed(s: Sys, steps: seq<Step>, id: int)
    requires Inv(s) && Passed(s, id) && Runs(s, steps) && QuietRun(s, steps, id)
    ensures var t := Final(s, steps);
      Passed(t, id) && Held(t.told, id) == Held(s.told, id) && (id !in s.view ==> id !in t.view)
    decreases |steps|
  {
    if steps != [] {
      StepPassed(s, steps[0], id);
      StepKeeps(s, steps[0]);
      StaysPassed(Next(s, steps[0]), steps[1..], id);
    }
  }

  /** The device after an undisturbed Sync during which some items could not be loaded. */
  function BrokenPull(s: Sys, window: nat, broken: set<int>): Sys
    requires s.session.None? && window > 0
  {
    AnsweredIsServe(s, window, 0, broken);
    DeliverStep(Answered(s, window, 0, broken))
  }

  lemma BrokenPullPasses(s: Sys, window: nat, broken: set<int>, id: int)
    requires Inv(s) && Idle(s) && Accepted(s) && window > 0 && id in broken && Live(s.items, id, s.folder)
    requires
      var w := NextWindow(s.log, s.folder, StartCursor(s), window, {});
      (exists p :: p in w.order && p.id == id && p.kind != Removed) && LastSince(s.log, s.folder, id, w.cursor).None?
    ensures var u := BrokenPull(s, window, broken);
      Inv(u) && Passed(u, id) && Held(u.view, id) == Held(s.view, id)
  {
    var w := NextWindow(s.log, s.folder, StartCursor(s), window, {});
    var p :| p in w.order && p.id == id && p.kind != Removed;
    var start := Admit(s.rows, RequestKeyOf(s)).value;
    var t := Answered(s, window, 0, broken);
    AnsweredKeeps(s, window, 0, broken);
    AnsweredIsServe(s, window, 0, broken);
    NamedIffLoads(s.items, s.log, s.lastSeq, s.folder, start, window, 0, false, {}, broken, p);
    assert !Names(t.wire.value.commands, id);
    ViewUntouched(s.view, t.wire.value.commands, id);
    StepKeeps(t, Deliver);
  }

  /**
   So a live message whose one Sync met a load error stays off the device, through
   any later run, until something appends a row for it or the device starts over.
   */
  lemma LoadErrorLosesItem(s: Sys, window: nat, broken: set<int>, id: int, steps: seq<Step>)
    requires Inv(s) && Idle(s) && Accepted(s) && window > 0 && id in broken && Live(s.items, id, s.folder)
    requires
      var w := NextWindow(s.log, s.folder, StartCursor(s), window, {});
      (exists p :: p in w.order && p.id == id && p.kind != Removed) && LastSince(s.log, s.folder, id, w.cursor).None?
    requires var u := BrokenPull(s, window, broken); Runs(u, steps) && QuietRun(u, steps, id)
    ensures id !in s.view ==> id !in Final(BrokenPull(s, window, broken), steps).view
  {
    BrokenPullPasses(s, window, broken, id);
    StaysPassed(BrokenPull(s, window, broken), steps, id);
  }
}
