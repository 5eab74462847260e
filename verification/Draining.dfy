/** A device that keeps pulling while nobody writes. */
module Draining {
  import opened Options
  import opened ChangeStore
  import opened FeedWindow
  import opened CollectionSync
  import opened Replication
  import opened ReplicationSafety
  import opened ReplicationRuns

  /*
   Each Sync is one run of the replication protocol and is what the request handler
   computes; the pending rows run out, and the view becomes the folder.
   */

  function LoadAll(s: Sys, broken: set<int>): (t: Sys)
    requires s.session.Some?
    ensures t.session.Some? && t.session.value.todo == []
    decreases |s.session.value.todo|
  {
    if s.session.value.todo == [] then s
    else LoadAll(LoadStep(s, s.session.value.todo[0].id in broken), broken)
  }

  /** Begin, every load and End, with no writer in between. */
  function Answered(s: Sys, window: nat, cutoff: int, broken: set<int>): Sys {
    var b := BeginStep(s, window, cutoff);
    if b.session.None? then b else EndStep(LoadAll(b, broken))
  }

  /** Everything a load may touch is loaded state; the rest stays. */
  lemma {:induction false} LoadAllWork(s: Sys, broken: set<int>, order: seq<Pending>, k: nat, known: set<int>)
    requires s.session.Some? && k <= |order| && s.session.value.todo == order[k..]
    requires
      var q := s.session.value;
      Progress(q.commands, s.rows.known) == Work(order[..k], s.items, s.folder, broken, known, q.cutoff)
    ensures
      var t := LoadAll(s, broken);
      && t.session.Some?
      && var q, r := s.session.value, t.session.value;
      && t == s.(rows := s.rows.(known := t.rows.known), told := t.told, stale := t.stale,
                 session := Some(q.(todo := [], commands := r.commands)))
      && Progress(r.commands, t.rows.known) == Work(order, s.items, s.folder, broken, known, q.cutoff)
    decreases |order| - k
  {
    if k == |order| {
      assert order[..k] == order;
    } else {
      var u := LoadStep(s, s.session.value.todo[0].id in broken);
      assert order[..k + 1][..k] == order[..k];
      assert order[k..][1..] == order[k + 1..];
      LoadAllWork(u, broken, order, k + 1, known);
    }
  }

  lemma SessionIsFinish(b: Sys, w: Window, broken: set<int>)
    requires b.rows.state.Some?
    requires b.session.Some? && b.session.value.todo == w.order && b.session.value.cursor == w.cursor
    requires b.session.value.commands == [] && b.session.value.prev == b.rows.state.value
    ensures
      var t := EndStep(LoadAll(b, broken));
      && t.wire.Some?
      && Served(t.rows, t.wire.value)
           == Finish(b.items, b.log, b.folder, b.rows, w, b.session.value.cutoff, false, broken)
      && t == b.(rows := t.rows, session := None, wire := t.wire, told := t.told, stale := t.stale)
  {
    LoadAllWork(b, broken, w.order, 0, b.rows.known);
  }

  /** One uninterrupted Sync step sequence is exactly the request handler's function. */
  lemma AnsweredIsServe(s: Sys, window: nat, cutoff: int, broken: set<int>)
    requires s.session.None? && window > 0
    ensures
      var t := Answered(s, window, cutoff, broken);
      && t.wire.Some?
      && Served(t.rows, t.wire.value)
           == Serve(s.items, s.log, s.rows, s.folder, RequestKeyOf(s), window,
                    if s.key == 0 then cutoff else 0, false, {}, broken)
      && t.session.None?
      && t == s.(rows := t.rows, wire := t.wire, told := t.told, stale := t.stale)
  {
    var b := BeginStep(s, window, cutoff);
    if b.session.Some? {
      var start := Admit(s.rows, RequestKeyOf(s)).value;
      var w := NextWindow(s.log, s.folder, start.state.value.cursor, window, {});
      assert b.rows == start && b.session.value.todo == w.order && b.session.value.cursor == w.cursor;
      SessionIsFinish(b, w, broken);
    }
  }

  lemma {:induction false} LoadAllKeeps(s: Sys, broken: set<int>)
    requires Inv(s) && s.session.Some?
    ensures Inv(LoadAll(s, broken))
    decreases |s.session.value.todo|
  {
    if s.session.value.todo != [] {
      var b := s.session.value.todo[0].id in broken;
      StepKeeps(s, LoadNext(b));
      LoadAllKeeps(LoadStep(s, b), broken);
    }
  }

  lemma AnsweredKeeps(s: Sys, window: nat, cutoff: int, broken: set<int>)
    requires Inv(s) && Enabled(s, Begin(window, cutoff))
    ensures Inv(Answered(s, window, cutoff, broken))
  {
    StepKeeps(s, Begin(window, cutoff));
    var b := BeginStep(s, window, cutoff);
    if b.session.Some? {
      LoadAllKeeps(b, broken);
      LoadAllWork(b, broken, b.session.value.todo, 0, b.rows.known);
      StepKeeps(LoadAll(b, broken), End);
    }
  }

  /** Without filter and load errors a Sync only takes items off the stale list. */
  lemma {:induction false} LoadAllStale(s: Sys, id: int)
    requires s.session.Some? && s.session.value.cutoff <= 0
    ensures var t := LoadAll(s, {});
      && t.stale <= s.stale
      && (!Listed(s.session.value.todo, id) ==>
            Held(t.told, id) == Held(s.told, id) && (id in t.stale <==> id in s.stale))
    decreases |s.session.value.todo|
  {
    var todo := s.session.value.todo;
    if todo != [] {
      var u := LoadStep(s, false);
      LoadAllStale(u, id);
      if Listed(todo[1..], id) {
        var k :| 0 <= k < |todo[1..]| && todo[1..][k].id == id;
        assert todo[k + 1].id == id;
      }
      assert !Listed(todo, id) ==> todo[0].id != id;
    }
  }

  // ----- The pulling device -----

  /** A pull without filter whose response arrives. */
  function Pull(s: Sys, window: nat): Sys
    requires s.session.None? && window > 0
  {
    AnsweredIsServe(s, window, 0, {});
    DeliverStep(Answered(s, window, 0, {}))
  }

  function PullMany(s: Sys, window: nat, n: nat): Sys
    requires s.session.None? && window > 0
    decreases n
  {
    if n == 0 then s else
      AnsweredIsServe(s, window, 0, {});
      PullMany(Pull(s, window), window, n - 1)
  }

  predicate Idle(s: Sys) {
    s.session.None? && s.wire.None?
  }

  /** The server will take the device's key. */
  predicate Accepted(s: Sys) {
    s.key == 0 || (s.rows.state.Some? && s.key == s.rows.state.value.key)
  }

  function StartCursor(s: Sys): int {
    if s.key == 0 || s.rows.state.None? then 0 else s.rows.state.value.cursor
  }

  function PendingRows(s: Sys): seq<Entry> {
    Since(s.log, s.folder, StartCursor(s))
  }

  lemma PullKeeps(s: Sys, window: nat)
    requires Inv(s) && Idle(s) && window > 0
    ensures Inv(Pull(s, window)) && Idle(Pull(s, window))
    ensures var t := Pull(s, window);
      t.items == s.items && t.log == s.log && t.owed == s.owed && t.folder == s.folder && t.lastSeq == s.lastSeq
  {
    AnsweredKeeps(s, window, 0, {});
    AnsweredIsServe(s, window, 0, {});
    StepKeeps(Answered(s, window, 0, {}), Deliver);
  }

  /** A refused device drops to key 0, and only that. */
  lemma RefusedPull(s: Sys, window: nat)
    requires Idle(s) && window > 0 && !Accepted(s)
    ensures Pull(s, window) == s.(key := 0, view := map[]) && Accepted(Pull(s, window))
  {
  }

  lemma FinishProgress(items: map<int, Item>, log: seq<Entry>, last: int, folder: int, start: Rows,
                       window: nat, cutoff: int)
    requires Ordered(log, last) && window > 0 && start.state.Some? && start.state.value.cursor <= last
    ensures
      var prev := start.state.value;
      var w := NextWindow(log, folder, prev.cursor, window, {});
      var done := Finish(items, log, folder, start, w, cutoff, false, {});
      var all, rest := Since(log, folder, prev.cursor), Since(log, folder, w.cursor);
      && done.rows.state == Some(SyncState(done.response.key, w.cursor))
      && (done.response.more <==> rest != [])
      && (all != [] ==> |rest| < |all| && done.response.key == prev.key + 1 && w.cursor > prev.cursor)
      && (all == [] ==> rest == [] && done.rows == start)
      && (all == [] ==> done.response == Answer(prev.key, [], false))
  {
    var cursor := start.state.value.cursor;
    ConsumedRun(log, last, folder, cursor, window, {});
    SinceOrdered(log, last, folder, cursor);
    WindowBounds(log, last, folder, cursor, window);
  }

  /**
   One accepted pull. With rows pending it consumes some of them and raises the
   key; MoreAvailable says exactly that rows remain, and only after the cursor
   moved. With none pending it changes nothing at all.
   */
  lemma PullProgress(s: Sys, window: nat)
    requires Inv(s) && Idle(s) && window > 0 && Accepted(s)
    ensures
      var a := Answered(s, window, 0, {}).wire;
      var t := Pull(s, window);
      && t.key >= 1 && t.rows.state.Some? && t.key == t.rows.state.value.key
      && (PendingRows(s) != [] ==>
            |PendingRows(t)| < |PendingRows(s)| && t.key == (if s.key == 0 then 2 else s.key + 1)
            && t.rows.state.value.cursor > StartCursor(s))
      && (PendingRows(s) == [] ==> PendingRows(t) == [])
      && (PendingRows(s) == [] && s.key != 0 ==> t == s)
      && a.Some? && a.value.Answer? && (a.value.more <==> PendingRows(t) != [])
      && (a.value.more ==> t.rows.state.value.cursor > StartCursor(s))
  {
    AnsweredIsServe(s, window, 0, {});
    PullKeeps(s, window);
    var start := Admit(s.rows, RequestKeyOf(s)).value;
    FinishProgress(s.items, s.log, s.lastSeq, s.folder, start, window, 0);
  }

  /** A pull leaves items without feed rows alone, and only shortens the stale list. */
  lemma PullStale(s: Sys, window: nat, id: int)
    requires Inv(s) && Idle(s) && window > 0 && Accepted(s)
    ensures var t := Pull(s, window);
      && t.stale <= (if s.key == 0 then NoRow(s) else s.stale)
      && (LastSince(s.log, s.folder, id, 0).None? ==>
            Held(t.told, id) == if s.key == 0 then None else Held(s.told, id))
  {
    AnsweredIsServe(s, window, 0, {});
    var b := BeginStep(s, window, 0);
    var q := b.session.value;
    LoadAllStale(b, id);
    LoadAllWork(b, {}, q.todo, 0, b.rows.known);
    if Listed(q.todo, id) {
      WindowCurrent(s, q.prev.cursor, window, id);
      LastSinceLater(s.log, s.lastSeq, s.folder, id, 0, q.prev.cursor);
    }
  }

  ghost predicate NoneOwed(s: Sys) {
    forall id :: id in s.owed ==> LastOwed(s.owed[id], s.folder).None?
  }

  lemma {:induction false} DrainRounds(s: Sys, window: nat, n: nat)
    requires Inv(s) && Idle(s) && window > 0 && Accepted(s) && s.key != 0 && n >= |PendingRows(s)|
    requires NoneOwed(s)
    ensures
      var t := PullMany(s, window, n);
      && Inv(t) && Idle(t) && Quiescent(t) && t.key != 0
      && t.items == s.items && t.folder == s.folder && t.stale <= s.stale
    decreases n
  {
    if n > 0 {
      PullKeeps(s, window);
      PullProgress(s, window);
      PullStale(s, window, 0);
      DrainRounds(Pull(s, window), window, n - 1);
    }
  }

  lemma {:induction false} DrainRowless(s: Sys, window: nat, n: nat, id: int)
    requires Inv(s) && Idle(s) && window > 0 && Accepted(s) && s.key != 0
    requires LastSince(s.log, s.folder, id, 0).None?
    ensures Held(PullMany(s, window, n).told, id) == Held(s.told, id)
    decreases n
  {
    if n > 0 {
      PullKeeps(s, window);
      PullProgress(s, window);
      PullStale(s, window, id);
      DrainRowless(Pull(s, window), window, n - 1, id);
    }
  }

  /**
   Drain. With no writers an accepted device is quiescent after as many pulls as
   rows are pending, agrees with the folder on every item not left out before, and
   from then on pulling changes nothing.
   */
  lemma Drain(s: Sys, window: nat, n: nat)
    requires Inv(s) && Idle(s) && window > 0 && Accepted(s) && s.key != 0 && n >= |PendingRows(s)|
    requires NoneOwed(s)
    ensures
      var t := PullMany(s, window, n);
      && t.session.None? && Pull(t, window) == t
      && (forall id :: id !in s.stale ==> Held(t.view, id) == Shown(s.items, id, s.folder))
      && (s.stale == {} ==> t.view == LiveView(s.items, s.folder))
  {
    DrainRounds(s, window, n);
    QuiescentAgrees(PullMany(s, window, n));
    PullProgress(PullMany(s, window, n), window);
  }

  /**
   Starting over from key 0, with a first pull and then as many as rows are
   pending, delivers the live items that still have a feed row and no others; so
   the device ends up with the folder if and only if no live item has lost all its
   rows, which is what pruning can do.
   */
  lemma Restart(s: Sys, window: nat, n: nat)
    requires Inv(s) && Idle(s) && window > 0 && s.key == 0 && n >= |PendingRows(s)| && NoneOwed(s)
    ensures Idle(Pull(s, window))
    ensures
      var view := PullMany(Pull(s, window), window, n).view;
      && (forall id :: id in NoRow(s) ==> Held(view, id).None?)
      && (forall id :: id !in NoRow(s) ==> Held(view, id) == Shown(s.items, id, s.folder))
      && (view == LiveView(s.items, s.folder) <==> NoRow(s) == {})
  {
    RestartStart(s, window);
    RestartVia(s, Pull(s, window), window, n);
  }

  lemma RestartVia(s: Sys, u: Sys, window: nat, n: nat)
    requires Inv(u) && Idle(u) && window > 0 && Accepted(u) && u.key != 0 && n >= |PendingRows(u)|
    requires u.items == s.items && u.log == s.log && u.folder == s.folder && NoneOwed(u)
    requires u.stale <= NoRow(s)
    requires forall id :: id in NoRow(s) ==> Held(u.told, id).None?
    ensures
      var view := PullMany(u, window, n).view;
      && (forall id :: id in NoRow(s) ==> Held(view, id).None?)
      && (forall id :: id !in NoRow(s) ==> Held(view, id) == Shown(s.items, id, s.folder))
      && (view == LiveView(s.items, s.folder) <==> NoRow(s) == {})
  {
    forall id | id in NoRow(s) ensures LastSince(u.log, u.folder, id, 0).None? {
      assert Latest(s, id).None?;
    }
    RestartFrom(u, window, n, NoRow(s));
    LiveMinus(s, PullMany(u, window, n).view);
  }

  lemma RestartFrom(u: Sys, window: nat, n: nat, rowless: set<int>)
    requires Inv(u) && Idle(u) && window > 0 && Accepted(u) && u.key != 0 && n >= |PendingRows(u)|
    requires NoneOwed(u) && u.stale <= rowless
    requires forall id :: id in rowless ==> LastSince(u.log, u.folder, id, 0).None? && Held(u.told, id).None?
    ensures
      var view := PullMany(u, window, n).view;
      && (forall id :: id in rowless ==> Held(view, id).None?)
      && (forall id :: id !in rowless ==> Held(view, id) == Shown(u.items, id, u.folder))
  {
    var t := PullMany(u, window, n);
    DrainRounds(u, window, n);
    QuiescentAgrees(t);
    forall id | id in rowless ensures Held(t.view, id).None? {
      DrainRowless(u, window, n, id);
    }
  }

  lemma RestartStart(s: Sys, window: nat)
    requires Inv(s) && Idle(s) && window > 0 && s.key == 0
    ensures
      var u := Pull(s, window);
      && Inv(u) && Idle(u) && Accepted(u) && u.key != 0
      && u.items == s.items && u.log == s.log && u.owed == s.owed && u.folder == s.folder
      && u.stale <= NoRow(s)
      && (forall id :: id in NoRow(s) ==> Held(u.told, id).None?)
      && (PendingRows(s) == [] ==> PendingRows(u) == [])
      && (PendingRows(s) != [] ==> |PendingRows(u)| < |PendingRows(s)|)
  {
    PullKeeps(s, window);
    PullProgress(s, window);
    PullStale(s, window, 0);
    forall id | id in NoRow(s) ensures Held(Pull(s, window).told, id).None? {
      PullStale(s, window, id);
    }
  }

  /** A view that shows everything but the rowless items is the folder iff there are none. */
  lemma LiveMinus(s: Sys, view: map<int, int>)
    requires forall id :: id in NoRow(s) ==> Held(view, id).None?
    requires forall id :: id !in NoRow(s) ==> Held(view, id) == Shown(s.items, id, s.folder)
    ensures view == LiveView(s.items, s.folder) <==> NoRow(s) == {}
  {
    var live := LiveView(s.items, s.folder);
    if NoRow(s) == {} {
      forall id ensures Held(view, id) == Held(live, id) {
        assert Held(view, id) == Shown(s.items, id, s.folder);
      }
      forall id ensures id in view <==> id in live {
        assert Held(view, id) == Held(live, id);
      }
      forall id | id in view ensures view[id] == live[id] {
        assert Held(view, id) == Held(live, id);
      }
    } else {
      var id :| id in NoRow(s);
      assert Held(view, id).None? && id in live;
    }
  }
}
