/** Pruning the change feed (internal/store/maintenance.go). */
module Pruning {
  import opened Options
  import opened ChangeStore
  import opened FeedWindow
  import opened CollectionSync
  import opened Replication

  /*
   Invisible to a device with a cursor row, however often it is done; fatal to one that
   has none.
   */

  /** The feed of a folder nobody holds is left alone: its first device will need all of it. */
  lemma {:induction false} NoCursorKept(log: seq<Entry>, states: map<Place, SyncState>, folder: int, after: int)
    requires forall p :: p in states ==> p.folder != folder
    ensures Since(Unspent(log, states), folder, after) == Since(log, folder, after)
  {
    if log != [] {
      var init, e := log[..|log| - 1], log[|log| - 1];
      NoCursorKept(init, states, folder, after);
      var rest := Unspent(init, states);
      assert (rest + [e])[..|rest|] == rest;
    }
  }

  /** Past its own cursor, and with any rows appended later, a device sees the same feed. */
  lemma {:induction false} PrunedFeed(log: seq<Entry>, states: map<Place, SyncState>, tail: seq<Entry>,
                                      place: Place, after: int)
    requires place in states && after >= states[place].cursor
    ensures Since(Unspent(log, states) + tail, place.folder, after) == Since(log + tail, place.folder, after)
    decreases |log| + |tail|
  {
    if tail != [] {
      var t := tail[..|tail| - 1];
      PrunedFeed(log, states, t, place, after);
      assert (log + tail)[..|log + tail| - 1] == log + t;
      var kept := Unspent(log, states);
      assert (kept + tail)[..|kept + tail| - 1] == kept + t;
    } else {
      assert log + tail == log && Unspent(log, states) + tail == Unspent(log, states);
      if log != [] {
        var init := log[..|log| - 1];
        PrunedFeed(init, states, [], place, after);
        assert init + [] == init && Unspent(init, states) + [] == Unspent(init, states);
      }
    }
  }

  /**
   Pruning is invisible to initialised devices: whatever is appended later, every
   request with a key other than 0 gets the same answer and leaves the same rows,
   and the pending rows (the estimate, and what Ping tests) are the same.
   */
  lemma {:induction false} PruneInvisible(items: map<int, Item>, log: seq<Entry>, last: int,
                                          states: map<Place, SyncState>, tail: seq<Entry>, place: Place,
                                          state: SyncState, known: set<int>, key: RequestKey, window: nat, cutoff: int,
                                          applied: bool, skipped: set<int>, broken: set<int>)
    requires Ordered(log + tail, last) && window > 0
    requires place in states && state.cursor >= states[place].cursor && !key.Initial?
    ensures
      var kept := Unspent(log, states) + tail;
      var rows := Rows(Some(state), known);
      && Since(kept, place.folder, state.cursor) == Since(log + tail, place.folder, state.cursor)
      && Serve(items, kept, rows, place.folder, key, window, cutoff, applied, skipped, broken)
           == Serve(items, log + tail, rows, place.folder, key, window, cutoff, applied, skipped, broken)
  {
    var full := log + tail;
    var w := NextWindow(full, place.folder, state.cursor, window, skipped);
    PrunedFeed(log, states, tail, place, state.cursor);
    WindowRows(full, last, place.folder, state.cursor, window, skipped);
    PrunedFeed(log, states, tail, place, w.cursor);
  }

  /** Once every holder of a folder has caught up, pruning empties its feed. */
  lemma {:induction false} CaughtUpPrune(log: seq<Entry>, states: map<Place, SyncState>, folder: int, after: int)
    requires exists p :: p in states && p.folder == folder
    requires forall p, k :: p in states && p.folder == folder && 0 <= k < |log| && log[k].folder == folder ==>
      log[k].nr <= states[p].cursor
    ensures Since(Unspent(log, states), folder, after) == []
  {
    if log != [] {
      var init, e := log[..|log| - 1], log[|log| - 1];
      CaughtUpPrune(init, states, folder, after);
      assert e.folder == folder ==> Spent(states, e);
      assert !Spent(states, e) ==> Unspent(log, states)[..|Unspent(log, states)| - 1] == Unspent(init, states);
    }
  }

  /**
   The other direction: after such a prune, an initial Sync of the folder by any
   device answers with nothing at all, whatever live items the folder holds.
   */
  lemma InitialAfterPrune(items: map<int, Item>, log: seq<Entry>, states: map<Place, SyncState>, folder: int,
                          rows: Rows, window: nat, cutoff: int, broken: set<int>)
    requires window > 0
    requires exists p :: p in states && p.folder == folder
    requires forall p, k :: p in states && p.folder == folder && 0 <= k < |log| && log[k].folder == folder ==>
      log[k].nr <= states[p].cursor
    ensures Serve(items, Unspent(log, states), rows, folder, Initial, window, cutoff, false, {}, broken)
      == Served(Rows(Some(SyncState(1, 0)), {}), Answer(1, [], false))
  {
    CaughtUpPrune(log, states, folder, 0);
  }

  /** The number of the last spent row of a folder, or 0. */
  ghost function SpentMark(log: seq<Entry>, states: map<Place, SyncState>, folder: int): int {
    if log == [] then 0
    else
      var e := log[|log| - 1];
      if e.folder == folder && Spent(states, e) then e.nr else SpentMark(log[..|log| - 1], states, folder)
  }

  /** For one folder, pruning is the protocol's Prune step, with a mark no device has yet to reach. */
  lemma {:induction false} PruneIsStep(log: seq<Entry>, last: int, states: map<Place, SyncState>, folder: int,
                                       after: int)
    requires Ordered(log, last) && forall p :: p in states ==> states[p].cursor >= 0
    ensures var mark := SpentMark(log, states, folder);
      && (forall p :: p in states && p.folder == folder ==> mark <= states[p].cursor)
      && (forall k :: 0 <= k < |log| && log[k].folder == folder ==> (Spent(states, log[k]) <==> log[k].nr <= mark))
      && Since(Unspent(log, states), folder, after) == Since(DropBelow(log, folder, mark), folder, after)
  {
    var mark := SpentMark(log, states, folder);
    SpentBelow(log, last, states, folder);
    SameRows(log, states, folder, mark, after);
  }

  lemma {:induction false} SpentBelow(log: seq<Entry>, last: int, states: map<Place, SyncState>, folder: int)
    requires Ordered(log, last) && forall p :: p in states ==> states[p].cursor >= 0
    ensures var mark := SpentMark(log, states, folder);
      && 0 <= mark
      && (mark > 0 ==>
            exists k :: 0 <= k < |log| && log[k].folder == folder && log[k].nr == mark && Spent(states, log[k]))
      && (forall k :: 0 <= k < |log| && log[k].folder == folder ==> (Spent(states, log[k]) <==> log[k].nr <= mark))
      && (forall p :: p in states && p.folder == folder ==> mark <= states[p].cursor)
  {
    if log != [] {
      var init, e := log[..|log| - 1], log[|log| - 1];
      SpentBelow(init, last, states, folder);
    }
  }

  lemma {:induction false} SameRows(log: seq<Entry>, states: map<Place, SyncState>, folder: int, mark: int, after: int)
    requires forall k :: 0 <= k < |log| && log[k].folder == folder ==> (Spent(states, log[k]) <==> log[k].nr <= mark)
    ensures Since(Unspent(log, states), folder, after) == Since(DropBelow(log, folder, mark), folder, after)
  {
    if log != [] {
      var init, e := log[..|log| - 1], log[|log| - 1];
      SameRows(init, states, folder, mark, after);
      var a, b := Unspent(init, states), DropBelow(init, folder, mark);
      assert (a + [e])[..|a|] == a && (b + [e])[..|b|] == b;
    }
  }

  // ----- Pruning again and again -----

  /** The tables as one device-folder meets them: its own rows, and the cursor rows of all others. */
  datatype World = World(items: map<int, Item>, log: seq<Entry>, last: nat, own: SyncState, known: set<int>,
                         others: map<Place, SyncState>)

  /** `Others` is anything that happens to other device-folders; `Ask` is a request of this one. */
  datatype Step =
    | SetItem(id: int, item: Item)
    | Append(folder: int, id: int, kind: Kind)
    | Others(others: map<Place, SyncState>)
    | Ask(key: RequestKey, window: nat, cutoff: int, applied: bool, skipped: set<int>, broken: set<int>)
    | Prune

  function States(w: World, place: Place): map<Place, SyncState> {
    w.others[place := w.own]
  }

  function AnswerTo(w: World, place: Place, s: Step): Served
    requires s.Ask?
  {
    Serve(w.items, w.log, Rows(Some(w.own), w.known), place.folder, s.key, s.window, s.cutoff, s.applied,
          s.skipped, s.broken)
  }

  /** One step, on a server that prunes or on one that never does. */
  function Take(w: World, place: Place, s: Step, pruning: bool): World {
    match s
    case SetItem(id, item) => w.(items := w.items[id := item])
    case Append(folder, id, kind) => w.(log := w.log + [Entry(w.last + 1, folder, id, kind)], last := w.last + 1)
    case Others(others) => w.(others := others)
    case Prune => if pruning then w.(log := Unspent(w.log, States(w, place))) else w
    case Ask(_, _, _, _, _, _) =>
      var rows := AnswerTo(w, place, s).rows;
      w.(own := rows.state.value, known := rows.known)
  }

  datatype Ran = Ran(world: World, answers: seq<Response>)

  /** A run, and what the device was answered. */
  function Run(w: World, place: Place, steps: seq<Step>, pruning: bool): Ran {
    if steps == [] then Ran(w, [])
    else
      var r := Run(w, place, steps[..|steps| - 1], pruning);
      var s := steps[|steps| - 1];
      Ran(Take(r.world, place, s, pruning),
          if s.Ask? then r.answers + [AnswerTo(r.world, place, s).response] else r.answers)
  }

  /** No request of this device starts over. */
  predicate GoesOn(s: Step) {
    s.Ask? ==> !s.key.Initial? && s.window > 0
  }

  /** The same to this device: its rows, the items, and the feed past its cursor. */
  ghost predicate Alike(a: World, b: World, place: Place) {
    && a.items == b.items && a.last == b.last && a.own == b.own && a.known == b.known
    && Ordered(b.log, b.last)
    && forall n :: n >= b.own.cursor ==> Since(a.log, place.folder, n) == Since(b.log, place.folder, n)
  }

  lemma AppendAlike(a: World, b: World, place: Place, s: Step)
    requires Alike(a, b, place) && s.Append?
    ensures Alike(Take(a, place, s, true), Take(b, place, s, false), place)
  {
    var e := Entry(b.last + 1, s.folder, s.id, s.kind);
    forall n | n >= b.own.cursor
      ensures Since(a.log + [e], place.folder, n) == Since(b.log + [e], place.folder, n)
    {
    }
  }

  lemma PruneAlike(a: World, b: World, place: Place)
    requires Alike(a, b, place)
    ensures Alike(Take(a, place, Step.Prune, true), Take(b, place, Step.Prune, false), place)
  {
    var states := States(a, place);
    forall n | n >= b.own.cursor
      ensures Since(Unspent(a.log, states), place.folder, n) == Since(b.log, place.folder, n)
    {
      PrunedFeed(a.log, states, [], place, n);
      assert a.log + [] == a.log && Unspent(a.log, states) + [] == Unspent(a.log, states);
    }
  }

  lemma AskAlike(a: World, b: World, place: Place, s: Step)
    requires Alike(a, b, place) && s.Ask? && GoesOn(s)
    ensures AnswerTo(a, place, s) == AnswerTo(b, place, s)
    ensures Alike(Take(a, place, s, true), Take(b, place, s, false), place)
  {
    var rows := Rows(Some(b.own), b.known);
    var w := NextWindow(b.log, place.folder, b.own.cursor, s.window, s.skipped);
    WindowRows(b.log, b.last, place.folder, b.own.cursor, s.window, s.skipped);
    assert AnswerTo(b, place, s).rows.state.value.cursor in {b.own.cursor, w.cursor};
  }

  lemma {:induction false} RunsAlike(w: World, place: Place, steps: seq<Step>)
    requires Ordered(w.log, w.last) && forall k :: 0 <= k < |steps| ==> GoesOn(steps[k])
    ensures
      var pruned, full := Run(w, place, steps, true), Run(w, place, steps, false);
      pruned.answers == full.answers && Alike(pruned.world, full.world, place)
    decreases |steps|
  {
    if steps != [] {
      var init, s := steps[..|steps| - 1], steps[|steps| - 1];
      RunsAlike(w, place, init);
      var a, b := Run(w, place, init, true).world, Run(w, place, init, false).world;
      match s
      case Append(_, _, _) => AppendAlike(a, b, place, s);
      case Prune => PruneAlike(a, b, place);
      case Ask(_, _, _, _, _, _) => AskAlike(a, b, place, s);
      case SetItem(_, _) =>
      case Others(_) =>
    }
  }

  /**
   Over every run: whatever writers and other devices do, and however often the feed
   is pruned in between, a device that never starts over is given the answers, and
   left with the rows and the pending rows, of a server that never prunes.
   */
  lemma {:induction false} PruningUnnoticed(w: World, place: Place, steps: seq<Step>)
    requires Ordered(w.log, w.last) && forall k :: 0 <= k < |steps| ==> GoesOn(steps[k])
    ensures
      var pruned, full := Run(w, place, steps, true), Run(w, place, steps, false);
      && pruned.answers == full.answers
      && pruned.world.own == full.world.own && pruned.world.known == full.world.known
      && pruned.world.items == full.world.items
      && Since(pruned.world.log, place.folder, pruned.world.own.cursor)
           == Since(full.world.log, place.folder, full.world.own.cursor)
  {
    RunsAlike(w, place, steps);
  }
}
