/** Collection sync as a replication protocol. */
module Replication {
  import opened Options
  import opened ChangeStore
  import opened FeedWindow
  import opened CollectionSync

  /*
   One device, one folder, any number of writers. Writers change an item first and
   append to the feed afterwards; a Sync reads the feed, then loads its items one by
   one while writers go on, then saves its cursor; its response may be delivered or
   lost. Proves what every step keeps.
   */

  /** A feed row a writer still has to append. */
  datatype Owe = Owe(folder: int, kind: Kind)

  /** A Sync between its key check and its answer. */
  datatype Session = Session(prev: SyncState, todo: seq<Pending>, cursor: int, cutoff: int,
                             commands: seq<Command>)

  /**
   `told` and `stale` are history: the view a device would have had it received
   every response since its last key 0, and the items deliberately left out of it
   (filtered, not loadable, or without a feed row when the device started over).
   */
  datatype Sys = Sys(folder: int, items: map<int, Item>, log: seq<Entry>, lastSeq: int,
                     owed: map<int, seq<Owe>>, rows: Rows, session: Option<Session>,
                     key: nat, view: map<int, int>, wire: Option<Response>,
                     told: map<int, int>, stale: set<int>)

  datatype Step =
    | Write(id: int, item: Item, owes: seq<Owe>)
    | Append(id: int)
    | Begin(window: nat, cutoff: int)
    | LoadNext(broken: bool)
    | End
    | Deliver
    | Lose
    | DeviceReset
    | ServerReset
    | Prune(mark: int)

  // ----- The device -----

  function Apply(view: map<int, int>, c: Command): map<int, int> {
    match c
    case Add(id, content) => view[id := content]
    case Change(id, content) => view[id := content]
    case Delete(id) => view - {id}
  }

  function ApplyAll(view: map<int, int>, commands: seq<Command>): map<int, int> {
    if commands == [] then view
    else Apply(ApplyAll(view, commands[..|commands| - 1]), commands[|commands| - 1])
  }

  /** An Add names an absent item, a Change or Delete a present one. */
  predicate Fit(view: map<int, int>, c: Command) {
    if c.Add? then c.id !in view else c.id in view
  }

  predicate Fits(view: map<int, int>, commands: seq<Command>) {
    commands == [] ||
    (Fits(view, commands[..|commands| - 1]) &&
     Fit(ApplyAll(view, commands[..|commands| - 1]), commands[|commands| - 1]))
  }

  function Held(view: map<int, int>, id: int): Option<int> {
    if id in view then Some(view[id]) else None
  }

  function Shown(items: map<int, Item>, id: int, folder: int): Option<int> {
    if Live(items, id, folder) then Some(items[id].content) else None
  }

  // ----- The feed -----

  /** The kind of the last row of an item past a cursor. */
  function LastSince(log: seq<Entry>, folder: int, id: int, after: int): Option<Kind> {
    if log == [] then None
    else
      var e := log[|log| - 1];
      if e.folder == folder && e.item == id && e.nr > after then Some(e.kind)
      else LastSince(log[..|log| - 1], folder, id, after)
  }

  /** The kind of the last row still owed to a folder. */
  function LastOwed(owes: seq<Owe>, folder: int): Option<Kind> {
    if owes == [] then None
    else
      var rest := LastOwed(owes[1..], folder);
      if rest.Some? then rest else if owes[0].folder == folder then Some(owes[0].kind) else None
  }

  function OwedTo(owed: map<int, seq<Owe>>, id: int, folder: int): Option<Kind> {
    if id in owed then LastOwed(owed[id], folder) else None
  }

  function SetOwed(owed: map<int, seq<Owe>>, id: int, owes: seq<Owe>): map<int, seq<Owe>> {
    if owes == [] then owed - {id} else owed[id := owes]
  }

  function DropBelow(log: seq<Entry>, folder: int, mark: int): seq<Entry> {
    if log == [] then []
    else
      var rest := DropBelow(log[..|log| - 1], folder, mark);
      var e := log[|log| - 1];
      if e.folder == folder && e.nr <= mark then rest else rest + [e]
  }

  /** The last word on an item of the folder, appended or still owed. */
  function Latest(s: Sys, id: int): Option<Kind> {
    var o := OwedTo(s.owed, id, s.folder);
    if o.Some? then o else LastSince(s.log, s.folder, id, 0)
  }

  /**
   What the server asks of a writer: a change that shows in a folder leaves a row
   there, and "deleted" is the last word only where the item is not live.
   */
  ghost predicate Honest(items: map<int, Item>, id: int, item: Item, owes: seq<Owe>) {
    forall f :: var o := LastOwed(owes, f);
      && (o.None? ==> Shown(items[id := item], id, f) == Shown(items, id, f))
      && (o == Some(Removed) ==> !Live(items[id := item], id, f))
  }

  // ----- The steps -----

  ghost predicate Enabled(s: Sys, step: Step) {
    match step
    case Write(id, item, owes) => id !in s.owed && Honest(s.items, id, item, owes)
    case Append(id) => id in s.owed && s.owed[id] != []
    case Begin(window, _) => s.session.None? && s.wire.None? && window > 0
    case LoadNext(_) => s.session.Some? && s.session.value.todo != []
    case End => s.session.Some? && s.session.value.todo == []
    case Deliver => s.wire.Some?
    case Lose => s.wire.Some?
    case DeviceReset => s.session.None?
    case ServerReset => s.session.None?
    case Prune(mark) => s.rows.state.Some? ==> mark <= s.rows.state.value.cursor
  }

  function RequestKeyOf(s: Sys): RequestKey {
    if s.key == 0 then Initial else Key(s.key)
  }

  function NoRow(s: Sys): set<int> {
    set id | id in s.items && Live(s.items, id, s.folder) && Latest(s, id).None?
  }

  function BeginStep(s: Sys, window: nat, cutoff: int): Sys {
    match Admit(s.rows, RequestKeyOf(s))
    case None => s.(wire := Some(Refused(3)))
    case Some(start) =>
      var prev := start.state.value;
      var w := NextWindow(s.log, s.folder, prev.cursor, window, {});
      var begun := s.(rows := start,
                      session := Some(Session(prev, w.order, w.cursor, if s.key == 0 then cutoff else 0, [])));
      if s.key == 0 then begun.(told := map[], stale := NoRow(s)) else begun
  }

  function LoadStep(s: Sys, broken: bool): Sys
    requires s.session.Some? && s.session.value.todo != []
  {
    var q := s.session.value;
    var p := q.todo[0];
    var v := Judge(p.kind, LoadItem(s.items, p.id, s.folder, broken), q.cutoff);
    var step := Advance(Progress(q.commands, s.rows.known), v, p.id);
    var told := match Tell(v, p.id, s.rows.known) case Some(c) => Apply(s.told, c) case None => s.told;
    s.(rows := s.rows.(known := step.known),
       session := Some(q.(todo := q.todo[1..], commands := step.commands)),
       told := told,
       stale := if v.Silent? then s.stale + {p.id} else s.stale - {p.id})
  }

  function EndStep(s: Sys): Sys
    requires s.session.Some?
  {
    var q := s.session.value;
    var more := Since(s.log, s.folder, q.cursor) != [];
    var state := NextState(q.prev, q.cursor, false, more);
    s.(rows := s.rows.(state := Some(state)), session := None,
       wire := Some(Answer(state.key, q.commands, more)))
  }

  function DeliverStep(s: Sys): Sys
    requires s.wire.Some?
  {
    match s.wire.value
    case Refused(_) => s.(wire := None, key := 0, view := map[])
    case Answer(key, commands, _) => s.(wire := None, key := key, view := ApplyAll(s.view, commands))
  }

  function Next(s: Sys, step: Step): Sys
    requires step.Append? ==> step.id in s.owed && s.owed[step.id] != []
    requires step.LoadNext? ==> s.session.Some? && s.session.value.todo != []
    requires step.End? ==> s.session.Some?
    requires step.Deliver? ==> s.wire.Some?
  {
    match step
    case Write(id, item, owes) =>
      s.(items := s.items[id := item], owed := SetOwed(s.owed, id, owes))
    case Append(id) =>
      var o := s.owed[id][0];
      s.(log := s.log + [Entry(s.lastSeq + 1, o.folder, id, o.kind)], lastSeq := s.lastSeq + 1,
         owed := SetOwed(s.owed, id, s.owed[id][1..]))
    case Begin(window, cutoff) => BeginStep(s, window, cutoff)
    case LoadNext(broken) => LoadStep(s, broken)
    case End => EndStep(s)
    case Deliver => DeliverStep(s)
    case Lose => s.(wire := None)
    case DeviceReset => s.(key := 0, view := map[], wire := None)
    case ServerReset => s.(rows := Rows(None, {}))
    case Prune(mark) => s.(log := DropBelow(s.log, s.folder, mark))
  }

  /** A store with no cursor row for the device, and a device with nothing. */
  predicate Initially(s: Sys) {
    && s.items == map[] && s.log == [] && s.lastSeq == 0 && s.owed == map[]
    && s.rows == Rows(None, {}) && s.session.None? && s.key == 0 && s.view == map[]
    && s.wire.None? && s.told == map[] && s.stale == {}
  }

  // ----- What every step keeps -----

  /** Something about the item is still to come. */
  predicate Due(s: Sys, id: int, after: int) {
    LastSince(s.log, s.folder, id, after).Some? || OwedTo(s.owed, id, s.folder).Some?
  }

  predicate Settled(s: Sys, id: int, after: int) {
    Due(s, id, after) || id in s.stale || Shown(s.items, id, s.folder) == Held(s.told, id)
  }

  ghost predicate Truthful(s: Sys) {
    && Ordered(s.log, s.lastSeq) && s.lastSeq >= 0
    && (forall id :: id in s.owed ==> s.owed[id] != [])
    && (forall id :: Latest(s, id) == Some(Removed) ==> !Live(s.items, id, s.folder))
  }

  /** The server's books: known items, and an opinion on every item. */
  ghost predicate Booked(s: Sys) {
    s.rows.state.Some? ==>
      && s.rows.known == s.told.Keys
      && s.rows.state.value.key >= 1
      && 0 <= s.rows.state.value.cursor <= s.lastSeq
      && (s.session.None? ==> forall id :: Settled(s, id, s.rows.state.value.cursor))
  }

  /** The work list entry still speaks the last word, or a later word is due. */
  predicate Current(s: Sys, q: Session, p: Pending) {
    var last := LastSince(s.log, s.folder, p.id, q.prev.cursor);
    last.Some? && (Due(s, p.id, q.cursor) || last == Some(p.kind))
  }

  ghost predicate InSession(s: Sys) {
    s.session.Some? ==>
      var q := s.session.value;
      && s.rows.state == Some(q.prev) && s.wire.None?
      && q.prev.cursor <= q.cursor <= s.lastSeq
      && Distinct(q.todo)
      && (forall k :: 0 <= k < |q.todo| ==> Current(s, q, q.todo[k]))
      && (forall id :: Listed(q.todo, id) || Settled(s, id, q.cursor))
      && (s.key == 0 || s.key == q.prev.key)
      && Fits(s.view, q.commands) && s.told == ApplyAll(s.view, q.commands)
      && (q.cursor == q.prev.cursor ==> q.todo == [] && q.commands == [])
  }

  /** The device's view: exactly what it was told when the keys agree. */
  ghost predicate InStep(s: Sys) {
    && (s.key == 0 ==> s.view == map[])
    && (s.session.None? && s.rows.state.Some? && s.key == s.rows.state.value.key ==> s.view == s.told)
    && (s.wire.Some? && s.wire.value.Answer? ==>
          var a := s.wire.value;
          && a.key >= 1 && Fits(s.view, a.commands)
          && (a.commands != [] ==> s.key != a.key)
          && (s.rows.state.Some? ==>
                s.rows.state.value.key == a.key && s.told == ApplyAll(s.view, a.commands)))
  }

  ghost predicate Inv(s: Sys) {
    Truthful(s) && Booked(s) && InSession(s) && InStep(s)
  }

  lemma InvInit(s: Sys)
    requires Initially(s)
    ensures Inv(s)
  {
  }

  // ----- Lemmas about the feed -----

  lemma {:induction false} LastSinceLater(log: seq<Entry>, last: int, folder: int, id: int, a: int, b: int)
    requires Ordered(log, last) && a <= b
    ensures LastSince(log, folder, id, b).Some? ==> LastSince(log, folder, id, a) == LastSince(log, folder, id, b)
  {
    if log != [] {
      var init, e := log[..|log| - 1], log[|log| - 1];
      LastSinceLater(init, last, folder, id, a, b);
      if e.nr <= b {
        LastSinceBeyond(init, e.nr, folder, id, b);
      }
    }
  }

  lemma {:induction false} LastSinceBeyond(log: seq<Entry>, last: int, folder: int, id: int, after: int)
    requires Ordered(log, last) && last <= after
    ensures LastSince(log, folder, id, after).None?
  {
    if log != [] {
      LastSinceBeyond(log[..|log| - 1], last, folder, id, after);
    }
  }

  lemma LastSinceAppend(log: seq<Entry>, e: Entry, folder: int, id: int, after: int)
    ensures LastSince(log + [e], folder, id, after) ==
      if e.folder == folder && e.item == id && e.nr > after then Some(e.kind)
      else LastSince(log, folder, id, after)
  {
    assert (log + [e])[..|log|] == log;
  }

  lemma {:induction false} DropBelowOrdered(log: seq<Entry>, last: int, folder: int, mark: int)
    requires Ordered(log, last)
    ensures Ordered(DropBelow(log, folder, mark), last)
    ensures forall e :: e in DropBelow(log, folder, mark) ==> e in log
  {
    if log != [] {
      DropBelowOrdered(log[..|log| - 1], last, folder, mark);
      var rest, e := DropBelow(log[..|log| - 1], folder, mark), log[|log| - 1];
      forall k | 0 <= k < |rest| ensures rest[k].nr < e.nr {
        assert rest[k] in log[..|log| - 1];
      }
    }
  }

  /** Dropping rows up to a mark hides nothing from a cursor at or past the mark. */
  lemma {:induction false} LastSinceDrop(log: seq<Entry>, last: int, folder: int, id: int, after: int, mark: int)
    requires Ordered(log, last)
    ensures mark <= after ==>
      LastSince(DropBelow(log, folder, mark), folder, id, after) == LastSince(log, folder, id, after)
    ensures LastSince(DropBelow(log, folder, mark), folder, id, after).Some? ==>
      LastSince(DropBelow(log, folder, mark), folder, id, after) == LastSince(log, folder, id, after)
  {
    if log != [] {
      var init, e := log[..|log| - 1], log[|log| - 1];
      LastSinceDrop(init, last, folder, id, after, mark);
      LastSinceAppend(DropBelow(init, folder, mark), e, folder, id, after);
      if e.folder == folder && e.nr <= mark {
        DropAll(init, last, folder, id, after, mark);
      }
    }
  }

  lemma {:induction false} DropAll(log: seq<Entry>, last: int, folder: int, id: int, after: int, mark: int)
    requires forall k :: 0 <= k < |log| ==> log[k].nr <= mark
    ensures LastSince(DropBelow(log, folder, mark), folder, id, after).None?
  {
    if log != [] {
      var init, e := log[..|log| - 1], log[|log| - 1];
      DropAll(init, last, folder, id, after, mark);
      LastSinceAppend(DropBelow(init, folder, mark), e, folder, id, after);
    }
  }

  // ----- What a window says about the feed -----

  /** The kind of the last of some rows naming the item. */
  function LastIn(rows: seq<Entry>, id: int): Option<Kind> {
    if rows == [] then None
    else if rows[|rows| - 1].item == id then Some(rows[|rows| - 1].kind)
    else LastIn(rows[..|rows| - 1], id)
  }

  lemma {:induction false} LastInAppend(a: seq<Entry>, b: seq<Entry>, id: int)
    ensures LastIn(a + b, id) == if LastIn(b, id).Some? then LastIn(b, id) else LastIn(a, id)
  {
    if b == [] {
      assert a + b == a;
    } else {
      assert (a + b)[..|a + b| - 1] == a + b[..|b| - 1];
      LastInAppend(a, b[..|b| - 1], id);
    }
  }

  lemma {:induction false} LastInSince(log: seq<Entry>, folder: int, id: int, after: int)
    ensures LastIn(Since(log, folder, after), id) == LastSince(log, folder, id, after)
  {
    if log != [] {
      var init, e := log[..|log| - 1], log[|log| - 1];
      LastInSince(init, folder, id, after);
      LastInAppend(Since(init, folder, after), [e], id);
    }
  }

  lemma FindNote(order: seq<Pending>, item: int, kind: Kind, id: int)
    requires Distinct(order)
    ensures Distinct(Note(order, item, kind))
    ensures var result := Note(order, item, kind);
      var k, k' := Find(order, id), Find(result, id);
      if id == item then k' < |result| && result[k'].kind == kind
      else (k < |order| <==> k' < |result|) && (k < |order| ==> result[k'] == order[k])
  {
    var result := Note(order, item, kind);
    var k, k', i := Find(order, id), Find(result, id), Find(order, item);
    assert result[i] == Pending(item, kind);
    if id != item && k < |order| {
      assert result[k] == order[k];
    }
    if id != item && k' < |result| {
      assert result[k'] == order[k'];
    }
  }

  lemma {:induction false} CollateLast(rows: seq<Entry>, id: int)
    ensures Distinct(Collate(rows, {}))
    ensures var k := Find(Collate(rows, {}), id);
      LastIn(rows, id) == if k < |Collate(rows, {})| then Some(Collate(rows, {})[k].kind) else None
  {
    if rows != [] {
      var init, e := rows[..|rows| - 1], rows[|rows| - 1];
      CollateLast(init, id);
      FindNote(Collate(init, {}), e.item, e.kind, id);
    }
  }

  /** Unlisted items have nothing between the cursors; listed ones their last word. */
  lemma WindowCurrent(s: Sys, after: int, window: nat, id: int)
    requires Ordered(s.log, s.lastSeq) && window > 0
    ensures
      var w := NextWindow(s.log, s.folder, after, window, {});
      var k := Find(w.order, id);
      var last := LastSince(s.log, s.folder, id, after);
      && Distinct(w.order)
      && (k == |w.order| ==> last == LastSince(s.log, s.folder, id, w.cursor))
      && (k < |w.order| ==> last.Some?)
      && (k < |w.order| ==> LastSince(s.log, s.folder, id, w.cursor).Some? || last == Some(w.order[k].kind))
  {
    var all := Since(s.log, s.folder, after);
    var c := Consumed(all, window, {});
    var w := NextWindow(s.log, s.folder, after, window, {});
    ConsumedRun(s.log, s.lastSeq, s.folder, after, window, {});
    CollateLast(all[..c], id);
    LastInAppend(all[..c], all[c..], id);
    assert all[..c] + all[c..] == all;
    LastInSince(s.log, s.folder, id, after);
    LastInSince(s.log, s.folder, id, w.cursor);
  }
}
