/** Every step of the replication protocol keeps its invariant; safety over whole runs. */
module ReplicationSafety {
  import opened Options
  import opened ChangeStore
  import opened FeedWindow
  import opened CollectionSync
  import opened Replication

  // ----- Writers -----

  lemma WriteItem(s: Sys, id: int, item: Item, owes: seq<Owe>, x: int, after: int)
    requires Truthful(s) && Enabled(s, Write(id, item, owes))
    ensures var t := Next(s, Write(id, item, owes));
      && (Due(s, x, after) ==> Due(t, x, after))
      && (Settled(s, x, after) ==> Settled(t, x, after))
      && (Latest(t, x) == Some(Removed) ==> !Live(t.items, x, t.folder))
  {
    var t := Next(s, Write(id, item, owes));
    var o := LastOwed(owes, s.folder);
    assert OwedTo(t.owed, id, s.folder) == o;
    if x == id && o.None? {
      assert Shown(t.items, id, s.folder) == Shown(s.items, id, s.folder);
      assert Latest(t, id) == Latest(s, id);
      assert Live(t.items, id, s.folder) == Live(s.items, id, s.folder);
    } else if x != id {
      assert Latest(t, x) == Latest(s, x);
    }
  }

  lemma WriteKeeps(s: Sys, id: int, item: Item, owes: seq<Owe>)
    requires Inv(s) && Enabled(s, Write(id, item, owes))
    ensures Inv(Next(s, Write(id, item, owes)))
  {
    var t := Next(s, Write(id, item, owes));
    forall x, after {
      WriteItem(s, id, item, owes, x, after);
    }
    forall x ensures Latest(t, x) == Some(Removed) ==> !Live(t.items, x, t.folder) {
      WriteItem(s, id, item, owes, x, 0);
    }
    if s.session.Some? {
      var q := s.session.value;
      forall k | 0 <= k < |q.todo| ensures Current(t, q, q.todo[k]) {
        assert Current(s, q, q.todo[k]);
      }
    }
  }

  lemma AppendItem(s: Sys, id: int, x: int, after: int)
    requires Truthful(s) && Enabled(s, Append(id)) && after <= s.lastSeq
    ensures var t := Next(s, Append(id));
      && (Due(s, x, after) ==> Due(t, x, after))
      && (LastSince(s.log, s.folder, x, after).Some? ==> LastSince(t.log, s.folder, x, after).Some?)
      && (!Due(t, x, after) ==> LastSince(t.log, s.folder, x, after) == LastSince(s.log, s.folder, x, after))
      && Latest(t, x) == Latest(s, x)
  {
    var t := Next(s, Append(id));
    var o := s.owed[id][0];
    var e := Entry(s.lastSeq + 1, o.folder, id, o.kind);
    LastSinceAppend(s.log, e, s.folder, x, after);
    LastSinceAppend(s.log, e, s.folder, x, 0);
    assert OwedTo(t.owed, id, s.folder) == LastOwed(s.owed[id][1..], s.folder);
  }

  /** An appended row of the device's own item is past every cursor. */
  lemma AppendCurrent(s: Sys, id: int, q: Session, p: Pending)
    requires Truthful(s) && Enabled(s, Append(id)) && q.prev.cursor <= q.cursor <= s.lastSeq
    requires Current(s, q, p)
    ensures Current(Next(s, Append(id)), q, p)
  {
    var o := s.owed[id][0];
    var e := Entry(s.lastSeq + 1, o.folder, id, o.kind);
    AppendItem(s, id, p.id, q.cursor);
    AppendItem(s, id, p.id, q.prev.cursor);
    LastSinceAppend(s.log, e, s.folder, p.id, q.cursor);
    LastSinceAppend(s.log, e, s.folder, p.id, q.prev.cursor);
  }

  lemma AppendKeeps(s: Sys, id: int)
    requires Inv(s) && Enabled(s, Append(id))
    ensures Inv(Next(s, Append(id)))
  {
    var t := Next(s, Append(id));
    forall x ensures Latest(t, x) == Latest(s, x) {
      AppendItem(s, id, x, 0);
    }
    if s.rows.state.Some? {
      var c := s.rows.state.value.cursor;
      forall x | Settled(s, x, c) ensures Settled(t, x, c) {
        AppendItem(s, id, x, c);
      }
    }
    if s.session.Some? {
      var q := s.session.value;
      forall x | Settled(s, x, q.cursor) ensures Settled(t, x, q.cursor) {
        AppendItem(s, id, x, q.cursor);
      }
      forall k | 0 <= k < |q.todo| ensures Current(t, q, q.todo[k]) {
        AppendCurrent(s, id, q, q.todo[k]);
      }
    }
  }

  // ----- A Sync -----

  lemma WindowBounds(log: seq<Entry>, last: int, folder: int, after: int, window: nat)
    requires Ordered(log, last) && window > 0 && after <= last
    ensures var w := NextWindow(log, folder, after, window, {});
      after <= w.cursor <= last && (w.cursor == after ==> w.order == [])
  {
    ConsumedRun(log, last, folder, after, window, {});
    SinceOrdered(log, last, folder, after);
  }

  /** The work list says the last word on its items, and leaves out the quiet ones. */
  ghost predicate Covers(s: Sys, order: seq<Pending>, after: int, cursor: int, id: int) {
    var k := Find(order, id);
    var last := LastSince(s.log, s.folder, id, after);
    if k == |order| then last == LastSince(s.log, s.folder, id, cursor)
    else last.Some? && (LastSince(s.log, s.folder, id, cursor).Some? || last == Some(order[k].kind))
  }

  lemma SessionOpens(s: Sys, t: Sys)
    requires Inv(s) && s.session.None? && s.wire.None?
    requires t.session.Some? && t.wire.None? && t.view == s.view && t.key == s.key
    requires t.log == s.log && t.owed == s.owed && t.folder == s.folder && t.items == s.items
    requires t.lastSeq == s.lastSeq
    requires
      var q := t.session.value;
      && t.rows.state == Some(q.prev) && q.commands == []
      && q.prev.cursor <= q.cursor <= s.lastSeq
      && Distinct(q.todo)
      && (q.cursor == q.prev.cursor ==> q.todo == [])
      && (forall id :: Covers(s, q.todo, q.prev.cursor, q.cursor, id))
      && (s.key == 0 ==> q.prev.cursor == 0 && t.told == map[] && t.stale == NoRow(s))
      && (s.key != 0 ==> s.rows.state == Some(q.prev) && s.key == q.prev.key && t.told == s.told && t.stale == s.stale)
    requires s.key == 0 ==> s.view == map[]
    ensures InSession(t)
  {
    var q := t.session.value;
    forall id ensures Listed(q.todo, id) || Settled(t, id, q.cursor) {
      assert Covers(s, q.todo, q.prev.cursor, q.cursor, id);
      if Find(q.todo, id) == |q.todo| {
        BeginSettled(s, t, id);
      }
    }
    forall k | 0 <= k < |q.todo| ensures Current(t, q, q.todo[k]) {
      assert Covers(s, q.todo, q.prev.cursor, q.cursor, q.todo[k].id);
      assert Find(q.todo, q.todo[k].id) == k;
    }
  }

  lemma BeginSession(s: Sys, window: nat, cutoff: int)
    requires Inv(s) && Enabled(s, Begin(window, cutoff))
    ensures InSession(Next(s, Begin(window, cutoff)))
  {
    var t := Next(s, Begin(window, cutoff));
    if t.session.Some? {
      var q := t.session.value;
      WindowBounds(s.log, s.lastSeq, s.folder, q.prev.cursor, window);
      WindowCurrent(s, q.prev.cursor, window, 0);
      forall id ensures Covers(s, q.todo, q.prev.cursor, q.cursor, id) {
        WindowCurrent(s, q.prev.cursor, window, id);
      }
      SessionOpens(s, t);
    }
  }

  lemma BeginKeeps(s: Sys, window: nat, cutoff: int)
    requires Inv(s) && Enabled(s, Begin(window, cutoff))
    ensures Inv(Next(s, Begin(window, cutoff)))
  {
    BeginSession(s, window, cutoff);
    var t := Next(s, Begin(window, cutoff));
    if t.session.None? {
      assert t == s.(wire := Some(Refused(3)));
      SameBooks(s, t);
    } else {
      BeginBooks(s, window, cutoff);
    }
  }

  lemma BeginBooks(s: Sys, window: nat, cutoff: int)
    requires Inv(s) && Enabled(s, Begin(window, cutoff))
    requires Next(s, Begin(window, cutoff)).session.Some?
    ensures var t := Next(s, Begin(window, cutoff)); Truthful(t) && Booked(t) && InStep(t)
  {
    var t := Next(s, Begin(window, cutoff));
    assert t == s.(rows := t.rows, session := t.session, told := t.told, stale := t.stale);
    forall id ensures Latest(t, id) == Latest(s, id) {
    }
  }

  /** What is not listed was already settled at the old cursor, or never had a row. */
  lemma BeginSettled(s: Sys, t: Sys, id: int)
    requires Inv(s) && s.session.None? && t.session.Some? && t.log == s.log && t.owed == s.owed
    requires t.folder == s.folder && t.items == s.items
    requires s.key == 0 ==> t.session.value.prev.cursor == 0 && t.told == map[] && t.stale == NoRow(s)
    requires s.key != 0 ==> s.rows.state == Some(t.session.value.prev) && t.told == s.told && t.stale == s.stale
    requires LastSince(s.log, s.folder, id, t.session.value.prev.cursor)
      == LastSince(s.log, s.folder, id, t.session.value.cursor)
    ensures Settled(t, id, t.session.value.cursor)
  {
    if s.key != 0 {
      assert Settled(s, id, t.session.value.prev.cursor);
    }
  }

  lemma LoadSettled(s: Sys, broken: bool)
    requires Inv(s) && Enabled(s, LoadNext(broken))
    ensures var q := s.session.value; Settled(Next(s, LoadNext(broken)), q.todo[0].id, q.cursor)
  {
    var q := s.session.value;
    var p := q.todo[0];
    assert Current(s, q, p);
    if !Due(s, p.id, q.cursor) && p.kind.Removed? {
      LastSinceLater(s.log, s.lastSeq, s.folder, p.id, 0, q.prev.cursor);
      assert Latest(s, p.id) == Some(Removed);
    }
  }

  lemma LoadQueue(s: Sys, broken: bool)
    requires Inv(s) && Enabled(s, LoadNext(broken))
    ensures
      var t := Next(s, LoadNext(broken));
      var q, r := s.session.value, t.session.value;
      && Distinct(r.todo)
      && (forall id :: Listed(r.todo, id) || Settled(t, id, q.cursor))
      && (forall k :: 0 <= k < |r.todo| ==> Current(t, r, r.todo[k]))
  {
    var t := Next(s, LoadNext(broken));
    var q, r := s.session.value, t.session.value;
    LoadSettled(s, broken);
    forall id ensures Listed(r.todo, id) || Settled(t, id, q.cursor) {
      if id != q.todo[0].id {
        if Listed(q.todo, id) {
          var k :| 0 <= k < |q.todo| && q.todo[k].id == id;
          assert r.todo[k - 1].id == id;
        } else {
          assert Settled(s, id, q.cursor);
        }
      }
    }
    forall k | 0 <= k < |r.todo| ensures Current(t, r, r.todo[k]) {
      assert Current(s, q, q.todo[k + 1]);
    }
  }

  /** A command made from the known set fits the view the set was told about. */
  lemma AdvanceFits(view: map<int, int>, told: map<int, int>, p: Progress, v: Verdict, id: int)
    requires p.known == told.Keys && Fits(view, p.commands) && told == ApplyAll(view, p.commands)
    ensures
      var p' := Advance(p, v, id);
      var told' := match Tell(v, id, p.known) case Some(c) => Apply(told, c) case None => told;
      p'.known == told'.Keys && Fits(view, p'.commands) && told' == ApplyAll(view, p'.commands)
  {
    match Tell(v, id, p.known) {
      case None =>
      case Some(c) => assert (p.commands + [c])[..|p.commands|] == p.commands;
    }
  }

  lemma LoadKeeps(s: Sys, broken: bool)
    requires Inv(s) && Enabled(s, LoadNext(broken))
    ensures Inv(Next(s, LoadNext(broken)))
  {
    LoadQueue(s, broken);
    var t := Next(s, LoadNext(broken));
    var q := s.session.value;
    var v := Judge(q.todo[0].kind, LoadItem(s.items, q.todo[0].id, s.folder, broken), q.cutoff);
    AdvanceFits(s.view, s.told, Progress(q.commands, s.rows.known), v, q.todo[0].id);
    forall id ensures Latest(t, id) == Latest(s, id) {
    }
  }

  lemma EndKeeps(s: Sys)
    requires Inv(s) && Enabled(s, End)
    ensures Inv(Next(s, End))
  {
    var t := Next(s, End);
    var q := s.session.value;
    forall id ensures Settled(t, id, q.cursor) {
      assert Listed(q.todo, id) || Settled(s, id, q.cursor);
    }
  }

  // ----- The wire, resets and pruning -----

  lemma DeliverKeeps(s: Sys)
    requires Inv(s) && Enabled(s, Deliver)
    ensures Inv(Next(s, Deliver))
  {
    var t := Next(s, Deliver);
    assert t == s.(wire := None, key := t.key, view := t.view);
    SameBooks(s, t);
  }

  lemma LoseKeeps(s: Sys)
    requires Inv(s) && Enabled(s, Lose)
    ensures Inv(Next(s, Lose))
  {
    SameBooks(s, s.(wire := None));
  }

  lemma DeviceResetKeeps(s: Sys)
    requires Inv(s) && Enabled(s, DeviceReset)
    ensures Inv(Next(s, DeviceReset))
  {
    SameBooks(s, Next(s, DeviceReset));
  }

  lemma ServerResetKeeps(s: Sys)
    requires Inv(s) && Enabled(s, ServerReset)
    ensures Inv(Next(s, ServerReset))
  {
    var t := Next(s, ServerReset);
    forall id ensures Latest(t, id) == Latest(s, id) {
    }
  }

  /** Steps of the device and the wire leave the feed and the books alone. */
  lemma SameBooks(s: Sys, t: Sys)
    requires Truthful(s) && Booked(s)
    requires t == s.(wire := t.wire, key := t.key, view := t.view)
    ensures Truthful(t) && Booked(t)
  {
    forall id ensures Latest(t, id) == Latest(s, id) {
    }
    if s.session.None? && s.rows.state.Some? {
      var c := s.rows.state.value.cursor;
      forall id ensures Settled(t, id, c) {
        assert Settled(s, id, c);
      }
    }
  }

  lemma PruneKeeps(s: Sys, mark: int)
    requires Inv(s) && Enabled(s, Prune(mark))
    ensures Inv(Next(s, Prune(mark)))
  {
    var t := Next(s, Prune(mark));
    DropBelowOrdered(s.log, s.lastSeq, s.folder, mark);
    forall id, after {
      LastSinceDrop(s.log, s.lastSeq, s.folder, id, after, mark);
    }
    if s.rows.state.Some? {
      var c := s.rows.state.value.cursor;
      forall id, after | after >= c && Settled(s, id, after) ensures Settled(t, id, after) {
      }
    }
    if s.session.Some? {
      var q := s.session.value;
      forall k | 0 <= k < |q.todo| ensures Current(t, q, q.todo[k]) {
        assert Current(s, q, q.todo[k]);
      }
    }
  }

  lemma StepKeeps(s: Sys, step: Step)
    requires Inv(s) && Enabled(s, step)
    ensures Inv(Next(s, step))
  {
    match step
    case Write(id, item, owes) => WriteKeeps(s, id, item, owes);
    case Append(id) => AppendKeeps(s, id);
    case Begin(window, cutoff) => BeginKeeps(s, window, cutoff);
    case LoadNext(broken) => LoadKeeps(s, broken);
    case End => EndKeeps(s);
    case Deliver => DeliverKeeps(s);
    case Lose => LoseKeeps(s);
    case DeviceReset => DeviceResetKeeps(s);
    case ServerReset => ServerResetKeeps(s);
    case Prune(mark) => PruneKeeps(s, mark);
  }
}
