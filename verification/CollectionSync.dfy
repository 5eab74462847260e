/**
 One Sync request on one collection (internal/eas/sync.go: syncCollection,
 serverChanges, itemCommand and loadAppData), section 2.2.1.21 of MS-ASCMD: as a
 function of the tables it reads, and as the server runs it, table by table.
 */
module CollectionSync {
  import opened Options
  import opened ChangeStore
  import opened FeedWindow

  datatype Command = Add(id: int, content: int) | Change(id: int, content: int) | Delete(id: int)

  /** The SyncKey of a request: absent or zero, a canonical number, or other text. */
  datatype RequestKey = Initial | Key(n: nat) | Garbled

  /** What loading an item yields; `Failed` is any error but "not found". */
  datatype Load = Gone | Failed | Loaded(date: int, content: int)

  /** What a device holds in the store for one folder. */
  datatype Rows = Rows(state: Option<SyncState>, known: set<int>)

  datatype Response = Refused(status: int) | Answer(key: nat, commands: seq<Command>, more: bool)

  datatype Folder = Folder(id: int, owner: string, deleted: bool, email: bool)

  datatype Request = Request(key: RequestKey, windowSize: int, filterType: int)

  // ----- Loading one item and deciding what to say about it -----

  predicate Live(items: map<int, Item>, id: int, folder: int) {
    id in items && !items[id].deleted && items[id].folder == folder
  }

  function LoadItem(items: map<int, Item>, id: int, folder: int, broken: bool): Load {
    if broken then Failed
    else if Live(items, id, folder) then Loaded(items[id].date, items[id].content)
    else Gone
  }

  /** Say nothing, show the item with this content, or take it away. */
  datatype Verdict = Silent | Show(content: int) | Hide

  function Judge(kind: Kind, load: Load, cutoff: int): Verdict {
    if kind.Removed? then Hide
    else match load
      case Failed => Silent
      case Gone => Hide
      case Loaded(date, content) => if cutoff > 0 && 0 < date < cutoff then Silent else Show(content)
  }

  function Tell(v: Verdict, id: int, known: set<int>): Option<Command> {
    match v
    case Silent => None
    case Show(content) => Some(if id in known then Change(id, content) else Add(id, content))
    case Hide => if id in known then Some(Delete(id)) else None
  }

  function Learn(v: Verdict, id: int, known: set<int>): set<int> {
    match v
    case Silent => known
    case Show(_) => known + {id}
    case Hide => known - {id}
  }

  datatype Progress = Progress(commands: seq<Command>, known: set<int>)

  /** The effect of one work-list entry. */
  function Advance(s: Progress, v: Verdict, id: int): Progress {
    Progress(match Tell(v, id, s.known) case Some(c) => s.commands + [c] case None => s.commands,
             Learn(v, id, s.known))
  }

  /** The effect of the work list, front to back. */
  function Work(order: seq<Pending>, items: map<int, Item>, folder: int, broken: set<int>,
                known: set<int>, cutoff: int): Progress
  {
    if order == [] then Progress([], known)
    else
      var p := order[|order| - 1];
      Advance(Work(order[..|order| - 1], items, folder, broken, known, cutoff),
              Judge(p.kind, LoadItem(items, p.id, folder, p.id in broken), cutoff), p.id)
  }

  // ----- Keys, windows and filters -----

  /** The rows a request starts from; None is Status 3. Key 0 starts over. */
  function Admit(rows: Rows, key: RequestKey): (r: Option<Rows>)
    ensures r.Some? ==> r.value.state.Some?
  {
    if key.Initial? then Some(Rows(Some(SyncState(1, 0)), {}))
    else if rows.state.None? || key != Key(rows.state.value.key) then None
    else Some(rows)
  }

  /** The SyncKey moves only when the collection did. */
  function NextState(prev: SyncState, cursor: int, applied: bool, more: bool): SyncState {
    SyncState(if cursor != prev.cursor || applied || more then prev.key + 1 else prev.key, cursor)
  }

  function ClampWindow(requested: int): (w: nat)
    ensures 1 <= w <= 500
    ensures requested > 0 ==> w <= requested && (w == requested || w == 500)
    ensures requested <= 0 ==> w == 100
  {
    if requested <= 0 then 100 else if requested > 500 then 500 else requested
  }

  const DAY := 86400

  function FilterWindow(filterType: int): int {
    match filterType
    case 1 => DAY
    case 2 => 3 * DAY
    case 3 => 7 * DAY
    case 4 => 14 * DAY
    case 5 => 30 * DAY
    case 6 => 90 * DAY
    case 7 => 180 * DAY
    case 8 => 365 * DAY
    case _ => 0
  }

  /** The date filter applies to the initial sync of an email folder only. */
  function Cutoff(initial: bool, email: bool, filterType: int, now: int): int {
    if initial && email && filterType > 0 && FilterWindow(filterType) > 0
    then now - FilterWindow(filterType) else 0
  }

  datatype Served = Served(rows: Rows, response: Response)

  /** The request once admitted and its window known. */
  function Finish(items: map<int, Item>, log: seq<Entry>, folder: int, start: Rows, w: Window,
                  cutoff: int, applied: bool, broken: set<int>): Served
    requires start.state.Some?
  {
    var done := Work(w.order, items, folder, broken, start.known, cutoff);
    var more := Since(log, folder, w.cursor) != [];
    var state := NextState(start.state.value, w.cursor, applied, more);
    Served(Rows(Some(state), done.known), Answer(state.key, done.commands, more))
  }

  /** The whole request as a function of the tables it reads. */
  function Serve(items: map<int, Item>, log: seq<Entry>, rows: Rows, folder: int, key: RequestKey,
                 window: nat, cutoff: int, applied: bool, skipped: set<int>, broken: set<int>): Served
  {
    match Admit(rows, key)
    case None => Served(rows, Refused(3))
    case Some(start) =>
      var w := NextWindow(log, folder, start.state.value.cursor, window, skipped);
      Finish(items, log, folder, start, w, cutoff, applied, broken)
  }

  /**
   Who is let in. The holder of the stored key goes on, key 0 starts over whatever the
   rows were, anyone else is refused and changes nothing; and the key of an answer is
   the one the next request is let in with.
   */
  lemma Admission(items: map<int, Item>, log: seq<Entry>, rows: Rows, folder: int, key: RequestKey,
                  window: nat, cutoff: int, applied: bool, skipped: set<int>, broken: set<int>)
    ensures
      var served := Serve(items, log, rows, folder, key, window, cutoff, applied, skipped, broken);
      && (served.response.Refused? <==> !key.Initial? && (rows.state.None? || key != Key(rows.state.value.key)))
      && (served.response.Refused? ==> served == Served(rows, Refused(3)))
      && (key.Initial? ==>
            var restart := Rows(Some(SyncState(1, 0)), {});
            served == Serve(items, log, restart, folder, Key(1), window, cutoff, applied, skipped, broken))
      && (served.response.Answer? ==> Admit(served.rows, Key(served.response.key)) == Some(served.rows))
      && (served.response.Answer? && key.Key? ==> key.n <= served.response.key <= key.n + 1)
  {
  }

  /** The key of an answer is the stored one, raised by one if and only if something moved. */
  lemma KeyRaised(items: map<int, Item>, log: seq<Entry>, rows: Rows, folder: int, key: RequestKey,
                  window: nat, cutoff: int, applied: bool, skipped: set<int>, broken: set<int>)
    requires key.Key? && rows.state.Some? && rows.state.value.key == key.n
    ensures
      var served := Serve(items, log, rows, folder, key, window, cutoff, applied, skipped, broken);
      && served.response.Answer? && served.rows.state.Some?
      && (served.response.key == key.n + 1 <==>
            served.rows.state.value.cursor != rows.state.value.cursor || applied || served.response.more)
      && (served.response.key != key.n + 1 ==> served.response.key == key.n)
      && (served.response.more <==>
            exists e :: e in log && e.folder == folder && e.nr > served.rows.state.value.cursor)
  {
    var served := Serve(items, log, rows, folder, key, window, cutoff, applied, skipped, broken);
    var cursor := served.rows.state.value.cursor;
    var left := Since(log, folder, cursor);
    forall e ensures e in left <==> e in log && e.folder == folder && e.nr > cursor {
      SinceMember(log, folder, cursor, e);
    }
    if left != [] {
      assert left[0] in left;
    }
  }

  /** The request as a client makes it, for a folder that exists and is its own. */
  function Handle(items: map<int, Item>, log: seq<Entry>, rows: Rows, folder: Folder, request: Request, now: int,
                  applied: bool, skipped: set<int>, broken: set<int>): Served
  {
    Serve(items, log, rows, folder.id, request.key, ClampWindow(request.windowSize),
          Cutoff(request.key.Initial?, folder.email, request.filterType, now), applied, skipped, broken)
  }

  // ----- The request as the server runs it -----

  ghost function RowsOf(store: Store, place: Place): Rows
    reads store
  {
    Rows(store.GetSyncState(place), store.KnownItems(place))
  }

  method ItemCommand(store: Store, place: Place, id: int, kind: Kind, known: set<int>,
                     broken: bool, cutoff: int)
    returns (command: Option<Command>, known': set<int>)
    requires known == store.KnownItems(place)
    modifies store`known
    ensures var v := Judge(kind, LoadItem(store.items, id, place.folder, broken), cutoff);
      command == Tell(v, id, known) && known' == Learn(v, id, known)
    ensures known' == store.KnownItems(place)
    ensures store.known - {place} == old(store.known) - {place}
  {
    var kind' := kind;
    known' := known;
    if kind != Removed {
      var load := LoadItem(store.items, id, place.folder, broken);
      if load.Failed? {
        return None, known;
      }
      if load.Gone? {
        kind' := Removed;
      } else if cutoff > 0 && load.date > 0 && load.date < cutoff {
        return None, known;
      }
      if kind' != Removed {
        command := Some(if id !in known then Add(id, load.content) else Change(id, load.content));
        known' := known + {id};
        store.MarkItemKnown(place, id);
        return;
      }
    }
    if id !in known {
      assert known - {id} == known;
      return None, known;
    }
    known' := known - {id};
    store.ForgetItem(place, id);
    return Some(Delete(id)), known';
  }

  method ServerChanges(store: Store, place: Place, after: int, window: nat, cutoff: int,
                       skipped: set<int>, broken: set<int>)
    returns (commands: seq<Command>, more: bool, newSeq: int)
    modifies store`known
    ensures
      var w := NextWindow(store.changes, place.folder, after, window, skipped);
      && newSeq == w.cursor
      && more == (Since(store.changes, place.folder, newSeq) != [])
      && Progress(commands, store.KnownItems(place))
           == Work(w.order, store.items, place.folder, broken, old(store.KnownItems(place)), cutoff)
    ensures store.known - {place} == old(store.known) - {place}
  {
    var known := store.KnownItems(place);
    var rows := store.ChangesSince(place.folder, after, window * 4 + |skipped|);
    var order;
    order, newSeq := CollectWindow(rows, after, window, skipped);
    commands := [];
    var i := 0;
    while i < |order|
      invariant 0 <= i <= |order|
      invariant known == store.KnownItems(place)
      invariant Progress(commands, known)
        == Work(order[..i], store.items, place.folder, broken, old(store.KnownItems(place)), cutoff)
      invariant store.known - {place} == old(store.known) - {place}
    {
      assert order[..i + 1][..i] == order[..i];
      var command;
      command, known := ItemCommand(store, place, order[i].id, order[i].kind, known,
                                    order[i].id in broken, cutoff);
      if command.Some? {
        commands := commands + [command.value];
      }
      i := i + 1;
    }
    assert order[..i] == order;
    more := store.HasChangesAfter(place.folder, newSeq);
  }

  /** The request from an admitted state row to the saved one. */
  method SyncAdmitted(store: Store, place: Place, state: SyncState, window: nat, cutoff: int,
                      applied: bool, skipped: set<int>, broken: set<int>)
    returns (response: Response)
    modifies store`states, store`known
    ensures
      var start := Rows(Some(state), old(store.KnownItems(place)));
      var w := NextWindow(store.changes, place.folder, state.cursor, window, skipped);
      Served(RowsOf(store, place), response)
        == Finish(store.items, store.changes, place.folder, start, w, cutoff, applied, broken)
    ensures store.states - {place} == old(store.states) - {place}
    ensures store.known - {place} == old(store.known) - {place}
  {
    var commands, more, newSeq := ServerChanges(store, place, state.cursor, window, cutoff, skipped, broken);
    var key := state.key;
    if newSeq != state.cursor || applied || more {
      key := key + 1;
    }
    store.SaveSyncState(place, SyncState(key, newSeq));
    return Answer(key, commands, more);
  }

  /**
   The request handler. `skipped` and `applied` are what applying the client's own
   commands produced; `broken` are the items that cannot be loaded just now.
   */
  method SyncCollection(store: Store, user: string, device: string, folder: Option<Folder>,
                        request: Request, now: int, applied: bool, skipped: set<int>, broken: set<int>)
    returns (response: Response)
    modifies store`states, store`known
    ensures
      folder.None? || folder.value.owner != user || folder.value.deleted ==>
        response == Refused(5) && store.states == old(store.states) && store.known == old(store.known)
    ensures
      folder.Some? && folder.value.owner == user && !folder.value.deleted ==>
        var place := Place(user, device, folder.value.id);
        && Served(RowsOf(store, place), response)
             == Handle(store.items, store.changes, old(RowsOf(store, place)), folder.value, request, now,
                       applied, skipped, broken)
        && store.states - {place} == old(store.states) - {place}
        && store.known - {place} == old(store.known) - {place}
  {
    if folder.None? || folder.value.owner != user || folder.value.deleted {
      return Refused(5);
    }
    var place := Place(user, device, folder.value.id);
    var window := if request.windowSize <= 0 then 100 else request.windowSize;
    if window > 500 {
      window := 500;
    }
    var state := store.GetSyncState(place);
    var initial := request.key.Initial?;
    if initial {
      store.ResetSyncState(place);
      state := Some(SyncState(1, 0));
      store.SaveSyncState(place, state.value);
    } else if state.None? || request.key != Key(state.value.key) {
      return Refused(3);
    }
    var cutoff := Cutoff(initial, folder.value.email, request.filterType, now);
    response := SyncAdmitted(store, place, state.value, window, cutoff, applied, skipped, broken);
  }
}
