/** When a Sync leaves out old mail. */
module DateFilter {
  import opened Options
  import opened ChangeStore
  import opened FeedWindow
  import opened CollectionSync
  import opened Unloadable

  /*
   internal/eas/sync.go, lines 85 to 95, and filterWindow: the filter belongs to the
   initial sync of an email folder. Applied to any later one it would keep mail off the
   device for good, for the cursor passes it.
   */

  /** Days back for filter types 1 to 8. */
  const DAYS: seq<int> := [1, 3, 7, 14, 30, 90, 180, 365]

  /** Later requests, and other folders, are answered whatever filter they name and whenever they come. */
  lemma FilterElsewhere(items: map<int, Item>, log: seq<Entry>, rows: Rows, folder: Folder,
                        a: Request, aNow: int, b: Request, bNow: int,
                        applied: bool, skipped: set<int>, broken: set<int>)
    requires a.key == b.key && a.windowSize == b.windowSize
    requires !a.key.Initial? || !folder.email
    ensures Handle(items, log, rows, folder, a, aNow, applied, skipped, broken)
      == Handle(items, log, rows, folder, b, bNow, applied, skipped, broken)
  {
  }

  /** There, a live item whose turn has come is named if and only if it can be loaded, however old. */
  lemma NamedElsewhere(items: map<int, Item>, log: seq<Entry>, last: int, rows: Rows, folder: Folder,
                       request: Request, now: int, applied: bool, skipped: set<int>, broken: set<int>, p: Pending)
    requires Ordered(log, last) && (!request.key.Initial? || !folder.email)
    requires request.key.Initial? || (rows.state.Some? && request.key == Key(rows.state.value.key))
    requires
      var cursor := if request.key.Initial? then 0 else rows.state.value.cursor;
      p in NextWindow(log, folder.id, cursor, ClampWindow(request.windowSize), skipped).order
    requires p.kind != Removed && Live(items, p.id, folder.id)
    ensures
      var response := Handle(items, log, rows, folder, request, now, applied, skipped, broken).response;
      response.Answer? && (Names(response.commands, p.id) <==> p.id !in broken)
  {
    var start := if request.key.Initial? then Rows(Some(SyncState(1, 0)), {}) else rows;
    NamedIffLoads(items, log, last, folder.id, start, ClampWindow(request.windowSize), 0, applied, skipped, broken, p);
  }

  /**
   On the initial sync of an email folder a filter type from 1 to 8 leaves out exactly
   the live items dated before so many days ago; undated ones stay, and any other
   filter type leaves out nothing.
   */
  lemma NamedAtStart(items: map<int, Item>, log: seq<Entry>, last: int, rows: Rows, folder: Folder,
                     request: Request, now: int, applied: bool, skipped: set<int>, broken: set<int>, p: Pending)
    requires Ordered(log, last) && request.key.Initial? && folder.email
    requires p in NextWindow(log, folder.id, 0, ClampWindow(request.windowSize), skipped).order
    requires p.kind != Removed && Live(items, p.id, folder.id)
    ensures
      var response := Handle(items, log, rows, folder, request, now, applied, skipped, broken).response;
      var date, ft := items[p.id].date, request.filterType;
      var recent := 1 <= ft <= 8 ==> date <= 0 || date >= now - 86400 * DAYS[ft - 1];
      response.Answer? && (Names(response.commands, p.id) <==> p.id !in broken && recent)
  {
    var cutoff := Cutoff(true, true, request.filterType, now);
    var start := Rows(Some(SyncState(1, 0)), {});
    NamedIffLoads(items, log, last, folder.id, start, ClampWindow(request.windowSize), cutoff, applied, skipped,
                  broken, p);
  }
}
