/**
 Reading a mail thread page by page (internal/store/webmail.go: conversationScope,
 ConversationMessages, ConversationMessagesAfter).
 */
module ThreadPaging {
  import opened Options

  datatype Message = Message(id: int, user: string, folder: int, deleted: bool, thread: string, date: int)

  /** A conversation id, or the fallback key "m:<id>" with what parses of its number. */
  datatype Key = Thread(name: string) | Single(id: Option<int>)

  datatype Result = Found(rows: seq<Message>) | NotFound

  /** Who reads which folder, and the account's Inbox and Sent folder; 0 stands for no such folder. */
  datatype Reader = Reader(user: string, inbox: int, sent: int, folder: int)

  /** Inbox and Sent are read as one. */
  predicate Shown(who: Reader, folder: int) {
    || folder == who.folder
    || (folder != 0 && who.inbox != 0 && {folder, who.folder} <= {who.inbox, who.sent})
  }

  function Scope(who: Reader): (scope: seq<int>)
    ensures who.folder != 0 ==> forall f :: f in scope <==> Shown(who, f)
  {
    if who.inbox == 0 || (who.folder != who.inbox && who.folder != who.sent) then [who.folder]
    else if who.sent != 0 && who.sent != who.inbox then [who.inbox, who.sent]
    else [who.inbox]
  }

  function PageSize(limit: int): (n: nat)
    ensures n == if 1 <= limit < 200 then limit else 200
  {
    if limit <= 0 || limit > 200 then 200 else limit
  }

  // ----- Queries -----

  /** The order rows are returned in. */
  predicate Before(a: Message, b: Message) {
    a.date < b.date || (a.date == b.date && a.id < b.id)
  }

  /** A WHERE clause: one account's live messages of a thread in some folders, optionally past an anchor. */
  datatype Query = Query(user: string, scope: seq<int>, thread: string, after: Option<Message>)

  predicate Matches(q: Query, m: Message) {
    && m.user == q.user && !m.deleted && m.folder in q.scope && m.thread == q.thread
    && (q.after.Some? ==> Before(q.after.value, m))
  }

  function Insert(m: Message, rows: seq<Message>): seq<Message> {
    if rows == [] || Before(m, rows[0]) then [m] + rows else [rows[0]] + Insert(m, rows[1..])
  }

  /** The matching rows in order. */
  function Select(rows: seq<Message>, q: Query): seq<Message> {
    if rows == [] then []
    else if Matches(q, rows[0]) then Insert(rows[0], Select(rows[1..], q))
    else Select(rows[1..], q)
  }

  function Limit(rows: seq<Message>, n: nat): seq<Message> {
    if |rows| > n then rows[..n] else rows
  }

  function ById(rows: seq<Message>, id: int): Option<Message> {
    if rows == [] then None else if rows[0].id == id then Some(rows[0]) else ById(rows[1..], id)
  }

  function WholeThread(rows: seq<Message>, who: Reader, name: string): seq<Message> {
    Select(rows, Query(who.user, Scope(who), name, None))
  }

  function ConversationMessages(rows: seq<Message>, who: Reader, key: Key, limit: int): Result {
    match key
    case Thread(name) => Found(Limit(WholeThread(rows, who, name), PageSize(limit)))
    case Single(id) =>
      if id.None? || id.value <= 0 then NotFound
      else
        match ById(rows, id.value)
        case None => NotFound
        case Some(m) => if m.user != who.user || m.deleted || m.folder !in Scope(who) then NotFound else Found([m])
  }

  predicate Anchors(m: Message, who: Reader, name: string) {
    m.user == who.user && !m.deleted && m.thread == name && m.folder in Scope(who)
  }

  function ConversationMessagesAfter(rows: seq<Message>, who: Reader, key: Key,
                                     afterId: int, limit: int): Result
  {
    match key
    case Single(_) => Found([])
    case Thread(name) =>
      var anchor := ById(rows, afterId);
      if anchor.None? || !Anchors(anchor.value, who, name)
      then ConversationMessages(rows, who, key, limit)
      else Found(Limit(Select(rows, Query(who.user, Scope(who), name, anchor)), PageSize(limit)))
  }

  // ----- What a query returns -----

  ghost predicate Keyed(rows: seq<Message>) {
    forall i, j :: 0 <= i < j < |rows| ==> rows[i].id != rows[j].id
  }

  ghost predicate Ascending(rows: seq<Message>) {
    forall i, j :: 0 <= i < j < |rows| ==>
      rows[i].date < rows[j].date || (rows[i].date == rows[j].date && rows[i].id < rows[j].id)
  }

  lemma {:induction false} InsertMeaning(m: Message, rows: seq<Message>)
    requires Ascending(rows) && forall r :: r in rows ==> r.id != m.id
    ensures Ascending(Insert(m, rows))
    ensures forall r :: r in Insert(m, rows) <==> r == m || r in rows
  {
    if rows != [] && !Before(m, rows[0]) {
      var rest := rows[1..];
      assert rows == [rows[0]] + rest;
      InsertMeaning(m, rest);
      var out := Insert(m, rest);
      forall k | 0 <= k < |out| ensures Before(rows[0], out[k]) {
        assert out[k] in out;
        if out[k] != m {
          var j :| 0 <= j < |rest| && rest[j] == out[k];
          assert rows[j + 1] == rest[j];
        }
      }
    }
  }

  /** Exactly the matching rows, strictly ascending by (date, id). */
  lemma {:induction false} SelectMeaning(rows: seq<Message>, q: Query)
    requires Keyed(rows)
    ensures Ascending(Select(rows, q))
    ensures forall r :: r in Select(rows, q) <==> r in rows && Matches(q, r)
  {
    if rows != [] {
      var rest := rows[1..];
      assert rows == [rows[0]] + rest;
      assert forall k :: 0 <= k < |rest| ==> rest[k] == rows[k + 1];
      SelectMeaning(rest, q);
      if Matches(q, rows[0]) {
        InsertMeaning(rows[0], Select(rest, q));
      }
    }
  }

  lemma {:induction false} ByIdMember(rows: seq<Message>, m: Message)
    requires Keyed(rows) && m in rows
    ensures ById(rows, m.id) == Some(m)
  {
    if rows[0] != m {
      assert rows == [rows[0]] + rows[1..];
      assert forall k :: 0 <= k < |rows[1..]| ==> rows[1..][k] == rows[k + 1];
      var k :| 0 <= k < |rows| && rows[k] == m;
      assert rows[0].id != rows[k].id;
      ByIdMember(rows[1..], m);
    }
  }

  /** A single message is shown to its owner alone, while it is live, and in the folders read. */
  lemma SingleShown(rows: seq<Message>, who: Reader, id: Option<int>, limit: int)
    requires Keyed(rows)
    ensures var r := ConversationMessages(rows, who, Single(id), limit);
      && (forall m :: r == Found([m]) <==>
            id == Some(m.id) && m.id > 0 && m in rows && m.user == who.user && !m.deleted && m.folder in Scope(who))
      && (r.Found? ==> exists m :: r == Found([m]))
  {
    var r := ConversationMessages(rows, who, Single(id), limit);
    if id.Some? {
      ByIdFinds(rows, id.value);
      forall m | m in rows && m.id == id.value ensures ById(rows, id.value) == Some(m) {
        ByIdMember(rows, m);
      }
    }
    forall m ensures r == Found([m]) <==>
      id == Some(m.id) && m.id > 0 && m in rows && m.user == who.user && !m.deleted && m.folder in Scope(who)
    {
      assert [m][0] == m;
    }
    if r.Found? {
      assert r == Found([r.rows[0]]);
    }
  }

  lemma {:induction false} ByIdFinds(rows: seq<Message>, id: int)
    ensures var m := ById(rows, id); m.Some? ==> m.value in rows && m.value.id == id
  {
    if rows != [] && rows[0].id != id {
      ByIdFinds(rows[1..], id);
    }
  }

  // ----- Paging -----

  /** What is left of an ordered list past an anchor. */
  function Past(rows: seq<Message>, a: Message): seq<Message> {
    if rows == [] || Before(a, rows[0]) then rows else Past(rows[1..], a)
  }

  lemma {:induction false} PastInsert(m: Message, rows: seq<Message>, a: Message)
    requires Ascending(rows)
    ensures Past(Insert(m, rows), a) == if Before(a, m) then Insert(m, Past(rows, a)) else Past(rows, a)
  {
    if rows != [] && !Before(m, rows[0]) {
      assert Insert(m, rows)[1..] == Insert(m, rows[1..]);
      PastInsert(m, rows[1..], a);
    } else {
      assert Insert(m, rows) == [m] + rows && Insert(m, rows)[1..] == rows;
      if rows != [] && Before(a, m) {
        assert Before(a, rows[0]);
      }
    }
  }

  lemma {:induction false} SelectPast(rows: seq<Message>, q: Query, a: Message)
    requires Keyed(rows) && q.after.None?
    ensures Select(rows, q.(after := Some(a))) == Past(Select(rows, q), a)
  {
    if rows != [] {
      assert forall k :: 0 <= k < |rows[1..]| ==> rows[1..][k] == rows[k + 1];
      SelectPast(rows[1..], q, a);
      SelectMeaning(rows[1..], q);
      if Matches(q, rows[0]) {
        PastInsert(rows[0], Select(rows[1..], q), a);
      }
    }
  }

  lemma {:induction false} PastAt(rows: seq<Message>, i: nat)
    requires Ascending(rows) && i < |rows|
    ensures Past(rows, rows[i]) == rows[i + 1..]
  {
    if i == 0 {
      assert Past(rows, rows[0]) == Past(rows[1..], rows[0]);
    } else {
      assert rows[1..][i - 1] == rows[i] && rows[1..][i..] == rows[i + 1..];
      PastAt(rows[1..], i - 1);
    }
  }

  /** The page after row i of the thread is the next slice of the thread. */
  lemma NextPage(rows: seq<Message>, who: Reader, name: string, limit: int, i: nat)
    requires Keyed(rows) && i < |WholeThread(rows, who, name)|
    ensures
      var all := WholeThread(rows, who, name);
      ConversationMessagesAfter(rows, who, Thread(name), all[i].id, limit)
        == Found(Limit(all[i + 1..], PageSize(limit)))
  {
    var q := Query(who.user, Scope(who), name, None);
    var all := Select(rows, q);
    SelectMeaning(rows, q);
    assert all[i] in all;
    ByIdMember(rows, all[i]);
    SelectPast(rows, q, all[i]);
    PastAt(all, i);
  }

  /** A reader that asks for the rows after its last one until none come. */
  function ReadOn(rows: seq<Message>, who: Reader, name: string, limit: int,
                  have: seq<Message>, rounds: nat): seq<Message>
    decreases rounds
  {
    if rounds == 0 || have == [] then have
    else
      match ConversationMessagesAfter(rows, who, Thread(name), have[|have| - 1].id, limit)
      case NotFound => have
      case Found(page) =>
        if page == [] then have else ReadOn(rows, who, name, limit, have + page, rounds - 1)
  }

  lemma PageSlice(all: seq<Message>, n: nat, size: nat) returns (next: nat)
    requires n <= |all| && size > 0
    ensures n <= next <= |all| && (next == n <==> n == |all|)
    ensures Limit(all[n..], size) == all[n..next] && all[..n] + all[n..next] == all[..next]
  {
    next := if |all| - n > size then n + size else |all|;
  }

  lemma {:induction false} ReadOnPrefix(rows: seq<Message>, who: Reader, name: string, limit: int,
                                        all: seq<Message>, n: nat, rounds: nat)
    requires Keyed(rows) && all == WholeThread(rows, who, name)
    requires 0 < n <= |all| && rounds + n >= |all|
    ensures ReadOn(rows, who, name, limit, all[..n], rounds) == all
    decreases rounds
  {
    if n < |all| {
      var next := PageSlice(all, n, PageSize(limit));
      NextPage(rows, who, name, limit, n - 1);
      ReadOnPrefix(rows, who, name, limit, all, next, rounds - 1);
    } else {
      ReadOnEnd(rows, who, name, limit, all, rounds);
    }
  }

  lemma ReadOnEnd(rows: seq<Message>, who: Reader, name: string, limit: int,
                  all: seq<Message>, rounds: nat)
    requires Keyed(rows) && all == WholeThread(rows, who, name) && all != []
    ensures ReadOn(rows, who, name, limit, all[..|all|], rounds) == all
  {
    assert all[..|all|] == all;
    NextPage(rows, who, name, limit, |all| - 1);
    assert all[|all|..] == [];
  }

  /**
   Paging. On a mailbox that stands still, the first page and then every page after
   the last row seen add up to the whole thread, each message once and in order.
   */
  lemma Paging(rows: seq<Message>, who: Reader, name: string, limit: int, rounds: nat)
    requires Keyed(rows) && rounds >= |WholeThread(rows, who, name)|
    ensures
      var all := WholeThread(rows, who, name);
      var first := ConversationMessages(rows, who, Thread(name), limit);
      && first.Found?
      && ReadOn(rows, who, name, limit, first.rows, rounds) == all
      && Ascending(all)
      && (forall m :: m in all <==>
            m in rows && m.user == who.user && !m.deleted && m.folder in Scope(who) && m.thread == name)
  {
    var all := WholeThread(rows, who, name);
    SelectMeaning(rows, Query(who.user, Scope(who), name, None));
    if all != [] {
      var n := if |all| > PageSize(limit) then PageSize(limit) else |all|;
      assert Limit(all, PageSize(limit)) == all[..n];
      ReadOnPrefix(rows, who, name, limit, all, n, rounds);
    }
  }

  /** Appending the rows of a page one does not have yet makes the list whole. */
  ghost predicate Completes(have: set<Message>, page: seq<Message>, all: seq<Message>) {
    forall m :: m in all ==> m in have || m in page
  }

  /**
   When the anchor is gone the reader is given the thread from its start, but one
   page of it only: appending what it does not know brings it up to date, whatever
   it had, exactly when the whole thread fits a page.
   */
  lemma LostAnchor(rows: seq<Message>, who: Reader, name: string, limit: int, gone: int)
    requires Keyed(rows)
    requires var a := ById(rows, gone); a.None? || !Anchors(a.value, who, name)
    ensures
      var all := WholeThread(rows, who, name);
      var page := ConversationMessagesAfter(rows, who, Thread(name), gone, limit);
      page.Found? && ((forall have :: Completes(have, page.rows, all)) <==> |all| <= PageSize(limit))
  {
    var all := WholeThread(rows, who, name);
    var page := Limit(all, PageSize(limit));
    SelectMeaning(rows, Query(who.user, Scope(who), name, None));
    if |all| > PageSize(limit) {
      var missed := all[PageSize(limit)];
      assert forall k :: 0 <= k < |page| ==> page[k] == all[k] && Before(all[k], missed);
      assert missed in all && missed !in page;
      assert !Completes({}, page, all);
    }
  }
}
