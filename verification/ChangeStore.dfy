/**
 The tables behind collection sync (internal/store/sync.go, maintenance.go and
 devices.go): the append-only change feed, one cursor row per device and folder,
 and the set of items each device has been given.
 */
module ChangeStore {
  import opened Options

  datatype Kind = Added | Changed | Removed

  /** One row of the change feed. */
  datatype Entry = Entry(nr: int, folder: int, item: int, kind: Kind)

  /** A stored message, contact or event; `content` stands for its rendered data. */
  datatype Item = Item(folder: int, deleted: bool, date: int, content: int)

  /** The primary key of a cursor row and of the known-item rows. */
  datatype Place = Place(user: string, device: string, folder: int)

  datatype SyncState = SyncState(key: nat, cursor: int)

  /** Sequence numbers grow along the feed and stay within the counter. */
  ghost predicate Ordered(log: seq<Entry>, last: int) {
    && (forall i :: 0 <= i < |log| ==> 0 < log[i].nr <= last)
    && (forall i, j :: 0 <= i < j < |log| ==> log[i].nr < log[j].nr)
  }

  /** The rows of one folder past a cursor, in sequence order. */
  function Since(log: seq<Entry>, folder: int, after: int): seq<Entry> {
    if log == [] then []
    else
      var rest := Since(log[..|log| - 1], folder, after);
      var e := log[|log| - 1];
      if e.folder == folder && e.nr > after then rest + [e] else rest
  }

  function Limit<T>(rows: seq<T>, limit: int): seq<T> {
    if 0 < limit < |rows| then rows[..limit] else rows
  }

  /** True for a feed row that every device holding the folder has consumed. */
  predicate Spent(states: map<Place, SyncState>, e: Entry) {
    && (exists p :: p in states && p.folder == e.folder)
    && (forall p :: p in states && p.folder == e.folder ==> e.nr <= states[p].cursor)
  }

  /** The feed without its spent rows. */
  function Unspent(log: seq<Entry>, states: map<Place, SyncState>): seq<Entry> {
    if log == [] then []
    else
      var rest := Unspent(log[..|log| - 1], states);
      var e := log[|log| - 1];
      if Spent(states, e) then rest else rest + [e]
  }

  class Store {
    var items: map<int, Item>
    var changes: seq<Entry>
    var lastSeq: nat
    var states: map<Place, SyncState>
    var known: map<Place, set<int>>

    ghost predicate Valid()
      reads this
    {
      Ordered(changes, lastSeq)
    }

    constructor ()
      ensures Valid()
      ensures items == map[] && changes == [] && lastSeq == 0 && states == map[] && known == map[]
    {
      items, changes, lastSeq, states, known := map[], [], 0, map[], map[];
    }

    method AddChange(folder: int, kind: Kind, item: int) returns (seqNo: int)
      requires Valid()
      modifies this`changes, this`lastSeq
      ensures Valid()
      ensures seqNo == old(lastSeq) + 1 == lastSeq
      ensures changes == old(changes) + [Entry(seqNo, folder, item, kind)]
    {
      lastSeq := lastSeq + 1;
      seqNo := lastSeq;
      changes := changes + [Entry(seqNo, folder, item, kind)];
    }

    function ChangesSince(folder: int, after: int, limit: int): seq<Entry>
      reads this
    {
      Limit(Since(changes, folder, after), limit)
    }

    function CountChangesAfter(folder: int, after: int): nat
      reads this
    {
      |Since(changes, folder, after)|
    }

    predicate HasChangesAfter(folder: int, after: int)
      reads this
    {
      CountChangesAfter(folder, after) > 0
    }

    function GetSyncState(place: Place): Option<SyncState>
      reads this
    {
      if place in states then Some(states[place]) else None
    }

    function KnownItems(place: Place): set<int>
      reads this
    {
      if place in known then known[place] else {}
    }

    method SaveSyncState(place: Place, state: SyncState)
      modifies this`states
      ensures states == old(states)[place := state]
    {
      states := states[place := state];
    }

    method ForgetAllItems(place: Place)
      modifies this`known
      ensures known == old(known) - {place}
    {
      known := known - {place};
    }

    method ResetSyncState(place: Place)
      modifies this`states, this`known
      ensures states == old(states) - {place} && known == old(known) - {place}
    {
      states := states - {place};
      ForgetAllItems(place);
    }

    method MarkItemKnown(place: Place, id: int)
      modifies this`known
      ensures KnownItems(place) == old(KnownItems(place)) + {id}
      ensures known - {place} == old(known) - {place}
    {
      known := known[place := KnownItems(place) + {id}];
    }

    method ForgetItem(place: Place, id: int)
      modifies this`known
      ensures KnownItems(place) == old(KnownItems(place)) - {id}
      ensures known - {place} == old(known) - {place}
    {
      known := known[place := KnownItems(place) - {id}];
    }

    /** Forgets every cursor and known item of one device. */
    method ResetDeviceSync(user: string, device: string)
      modifies this`states, this`known
      ensures forall p :: p in states <==> p in old(states) && !(p.user == user && p.device == device)
      ensures forall p :: p in states ==> states[p] == old(states)[p]
      ensures forall p :: p in known <==> p in old(known) && !(p.user == user && p.device == device)
      ensures forall p :: p in known ==> known[p] == old(known)[p]
    {
      known := map p | p in known && !(p.user == user && p.device == device) :: known[p];
      states := map p | p in states && !(p.user == user && p.device == device) :: states[p];
    }

    /** Deletes the feed rows that every device of their folder has consumed. */
    method PruneChanges() returns (deleted: nat)
      requires Valid()
      modifies this`changes
      ensures Valid()
      ensures changes == Unspent(old(changes), states)
      ensures forall e :: e in changes <==>
        && e in old(changes)
        && ((forall p :: p in states ==> p.folder != e.folder)
            || exists p :: p in states && p.folder == e.folder && states[p].cursor < e.nr)
      ensures deleted + |changes| == |old(changes)|
    {
      var kept: seq<Entry> := [];
      var i := 0;
      while i < |changes|
        invariant 0 <= i <= |changes|
        invariant kept == Unspent(changes[..i], states)
        invariant |kept| <= i
      {
        assert changes[..i + 1][..i] == changes[..i];
        if !Spent(states, changes[i]) {
          kept := kept + [changes[i]];
        }
        i := i + 1;
      }
      assert changes[..i] == changes;
      UnspentOrdered(changes, states, lastSeq);
      forall e ensures e in kept <==>
        && e in changes
        && ((forall p :: p in states ==> p.folder != e.folder)
            || exists p :: p in states && p.folder == e.folder && states[p].cursor < e.nr)
      {
        UnspentMember(changes, states, e);
      }
      deleted := |changes| - |kept|;
      changes := kept;
    }
  }

  // ----- Facts about the feed -----

  /**
   A row stays exactly while some cursor of its folder has not passed it, or while no
   device holds the folder.
   */
  lemma {:induction false} UnspentMember(log: seq<Entry>, states: map<Place, SyncState>, e: Entry)
    ensures e in Unspent(log, states) <==>
      && e in log
      && ((forall p :: p in states ==> p.folder != e.folder)
          || exists p :: p in states && p.folder == e.folder && states[p].cursor < e.nr)
  {
    if log != [] {
      var init, f := log[..|log| - 1], log[|log| - 1];
      UnspentMember(init, states, e);
      assert log == init + [f];
    }
  }

  lemma {:induction false} UnspentOrdered(log: seq<Entry>, states: map<Place, SyncState>, last: int)
    requires Ordered(log, last)
    ensures Ordered(Unspent(log, states), last)
  {
    if log != [] {
      var init, f := log[..|log| - 1], log[|log| - 1];
      UnspentOrdered(init, states, last);
      var rest := Unspent(init, states);
      forall k | 0 <= k < |rest| ensures rest[k].nr < f.nr {
        UnspentMember(init, states, rest[k]);
        var j :| 0 <= j < |init| && init[j] == rest[k];
        assert log[j] == rest[k];
      }
    }
  }

  lemma {:induction false} SinceMember(log: seq<Entry>, folder: int, after: int, e: Entry)
    ensures e in Since(log, folder, after) <==> e in log && e.folder == folder && e.nr > after
  {
    if log != [] {
      SinceMember(log[..|log| - 1], folder, after, e);
      assert log == log[..|log| - 1] + [log[|log| - 1]];
    }
  }

  lemma {:induction false} SinceOrdered(log: seq<Entry>, last: int, folder: int, after: int)
    requires Ordered(log, last)
    ensures Ordered(Since(log, folder, after), last)
    ensures forall k :: 0 <= k < |Since(log, folder, after)| ==>
      Since(log, folder, after)[k].folder == folder && Since(log, folder, after)[k].nr > after
  {
    if log != [] {
      var init, e := log[..|log| - 1], log[|log| - 1];
      SinceOrdered(init, last, folder, after);
      var rest := Since(init, folder, after);
      forall k | 0 <= k < |rest|
        ensures rest[k].nr < e.nr
      {
        SinceMember(init, folder, after, rest[k]);
      }
    }
  }

  /** Moving the cursor onto the c-th pending row leaves exactly the rows behind it. */
  lemma {:induction false} SinceSuffix(log: seq<Entry>, last: int, folder: int, after: int, c: nat)
    requires Ordered(log, last) && 0 < c <= |Since(log, folder, after)|
    ensures Since(log, folder, Since(log, folder, after)[c - 1].nr) == Since(log, folder, after)[c..]
  {
    SinceOrdered(log, last, folder, after);
    var all := Since(log, folder, after);
    var mark := all[c - 1].nr;
    var init, e := log[..|log| - 1], log[|log| - 1];
    var rest := Since(init, folder, after);
    if e.folder == folder && e.nr > after {
      if c == |all| {
        SinceEmpty(log, last, folder, mark);
      } else {
        assert rest[c - 1] == all[c - 1];
        SinceMember(init, folder, after, rest[c - 1]);
        SinceSuffix(init, last, folder, after, c);
        assert all[c..] == rest[c..] + [e];
      }
    } else {
      SinceSuffix(init, last, folder, after, c);
    }
  }

  lemma {:induction false} SinceEmpty(log: seq<Entry>, last: int, folder: int, after: int)
    requires forall k :: 0 <= k < |log| && log[k].folder == folder ==> log[k].nr <= after
    ensures Since(log, folder, after) == []
  {
    if log != [] {
      SinceEmpty(log[..|log| - 1], last, folder, after);
    }
  }
}
