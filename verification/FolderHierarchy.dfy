/**
 The folder list of one user and the FolderSync command (internal/store/folders.go,
 internal/eas/folders.go), section 2.2.1.5 of MS-ASCMD: every change stamps its row
 with the next number, and a response lists the rows stamped past a key.
 */
module FolderHierarchy {
  import opened Options

  datatype Face = Face(parent: int, name: string, kind: int, className: string)

  datatype Row = Row(face: Face, nr: int, deleted: bool)

  datatype Listed = Listed(id: int, row: Row)

  datatype Change = Put(id: int, face: Face) | Drop(id: int)

  /** Status 9 sends the device back to key 0. */
  datatype Response = Restart | Delta(key: int, changes: seq<Change>)

  /** What a device is shown of a folder: a class is always named. */
  function Shown(face: Face): Face {
    if face.className == "" then face.(className := "Email") else face
  }

  function ClassForType(kind: int): (name: string)
    ensures name in ["Email", "Calendar", "Contacts"]
    ensures (name == "Calendar" <==> kind == 8) && (name == "Contacts" <==> kind == 9)
  {
    if kind == 8 then "Calendar" else if kind == 9 then "Contacts" else "Email"
  }

  /** Name and type of the folders every account is created with. */
  const DEFAULT_FOLDERS: seq<(string, int)> :=
    [("Inbox", 2), ("Drafts", 3), ("Outbox", 6), ("Sent Items", 5), ("Deleted Items", 4), ("Spam", 12),
     ("Calendar", 8), ("Contacts", 9)]

  // ----- The tables, as the transactions rewrite them -----

  datatype Tables = Tables(folderSeq: int, rows: map<int, Row>)

  /** Every change of a folder stamps it with the next number of the user's counter. */
  function Touched(t: Tables, id: int, face: Face, deleted: bool): Tables {
    Tables(t.folderSeq + 1, t.rows[id := Row(face, t.folderSeq + 1, deleted)])
  }

  class Folders {
    var folderSeq: int
    var rows: map<int, Row>

    function State(): Tables
      reads this
    {
      Tables(folderSeq, rows)
    }

    /** Every folder carries the number of its last change. */
    ghost predicate Valid()
      reads this
    {
      Stamped(rows, folderSeq)
    }

    /** A new account: its default folders, created in one transaction; `ids` are the keys handed out. */
    constructor (ids: seq<int>)
      requires |ids| == |DEFAULT_FOLDERS| && forall i, j :: 0 <= i < j < |ids| ==> ids[i] != ids[j]
      ensures Valid() && Provisioned(State(), ids, |ids|)
    {
      folderSeq, rows := 0, map[];
      new;
      for k := 0 to |ids|
        invariant Valid() && Provisioned(State(), ids, k)
      {
        assert ids[k] !in ids[..k];
        assert ids[..k + 1] == ids[..k] + [ids[k]];
        var ok := Create(ids[k], 0, DEFAULT_FOLDERS[k].0, DEFAULT_FOLDERS[k].1, false);
      }
    }

    /** `id` is the key the database hands out; `clash` is a violated unique constraint. */
    method Create(id: int, parent: int, name: string, kind: int, clash: bool) returns (ok: bool)
      requires Valid() && id !in rows
      modifies this
      ensures Valid() && ok == !clash
      ensures State() ==
        if ok then Touched(old(State()), id, Face(parent, name, kind, ClassForType(kind)), false) else old(State())
    {
      if clash {
        return false;
      }
      folderSeq := folderSeq + 1;
      rows := rows[id := Row(Face(parent, name, kind, ClassForType(kind)), folderSeq, false)];
      return true;
    }

    method Rename(id: int, name: string, clash: bool) returns (ok: bool)
      requires Valid()
      modifies this
      ensures Valid() && ok == (id in old(rows) && !clash)
      ensures State() ==
        if ok then var r := old(rows)[id]; Touched(old(State()), id, r.face.(name := name), r.deleted)
        else old(State())
    {
      if id !in rows || clash {
        return false;
      }
      folderSeq := folderSeq + 1;
      rows := rows[id := rows[id].(face := rows[id].face.(name := name), nr := folderSeq)];
      return true;
    }

    method Reparent(id: int, parent: int, clash: bool) returns (ok: bool)
      requires Valid()
      modifies this
      ensures Valid() && ok == (id in old(rows) && !clash)
      ensures State() ==
        if ok then var r := old(rows)[id]; Touched(old(State()), id, r.face.(parent := parent), r.deleted)
        else old(State())
    {
      if id !in rows || clash {
        return false;
      }
      folderSeq := folderSeq + 1;
      rows := rows[id := rows[id].(face := rows[id].face.(parent := parent), nr := folderSeq)];
      return true;
    }

    /** Leaves a tombstone. */
    method Delete(id: int) returns (ok: bool)
      requires Valid()
      modifies this
      ensures Valid() && ok == (id in old(rows))
      ensures State() == if ok then Touched(old(State()), id, old(rows)[id].face, true) else old(State())
    {
      if id !in rows {
        return false;
      }
      folderSeq := folderSeq + 1;
      rows := rows[id := rows[id].(deleted := true, nr := folderSeq)];
      return true;
    }
  }

  /** The first k default folders, numbered in order, and no others. */
  ghost predicate Provisioned(t: Tables, ids: seq<int>, k: nat)
    requires k <= |ids| == |DEFAULT_FOLDERS|
  {
    && t.folderSeq == k
    && Stamped(t.rows, t.folderSeq)
    && (forall id :: id in t.rows ==> id in ids[..k])
    && (forall i :: 0 <= i < k ==>
          var f := DEFAULT_FOLDERS[i];
          ids[i] in t.rows && t.rows[ids[i]] == Row(Face(0, f.0, f.1, ClassForType(f.1)), i + 1, false))
  }

  ghost predicate Stamped(rows: map<int, Row>, folderSeq: int) {
    && 0 <= folderSeq
    && (forall id :: id in rows ==> 1 <= rows[id].nr <= folderSeq)
  }

  // ----- The command -----

  /** Nothing, a tombstone, or the folder as it is now. */
  function ChangeFor(l: Listed, since: int): Option<Change> {
    if since != 0 && l.row.nr <= since then None
    else if l.row.deleted then (if since == 0 then None else Some(Drop(l.id)))
    else Some(Put(l.id, Shown(l.row.face)))
  }

  function Changes(listing: seq<Listed>, since: int): seq<Change> {
    if listing == [] then []
    else
      var rest := Changes(listing[..|listing| - 1], since);
      match ChangeFor(listing[|listing| - 1], since)
      case None => rest
      case Some(c) => rest + [c]
  }

  /** Key 0 means "start over", so the key handed out is never 0. */
  function KeyFor(folderSeq: int): int {
    if folderSeq < 1 then 1 else folderSeq
  }

  /** `folderSeq` comes from the user row read earlier, `listing` from the folder rows read now. */
  method FolderSync(since: int, folderSeq: int, listing: seq<Listed>) returns (r: Response)
    ensures r == if since > folderSeq then Restart else Delta(KeyFor(folderSeq), Changes(listing, since))
  {
    if since > folderSeq {
      return Restart;
    }
    var items: seq<Change> := [];
    for i := 0 to |listing|
      invariant items == Changes(listing[..i], since)
    {
      assert listing[..i + 1][..i] == listing[..i];
      var f := listing[i];
      if since != 0 && f.row.nr <= since {
        continue;
      }
      if f.row.deleted {
        if since == 0 {
          continue;
        }
        items := items + [Drop(f.id)];
        continue;
      }
      items := items + [Put(f.id, Shown(f.row.face))];
    }
    assert listing[..|listing|] == listing;
    var key := folderSeq;
    if key < 1 {
      key := 1;
    }
    return Delta(key, items);
  }

  // ----- The device -----

  function Apply(view: map<int, Face>, c: Change): map<int, Face> {
    match c
    case Put(id, face) => view[id := face]
    case Drop(id) => view - {id}
  }

  function ApplyAll(view: map<int, Face>, changes: seq<Change>): map<int, Face> {
    if changes == [] then view
    else Apply(ApplyAll(view, changes[..|changes| - 1]), changes[|changes| - 1])
  }

  function Held(view: map<int, Face>, id: int): Option<Face> {
    if id in view then Some(view[id]) else None
  }

  function FaceOf(rows: map<int, Row>, id: int): Option<Face> {
    if id in rows && !rows[id].deleted then Some(Shown(rows[id].face)) else None
  }

  // ----- What a response means -----

  /** What a device holds of a folder after a response, given what it held before. */
  function After(row: Row, since: int, before: Option<Face>): Option<Face> {
    if since != 0 && row.nr <= since then before
    else if row.deleted then (if since == 0 then before else None)
    else Some(Shown(row.face))
  }

  ghost predicate Distinct(listing: seq<Listed>) {
    forall i, j :: 0 <= i < j < |listing| ==> listing[i].id != listing[j].id
  }

  /** The listing is the rows, each once, in any order. */
  ghost predicate Lists(listing: seq<Listed>, rows: map<int, Row>) {
    && Distinct(listing)
    && (forall k :: 0 <= k < |listing| ==> listing[k].id in rows && rows[listing[k].id] == listing[k].row)
    && (forall id :: id in rows ==> exists k :: 0 <= k < |listing| && listing[k].id == id)
  }

  lemma {:induction false} ApplyListed(listing: seq<Listed>, since: int, view: map<int, Face>, id: int)
    requires Distinct(listing)
    ensures forall k :: 0 <= k < |listing| && listing[k].id == id ==>
      Held(ApplyAll(view, Changes(listing, since)), id) == After(listing[k].row, since, Held(view, id))
    ensures (forall k :: 0 <= k < |listing| ==> listing[k].id != id) ==>
      Held(ApplyAll(view, Changes(listing, since)), id) == Held(view, id)
  {
    if listing != [] {
      var init, l := listing[..|listing| - 1], listing[|listing| - 1];
      ApplyListed(init, since, view, id);
      var rest := Changes(init, since);
      match ChangeFor(l, since)
      case None =>
      case Some(c) => assert (rest + [c])[..|rest|] == rest;
    }
  }

  /** A response says something about exactly the folders changed past `since`, whatever the row order. */
  lemma ApplyRows(listing: seq<Listed>, rows: map<int, Row>, since: int, view: map<int, Face>, id: int)
    requires Lists(listing, rows)
    ensures Held(ApplyAll(view, Changes(listing, since)), id)
      == if id in rows then After(rows[id], since, Held(view, id)) else Held(view, id)
  {
    ApplyListed(listing, since, view, id);
  }
}
