/** FolderSync as a replication protocol. */
module HierarchyReplication {
  import opened Options
  import opened FolderHierarchy

  /*
   The key comes from the user row, read when the request is authenticated; the folder
   rows are read later; in between, and while responses travel, get lost, arrive late
   or arrive twice, writers go on.
   */

  /** A request whose user row has been read. */
  datatype Begun = Begun(since: int, key: int)

  datatype Answer = Answer(since: int, key: int, changes: seq<Change>)

  /** `begun` and `sent` only grow: any request may be answered, any answer arrive, at any later time. */
  datatype Sys = Sys(folderSeq: int, rows: map<int, Row>, begun: set<Begun>, sent: set<Answer>,
                     key: int, view: map<int, Face>)

  datatype Step =
    | Touch(id: int, face: Face, deleted: bool)
    | Bump
    | Begin
    | Read(request: Begun, listing: seq<Listed>)
    | Deliver(answer: Answer)
    | StartOver

  predicate IsWrite(step: Step) {
    step.Touch? || step.Bump?
  }

  ghost predicate Enabled(s: Sys, step: Step) {
    match step
    case Touch(_, _, _) => true
    case Bump => true
    case Begin => true
    case Read(request, listing) => request in s.begun && Lists(listing, s.rows)
    case Deliver(a) => a in s.sent && (a.since == 0 || a.since <= s.key)
    case StartOver => true
  }

  function Next(s: Sys, step: Step): Sys {
    match step
    case Touch(id, face, deleted) =>
      var t := Touched(Tables(s.folderSeq, s.rows), id, face, deleted);
      s.(folderSeq := t.folderSeq, rows := t.rows)
    case Bump => s.(folderSeq := s.folderSeq + 1)
    case Begin =>
      if s.key > s.folderSeq then s.(key := 0, view := map[])
      else s.(begun := s.begun + {Begun(s.key, KeyFor(s.folderSeq))})
    case Read(request, listing) =>
      s.(sent := s.sent + {Answer(request.since, request.key, Changes(listing, request.since))})
    case Deliver(a) =>
      s.(key := a.key, view := ApplyAll(if a.since == 0 then map[] else s.view, a.changes))
    case StartOver => s.(key := 0, view := map[])
  }

  /** The account holds the default folders under these ids, and nothing else. */
  ghost predicate Created(s: Sys, ids: seq<int>) {
    |ids| == |DEFAULT_FOLDERS| && Provisioned(Tables(s.folderSeq, s.rows), ids, |ids|)
  }

  /** An account as it is created, and a device that has not synced. */
  ghost predicate Initially(s: Sys) {
    && (exists ids :: Created(s, ids))
    && s.begun == {} && s.sent == {} && s.key == 0 && s.view == map[]
  }

  // ----- What every step keeps -----

  /** The view is right about every folder not changed past the key. */
  ghost predicate Agrees(rows: map<int, Row>, view: map<int, Face>, key: int) {
    forall id :: (id in rows ==> rows[id].nr <= key) ==> Held(view, id) == FaceOf(rows, id)
  }

  /** An answer still tells the truth about every folder not changed past its key. */
  ghost predicate Sound(rows: map<int, Row>, a: Answer) {
    forall view, id :: (id in rows ==> rows[id].nr <= a.key) ==>
      Held(ApplyAll(view, a.changes), id)
        == if id in rows then After(rows[id], a.since, Held(view, id)) else Held(view, id)
  }

  ghost predicate Truthful(s: Sys) {
    && Stamped(s.rows, s.folderSeq)
    && 0 <= s.key <= s.folderSeq
    && Agrees(s.rows, s.view, s.key)
    && (forall b :: b in s.begun ==> 0 <= b.since <= b.key <= s.folderSeq)
    && (forall a :: a in s.sent ==> 0 <= a.since <= a.key <= s.folderSeq && Sound(s.rows, a))
  }

  /** With a counter past 0 the key handed out is the counter, so no later folder gets a number it covers. */
  ghost predicate Inv(s: Sys) {
    Truthful(s) && 1 <= s.folderSeq
  }

  lemma InvInit(s: Sys)
    requires Initially(s)
    ensures Inv(s)
  {
    assert |DEFAULT_FOLDERS| == 8;
  }

  lemma ReadSound(s: Sys, request: Begun, listing: seq<Listed>)
    requires Lists(listing, s.rows)
    ensures Sound(s.rows, Answer(request.since, request.key, Changes(listing, request.since)))
  {
    forall view, id
      ensures Held(ApplyAll(view, Changes(listing, request.since)), id)
        == if id in s.rows then After(s.rows[id], request.since, Held(view, id)) else Held(view, id)
    {
      ApplyRows(listing, s.rows, request.since, view, id);
    }
  }

  /** Delivery needs only that the answer is sound and not ahead of what the device had. */
  lemma DeliverAgrees(rows: map<int, Row>, view: map<int, Face>, key: int, a: Answer)
    requires Sound(rows, a) && Agrees(rows, view, key) && (a.since == 0 || a.since <= key)
    ensures Agrees(rows, ApplyAll(if a.since == 0 then map[] else view, a.changes), a.key)
  {
    var base := if a.since == 0 then map[] else view;
    forall id | id in rows ==> rows[id].nr <= a.key
      ensures Held(ApplyAll(base, a.changes), id) == FaceOf(rows, id)
    {
      assert Held(ApplyAll(base, a.changes), id)
        == if id in rows then After(rows[id], a.since, Held(base, id)) else Held(base, id);
      if a.since != 0 && (id in rows ==> rows[id].nr <= a.since) {
        assert Held(view, id) == FaceOf(rows, id);
      }
    }
  }

  lemma StepKeeps(s: Sys, step: Step)
    requires Inv(s) && Enabled(s, step)
    ensures Inv(Next(s, step))
  {
    match step
    case Touch(id, face, deleted) =>
      forall a | a in s.sent ensures Sound(Next(s, step).rows, a) {
      }
    case Bump =>
    case Begin =>
    case Read(request, listing) =>
      ReadSound(s, request, listing);
    case Deliver(a) =>
      DeliverAgrees(s.rows, s.view, s.key, a);
    case StartOver =>
  }

  // ----- Whole runs -----

  ghost predicate Runs(s: Sys, steps: seq<Step>)
    decreases |steps|
  {
    steps == [] || (Enabled(s, steps[0]) && Runs(Next(s, steps[0]), steps[1..]))
  }

  function Final(s: Sys, steps: seq<Step>): Sys
    decreases |steps|
  {
    if steps == [] then s else Final(Next(s, steps[0]), steps[1..])
  }

  lemma {:induction false} RunKeeps(s: Sys, steps: seq<Step>)
    requires Inv(s) && Runs(s, steps)
    ensures Inv(Final(s, steps))
    decreases |steps|
  {
    if steps != [] {
      StepKeeps(s, steps[0]);
      RunKeeps(Next(s, steps[0]), steps[1..]);
    }
  }

  /** The device shows the live folders and nothing else. */
  ghost predicate Current(s: Sys) {
    forall id :: Held(s.view, id) == FaceOf(s.rows, id)
  }

  /** One undisturbed FolderSync. */
  function Round(s: Sys, listing: seq<Listed>): Sys {
    var b := Begun(s.key, KeyFor(s.folderSeq));
    Next(Next(Next(s, Begin), Read(b, listing)), Deliver(Answer(b.since, b.key, Changes(listing, b.since))))
  }

  lemma RoundIsRun(s: Sys, listing: seq<Listed>)
    requires Inv(s) && Lists(listing, s.rows)
    ensures Inv(Round(s, listing)) && Current(Round(s, listing)) && Round(s, listing).key == s.folderSeq
  {
    var b := Begun(s.key, KeyFor(s.folderSeq));
    var a := Answer(b.since, b.key, Changes(listing, b.since));
    StepKeeps(s, Begin);
    StepKeeps(Next(s, Begin), Read(b, listing));
    StepKeeps(Next(Next(s, Begin), Read(b, listing)), Deliver(a));
  }

  /** The device holds a folder exactly while it is live, and then with what the row says of it. */
  ghost predicate Right(rows: map<int, Row>, view: map<int, Face>, id: int) {
    && (id in view <==> id in rows && !rows[id].deleted)
    && (id in view ==>
          var row, held := rows[id].face, view[id];
          && held.parent == row.parent && held.name == row.name && held.kind == row.kind
          && held.className == if row.className == "" then "Email" else row.className)
  }

  lemma RightIff(rows: map<int, Row>, view: map<int, Face>, id: int)
    ensures Right(rows, view, id) <==> Held(view, id) == FaceOf(rows, id)
  {
  }

  /**
   Split-read convergence. After any run of writers, syncs and late, repeated or
   lost responses on an account as it is created, the view is right about every
   folder not changed past the device's key, no key is from the future (Status 9
   never comes), and one undisturbed sync makes the view the live folders.
   */
  lemma Convergence(s: Sys, steps: seq<Step>, listing: seq<Listed>)
    requires Initially(s) && Runs(s, steps)
    ensures var t := Final(s, steps);
      && (forall id :: (id in t.rows ==> t.rows[id].nr <= t.key) ==> Right(t.rows, t.view, id))
      && t.key <= t.folderSeq && 1 <= t.folderSeq
      && (Lists(listing, t.rows) ==> forall id :: Right(t.rows, Round(t, listing).view, id))
  {
    InvInit(s);
    RunKeeps(s, steps);
    InvRight(Final(s, steps), listing);
  }

  lemma InvRight(t: Sys, listing: seq<Listed>)
    requires Inv(t)
    ensures forall id :: (id in t.rows ==> t.rows[id].nr <= t.key) ==> Right(t.rows, t.view, id)
    ensures Lists(listing, t.rows) ==> forall id :: Right(t.rows, Round(t, listing).view, id)
  {
    forall id | id in t.rows ==> t.rows[id].nr <= t.key ensures Right(t.rows, t.view, id) {
      RightIff(t.rows, t.view, id);
    }
    if Lists(listing, t.rows) {
      RoundIsRun(t, listing);
      forall id ensures Right(t.rows, Round(t, listing).view, id) {
        RightIff(t.rows, Round(t, listing).view, id);
      }
    }
  }

  /** What a device is to see of a new account. */
  const NEW_ACCOUNT: seq<Face> :=
    [Face(0, "Inbox", 2, "Email"), Face(0, "Drafts", 3, "Email"), Face(0, "Outbox", 6, "Email"),
     Face(0, "Sent Items", 5, "Email"), Face(0, "Deleted Items", 4, "Email"), Face(0, "Spam", 12, "Email"),
     Face(0, "Calendar", 8, "Calendar"), Face(0, "Contacts", 9, "Contacts")]

  lemma DefaultFace(i: nat)
    requires i < |DEFAULT_FOLDERS|
    ensures |DEFAULT_FOLDERS| == |NEW_ACCOUNT|
    ensures var f := DEFAULT_FOLDERS[i]; Shown(Face(0, f.0, f.1, ClassForType(f.1))) == NEW_ACCOUNT[i]
  {
  }

  /** The first sync of a new account brings these eight folders and no others. */
  lemma NewAccount(s: Sys, listing: seq<Listed>) returns (ids: seq<int>)
    requires Initially(s) && Lists(listing, s.rows)
    ensures var view := Round(s, listing).view;
      && |ids| == |NEW_ACCOUNT|
      && (forall id :: id in view <==> id in ids)
      && (forall i :: 0 <= i < |ids| ==> ids[i] in view && view[ids[i]] == NEW_ACCOUNT[i])
  {
    ids :| Created(s, ids);
    InvInit(s);
    CreatedRound(s, listing, ids);
  }

  lemma CreatedRound(s: Sys, listing: seq<Listed>, ids: seq<int>)
    requires Inv(s) && Created(s, ids) && Lists(listing, s.rows)
    ensures var view := Round(s, listing).view;
      && |ids| == |NEW_ACCOUNT|
      && (forall id :: id in view <==> id in ids)
      && (forall i :: 0 <= i < |ids| ==> ids[i] in view && view[ids[i]] == NEW_ACCOUNT[i])
  {
    RoundIsRun(s, listing);
    CreatedShown(s, Round(s, listing).view, ids);
  }

  lemma CreatedShown(s: Sys, view: map<int, Face>, ids: seq<int>)
    requires Created(s, ids) && forall id :: Held(view, id) == FaceOf(s.rows, id)
    ensures |ids| == |NEW_ACCOUNT|
    ensures forall id :: id in view <==> id in ids
    ensures forall i :: 0 <= i < |ids| ==> ids[i] in view && view[ids[i]] == NEW_ACCOUNT[i]
  {
    DefaultFace(0);
    assert ids[..|ids|] == ids;
    forall i | 0 <= i < |ids| ensures ids[i] in view && view[ids[i]] == NEW_ACCOUNT[i] {
      DefaultFace(i);
      assert Held(view, ids[i]) == FaceOf(s.rows, ids[i]);
    }
    forall id ensures id in view <==> id in ids {
      assert Held(view, id) == FaceOf(s.rows, id);
    }
  }

  // ----- Why accounts are created with folders -----

  /** Sync, let writers run, sync again undisturbed. */
  ghost predicate SecondSyncCurrent(s: Sys, writes: seq<Step>) {
    forall first, second :: Lists(first, s.rows) && Lists(second, Final(Round(s, first), writes).rows) ==>
      Current(Round(Final(Round(s, first), writes), second))
  }

  lemma {:induction false} WritesRun(s: Sys, writes: seq<Step>)
    requires forall w :: w in writes ==> IsWrite(w)
    ensures Runs(s, writes) && Final(s, writes).folderSeq >= s.folderSeq
    decreases |writes|
  {
    if writes != [] {
      assert writes[0] in writes && forall w :: w in writes[1..] ==> w in writes;
      WritesRun(Next(s, writes[0]), writes[1..]);
    }
  }

  /**
   Key 0 means "start over", so a sync at counter 0 would hand out key 1, the number
   the first folder then gets, and no incremental sync would ever send that folder.
   What follows a sync is delivered, whatever it is, exactly when the counter had
   already left 0; creating accounts with folders is what makes that so.
   */
  lemma FirstFolder(s: Sys)
    requires Truthful(s)
    ensures (forall writes :: (forall w :: w in writes ==> IsWrite(w)) ==> SecondSyncCurrent(s, writes))
      <==> s.folderSeq >= 1
  {
    if s.folderSeq >= 1 {
      forall writes | forall w :: w in writes ==> IsWrite(w) ensures SecondSyncCurrent(s, writes) {
        forall first, second | Lists(first, s.rows) && Lists(second, Final(Round(s, first), writes).rows)
          ensures Current(Round(Final(Round(s, first), writes), second))
        {
          RoundIsRun(s, first);
          WritesRun(Round(s, first), writes);
          RunKeeps(Round(s, first), writes);
          RoundIsRun(Final(Round(s, first), writes), second);
        }
      }
    } else {
      FirstFolderMissed(s);
    }
  }

  lemma FirstFolderMissed(s: Sys)
    requires Truthful(s) && s.folderSeq == 0
    ensures var writes := [Touch(1, Face(0, "New", 12, "Email"), false)];
      (forall w :: w in writes ==> IsWrite(w)) && !SecondSyncCurrent(s, writes)
  {
    var row := Row(Face(0, "New", 12, "Email"), 1, false);
    var listing := [Listed(1, row)];
    var t := Round(s, []);
    var u := Next(t, Touch(1, row.face, false));
    assert Changes([], 0) == [] && t.view == map[] && t.key == 1;
    FinalOne(t, Touch(1, row.face, false));
    assert u.rows == s.rows[1 := row];
    assert forall id :: id in u.rows ==> id == 1;
    assert listing[0].id == 1 && Lists(listing, u.rows);
    assert ChangeFor(listing[0], 1) == None && Changes(listing[..0], 1) == [] && Changes(listing, 1) == [];
    assert Held(Round(u, listing).view, 1).None?;
    assert !Current(Round(u, listing));
    assert Lists([], s.rows);
  }

  lemma FinalOne(s: Sys, step: Step)
    ensures Final(s, [step]) == Next(s, step)
  {
    assert [step][1..] == [];
  }

  // ----- Folder commands -----

  /**
   FolderCreate, FolderUpdate and FolderDelete answer with the newest key. The
   device, which has applied its own change, may adopt it exactly when no other
   folder has changed past the key it held: otherwise some view that was right up
   to that key is wrong, and stays wrong, under the new one.
   */
  lemma AdoptNewestKey(rows: map<int, Row>, folderSeq: int, key: int, own: int)
    requires Stamped(rows, folderSeq)
    ensures
      (forall view: map<int, Face> ::
         Agrees(rows, view, key) && Held(view, own) == FaceOf(rows, own) ==> Agrees(rows, view, folderSeq))
      <==> (forall id :: id in rows && id != own ==> rows[id].nr <= key)
  {
    if other :| other in rows && other != own && rows[other].nr > key {
      var face := Face(0, "", 0, "Email");
      var live := map id | id in rows && !rows[id].deleted :: Shown(rows[id].face);
      var view := if rows[other].deleted then live[other := face] else live - {other};
      assert Held(view, own) == FaceOf(rows, own);
      assert Agrees(rows, view, key);
      assert Held(view, other) != FaceOf(rows, other);
      assert !Agrees(rows, view, folderSeq);
    }
  }
}
