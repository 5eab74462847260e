/** What retries of one inbound message add up to. */
module InboundRetries {
  import opened Options
  import opened InboundDelivery

  function CopiesOf(e: Effects, user: string, messageId: string): nat {
    multiset(e.copies)[Copy(user, messageId)]
  }

  /** The sender tries again as long as it likes, whatever has changed in between. */
  function Retry(envelope: seq<string>, envs: seq<Env>, e: Effects, messageId: string): Effects {
    if envs == [] then e
    else Attempt(envelope, envs[|envs| - 1], Retry(envelope, envs[..|envs| - 1], e, messageId), messageId).effects
  }

  // ----- Resolution -----

  /** What one address resolves to, told without the loop. */
  function TargetOf(address: string, env: Env): Option<Target> {
    match env.lookup(address)
    case Account(user) => Some(Local(address, user))
    case Broken => None
    case Missing =>
      var dest := env.catchAll(DomainOf(address));
      if dest == "" then None else Some(Fallback(address, dest))
  }

  /** The targets are what the non-empty addresses resolve to, each once. */
  ghost predicate TargetsRight(targets: seq<Target>, envelope: seq<string>, env: Env) {
    && (forall i, j :: 0 <= i < j < |targets| ==> targets[i].address != targets[j].address)
    && (forall t :: t in targets ==> t.address != "" && t.address in envelope && TargetOf(t.address, env) == Some(t))
    && (forall a :: a in envelope && a != "" && TargetOf(a, env).Some? ==> TargetOf(a, env).value in targets)
  }

  /** The rest is unknown or a failed lookup. */
  ghost predicate RestRight(r: Resolution, envelope: seq<string>, env: Env) {
    && (forall a :: a in r.unknown <==> a in envelope && a != "" && env.lookup(a).Missing? && TargetOf(a, env).None?)
    && (r.failed <==> exists a :: a in envelope && a != "" && env.lookup(a).Broken?)
  }

  ghost predicate Resolved(r: Resolution, envelope: seq<string>, env: Env) {
    TargetsRight(r.targets, envelope, env) && RestRight(r, envelope, env)
  }

  lemma PlaceRest(r: Resolution, init: seq<string>, a: string, env: Env)
    requires RestRight(r, init, env)
    ensures RestRight(if a == "" || a in init then r else Place(r, a, env), init + [a], env)
  {
  }

  lemma ResolveLast(init: seq<string>, a: string, env: Env)
    ensures Resolve(init + [a], env) ==
      if a == "" || a in init then Resolve(init, env) else Place(Resolve(init, env), a, env)
  {
    assert (init + [a])[..|init|] == init;
  }

  lemma {:induction false} ResolveMeaning(envelope: seq<string>, env: Env)
    ensures Resolved(Resolve(envelope, env), envelope, env)
  {
    if envelope != [] {
      var init, a := envelope[..|envelope| - 1], envelope[|envelope| - 1];
      ResolveMeaning(init, env);
      PlaceRest(Resolve(init, env), init, a, env);
      ResolveLast(init, a, env);
      assert envelope == init + [a];
    }
  }

  // ----- One attempt -----

  /** Nothing is ever taken back; only this message, and only for the target's account, is added, and once. */
  ghost predicate Adds(t: seq<Target>, e: Effects, e': Effects, messageId: string, user: string, id: string) {
    var m, n := CopiesOf(e, user, id), CopiesOf(e', user, id);
    && m <= n
    && (id != messageId || (forall k :: 0 <= k < |t| ==> t[k].Local? ==> t[k].user != user) ==> n == m)
    && (id == messageId != "" && m >= 1 ==> n == m)
    && (id == messageId != "" && m == 0 ==> n <= 1)
  }

  lemma OneCopy(t: Target, k: nat, env: Env, e: Effects, messageId: string, user: string, id: string)
    ensures Adds([t], e, EffectOf(t, OutcomeOf(t, k, env, e, messageId), e, messageId), messageId, user, id)
  {
    assert [t][0] == t;
  }

  lemma {:induction false} DeliverCopies(targets: seq<Target>, env: Env, e: Effects, messageId: string,
                                         user: string, id: string)
    ensures Adds(targets, e, DeliverAll(targets, env, e, messageId).effects, messageId, user, id)
  {
    if targets != [] {
      var n := |targets| - 1;
      DeliverCopies(targets[..n], env, e, messageId, user, id);
      OneCopy(targets[n], n, env, DeliverAll(targets[..n], env, e, messageId).effects, messageId, user, id);
      assert [targets[n]][0] == targets[n];
    }
  }

  /** The account holds a copy, or the destination was sent to. */
  ghost predicate Served(t: Target, e: Effects, messageId: string) {
    match t
    case Local(_, user) => CopiesOf(e, user, messageId) >= 1
    case Fallback(address, dest) => Forward(address, dest) in e.forwards
  }

  lemma OneServed(t: Target, k: nat, env: Env, e: Effects, messageId: string)
    requires messageId != ""
    ensures var o := OutcomeOf(t, k, env, e, messageId);
      !StorageFault(o) && !ForwardFault(o) ==> Served(t, EffectOf(t, o, e, messageId), messageId)
  {
  }

  /** Targets that report no fault are served. */
  lemma {:induction false} DeliverServes(targets: seq<Target>, env: Env, e: Effects, messageId: string, k: nat)
    requires k < |targets| && messageId != ""
    ensures
      var d := DeliverAll(targets, env, e, messageId);
      !StorageFault(d.outcomes[k]) && !ForwardFault(d.outcomes[k]) ==> Served(targets[k], d.effects, messageId)
  {
    var n := |targets| - 1;
    var before := DeliverAll(targets[..n], env, e, messageId);
    var o := OutcomeOf(targets[n], n, env, before.effects, messageId);
    if k == n {
      OneServed(targets[n], n, env, before.effects, messageId);
    } else if !StorageFault(before.outcomes[k]) && !ForwardFault(before.outcomes[k]) {
      DeliverServes(targets[..n], env, e, messageId, k);
    }
  }

  /** A permanent refusal, or a failed lookup, leaves no trace; and 550 comes exactly for an unknown recipient. */
  lemma RefusedLeavesNothing(envelope: seq<string>, env: Env, e: Effects, messageId: string)
    ensures
      var unknown := exists a :: a in envelope && a != "" && env.lookup(a).Missing? && env.catchAll(DomainOf(a)) == "";
      var broken := exists a :: a in envelope && a != "" && env.lookup(a).Broken?;
      && (unknown <==> Attempt(envelope, env, e, messageId).status == 550)
      && (unknown || broken ==> Attempt(envelope, env, e, messageId).effects == e)
      && (broken && !unknown ==> Attempt(envelope, env, e, messageId).status == 500)
  {
    ResolveMeaning(envelope, env);
    var r := Resolve(envelope, env);
    if r.unknown != [] {
      assert r.unknown[0] in r.unknown;
    }
  }

  lemma AttemptCopies(envelope: seq<string>, env: Env, e: Effects, messageId: string, user: string, id: string)
    ensures
      var e' := Attempt(envelope, env, e, messageId).effects;
      && CopiesOf(e, user, id) <= CopiesOf(e', user, id)
      && (id != messageId || (forall a :: a in envelope ==> env.lookup(a) != Account(user)) ==>
            CopiesOf(e', user, id) == CopiesOf(e, user, id))
      && (id == messageId != "" && CopiesOf(e, user, id) >= 1 ==> CopiesOf(e', user, id) == CopiesOf(e, user, id))
      && (id == messageId != "" && CopiesOf(e, user, id) == 0 ==> CopiesOf(e', user, id) <= 1)
  {
    ResolveMeaning(envelope, env);
    DeliverCopies(Resolve(envelope, env).targets, env, e, messageId, user, id);
  }

  // ----- One attempt, to the last effect and the status -----

  /** Only an accepted submission to a catch-all destination counts as sent. */
  predicate Accepted(t: Target, k: nat, env: Env) {
    t.Fallback? && env.sender && env.relayed(k)
  }

  function SentBy(targets: seq<Target>, env: Env): seq<Forward> {
    if targets == [] then []
    else
      var n := |targets| - 1;
      var t := targets[n];
      SentBy(targets[..n], env) + if Accepted(t, n, env) then [Forward(t.address, t.destination)] else []
  }

  /** The account holds the message already, as far as the copies so far tell. */
  predicate Known(t: Target, copies: seq<Copy>, messageId: string) {
    t.Local? && messageId != "" && Copy(t.user, messageId) in copies
  }

  /** The Inbox is missing, the check fails (made for a message with an id), or so does an insert that is due. */
  predicate StorageFails(t: Target, k: nat, env: Env, copies: seq<Copy>, messageId: string) {
    && t.Local?
    && match env.fault(k)
       case Fine => false
       case NoInbox => true
       case CheckFailed => messageId != ""
       case InsertFailed => !Known(t, copies, messageId)
  }

  /** The copies there are when the targets have had their turn. */
  function StoredBy(targets: seq<Target>, env: Env, copies: seq<Copy>, messageId: string): seq<Copy> {
    if targets == [] then copies
    else
      var n := |targets| - 1;
      var t, before := targets[n], StoredBy(targets[..n], env, copies, messageId);
      before
      + if t.Local? && !StorageFails(t, n, env, before, messageId) && !Known(t, before, messageId)
        then [Copy(t.user, messageId)] else []
  }

  lemma TargetExact(t: Target, k: nat, env: Env, e: Effects, messageId: string)
    ensures
      var o := OutcomeOf(t, k, env, e, messageId);
      && (StorageFault(o) <==> StorageFails(t, k, env, e.copies, messageId))
      && (ForwardFault(o) <==> t.Fallback? && !Accepted(t, k, env))
      && EffectOf(t, o, e, messageId) == Effects(
           e.copies + (if t.Local? && !StorageFails(t, k, env, e.copies, messageId) && !Known(t, e.copies, messageId)
                       then [Copy(t.user, messageId)] else []),
           e.forwards + if Accepted(t, k, env) then [Forward(t.address, t.destination)] else [])
  {
  }

  lemma {:induction false} EffectsExact(targets: seq<Target>, env: Env, e: Effects, messageId: string)
    ensures DeliverAll(targets, env, e, messageId).effects
      == Effects(StoredBy(targets, env, e.copies, messageId), e.forwards + SentBy(targets, env))
  {
    if targets == [] {
      assert e.forwards + [] == e.forwards;
    } else {
      var n := |targets| - 1;
      var t, before := targets[n], DeliverAll(targets[..n], env, e, messageId).effects;
      EffectsExact(targets[..n], env, e, messageId);
      TargetExact(t, n, env, before, messageId);
      var last := if Accepted(t, n, env) then [Forward(t.address, t.destination)] else [];
      assert e.forwards + SentBy(targets[..n], env) + last == e.forwards + (SentBy(targets[..n], env) + last);
    }
  }

  lemma {:induction false} OutcomeAt(targets: seq<Target>, env: Env, e: Effects, messageId: string, k: nat)
    requires k < |targets|
    ensures DeliverAll(targets, env, e, messageId).outcomes[k]
      == OutcomeOf(targets[k], k, env, DeliverAll(targets[..k], env, e, messageId).effects, messageId)
  {
    var n := |targets| - 1;
    if k < n {
      OutcomeAt(targets[..n], env, e, messageId, k);
      assert targets[..n][..k] == targets[..k];
    }
  }

  /** Of this attempt, target k meets a storage fault. */
  predicate FailsAt(targets: seq<Target>, env: Env, e: Effects, messageId: string, k: nat)
    requires k < |targets|
  {
    StorageFails(targets[k], k, env, StoredBy(targets[..k], env, e.copies, messageId), messageId)
  }

  /** It is a catch-all target that is not sent to. */
  predicate RefusedAt(targets: seq<Target>, env: Env, k: nat)
    requires k < |targets|
  {
    targets[k].Fallback? && !Accepted(targets[k], k, env)
  }

  lemma FaultAt(targets: seq<Target>, env: Env, e: Effects, messageId: string, k: nat)
    requires k < |targets|
    ensures var o := DeliverAll(targets, env, e, messageId).outcomes[k];
      && (StorageFault(o) <==> FailsAt(targets, env, e, messageId, k))
      && (ForwardFault(o) <==> RefusedAt(targets, env, k))
  {
    OutcomeAt(targets, env, e, messageId, k);
    EffectsExact(targets[..k], env, e, messageId);
    TargetExact(targets[k], k, env, DeliverAll(targets[..k], env, e, messageId).effects, messageId);
  }

  lemma AllResolved(envelope: seq<string>, env: Env)
    requires forall a :: a in envelope && a != "" ==> TargetOf(a, env).Some?
    ensures var r := Resolve(envelope, env); r.unknown == [] && !r.failed
  {
    ResolveMeaning(envelope, env);
    var r := Resolve(envelope, env);
    forall k | 0 <= k < |r.unknown| ensures r.unknown[k] in r.unknown {}
  }

  /**
   What an attempt does once every recipient is resolved. Copies and forwards are
   exactly those of the targets that store and are accepted; the answer is 500 if and
   only if some account met a storage fault, 200 if and only if none did and the relay
   accepted every catch-all target, and 502 otherwise.
   */
  lemma AttemptExact(envelope: seq<string>, env: Env, e: Effects, messageId: string)
    requires forall a :: a in envelope && a != "" ==> TargetOf(a, env).Some?
    ensures
      var targets := Resolve(envelope, env).targets;
      var reply := Attempt(envelope, env, e, messageId);
      && reply.effects == Effects(StoredBy(targets, env, e.copies, messageId), e.forwards + SentBy(targets, env))
      && (reply.status == 500 <==> exists k :: 0 <= k < |targets| && FailsAt(targets, env, e, messageId, k))
      && (reply.status == 200 <==> forall k :: 0 <= k < |targets| ==>
            !FailsAt(targets, env, e, messageId, k) && !RefusedAt(targets, env, k))
      && reply.status in {200, 500, 502}
  {
    AllResolved(envelope, env);
    var targets := Resolve(envelope, env).targets;
    EffectsExact(targets, env, e, messageId);
    var outcomes := DeliverAll(targets, env, e, messageId).outcomes;
    forall k | 0 <= k < |targets|
      ensures StorageFault(outcomes[k]) <==> FailsAt(targets, env, e, messageId, k)
      ensures ForwardFault(outcomes[k]) <==> RefusedAt(targets, env, k)
    {
      FaultAt(targets, env, e, messageId, k);
    }
  }

  // ----- Every sequence of attempts -----

  lemma {:induction false} RetryCopies(envelope: seq<string>, envs: seq<Env>, e: Effects, messageId: string,
                                       user: string, id: string)
    ensures
      var e' := Retry(envelope, envs, e, messageId);
      && CopiesOf(e, user, id) <= CopiesOf(e', user, id)
      && (id != messageId ||
            (forall k, a :: 0 <= k < |envs| && a in envelope ==> envs[k].lookup(a) != Account(user)) ==>
            CopiesOf(e', user, id) == CopiesOf(e, user, id))
      && (id == messageId != "" && CopiesOf(e, user, id) >= 1 ==> CopiesOf(e', user, id) == CopiesOf(e, user, id))
      && (id == messageId != "" && CopiesOf(e, user, id) == 0 ==> CopiesOf(e', user, id) <= 1)
  {
    if envs != [] {
      var n := |envs| - 1;
      RetryCopies(envelope, envs[..n], e, messageId, user, id);
      AttemptCopies(envelope, envs[n], Retry(envelope, envs[..n], e, messageId), messageId, user, id);
    }
  }

  /**
   Exactly once. However often a message with an id is retried, and whatever fails
   in between, an account gains at most one copy, also when several of its
   addresses are listed; and once an attempt answers 200, every account it resolved
   holds a copy and every catch-all destination has been sent to.
   */
  lemma ExactlyOnce(envelope: seq<string>, envs: seq<Env>, e: Effects, messageId: string, address: string)
    requires messageId != "" && envs != [] && address in envelope && address != ""
    ensures
      var env := envs[|envs| - 1];
      var before := Retry(envelope, envs[..|envs| - 1], e, messageId);
      var reply := Attempt(envelope, env, before, messageId);
      && (forall user :: CopiesOf(reply.effects, user, messageId)
            <= if CopiesOf(e, user, messageId) == 0 then 1 else CopiesOf(e, user, messageId))
      && (reply.status == 200 ==>
            match TargetOf(address, env)
            case None => false
            case Some(Local(_, user)) => CopiesOf(reply.effects, user, messageId) >= 1
            case Some(Fallback(_, dest)) => Forward(address, dest) in reply.effects.forwards)
  {
    var env := envs[|envs| - 1];
    var before := Retry(envelope, envs[..|envs| - 1], e, messageId);
    var reply := Attempt(envelope, env, before, messageId);
    forall user
      ensures CopiesOf(reply.effects, user, messageId)
        <= if CopiesOf(e, user, messageId) == 0 then 1 else CopiesOf(e, user, messageId)
    {
      RetryCopies(envelope, envs, e, messageId, user, messageId);
    }
    if reply.status == 200 {
      ServedAll(envelope, env, before, messageId, address);
    }
  }

  lemma ServedAll(envelope: seq<string>, env: Env, e: Effects, messageId: string, address: string)
    requires messageId != "" && address in envelope && address != ""
    requires Attempt(envelope, env, e, messageId).status == 200
    ensures
      var e' := Attempt(envelope, env, e, messageId).effects;
      match TargetOf(address, env)
      case None => false
      case Some(Local(_, user)) => CopiesOf(e', user, messageId) >= 1
      case Some(Fallback(_, dest)) => Forward(address, dest) in e'.forwards
  {
    ResolveMeaning(envelope, env);
    var r := Resolve(envelope, env);
    assert r.unknown == [] && !r.failed;
    assert address !in r.unknown;
    var t := TargetOf(address, env).value;
    var k :| 0 <= k < |r.targets| && r.targets[k] == t;
    DeliverServes(r.targets, env, e, messageId, k);
    var outcomes := DeliverAll(r.targets, env, e, messageId).outcomes;
    assert !StorageFault(outcomes[k]) && !ForwardFault(outcomes[k]);
  }

  /** Without a Message-ID nothing tells a retry from a new message: copies stay single exactly for non-empty ids. */
  lemma SingleCopiesIff(messageId: string)
    ensures
      (forall envelope, envs, user :: CopiesOf(Retry(envelope, envs, Effects([], []), messageId), user, messageId) <= 1)
      <==> messageId != ""
  {
    if messageId != "" {
      forall envelope, envs, user
        ensures CopiesOf(Retry(envelope, envs, Effects([], []), messageId), user, messageId) <= 1
      {
        RetryCopies(envelope, envs, Effects([], []), messageId, user, messageId);
      }
    } else {
      var envs := TwoCopies();
    }
  }

  /** Two undisturbed attempts of a message without an id store it twice. */
  lemma TwoCopies() returns (envs: seq<Env>)
    ensures CopiesOf(Retry(["a"], envs, Effects([], []), ""), "user", "") == 2
  {
    var env := Env((a: string) => Account("user"), (d: string) => "", false, (k: nat) => Fine, (k: nat) => true);
    var e0, e1 := Effects([], []), Effects([Copy("user", "")], []);
    AttemptFine(env, e0);
    AttemptFine(env, e1);
    envs := [env, env];
    assert envs[..1] == [env] && [env][..0] == [];
    assert Retry(["a"], [], e0, "") == e0;
    assert Retry(["a"], [env], e0, "") == e1;
  }

  lemma AttemptFine(env: Env, e: Effects)
    requires env.lookup("a") == Account("user") && env.fault(0).Fine?
    ensures Attempt(["a"], env, e, "").effects == e.(copies := e.copies + [Copy("user", "")])
  {
    var targets := [Local("a", "user")];
    assert ["a"][..0] == [] && targets[..0] == [];
    assert Resolve([], env) == Resolution([], [], false);
    assert Resolve(["a"], env) == Resolution(targets, [], false);
    assert DeliverAll([], env, e, "") == Delivery(e, []);
  }

  // ----- Attempts that overlap -----

  /*
   Looking for a copy and storing one are two statements (internal/api/inbound.go, lines
   219 and 252), and no index keeps message ids unique
   (internal/store/migrations/0001_init.sqlite.sql, line 70).
   */

  /** The store, and how many attempts have looked and not yet stored. */
  datatype Race = Race(copies: seq<Copy>, armed: nat)

  /** One statement of one attempt at storing a copy; `Other` is any other delivery. */
  datatype Step = Check | Insert | Fail | Other(copy: Copy)

  predicate Enabled(r: Race, mine: Copy, s: Step) {
    match s
    case Check => true
    case Insert => r.armed > 0
    case Fail => r.armed > 0
    case Other(copy) => copy != mine
  }

  function Take(r: Race, mine: Copy, s: Step): Race
    requires Enabled(r, mine, s)
  {
    match s
    case Check => if IsDuplicate(r.copies, mine.user, mine.messageId) then r else r.(armed := r.armed + 1)
    case Insert => Race(r.copies + [mine], r.armed - 1)
    case Fail => r.(armed := r.armed - 1)
    case Other(copy) => r.(copies := r.copies + [copy])
  }

  /** Where a run of statements leads. */
  function Run(r: Race, mine: Copy, steps: seq<Step>): (after: Option<Race>) {
    if steps == [] then Some(r)
    else
      match Run(r, mine, steps[..|steps| - 1])
      case None => None
      case Some(before) =>
        var s := steps[|steps| - 1];
        if Enabled(before, mine, s) then Some(Take(before, mine, s)) else None
  }

  /** A run of enabled statements in which at most n attempts are ever between the two. */
  ghost predicate Overlaps(r: Race, mine: Copy, steps: seq<Step>, n: nat) {
    && (var after := Run(r, mine, steps); after.Some? && after.value.armed <= n)
    && (steps != [] ==> Overlaps(r, mine, steps[..|steps| - 1], n))
  }

  function Held(copies: seq<Copy>, mine: Copy): nat {
    multiset(copies)[mine]
  }

  // ----- One attempt at a time -----

  /** The statements an attempt gets to. */
  function StatementsOf(o: Outcome, fault: Fault): seq<Step> {
    match o
    case Delivered(_) => [Check, Insert]
    case Forwarded(_, _) => []
    case Skipped(_, Duplicate) => [Check]
    case Skipped(_, _) => if fault.InsertFailed? then [Check, Fail] else []
  }

  lemma TwoSteps(r: Race, mine: Copy, a: Step, b: Step)
    ensures Run(r, mine, [a]) == if Enabled(r, mine, a) then Some(Take(r, mine, a)) else None
    ensures Run(r, mine, [a, b]) ==
      match Run(r, mine, [a])
      case None => None
      case Some(before) => if Enabled(before, mine, b) then Some(Take(before, mine, b)) else None
  {
    assert [a][..0] == [] && [a, b][..1] == [a];
    assert Run(r, mine, []) == Some(r);
  }

  /** Undisturbed, the statements of an attempt do what the delivery of one target does. */
  lemma AttemptIsRun(t: Target, k: nat, env: Env, e: Effects, messageId: string)
    requires t.Local?
    ensures
      var o := OutcomeOf(t, k, env, e, messageId);
      var mine := Copy(t.user, messageId);
      var steps := StatementsOf(o, env.fault(k));
      && Run(Race(e.copies, 0), mine, steps) == Some(Race(EffectOf(t, o, e, messageId).copies, 0))
      && Overlaps(Race(e.copies, 0), mine, steps, 1)
  {
    var r, mine := Race(e.copies, 0), Copy(t.user, messageId);
    TwoSteps(r, mine, Check, Insert);
    TwoSteps(r, mine, Check, Fail);
    assert [Check, Insert][..1] == [Check] && [Check, Fail][..1] == [Check] && [Check][..0] == [];
  }

  // ----- Many at a time -----

  /** A copy more needs an attempt that looked before there was one. */
  lemma {:induction false} RaceBound(copies: seq<Copy>, mine: Copy, steps: seq<Step>, n: nat)
    requires mine.messageId != "" && Overlaps(Race(copies, 0), mine, steps, n)
    ensures
      var after := Run(Race(copies, 0), mine, steps).value;
      if mine in copies then Held(after.copies, mine) == Held(copies, mine) && after.armed == 0
      else Held(after.copies, mine) + after.armed <= n
    decreases |steps|
  {
    if steps != [] {
      RaceBound(copies, mine, steps[..|steps| - 1], n);
    }
  }

  lemma RunMore(r: Race, mine: Copy, steps: seq<Step>, before: Race, s: Step, n: nat)
    requires Overlaps(r, mine, steps, n) && Run(r, mine, steps) == Some(before)
    requires Enabled(before, mine, s) && Take(before, mine, s).armed <= n
    ensures Overlaps(r, mine, steps + [s], n) && Run(r, mine, steps + [s]) == Some(Take(before, mine, s))
  {
    assert (steps + [s])[..|steps|] == steps;
  }

  /** Several attempts look before the first of them stores. */
  lemma {:induction false} LookTogether(mine: Copy, k: nat, n: nat) returns (steps: seq<Step>)
    requires k <= n
    ensures Overlaps(Race([], 0), mine, steps, n) && Run(Race([], 0), mine, steps) == Some(Race([], k))
  {
    if k == 0 {
      steps := [];
    } else {
      var before := LookTogether(mine, k - 1, n);
      RunMore(Race([], 0), mine, before, Race([], k - 1), Check, n);
      steps := before + [Check];
    }
  }

  /** They all store. */
  lemma {:induction false} StoreAll(mine: Copy, k: nat, n: nat) returns (steps: seq<Step>, copies: seq<Copy>)
    requires k <= n
    ensures Overlaps(Race([], 0), mine, steps, n)
    ensures Run(Race([], 0), mine, steps) == Some(Race(copies, n - k)) && Held(copies, mine) == k
  {
    if k == 0 {
      steps := LookTogether(mine, n, n);
      copies := [];
    } else {
      var before, held := StoreAll(mine, k - 1, n);
      RunMore(Race([], 0), mine, before, Race(held, n - k + 1), Insert, n);
      steps, copies := before + [Insert], held + [mine];
    }
  }

  /** Without an id one attempt after the other stores a copy. */
  lemma {:induction false} StoreInTurn(mine: Copy, k: nat, n: nat) returns (steps: seq<Step>, copies: seq<Copy>)
    requires mine.messageId == "" && n >= 1
    ensures Overlaps(Race([], 0), mine, steps, n)
    ensures Run(Race([], 0), mine, steps) == Some(Race(copies, 0)) && Held(copies, mine) == k
  {
    if k == 0 {
      steps, copies := [], [];
    } else {
      var before, held := StoreInTurn(mine, k - 1, n);
      RunMore(Race([], 0), mine, before, Race(held, 0), Check, n);
      RunMore(Race([], 0), mine, before + [Check], Race(held, 1), Insert, n);
      steps, copies := before + [Check] + [Insert], held + [mine];
    }
  }

  /** Over every run with at most n overlapping attempts an account holds at most m copies. */
  ghost predicate AtMost(mine: Copy, n: nat, m: nat) {
    forall steps :: Overlaps(Race([], 0), mine, steps, n) ==>
      Held(Run(Race([], 0), mine, steps).value.copies, mine) <= m
  }

  /**
   How many copies retries can leave: as many as attempts overlap, so that a message
   with an id stays single exactly when no two attempts at storing it do.
   */
  lemma CopiesIff(mine: Copy, n: nat, m: nat)
    ensures AtMost(mine, n, m) <==> n == 0 || (mine.messageId != "" && n <= m)
  {
    if n == 0 {
      forall steps | Overlaps(Race([], 0), mine, steps, 0)
        ensures Held(Run(Race([], 0), mine, steps).value.copies, mine) <= m
      {
        NoneArmed(mine, steps);
      }
    } else if mine.messageId == "" {
      var steps, copies := StoreInTurn(mine, m + 1, n);
    } else if n <= m {
      forall steps | Overlaps(Race([], 0), mine, steps, n)
        ensures Held(Run(Race([], 0), mine, steps).value.copies, mine) <= m
      {
        RaceBound([], mine, steps, n);
      }
    } else {
      var steps, copies := StoreAll(mine, n, n);
    }
  }

  lemma {:induction false} NoneArmed(mine: Copy, steps: seq<Step>)
    requires Overlaps(Race([], 0), mine, steps, 0)
    ensures Held(Run(Race([], 0), mine, steps).value.copies, mine) == 0
    decreases |steps|
  {
    if steps != [] {
      NoneArmed(mine, steps[..|steps| - 1]);
    }
  }
}
