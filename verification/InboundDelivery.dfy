/**
 The inbound endpoint mail workers deliver to (internal/api/inbound.go: ServeHTTP
 from the recipient list on), and what a sender that retries can rely on.
 */
module InboundDelivery {

  /** One stored copy of a message. */
  datatype Copy = Copy(user: string, messageId: string)

  /** One message submitted to the relay for a catch-all address. */
  datatype Forward = Forward(address: string, destination: string)

  datatype Effects = Effects(copies: seq<Copy>, forwards: seq<Forward>)

  datatype Lookup = Account(user: string) | Missing | Broken

  /** What can go wrong while storing for one target. */
  datatype Fault = Fine | NoInbox | CheckFailed | InsertFailed

  /**
   One attempt's surroundings: address lookups, catch-all destinations by domain,
   and, by target position, storage faults and relay answers.
   */
  datatype Env = Env(lookup: string -> Lookup, catchAll: string -> string, sender: bool,
                     fault: nat -> Fault, relayed: nat -> bool)

  datatype Target = Local(address: string, user: string) | Fallback(address: string, destination: string)

  datatype Reason = NotConfigured | ForwardFailed | InboxMissing | StorageError | Duplicate

  datatype Outcome =
    | Delivered(address: string)
    | Forwarded(address: string, destination: string)
    | Skipped(address: string, reason: Reason)

  /** The recipients as they are looked up; `normal` strips display names, brackets and case. */
  function Addresses(recipients: seq<string>, normal: string -> string): (r: seq<string>)
    ensures |r| == |recipients|
    ensures forall i :: 0 <= i < |r| ==> r[i] == normal(recipients[i])
  {
    seq(|recipients|, i requires 0 <= i < |recipients| => normal(recipients[i]))
  }

  /** Behind the last @, or nothing. */
  function DomainOf(address: string): (r: string)
    ensures '@' !in address ==> r == ""
    ensures '@' in address ==>
      && '@' !in r && |r| < |address| && address[|address| - |r| - 1] == '@' && address[|address| - |r|..] == r
  {
    if address == "" then ""
    else
      var n := |address| - 1;
      if address[n] == '@' then ""
      else if '@' in address[..n] then DomainOf(address[..n]) + [address[n]]
      else ""
  }

  // ----- Resolving -----

  datatype Resolution = Resolution(targets: seq<Target>, unknown: seq<string>, failed: bool)

  /** What one recipient adds. */
  function Place(r: Resolution, address: string, env: Env): Resolution {
    match env.lookup(address)
    case Account(user) => r.(targets := r.targets + [Local(address, user)])
    case Broken => r.(failed := true)
    case Missing =>
      var dest := env.catchAll(DomainOf(address));
      if dest != "" then r.(targets := r.targets + [Fallback(address, dest)])
      else r.(unknown := r.unknown + [address])
  }

  /** Empty and repeated addresses are passed over. */
  function Resolve(envelope: seq<string>, env: Env): Resolution {
    if envelope == [] then Resolution([], [], false)
    else
      var n := |envelope| - 1;
      var r := Resolve(envelope[..n], env);
      if envelope[n] == "" || envelope[n] in envelope[..n] then r else Place(r, envelope[n], env)
  }

  // ----- Delivering -----

  predicate Holds(copies: seq<Copy>, user: string, messageId: string) {
    Copy(user, messageId) in copies
  }

  /** A message without an id is never a duplicate. */
  predicate IsDuplicate(copies: seq<Copy>, user: string, messageId: string) {
    messageId != "" && Holds(copies, user, messageId)
  }

  function OutcomeOf(t: Target, k: nat, env: Env, e: Effects, messageId: string): Outcome {
    match t
    case Fallback(address, dest) =>
      if !env.sender then Skipped(address, NotConfigured)
      else if !env.relayed(k) then Skipped(address, ForwardFailed)
      else Forwarded(address, dest)
    case Local(address, user) =>
      if env.fault(k).NoInbox? then Skipped(address, InboxMissing)
      else if messageId != "" && env.fault(k).CheckFailed? then Skipped(address, StorageError)
      else if IsDuplicate(e.copies, user, messageId) then Skipped(address, Duplicate)
      else if env.fault(k).InsertFailed? then Skipped(address, StorageError)
      else Delivered(address)
  }

  function EffectOf(t: Target, o: Outcome, e: Effects, messageId: string): Effects {
    match o
    case Delivered(_) => if t.Local? then e.(copies := e.copies + [Copy(t.user, messageId)]) else e
    case Forwarded(address, dest) => e.(forwards := e.forwards + [Forward(address, dest)])
    case Skipped(_, _) => e
  }

  datatype Delivery = Delivery(effects: Effects, outcomes: seq<Outcome>)

  function DeliverAll(targets: seq<Target>, env: Env, e: Effects, messageId: string): (d: Delivery)
    ensures |d.outcomes| == |targets|
  {
    if targets == [] then Delivery(e, [])
    else
      var n := |targets| - 1;
      var d := DeliverAll(targets[..n], env, e, messageId);
      var o := OutcomeOf(targets[n], n, env, d.effects, messageId);
      Delivery(EffectOf(targets[n], o, d.effects, messageId), d.outcomes + [o])
  }

  predicate StorageFault(o: Outcome) {
    o.Skipped? && (o.reason.InboxMissing? || o.reason.StorageError?)
  }

  predicate ForwardFault(o: Outcome) {
    o.Skipped? && (o.reason.NotConfigured? || o.reason.ForwardFailed?)
  }

  function StatusOf(outcomes: seq<Outcome>): int {
    if exists k :: 0 <= k < |outcomes| && StorageFault(outcomes[k]) then 500
    else if exists k :: 0 <= k < |outcomes| && ForwardFault(outcomes[k]) then 502
    else 200
  }

  datatype Reply = Reply(status: int, effects: Effects)

  /** One attempt, from the recipient list to the status. */
  function Attempt(envelope: seq<string>, env: Env, e: Effects, messageId: string): Reply {
    var r := Resolve(envelope, env);
    if r.unknown != [] then Reply(550, e)
    else if r.failed then Reply(500, e)
    else
      var d := DeliverAll(r.targets, env, e, messageId);
      Reply(StatusOf(d.outcomes), d.effects)
  }

  // ----- The handler as it runs -----

  class Inbound {
    var copies: seq<Copy>
    var forwards: seq<Forward>

    constructor ()
      ensures copies == [] && forwards == []
    {
      copies, forwards := [], [];
    }

    function State(): Effects
      reads this
    {
      Effects(copies, forwards)
    }

    method Serve(recipients: seq<string>, normal: string -> string, env: Env, messageId: string)
      returns (status: int)
      modifies this
      ensures Reply(status, State()) == Attempt(Addresses(recipients, normal), env, old(State()), messageId)
    {
      ghost var envelope := Addresses(recipients, normal);
      var targets: seq<Target>, unknown: seq<string>, resolveFailed := [], [], false;
      var seen: set<string> := {};
      for i := 0 to |recipients|
        invariant Resolution(targets, unknown, resolveFailed) == Resolve(envelope[..i], env)
        invariant forall a :: a in seen <==> a != "" && a in envelope[..i]
        invariant State() == old(State())
      {
        var addr := normal(recipients[i]);
        assert envelope[..i + 1][..i] == envelope[..i] && envelope[..i + 1] == envelope[..i] + [addr];
        if addr == "" || addr in seen {
          continue;
        }
        seen := seen + {addr};
        var found := env.lookup(addr);
        if !found.Account? {
          if found.Broken? {
            resolveFailed := true;
            continue;
          }
          var dest := env.catchAll(DomainOf(addr));
          if dest != "" {
            targets := targets + [Fallback(addr, dest)];
            continue;
          }
          unknown := unknown + [addr];
          continue;
        }
        targets := targets + [Local(addr, found.user)];
      }
      assert envelope[..|envelope|] == envelope;
      if |unknown| > 0 {
        return 550;
      }
      if resolveFailed {
        return 500;
      }
      status := Deliver(targets, env, messageId);
    }

    method Deliver(targets: seq<Target>, env: Env, messageId: string) returns (status: int)
      modifies this
      ensures var d := DeliverAll(targets, env, old(State()), messageId);
        State() == d.effects && status == StatusOf(d.outcomes)
    {
      var storageFailed, forwardFailed := false, false;
      ghost var start := State();
      for i := 0 to |targets|
        invariant State() == DeliverAll(targets[..i], env, start, messageId).effects
        invariant var outcomes := DeliverAll(targets[..i], env, start, messageId).outcomes;
          && (storageFailed <==> exists k :: 0 <= k < i && StorageFault(outcomes[k]))
          && (forwardFailed <==> exists k :: 0 <= k < i && ForwardFault(outcomes[k]))
      {
        assert targets[..i + 1][..i] == targets[..i];
        ghost var before := DeliverAll(targets[..i], env, start, messageId).outcomes;
        var outcome := DeliverOne(targets[i], i, env, messageId);
        ghost var after := DeliverAll(targets[..i + 1], env, start, messageId).outcomes;
        assert after == before + [outcome];
        assert forall k :: 0 <= k < i ==> after[k] == before[k];
        if StorageFault(outcome) {
          assert StorageFault(after[i]);
          storageFailed := true;
        } else if ForwardFault(outcome) {
          assert ForwardFault(after[i]);
          forwardFailed := true;
        }
      }
      assert targets[..|targets|] == targets;
      status := 200;
      if storageFailed {
        status := 500;
      } else if forwardFailed {
        status := 502;
      }
    }

    method DeliverOne(t: Target, k: nat, env: Env, messageId: string) returns (o: Outcome)
      modifies this
      ensures o == OutcomeOf(t, k, env, old(State()), messageId)
      ensures State() == EffectOf(t, o, old(State()), messageId)
    {
      if t.Fallback? {
        if !env.sender {
          return Skipped(t.address, NotConfigured);
        }
        if !env.relayed(k) {
          return Skipped(t.address, ForwardFailed);
        }
        forwards := forwards + [Forward(t.address, t.destination)];
        return Forwarded(t.address, t.destination);
      }
      var fault := env.fault(k);
      if fault.NoInbox? {
        return Skipped(t.address, InboxMissing);
      }
      if messageId != "" {
        if fault.CheckFailed? {
          return Skipped(t.address, StorageError);
        }
        if Copy(t.user, messageId) in copies {
          return Skipped(t.address, Duplicate);
        }
      }
      if fault.InsertFailed? {
        return Skipped(t.address, StorageError);
      }
      copies := copies + [Copy(t.user, messageId)];
      return Delivered(t.address);
    }
  }
}
