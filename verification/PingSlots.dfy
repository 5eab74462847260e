/**
 The one long poll each account may hold on a device (internal/eas/misc.go:
 acquirePing, releasePing, cancelPing), as every interleaving of requests uses it.
 */
module PingSlots {

  /** Channels are numbered as they are made; `wait` is the slot table. */
  datatype Slots = Slots(wait: map<string, int>, closed: set<int>, made: int)

  /** The table the lock protects, and the channels made so far. */
  class Registry {
    var wait: map<string, int>
    var closed: set<int>
    var made: int

    constructor ()
      ensures State() == Slots(map[], {}, 0)
    {
      wait, closed, made := map[], {}, 0;
    }

    function State(): Slots
      reads this
    {
      Slots(wait, closed, made)
    }

    /** Closing a closed channel panics. */
    method Close(c: int)
      requires 0 <= c < made && c !in closed
      modifies this`closed
      ensures closed == old(closed) + {c}
    {
      closed := closed + {c};
    }

    method Acquire(key: string) returns (cancel: int)
      requires AllOpen(State())
      modifies this
      ensures State() == Acquired(old(State()), key) && cancel == old(made)
    {
      if key in wait {
        Close(wait[key]);
      }
      cancel := made;
      made := made + 1;
      wait := wait[key := cancel];
    }

    method Release(key: string, cancel: int)
      modifies this`wait
      ensures State() == Released(old(State()), key, cancel)
    {
      if key in wait && wait[key] == cancel {
        wait := wait - {key};
      }
    }

    method Cancel(key: string)
      requires AllOpen(State())
      modifies this`wait, this`closed
      ensures State() == Cancelled(old(State()), key)
    {
      if key in wait {
        Close(wait[key]);
        wait := wait - {key};
      }
    }
  }

  /** Every registered channel is open: what the two closing operations rely on. */
  ghost predicate AllOpen(s: Slots) {
    forall k :: k in s.wait ==> 0 <= s.wait[k] < s.made && s.wait[k] !in s.closed
  }

  function Acquired(s: Slots, key: string): Slots {
    Slots(s.wait[key := s.made], if key in s.wait then s.closed + {s.wait[key]} else s.closed, s.made + 1)
  }

  function Released(s: Slots, key: string, cancel: int): Slots {
    if key in s.wait && s.wait[key] == cancel then s.(wait := s.wait - {key}) else s
  }

  function Cancelled(s: Slots, key: string): Slots {
    if key in s.wait then s.(wait := s.wait - {key}, closed := s.closed + {s.wait[key]}) else s
  }

  // ----- Every interleaving -----

  /** `polls` maps the channel of each Ping still running to its key. */
  datatype Sys = Sys(slots: Slots, polls: map<int, string>)

  datatype Step = Begin(key: string) | Cancel(key: string) | End(channel: int)

  ghost predicate Enabled(s: Sys, step: Step) {
    step.End? ==> step.channel in s.polls
  }

  function Next(s: Sys, step: Step): Sys
    requires step.End? ==> step.channel in s.polls
  {
    match step
    case Begin(key) => Sys(Acquired(s.slots, key), s.polls[s.slots.made := key])
    case Cancel(key) => s.(slots := Cancelled(s.slots, key))
    case End(c) => Sys(Released(s.slots, s.polls[c], c), s.polls - {c})
  }

  /** The channel a step closes, if any. */
  function Closes(s: Sys, step: Step): set<int> {
    if !step.End? && step.key in s.slots.wait then {s.slots.wait[step.key]} else {}
  }

  predicate Registered(s: Sys, c: int)
    requires c in s.polls
  {
    s.polls[c] in s.slots.wait && s.slots.wait[s.polls[c]] == c
  }

  /**
   Registered channels are open and belong to a running poll of that key; a running
   poll that is not registered has been cancelled.
   */
  ghost predicate Inv(s: Sys) {
    && 0 <= s.slots.made
    && AllOpen(s.slots)
    && (forall c :: c in s.slots.closed ==> 0 <= c < s.slots.made)
    && (forall k :: k in s.slots.wait ==> s.slots.wait[k] in s.polls && s.polls[s.slots.wait[k]] == k)
    && (forall c :: c in s.polls ==> 0 <= c < s.slots.made && (Registered(s, c) || c in s.slots.closed))
  }

  lemma StepKeeps(s: Sys, step: Step)
    requires Inv(s) && Enabled(s, step)
    ensures Inv(Next(s, step))
    ensures forall c :: c in Closes(s, step) ==> c !in s.slots.closed && 0 <= c < s.slots.made
    ensures forall c :: c in Next(s, step).slots.closed <==> c in s.slots.closed || c in Closes(s, step)
  {
  }

  ghost predicate Runs(s: Sys, steps: seq<Step>)
    decreases |steps|
  {
    steps == [] || (Enabled(s, steps[0]) && Runs(Next(s, steps[0]), steps[1..]))
  }

  ghost function Final(s: Sys, steps: seq<Step>): Sys
    requires Runs(s, steps)
    decreases |steps|
  {
    if steps == [] then s else Final(Next(s, steps[0]), steps[1..])
  }

  /** How often a run closes a channel. */
  ghost function CloseCount(s: Sys, steps: seq<Step>, c: int): nat
    requires Runs(s, steps)
    decreases |steps|
  {
    if steps == [] then 0
    else (if c in Closes(s, steps[0]) then 1 else 0) + CloseCount(Next(s, steps[0]), steps[1..], c)
  }

  lemma {:induction false} RunKeeps(s: Sys, steps: seq<Step>, c: int)
    requires Inv(s) && Runs(s, steps)
    ensures Inv(Final(s, steps))
    ensures CloseCount(s, steps, c) + (if c in s.slots.closed then 1 else 0)
      == if c in Final(s, steps).slots.closed then 1 else 0
    decreases |steps|
  {
    if steps != [] {
      StepKeeps(s, steps[0]);
      RunKeeps(Next(s, steps[0]), steps[1..], c);
    }
  }

  /**
   Over every interleaving: a channel is closed at most once, and exactly once if it
   ends up closed; registered channels are open; of the running polls of a key at
   most one is not cancelled, and it is the registered one; and when no poll runs
   the table is empty.
   */
  lemma PingSafety(steps: seq<Step>, c: int)
    requires Runs(Sys(Slots(map[], {}, 0), map[]), steps)
    ensures
      var start := Sys(Slots(map[], {}, 0), map[]);
      var t := Final(start, steps);
      && CloseCount(start, steps, c) == (if c in t.slots.closed then 1 else 0)
      && AllOpen(t.slots)
      && (c in t.polls ==> (c !in t.slots.closed <==> Registered(t, c)))
      && (forall d :: c in t.polls && d in t.polls && t.polls[c] == t.polls[d] && {c, d} !! t.slots.closed ==> c == d)
      && ((forall d :: d !in t.polls) ==> forall k :: k !in t.slots.wait)
  {
    RunKeeps(Sys(Slots(map[], {}, 0), map[]), steps, c);
  }

  /** A poll that was replaced or cancelled ends without touching its successor. */
  lemma StaleEnd(s: Sys, c: int)
    requires Inv(s) && c in s.polls
    ensures c in s.slots.closed <==> Next(s, End(c)).slots.wait == s.slots.wait
    ensures forall k :: k in s.slots.wait && s.slots.wait[k] != c ==>
      k in Next(s, End(c)).slots.wait && Next(s, End(c)).slots.wait[k] == s.slots.wait[k]
  {
  }

  /** A new poll ends every earlier one of its key, and no other. */
  lemma BeginCancels(s: Sys, key: string, c: int)
    requires Inv(s) && c in s.polls
    ensures var t := Next(s, Begin(key));
      && c in t.polls
      && (c in t.slots.closed <==> c in s.slots.closed || s.polls[c] == key)
      && t.slots.wait[key] == s.slots.made && s.slots.made !in t.slots.closed
  {
  }
}
