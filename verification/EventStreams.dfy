/** What the readers of the event hub receive, over every interleaving. */
module EventStreams {
  import opened EventHub

  /** `taken` is what each stream's reader has received so far. */
  datatype Sys = Sys(hub: Hub, taken: map<int, seq<Event>>)

  datatype Step =
    | Publish(user: string, ev: Event)
    | Subscribe(user: string)
    | Take(c: int)
    | EndStream(user: string, c: int)
    | Shutdown

  ghost predicate Enabled(s: Sys, step: Step) {
    step.Take? ==> step.c in s.hub.channels && s.hub.channels[step.c].buffer != []
  }

  function Received(s: Sys, c: int): seq<Event> {
    if c in s.taken then s.taken[c] else []
  }

  function TakeStep(s: Sys, c: int): Sys
    requires c in s.hub.channels && s.hub.channels[c].buffer != []
  {
    var ch := s.hub.channels[c];
    Sys(s.hub.(channels := s.hub.channels[c := ch.(buffer := ch.buffer[1..])]),
        s.taken[c := Received(s, c) + [ch.buffer[0]]])
  }

  function Next(s: Sys, step: Step): Sys
    requires step.Take? ==> step.c in s.hub.channels && s.hub.channels[step.c].buffer != []
  {
    match step
    case Publish(user, ev) => s.(hub := Published(s.hub, user, ev))
    case Subscribe(user) => s.(hub := Subscription(s.hub, user))
    case Take(c) => TakeStep(s, c)
    case EndStream(user, c) => s.(hub := Unsubscribed(s.hub, user, c))
    case Shutdown => s.(hub := ClosedDown(s.hub))
  }

  ghost predicate Inv(s: Sys) {
    Valid(s.hub) && forall c :: c in s.taken ==> c in s.hub.channels
  }

  /** Channels stay, keep their account, and never reopen. */
  ghost predicate Onward(h: Hub, h': Hub) {
    forall c :: c in h.channels ==>
      && c in h'.channels
      && h'.channels[c].user == h.channels[c].user
      && (h'.channels[c].open ==> h.channels[c].open)
  }

  lemma StepKeeps(s: Sys, step: Step)
    requires Inv(s) && Enabled(s, step)
    ensures Inv(Next(s, step)) && Onward(s.hub, Next(s, step).hub)
  {
    match step
    case Publish(user, ev) => PublishKeeps(s.hub, user, ev);
    case Subscribe(user) => SubscribeKeeps(s.hub, user);
    case Take(c) => TakeKeeps(s, c);
    case EndStream(user, c) => UnsubscribeKeeps(s.hub, user, c);
    case Shutdown =>
  }

  lemma TakeKeeps(s: Sys, c: int)
    requires Inv(s) && Enabled(s, Take(c))
    ensures Inv(TakeStep(s, c))
  {
    var h := TakeStep(s, c).hub;
    assert forall u, d :: Subscribed(h, u, d) == Subscribed(s.hub, u, d);
  }

  ghost predicate Runs(s: Sys, steps: seq<Step>)
    decreases |steps|
  {
    steps == [] || (Enabled(s, steps[0]) && Runs(Next(s, steps[0]), steps[1..]))
  }

  ghost function Final(s: Sys, steps: seq<Step>): Sys
    requires Runs(s, steps)
    decreases |steps|
  {
    if steps == [] then s else Final(Next(s, steps[0]), steps[1..])
  }

  /** Over every run channels are listed exactly while open, at most sixteen an account, and never reopen. */
  lemma {:induction false} HubSafety(s: Sys, steps: seq<Step>)
    requires Inv(s) && Runs(s, steps)
    ensures Inv(Final(s, steps)) && Onward(s.hub, Final(s, steps).hub)
    decreases |steps|
  {
    if steps != [] {
      StepKeeps(s, steps[0]);
      HubSafety(Next(s, steps[0]), steps[1..]);
    }
  }

  // ----- Order and loss -----

  predicate Subsequence<T(==)>(a: seq<T>, b: seq<T>) {
    if a == [] then true
    else if b == [] then false
    else
      || (a[|a| - 1] == b[|b| - 1] && Subsequence(a[..|a| - 1], b[..|b| - 1]))
      || Subsequence(a, b[..|b| - 1])
  }

  lemma {:induction false} SubsequenceSelf<T>(a: seq<T>)
    ensures Subsequence(a, a)
  {
    if a != [] {
      SubsequenceSelf(a[..|a| - 1]);
    }
  }

  lemma {:induction false} SubsequenceFull<T>(a: seq<T>, b: seq<T>)
    requires Subsequence(a, b)
    ensures |a| <= |b| && (|a| == |b| ==> a == b)
  {
    if a != [] {
      var b' := b[..|b| - 1];
      if Subsequence(a, b') {
        SubsequenceFull(a, b');
      } else {
        SubsequenceFull(a[..|a| - 1], b');
        assert a == a[..|a| - 1] + [a[|a| - 1]] && b == b' + [b[|b| - 1]];
      }
    }
  }

  lemma {:induction false} SubsequenceInsert<T>(x: seq<T>, a: seq<T>, e: T, h: seq<T>)
    requires Subsequence(x, a + h)
    ensures Subsequence(x, a + [e] + h)
  {
    if x != [] {
      if h == [] {
        assert a + h == a && a + [e] + h == a + [e] && (a + [e])[..|a|] == a;
      } else {
        var h' := h[..|h| - 1];
        assert (a + h)[..|a + h| - 1] == a + h';
        assert (a + [e] + h)[..|a + [e] + h| - 1] == a + [e] + h';
        if Subsequence(x, a + h') {
          SubsequenceInsert(x, a, e, h');
        } else {
          SubsequenceInsert(x[..|x| - 1], a, e, h');
        }
      }
    }
  }

  /** Everything a stream was given: received by its reader, or waiting in the buffer. */
  function Given(s: Sys, c: int): seq<Event>
    requires c in s.hub.channels
  {
    Received(s, c) + s.hub.channels[c].buffer
  }

  /** What a step publishes to the stream's account while the stream is open. */
  function HeardNow(s: Sys, step: Step, c: int): seq<Event> {
    if step.Publish? && Subscribed(s.hub, step.user, c) then [step.ev] else []
  }

  /** The same for a run, in order. */
  ghost function Heard(s: Sys, steps: seq<Step>, c: int): seq<Event>
    requires Runs(s, steps)
    decreases |steps|
  {
    if steps == [] then [] else HeardNow(s, steps[0], c) + Heard(Next(s, steps[0]), steps[1..], c)
  }

  predicate Full(s: Sys, c: int) {
    c in s.hub.channels && |s.hub.channels[c].buffer| >= BUFFER
  }

  /** How often a publish found the stream's buffer full. */
  ghost function Dropped(s: Sys, steps: seq<Step>, c: int): nat
    requires Runs(s, steps)
    decreases |steps|
  {
    if steps == [] then 0
    else (if Full(s, c) then |HeardNow(s, steps[0], c)| else 0) + Dropped(Next(s, steps[0]), steps[1..], c)
  }

  lemma StepGiven(s: Sys, step: Step, c: int)
    requires Inv(s) && Enabled(s, step) && c in s.hub.channels
    ensures c in Next(s, step).hub.channels
    ensures Given(Next(s, step), c) == Given(s, c) + if Full(s, c) then [] else HeardNow(s, step, c)
  {
    StepKeeps(s, step);
  }

  lemma HeardOne(given: seq<Event>, base: seq<Event>, heard: seq<Event>, full: bool, later: seq<Event>)
    requires |heard| <= 1
    requires Subsequence(given, base + (if full then [] else heard) + later)
    ensures Subsequence(given, base + (heard + later))
    ensures |base + (heard + later)|
      == |base + (if full then [] else heard) + later| + if full then |heard| else 0
  {
    assert base + heard + later == base + (heard + later);
    if full && heard != [] {
      assert heard == [heard[0]] && base + [] == base;
      SubsequenceInsert(given, base, heard[0], later);
    } else {
      assert full ==> base + [] + later == base + heard + later;
    }
  }

  /**
   Order and loss: over any run a stream is given a subsequence, in order, of what
   was published to its account while it was open; it misses exactly one event for
   each time its buffer was full, so it misses none while there is room.
   */
  lemma StreamOrder(s: Sys, steps: seq<Step>, c: int)
    requires Inv(s) && Runs(s, steps) && c in s.hub.channels
    ensures c in Final(s, steps).hub.channels
    ensures
      var all := Given(s, c) + Heard(s, steps, c);
      var given := Given(Final(s, steps), c);
      && Subsequence(given, all)
      && |given| + Dropped(s, steps, c) == |all|
      && (Dropped(s, steps, c) == 0 ==> given == all)
  {
    StreamGiven(s, steps, c);
    SubsequenceFull(Given(Final(s, steps), c), Given(s, c) + Heard(s, steps, c));
  }

  lemma {:induction false} StreamGiven(s: Sys, steps: seq<Step>, c: int)
    requires Inv(s) && Runs(s, steps) && c in s.hub.channels
    ensures c in Final(s, steps).hub.channels
    ensures Subsequence(Given(Final(s, steps), c), Given(s, c) + Heard(s, steps, c))
    ensures |Given(Final(s, steps), c)| + Dropped(s, steps, c) == |Given(s, c) + Heard(s, steps, c)|
    decreases |steps|
  {
    if steps == [] {
      assert Given(s, c) + [] == Given(s, c);
      SubsequenceSelf(Given(s, c));
    } else {
      StepKeeps(s, steps[0]);
      StepGiven(s, steps[0], c);
      StreamGiven(Next(s, steps[0]), steps[1..], c);
      HeardOne(Given(Final(s, steps), c), Given(s, c), HeardNow(s, steps[0], c), Full(s, c),
               Heard(Next(s, steps[0]), steps[1..], c));
    }
  }

  /** What a run publishes to one account. */
  ghost function Sent(steps: seq<Step>, user: string): seq<Event> {
    if steps == [] then []
    else (if steps[0].Publish? && steps[0].user == user then [steps[0].ev] else []) + Sent(steps[1..], user)
  }

  /** A stream hears its own account only: all of it while open, nothing once closed. */
  lemma {:induction false} HeardOwn(s: Sys, steps: seq<Step>, c: int)
    requires Inv(s) && Runs(s, steps) && c in s.hub.channels
    ensures c in Final(s, steps).hub.channels
    ensures Final(s, steps).hub.channels[c].open ==> Heard(s, steps, c) == Sent(steps, s.hub.channels[c].user)
    ensures Heard(s, steps, c) <= Sent(steps, s.hub.channels[c].user)
    ensures !s.hub.channels[c].open ==> Heard(s, steps, c) == [] && !Final(s, steps).hub.channels[c].open
    decreases |steps|
  {
    if steps != [] {
      StepKeeps(s, steps[0]);
      HeardOwn(Next(s, steps[0]), steps[1..], c);
    }
  }
}
