/** The limiter on repeated authentication failures (internal/authlimit/limiter.go). */
module FailureLimiter {
  import opened Options

  /** Times and durations are nanoseconds. */
  datatype Config = Config(max: int, window: int, lockout: int)

  /** A zero `lockedTo` in the source is None here. */
  datatype Entry = Entry(failures: int, first: int, lockedTo: Option<int>)

  const SECOND := 1_000_000_000

  /** The values a limiter is made with, defaults filled in. */
  function Normalised(max: int, window: int, lockout: int): (c: Config)
    ensures c.max > 0 && c.window > 0 && c.lockout > 0
  {
    Config(if max <= 0 then 5 else max,
           if window <= 0 then 600 * SECOND else window,
           if lockout <= 0 then 300 * SECOND else lockout)
  }

  predicate IsLocked(e: Entry, now: int) {
    e.lockedTo.Some? && now < e.lockedTo.value
  }

  /** Neither locked nor still counting: nothing will be remembered of it. */
  predicate Expired(c: Config, e: Entry, now: int) {
    !IsLocked(e, now) && now - e.first > c.window
  }

  /** A failure starts a new count: no count yet, a lock that has run out, or a window that has. */
  predicate StartsOver(c: Config, e: Option<Entry>, now: int) {
    e.None? || (e.value.lockedTo.Some? && now >= e.value.lockedTo.value) || now - e.value.first > c.window
  }

  datatype Failure = Failure(entry: Entry, locked: bool)

  function Count(c: Config, e: Option<Entry>, now: int): Failure {
    var counted := if StartsOver(c, e, now) then Entry(1, now, None) else e.value.(failures := e.value.failures + 1);
    if counted.failures >= c.max then Failure(Entry(0, now, Some(now + c.lockout)), true)
    else Failure(counted, false)
  }

  function Find(entries: map<string, Entry>, key: string): Option<Entry> {
    if key in entries then Some(entries[key]) else None
  }

  function Pruned(c: Config, entries: map<string, Entry>, now: int): map<string, Entry> {
    map k | k in entries && !Expired(c, entries[k], now) :: entries[k]
  }

  /** Whether a look at a key drops its entry. */
  predicate Dropped(c: Config, e: Entry, now: int) {
    e.lockedTo.None? && now - e.first > c.window
  }

  class Limiter {
    const config: Config
    var entries: map<string, Entry>

    constructor (max: int, window: int, lockout: int)
      ensures config == Normalised(max, window, lockout) && entries == map[]
      ensures (max > 0 ==> config.max == max) && (max <= 0 ==> config.max == 5)
      ensures (window > 0 ==> config.window == window) && (window <= 0 ==> config.window == 10 * 60_000_000_000)
      ensures (lockout > 0 ==> config.lockout == lockout) && (lockout <= 0 ==> config.lockout == 5 * 60_000_000_000)
    {
      config, entries := Normalised(max, window, lockout), map[];
    }

    method Locked(key: string, now: int) returns (locked: bool, remaining: int)
      modifies this
      ensures LookAnswer(locked, remaining) == Answer(config, old(entries), Look(key, now))
      ensures entries == After(config, old(entries), Look(key, now), true)
    {
      if key == "" || key !in entries {
        return false, 0;
      }
      var e := entries[key];
      if e.lockedTo.Some? && now < e.lockedTo.value {
        return true, e.lockedTo.value - now;
      }
      if e.lockedTo.None? && now - e.first > config.window {
        entries := entries - {key};
      }
      return false, 0;
    }

    method Fail(key: string, now: int) returns (locked: bool)
      modifies this
      ensures FailAnswer(locked) == Answer(config, old(entries), Failing(key, now))
      ensures entries == After(config, old(entries), Failing(key, now), true)
    {
      if key == "" {
        return false;
      }
      if |entries| > 4096 {
        entries := Pruned(config, entries, now);
      }
      var e: Entry;
      if key !in entries {
        e := Entry(0, now, None);
      } else {
        e := entries[key];
        if (e.lockedTo.Some? && now >= e.lockedTo.value) || now - e.first > config.window {
          e := Entry(0, now, None);
        }
      }
      e := e.(failures := e.failures + 1);
      if e.failures >= config.max {
        entries := entries[key := Entry(0, now, Some(now + config.lockout))];
        return true;
      }
      entries := entries[key := e];
      return false;
    }

    method Reset(key: string)
      modifies this
      ensures entries == After(config, old(entries), Clear(key), true)
    {
      if key == "" {
        return;
      }
      entries := entries - {key};
    }
  }

  // ----- Calls as data -----

  datatype Call = Look(key: string, now: int) | Failing(key: string, now: int) | Clear(key: string)

  datatype Reply = LookAnswer(locked: bool, remaining: int) | FailAnswer(justLocked: bool) | NoAnswer

  function Answer(c: Config, entries: map<string, Entry>, call: Call): Reply {
    var e := Find(entries, call.key);
    match call
    case Look(key, now) =>
      if key != "" && e.Some? && IsLocked(e.value, now) then LookAnswer(true, e.value.lockedTo.value - now)
      else LookAnswer(false, 0)
    case Failing(key, now) => FailAnswer(key != "" && Count(c, e, now).locked)
    case Clear(_) => NoAnswer
  }

  /** The entries a call leaves; a limiter that is not `lazy` drops nothing but on Clear. */
  function After(c: Config, entries: map<string, Entry>, call: Call, lazy: bool): map<string, Entry> {
    if call.key == "" then entries
    else match call
      case Look(key, now) =>
        if lazy && key in entries && Dropped(c, entries[key], now) then entries - {key} else entries
      case Failing(key, now) =>
        var base := if lazy && |entries| > 4096 then Pruned(c, entries, now) else entries;
        base[key := Count(c, Find(entries, key), now).entry]
      case Clear(key) => entries - {key}
  }

  function Entries(c: Config, calls: seq<Call>, lazy: bool): map<string, Entry> {
    if calls == [] then map[]
    else After(c, Entries(c, calls[..|calls| - 1], lazy), calls[|calls| - 1], lazy)
  }

  /** What the last of some calls answers. */
  function LastReply(c: Config, calls: seq<Call>, lazy: bool): Reply
    requires calls != []
  {
    Answer(c, Entries(c, calls[..|calls| - 1], lazy), calls[|calls| - 1])
  }

  // ----- Dropping entries is never noticed -----

  ghost predicate Monotone(calls: seq<Call>) {
    forall i, j :: 0 <= i < j < |calls| && !calls[i].Clear? && !calls[j].Clear? ==> calls[i].now <= calls[j].now
  }

  /** The same entries, but for some that had run out by `now`. */
  ghost predicate SameButExpired(c: Config, kept: map<string, Entry>, all: map<string, Entry>, now: int) {
    forall k :: Find(kept, k) == Find(all, k) || (k !in kept && k in all && Expired(c, all[k], now))
  }

  ghost predicate NotAfter(calls: seq<Call>, now: int) {
    forall i :: 0 <= i < |calls| && !calls[i].Clear? ==> calls[i].now <= now
  }

  lemma {:induction false} RunSame(c: Config, calls: seq<Call>, now: int)
    requires Monotone(calls) && NotAfter(calls, now)
    ensures SameButExpired(c, Entries(c, calls, true), Entries(c, calls, false), now)
  {
    if calls != [] {
      var init, call := calls[..|calls| - 1], calls[|calls| - 1];
      var at := if call.Clear? then now else call.now;
      RunSame(c, init, at);
    }
  }

  /**
   Under a clock that never goes back, dropping entries early is never noticed:
   every call is answered as by a limiter that only forgets on Reset.
   */
  lemma LimiterRefines(c: Config, calls: seq<Call>)
    requires Monotone(calls) && calls != []
    ensures LastReply(c, calls, true) == LastReply(c, calls, false)
  {
    var init, call := calls[..|calls| - 1], calls[|calls| - 1];
    if !call.Clear? {
      RunSame(c, init, call.now);
    }
  }

  // ----- What a lock means -----

  /** Failures of a key since its last Reset, not before a given time. */
  function RecentFailures(calls: seq<Call>, key: string, since: int): nat {
    if calls == [] then 0
    else
      var call := calls[|calls| - 1];
      var rest := RecentFailures(calls[..|calls| - 1], key, since);
      if call.key != key then rest
      else match call
        case Look(_, _) => rest
        case Failing(_, now) => if now >= since then rest + 1 else rest
        case Clear(_) => 0
  }

  lemma {:induction false} RecentEarlier(calls: seq<Call>, key: string, a: int, b: int)
    requires a <= b
    ensures RecentFailures(calls, key, b) <= RecentFailures(calls, key, a)
  {
    if calls != [] {
      RecentEarlier(calls[..|calls| - 1], key, a, b);
    }
  }

  /** A count stands for that many failures since it was begun, by one of them. */
  lemma {:induction false} CountIsHonest(c: Config, calls: seq<Call>, key: string)
    requires c.max > 0 && c.window > 0 && key != "" && Monotone(calls)
    ensures var e := Find(Entries(c, calls, false), key);
      e.Some? ==>
        && Failing(key, e.value.first) in calls
        && e.value.failures <= RecentFailures(calls, key, e.value.first)
  {
    if calls != [] {
      var init, call := calls[..|calls| - 1], calls[|calls| - 1];
      CountIsHonest(c, init, key);
      var e := Find(Entries(c, init, false), key);
      if e.Some? && call.Failing? && call.key == key {
        var i :| 0 <= i < |init| && init[i] == Failing(key, e.value.first);
        assert calls[i] == init[i] && e.value.first <= call.now;
      }
    }
  }

  /** Fail locks a key only for at least `max` failures within the last window, since the last Reset. */
  lemma LockIsEarned(c: Config, calls: seq<Call>, key: string, now: int)
    requires c.max > 0 && c.window > 0 && key != ""
    requires Monotone(calls + [Failing(key, now)])
    ensures LastReply(c, calls + [Failing(key, now)], true) == FailAnswer(true) ==>
      RecentFailures(calls + [Failing(key, now)], key, now - c.window) >= c.max
  {
    var all := calls + [Failing(key, now)];
    assert all[..|calls|] == calls;
    LimiterRefines(c, all);
    CountIsHonest(c, calls, key);
    var e := Find(Entries(c, calls, false), key);
    if e.Some? && !StartsOver(c, e, now) {
      RecentEarlier(calls, key, now - c.window, e.value.first);
    }
  }

  lemma {:induction false} UntouchedEntry(c: Config, calls: seq<Call>, rest: seq<Call>, key: string)
    requires forall r :: r in rest ==> r.Look? || r.key != key
    ensures Find(Entries(c, calls + rest, false), key) == Find(Entries(c, calls, false), key)
  {
    if rest == [] {
      assert calls + rest == calls;
    } else {
      var init := rest[..|rest| - 1];
      assert (calls + rest)[..|calls + rest| - 1] == calls + init;
      assert rest[|rest| - 1] in rest && forall r :: r in init ==> r in rest;
      UntouchedEntry(c, calls, init, key);
    }
  }

  /**
   A lock lasts exactly as long as announced: until the key itself fails again or is
   reset, it is locked at precisely the times before `now + lockout`.
   */
  lemma LockHolds(c: Config, calls: seq<Call>, key: string, now: int, rest: seq<Call>, later: int)
    requires key != "" && forall r :: r in rest ==> r.Look? || r.key != key
    requires Monotone(calls + [Failing(key, now)] + rest + [Look(key, later)])
    requires LastReply(c, calls + [Failing(key, now)], true) == FailAnswer(true)
    ensures LastReply(c, calls + [Failing(key, now)] + rest + [Look(key, later)], true)
      == if later < now + c.lockout then LookAnswer(true, now + c.lockout - later) else LookAnswer(false, 0)
  {
    var locking := calls + [Failing(key, now)];
    var all := locking + rest + [Look(key, later)];
    assert all[..|locking + rest|] == locking + rest && locking[..|calls|] == calls;
    assert all[..|locking|] == locking;
    LimiterRefines(c, locking);
    LimiterRefines(c, all);
    UntouchedEntry(c, locking, rest, key);
  }

  /** Failures of a key among some calls. */
  function FailuresOf(calls: seq<Call>, key: string): nat {
    if calls == [] then 0
    else
      var call := calls[|calls| - 1];
      FailuresOf(calls[..|calls| - 1], key) + if call.Failing? && call.key == key then 1 else 0
  }

  /** The failures of a key among some calls lie within one window that ends at `now`. */
  ghost predicate Together(c: Config, calls: seq<Call>, key: string, now: int) {
    forall i :: 0 <= i < |calls| && calls[i].Failing? && calls[i].key == key ==> now - c.window <= calls[i].now <= now
  }

  lemma {:induction false} CountsUp(c: Config, calls: seq<Call>, since: seq<Call>, key: string, now: int)
    requires c.max > 0 && c.window > 0 && key != "" && Together(c, since, key, now)
    requires FailuresOf(since, key) < c.max
    requires forall r :: r in since ==> r.key == key ==> !r.Clear?
    ensures var e := Find(Entries(c, calls + [Clear(key)] + since, false), key);
      && (FailuresOf(since, key) == 0 <==> e.None?)
      && (e.Some? ==>
            && e.value.failures == FailuresOf(since, key) && e.value.lockedTo.None?
            && now - c.window <= e.value.first <= now)
  {
    var all := calls + [Clear(key)] + since;
    if since == [] {
      assert all == calls + [Clear(key)] && all[..|all| - 1] == calls;
    } else {
      var init, call := since[..|since| - 1], since[|since| - 1];
      assert all[..|all| - 1] == calls + [Clear(key)] + init && all[|all| - 1] == call;
      assert call in since && forall r :: r in init ==> r in since;
      assert forall i :: 0 <= i < |init| ==> init[i] == since[i];
      CountsUp(c, calls, init, key, now);
    }
  }

  /**
   Failures add up: since its last reset, and as long as they lie within one window,
   the `max`-th failure of a key locks it and none before does, whatever else is called.
   */
  lemma LocksExactly(c: Config, calls: seq<Call>, since: seq<Call>, key: string, now: int)
    requires c.max > 0 && c.window > 0 && key != "" && Together(c, since, key, now)
    requires FailuresOf(since, key) < c.max
    requires forall r :: r in since ==> r.key == key ==> !r.Clear?
    requires Monotone(calls + [Clear(key)] + since + [Failing(key, now)])
    ensures LastReply(c, calls + [Clear(key)] + since + [Failing(key, now)], true)
      == FailAnswer(FailuresOf(since, key) + 1 == c.max)
  {
    var before := calls + [Clear(key)] + since;
    assert (before + [Failing(key, now)])[..|before|] == before;
    LimiterRefines(c, before + [Failing(key, now)]);
    CountsUp(c, calls, since, key, now);
  }

  // ----- How far the window slides -----

  /*
   The documentation speaks of a sliding window; the code counts in a window fixed at
   its first failure. When do the two agree?
   */

  /** Failures of a key not before a given time, since it was last reset or locked. */
  function FreshFailures(c: Config, calls: seq<Call>, key: string, since: int): nat {
    if calls == [] then 0
    else
      var call := calls[|calls| - 1];
      var rest := FreshFailures(c, calls[..|calls| - 1], key, since);
      if call.key != key then rest
      else match call
        case Look(_, _) => rest
        case Failing(_, now) =>
          if LastReply(c, calls, false) == FailAnswer(true) then 0 else if now >= since then rest + 1 else rest
        case Clear(_) => 0
  }

  /** What a sliding window would do: lock at the `max`-th failure within the last window. */
  predicate Slides(c: Config, calls: seq<Call>, key: string, now: int) {
    var locked := LastReply(c, calls + [Failing(key, now)], false) == FailAnswer(true);
    locked <==> FreshFailures(c, calls, key, now - c.window) + 1 >= c.max
  }

  /** Callers ask Locked first: no failure is recorded for a locked key. */
  ghost predicate Careful(c: Config, calls: seq<Call>)
    decreases |calls|
  {
    calls == [] ||
    (Careful(c, calls[..|calls| - 1]) &&
     var call := calls[|calls| - 1];
     var e := Find(Entries(c, calls[..|calls| - 1], false), call.key);
     call.Failing? && e.Some? ==> !IsLocked(e.value, call.now))
  }

  // ----- At most two failures: it slides -----

  /** With `max` at most 2, a count of one is the last failure since the last lock or reset. */
  lemma {:induction false} LastFailure(c: Config, calls: seq<Call>, key: string, since: int)
    requires 0 < c.max <= 2 && c.window > 0 && c.lockout > 0 && key != ""
    requires Monotone(calls) && Careful(c, calls)
    ensures var e := Find(Entries(c, calls, false), key);
      && (e.Some? ==> e.value.failures == if e.value.lockedTo.Some? then 0 else 1)
      && (FreshFailures(c, calls, key, since) >= 1 <==>
            e.Some? && e.value.failures == 1 && e.value.first >= since)
  {
    if calls != [] {
      var init, call := calls[..|calls| - 1], calls[|calls| - 1];
      LastFailure(c, init, key, since);
      CountIsHonest(c, init, key);
      var e := Find(Entries(c, init, false), key);
      if e.Some? && call.Failing? && call.key == key {
        var i :| 0 <= i < |init| && init[i] == Failing(key, e.value.first);
        assert calls[i] == init[i] && e.value.first <= call.now;
      }
    }
  }

  lemma SlidesUpToTwo(c: Config, calls: seq<Call>, key: string, now: int)
    requires 0 < c.max <= 2 && c.window > 0 && c.lockout > 0 && key != ""
    requires Monotone(calls + [Failing(key, now)]) && Careful(c, calls + [Failing(key, now)])
    ensures Slides(c, calls, key, now)
  {
    var all := calls + [Failing(key, now)];
    assert all[..|calls|] == calls;
    LastFailure(c, calls, key, now - c.window);
  }

  // ----- More than two: it does not -----

  /** One failure, then n more at the very end of its window. */
  function Burst(c: Config, n: nat): seq<Call> {
    if n == 0 then [Failing("k", 0)] else Burst(c, n - 1) + [Failing("k", c.window)]
  }

  lemma {:induction false} BurstTimes(c: Config, n: nat)
    requires c.window > 0
    ensures |Burst(c, n)| == n + 1 && Burst(c, n)[0] == Failing("k", 0)
    ensures forall i :: 0 < i <= n ==> Burst(c, n)[i] == Failing("k", c.window)
  {
    if n > 0 {
      BurstTimes(c, n - 1);
    }
  }

  /** The history so far counts this much, and locked keys were left alone. */
  ghost predicate Counts(c: Config, calls: seq<Call>, e: Entry, recent: nat) {
    && Find(Entries(c, calls, false), "k") == Some(e)
    && FreshFailures(c, calls, "k", 1) == recent
    && Careful(c, calls)
  }

  lemma CountsMore(c: Config, calls: seq<Call>, now: int, e: Entry, recent: nat, e': Entry)
    requires Counts(c, calls, e, recent) && e.lockedTo.None? && now >= 1
    requires Count(c, Some(e), now) == Failure(e', false)
    ensures Counts(c, calls + [Failing("k", now)], e', recent + 1)
    ensures LastReply(c, calls + [Failing("k", now)], false) == FailAnswer(false)
  {
  }

  lemma BurstStart(c: Config)
    requires c.max >= 3 && c.window > 0
    ensures Counts(c, [Failing("k", 0)], Entry(1, 0, None), 0)
  {
    assert [] + [Failing("k", 0)] == [Failing("k", 0)];
  }

  lemma {:induction false} BurstCount(c: Config, n: nat)
    requires c.max >= 3 && n <= c.max - 2 && c.window > 0
    ensures Counts(c, Burst(c, n), Entry(n + 1, 0, None), n)
  {
    if n == 0 {
      BurstStart(c);
    } else {
      var before := Burst(c, n - 1);
      BurstCount(c, n - 1);
      CountsMore(c, before, c.window, Entry(n, 0, None), n - 1, Entry(n + 1, 0, None));
      assert Burst(c, n) == before + [Failing("k", c.window)];
    }
  }

  lemma LateMonotone(c: Config, n: nat)
    requires c.window > 0
    ensures Monotone(Burst(c, n) + [Failing("k", c.window + 1)] + [Failing("k", c.window + 1)])
  {
    BurstTimes(c, n);
  }

  /** `max - 1` failures, one window and a moment after the first: the old ones are forgotten. */
  lemma BurstForgotten(c: Config) returns (calls: seq<Call>)
    requires c.max >= 3 && c.window > 0
    ensures Monotone(calls + [Failing("k", c.window + 1)])
    ensures Careful(c, calls + [Failing("k", c.window + 1)])
    ensures !Slides(c, calls, "k", c.window + 1)
  {
    var burst, now := Burst(c, c.max - 2), c.window + 1;
    calls := burst + [Failing("k", now)];
    LateMonotone(c, c.max - 2);
    BurstCount(c, c.max - 2);
    CountsMore(c, burst, now, Entry(c.max - 1, 0, None), c.max - 2, Entry(1, now, None));
    CountsMore(c, calls, now, Entry(1, now, None), c.max - 1, Entry(2, now, None));
  }

  /**
   Over all histories in which locked keys are left alone, the window slides if and
   only if at most two failures lock a key.
   */
  lemma SlidesIff(c: Config)
    requires c.max > 0 && c.window > 0 && c.lockout > 0
    ensures
      (forall calls, key, now ::
         key != "" && Monotone(calls + [Failing(key, now)]) && Careful(c, calls + [Failing(key, now)]) ==>
           Slides(c, calls, key, now))
      <==> c.max <= 2
  {
    if c.max <= 2 {
      forall calls, key, now
        | key != "" && Monotone(calls + [Failing(key, now)]) && Careful(c, calls + [Failing(key, now)])
        ensures Slides(c, calls, key, now)
      {
        SlidesUpToTwo(c, calls, key, now);
      }
    } else {
      var calls := BurstForgotten(c);
      assert !Slides(c, calls, "k", c.window + 1);
    }
  }

  // ----- Failures of a locked key -----

  /** What one more failure does, also to a locked key. */
  lemma NextFailure(c: Config, calls: seq<Call>, now: int, e: Option<Entry>, since: int)
    requires e == Find(Entries(c, calls, false), "k")
    ensures
      var all := calls + [Failing("k", now)];
      var f := Count(c, e, now);
      && Find(Entries(c, all, false), "k") == Some(f.entry)
      && LastReply(c, all, false) == FailAnswer(f.locked)
      && FreshFailures(c, all, "k", since)
           == if f.locked then 0 else FreshFailures(c, calls, "k", since) + (if now >= since then 1 else 0)
  {
    assert (calls + [Failing("k", now)])[..|calls|] == calls;
  }

  /** A failure during a lock is counted and then dropped when the lock or its window runs out. */
  lemma LockedFailureForgotten(c: Config) returns (calls: seq<Call>, now: int)
    requires c.max == 2 && c.window > 0 && c.lockout > 0
    ensures Monotone(calls + [Failing("k", now)]) && !Slides(c, calls, "k", now)
  {
    var t := if c.window < c.lockout then c.window else c.lockout - 1;
    now := t + 1;
    var one, two := [Failing("k", 0)], [Failing("k", 0), Failing("k", 0)];
    calls := two + [Failing("k", t)];
    var since := now - c.window;
    NextFailure(c, [], 0, None, since);
    assert [] + [Failing("k", 0)] == one && one + [Failing("k", 0)] == two;
    NextFailure(c, one, 0, Some(Entry(1, 0, None)), since);
    NextFailure(c, two, t, Some(Entry(0, 0, Some(c.lockout))), since);
    NextFailure(c, calls, now, Some(Entry(1, 0, Some(c.lockout))), since);
  }

  lemma {:induction false} NoDebt(c: Config, calls: seq<Call>, key: string)
    ensures var e := Find(Entries(c, calls, false), key); e.Some? ==> e.value.failures >= 0
  {
    if calls != [] {
      NoDebt(c, calls[..|calls| - 1], key);
    }
  }

  /**
   Over all histories, failures of locked keys included, the window slides if and
   only if every failure locks.
   */
  lemma SlidesAlwaysIff(c: Config)
    requires c.max > 0 && c.window > 0 && c.lockout > 0
    ensures
      (forall calls, key, now :: key != "" && Monotone(calls + [Failing(key, now)]) ==> Slides(c, calls, key, now))
      <==> c.max == 1
  {
    if c.max == 1 {
      forall calls, key, now | key != "" && Monotone(calls + [Failing(key, now)]) ensures Slides(c, calls, key, now) {
        NoDebt(c, calls, key);
        assert (calls + [Failing(key, now)])[..|calls|] == calls;
      }
    } else if c.max == 2 {
      var calls, now := LockedFailureForgotten(c);
      assert !Slides(c, calls, "k", now);
    } else {
      var calls := BurstForgotten(c);
      assert !Slides(c, calls, "k", c.window + 1);
    }
  }
}
