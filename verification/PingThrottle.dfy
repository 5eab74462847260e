/**
 How Ping avoids announcing the same change over and over (internal/eas/misc.go:
 shouldNotify). The table is swept when it grows; the sweep must not be noticed.
 */
module PingThrottle {
  import opened Options

  /** Thirty seconds, in nanoseconds. */
  const INTERVAL := 30_000_000_000

  datatype Entry = Entry(nr: int, at: int)

  function Swept(entries: map<string, Entry>, now: int): map<string, Entry> {
    if |entries| > 1024 then map k | k in entries && now - entries[k].at < INTERVAL :: entries[k] else entries
  }

  predicate Quiet(entries: map<string, Entry>, key: string, nr: int, now: int) {
    key in entries && entries[key].nr == nr && now - entries[key].at < INTERVAL
  }

  class Throttle {
    var entries: map<string, Entry>

    constructor ()
      ensures entries == map[]
    {
      entries := map[];
    }

    method ShouldNotify(key: string, nr: int, now: int) returns (ok: bool)
      modifies this
      ensures ok == !Quiet(old(entries), key, nr, now)
      ensures entries == if ok then Swept(old(entries), now)[key := Entry(nr, now)] else old(entries)
    {
      if key in entries {
        var entry := entries[key];
        if entry.nr == nr && now - entry.at < INTERVAL {
          return false;
        }
      }
      entries := Swept(entries, now)[key := Entry(nr, now)];
      return true;
    }
  }

  datatype Call = Call(key: string, nr: int, now: int)

  /** What a run of calls answers, and the table it leaves. */
  datatype Outcome = Outcome(answers: seq<bool>, entries: map<string, Entry>)

  function Run(calls: seq<Call>): (r: Outcome)
    ensures |r.answers| == |calls|
  {
    if calls == [] then Outcome([], map[])
    else
      var before := Run(calls[..|calls| - 1]);
      var c := calls[|calls| - 1];
      if Quiet(before.entries, c.key, c.nr, c.now) then Outcome(before.answers + [false], before.entries)
      else Outcome(before.answers + [true], Swept(before.entries, c.now)[c.key := Entry(c.nr, c.now)])
  }

  // ----- The rule, told from the history alone -----

  /** The last call for a key that was answered with an announcement. */
  function LastAnnounced(calls: seq<Call>, answers: seq<bool>, key: string): Option<Call>
    requires |answers| == |calls|
  {
    if calls == [] then None
    else
      var n := |calls| - 1;
      if answers[n] && calls[n].key == key then Some(calls[n])
      else LastAnnounced(calls[..n], answers[..n], key)
  }

  /** Announced already, for the same position, less than thirty seconds ago. */
  predicate Muted(calls: seq<Call>, answers: seq<bool>, c: Call)
    requires |answers| == |calls|
  {
    var last := LastAnnounced(calls, answers, c.key);
    last.Some? && last.value.nr == c.nr && c.now - last.value.now < 30_000_000_000
  }

  ghost predicate Monotone(calls: seq<Call>) {
    forall i, j :: 0 <= i < j < |calls| ==> calls[i].now <= calls[j].now
  }

  /** The table remembers the last announcement of a key, or has forgotten a stale one. */
  ghost predicate Remembers(calls: seq<Call>, r: Outcome)
    requires |r.answers| == |calls|
  {
    forall key :: var last := LastAnnounced(calls, r.answers, key);
      if key in r.entries then last == Some(Call(key, r.entries[key].nr, r.entries[key].at))
      else last.None? || last.value.now + INTERVAL <= calls[|calls| - 1].now
  }

  lemma {:induction false} LastInside(calls: seq<Call>, answers: seq<bool>, key: string)
    requires |answers| == |calls|
    ensures var last := LastAnnounced(calls, answers, key); last.Some? ==> last.value in calls && last.value.key == key
  {
    if calls != [] {
      var n := |calls| - 1;
      LastInside(calls[..n], answers[..n], key);
    }
  }

  lemma {:induction false} RunRemembers(calls: seq<Call>)
    requires Monotone(calls)
    ensures Remembers(calls, Run(calls))
  {
    if calls != [] {
      var n := |calls| - 1;
      var c, before, r := calls[n], Run(calls[..n]), Run(calls);
      RunRemembers(calls[..n]);
      assert r.answers[..n] == before.answers;
      forall key
        ensures var last := LastAnnounced(calls, r.answers, key);
          if key in r.entries then last == Some(Call(key, r.entries[key].nr, r.entries[key].at))
          else last.None? || last.value.now + INTERVAL <= c.now
      {
        LastInside(calls[..n], before.answers, key);
      }
    }
  }

  lemma LastAnswer(init: seq<Call>, c: Call)
    requires Monotone(init + [c])
    ensures Run(init + [c]).answers == Run(init).answers + [!Muted(init, Run(init).answers, c)]
  {
    var calls := init + [c];
    assert calls[..|init|] == init;
    RunRemembers(init);
    LastInside(init, Run(init).answers, c.key);
  }

  /**
   Under a clock that never goes back, sweeping is invisible: every call is muted
   exactly when the last announcement of its key was for the same position and
   less than the interval ago, however long ago the table was swept.
   */
  lemma {:induction false} ThrottleRefines(calls: seq<Call>, i: nat)
    requires Monotone(calls) && i < |calls|
    ensures Run(calls).answers[..i] == Run(calls[..i]).answers
    ensures Run(calls).answers[i] == !Muted(calls[..i], Run(calls[..i]).answers, calls[i])
  {
    var init, c := calls[..|calls| - 1], calls[|calls| - 1];
    assert calls == init + [c];
    LastAnswer(init, c);
    if i < |init| {
      ThrottleRefines(init, i);
      assert init[..i] == calls[..i];
    } else {
      assert calls[..i] == init;
    }
  }
}
