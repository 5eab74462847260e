/**
 Merged free/busy strings (internal/eas/extended.go: mergedFreeBusy), section
 2.2.3.106 of MS-ASCMD: one character per half hour.
 */
module FreeBusy {
  import opened Options

  const SLOT := 1800

  const MAX_SLOTS := 2000

  datatype Event = Event(start: int, end: int, busyStatus: int)

  /** Free, tentative or out of office; anything else counts as busy. */
  function Code(e: Event): (c: char)
    ensures '0' <= c <= '3'
  {
    match e.busyStatus
    case 0 => '0'
    case 1 => '1'
    case 3 => '3'
    case _ => '2'
  }

  /** Division that truncates toward zero. */
  function Quotient(a: int, b: int): (q: int)
    requires b > 0
    ensures a >= 0 ==> q * b <= a < (q + 1) * b
    ensures a < 0 ==> q <= 0 && (q - 1) * b < a <= q * b
  {
    if a >= 0 then a / b else -((-a) / b)
  }

  /** The event shares a moment with the part of slot i that lies before `to`. */
  predicate Meets(e: Event, from: int, to: int, i: nat) {
    && e.end > from + SLOT * i
    && e.start < (if from + SLOT * (i + 1) < to then from + SLOT * (i + 1) else to)
  }

  /** The character of slot i: the highest code of the events that meet it. */
  function SlotCode(events: seq<Event>, from: int, to: int, i: nat): (c: char)
    ensures '0' <= c <= '3'
  {
    if events == [] then '0'
    else
      var n := |events| - 1;
      var rest := SlotCode(events[..n], from, to, i);
      if Meets(events[n], from, to, i) && Code(events[n]) > rest then Code(events[n]) else rest
  }

  /** A slot for every half hour begun before `to`, up to the cap. */
  ghost predicate SlotCount(from: int, to: int, n: int) {
    if to <= from then n == 0
    else 0 < n <= 2000 && 1800 * (n - 1) < to - from && (n == 2000 || to - from <= 1800 * n)
  }

  /** Raises the slots an event meets. */
  method Mark(buf: array<char>, e: Event, from: int, to: int)
    requires buf.Length > 0
    modifies buf
    ensures forall i :: 0 <= i < buf.Length ==>
      buf[i] == if Meets(e, from, to, i) && Code(e) > old(buf[i]) then Code(e) else old(buf[i])
  {
    if e.end <= from || e.start >= to {
      return;
    }
    var code := '2';
    match e.busyStatus {
      case 0 => code := '0';
      case 1 => code := '1';
      case 3 => code := '3';
      case _ =>
    }
    var startIdx := Quotient(e.start - from, SLOT);
    var endIdx := Quotient(e.end - 1 - from, SLOT);
    if startIdx < 0 {
      startIdx := 0;
    }
    if endIdx >= buf.Length {
      endIdx := buf.Length - 1;
    }
    forall i | 0 <= i < buf.Length ensures Meets(e, from, to, i) <==> startIdx <= i <= endIdx {
    }
    var i := startIdx;
    while i <= endIdx
      invariant startIdx <= i
      invariant i <= endIdx + 1 || i == startIdx
      invariant forall k :: 0 <= k < buf.Length ==>
        buf[k] == if startIdx <= k < i && k <= endIdx && code > old(buf[k]) then code else old(buf[k])
    {
      if code > buf[i] {
        buf[i] := code;
      }
      i := i + 1;
    }
  }

  /** `events` is None when there is no calendar or it cannot be read. */
  method MergedFreeBusy(known: bool, events: Option<seq<Event>>, from: int, to: int) returns (s: string)
    ensures !known ==> s == ""
    ensures known ==> SlotCount(from, to, |s|)
    ensures known ==> forall i :: 0 <= i < |s| ==>
      s[i] == SlotCode(if events.Some? then events.value else [], from, to, i)
  {
    if !known || to <= from {
      return "";
    }
    var slots := Quotient(to - from + SLOT - 1, SLOT);
    if slots <= 0 {
      return "";
    }
    if slots > MAX_SLOTS {
      slots := MAX_SLOTS;
    }
    var buf := new char[slots];
    for i := 0 to slots
      invariant forall k :: 0 <= k < i ==> buf[k] == '0'
    {
      buf[i] := '0';
    }
    if events.None? {
      return buf[..];
    }
    var all := events.value;
    for n := 0 to |all|
      invariant forall k :: 0 <= k < slots ==> buf[k] == SlotCode(all[..n], from, to, k)
    {
      Mark(buf, all[n], from, to);
      assert all[..n + 1][..n] == all[..n];
    }
    assert all[..|all|] == all;
    return buf[..];
  }

  // ----- What the characters mean -----

  /** The best code among the events that meet the slot, '0' if there is none. */
  ghost predicate Highest(events: seq<Event>, from: int, to: int, i: nat, c: char) {
    && (c == '0' || exists e :: e in events && Meets(e, from, to, i) && Code(e) == c)
    && '0' <= c
    && (forall e :: e in events && Meets(e, from, to, i) ==> Code(e) <= c)
  }

  /** The slot's character is the one value that is highest, so neither event order nor the cap matters. */
  lemma {:induction false} SlotIsHighest(events: seq<Event>, from: int, to: int, i: nat, c: char)
    ensures Highest(events, from, to, i, c) <==> c == SlotCode(events, from, to, i)
  {
    HighestSlot(events, from, to, i);
  }

  lemma {:induction false} HighestSlot(events: seq<Event>, from: int, to: int, i: nat)
    ensures Highest(events, from, to, i, SlotCode(events, from, to, i))
  {
    if events != [] {
      var n := |events| - 1;
      HighestSlot(events[..n], from, to, i);
      assert events == events[..n] + [events[n]];
    }
  }

  /** An event with this status meets the slot. */
  ghost predicate Held(events: seq<Event>, from: int, to: int, i: nat, status: int) {
    exists e :: e in events && Meets(e, from, to, i) && e.busyStatus == status
  }

  /** An event with a status that has no character of its own: it counts as busy. */
  ghost predicate Busy(events: seq<Event>, from: int, to: int, i: nat) {
    exists e :: e in events && Meets(e, from, to, i) && e.busyStatus != 0 && e.busyStatus != 1 && e.busyStatus != 3
  }

  /** Out of office goes before busy, busy before tentative, tentative before free. */
  lemma SlotMeaning(events: seq<Event>, from: int, to: int, i: nat)
    ensures var c := SlotCode(events, from, to, i);
      && (c == '3' <==> Held(events, from, to, i, 3))
      && (c == '2' <==> !Held(events, from, to, i, 3) && Busy(events, from, to, i))
      && (c == '1' <==>
            !Held(events, from, to, i, 3) && !Busy(events, from, to, i) && Held(events, from, to, i, 1))
      && (c == '0' <==>
            !Held(events, from, to, i, 3) && !Busy(events, from, to, i) && !Held(events, from, to, i, 1))
  {
    HighestSlot(events, from, to, i);
  }

  lemma OrderIndependent(a: seq<Event>, b: seq<Event>, from: int, to: int, i: nat)
    requires forall e :: e in a <==> e in b
    ensures SlotCode(a, from, to, i) == SlotCode(b, from, to, i)
  {
    HighestSlot(a, from, to, i);
    SlotIsHighest(b, from, to, i, SlotCode(a, from, to, i));
  }

  predicate InSlot(t: int, from: int, to: int, i: nat) {
    from + 1800 * i <= t < from + 1800 * (i + 1) && t < to
  }

  predicate On(e: Event, t: int) {
    e.start <= t < e.end
  }

  /** At some second of the slot, before `to`, the event is on. */
  ghost predicate Overlaps(e: Event, from: int, to: int, i: nat) {
    exists t :: InSlot(t, from, to, i) && On(e, t)
  }

  lemma MeetsIsOverlap(e: Event, from: int, to: int, i: nat)
    requires from + 1800 * i < to
    requires e.start < e.end || e.start >= e.end + 1799
    ensures Meets(e, from, to, i) <==> Overlaps(e, from, to, i)
  {
    if Meets(e, from, to, i) {
      var lo := from + SLOT * i;
      var t := if e.start > lo then e.start else lo;
      assert InSlot(t, from, to, i) && On(e, t);
    }
  }

  /**
   A slot shows an event exactly when the event is on at some second of it: true of
   every range for an event that starts before it ends. One that ends first, but
   less than a slot earlier, is shown although it is never on.
   */
  lemma OverlapIff(e: Event)
    ensures (forall from, to, i: nat :: from + 1800 * i < to ==> (Meets(e, from, to, i) <==> Overlaps(e, from, to, i)))
      <==> e.start < e.end || e.start >= e.end + 1799
  {
    if e.start < e.end || e.start >= e.end + 1799 {
      forall from, to, i: nat | from + 1800 * i < to ensures Meets(e, from, to, i) <==> Overlaps(e, from, to, i) {
        MeetsIsOverlap(e, from, to, i);
      }
    } else {
      var from, to := e.end - 1, e.start + 1;
      assert Meets(e, from, to, 0) && !Overlaps(e, from, to, 0);
    }
  }
}
