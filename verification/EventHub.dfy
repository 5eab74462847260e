/**
 The event hub behind the webmail's open tabs (internal/api/events.go: Publish,
 Subscribe, unsubscribe and Close): as a value, and as the server that holds the
 channels, which must never send on a closed one nor close one twice.
 */
module EventHub {

  const BUFFER := 16

  const MAX_STREAMS := 16

  /** `at` is the time stamp; `body` stands for the rest of the event. */
  datatype Event = Event(at: int, body: int)

  /** A buffered channel and the account it was made for. */
  datatype Channel = Channel(user: string, buffer: seq<Event>, open: bool)

  /** Channels are numbered as they are made; an account's set of them is listed in no particular order. */
  datatype Hub = Hub(subs: map<string, seq<int>>, closed: bool, channels: map<int, Channel>, made: int)

  // ----- What the operations do, channel by channel -----

  /** A send that does not block: dropped when the buffer is full. */
  function Offer(ch: Channel, ev: Event): Channel {
    if |ch.buffer| < BUFFER then ch.(buffer := ch.buffer + [ev]) else ch
  }

  predicate Subscribed(h: Hub, user: string, c: int) {
    user in h.subs && c in h.subs[user]
  }

  function Stamp(ev: Event, now: int): Event {
    if ev.at == 0 then ev.(at := now) else ev
  }

  function Published(h: Hub, user: string, ev: Event): Hub {
    if user == "" || h.closed then h
    else h.(channels := map c | c in h.channels ::
                          if Subscribed(h, user, c) then Offer(h.channels[c], ev) else h.channels[c])
  }

  function Streams(h: Hub, user: string): nat {
    if user in h.subs then |h.subs[user]| else 0
  }

  predicate Admits(h: Hub, user: string) {
    user != "" && !h.closed && Streams(h, user) < MAX_STREAMS
  }

  function Subscription(h: Hub, user: string): Hub {
    if !Admits(h, user) then h
    else Hub(h.subs[user := (if user in h.subs then h.subs[user] else []) + [h.made]], h.closed,
             h.channels[h.made := Channel(user, [], true)], h.made + 1)
  }

  function Without(list: seq<int>, c: int): (r: seq<int>)
    ensures |r| <= |list|
    ensures forall d :: d in r <==> d in list && d != c
  {
    if list == [] then [] else if list[0] == c then Without(list[1..], c) else [list[0]] + Without(list[1..], c)
  }

  function Unsubscribed(h: Hub, user: string, c: int): Hub {
    if !Subscribed(h, user, c) || c !in h.channels then h
    else
      var left := Without(h.subs[user], c);
      h.(subs := if left == [] then h.subs - {user} else h.subs[user := left],
         channels := h.channels[c := h.channels[c].(open := false)])
  }

  function ClosedDown(h: Hub): Hub {
    if h.closed then h
    else Hub(map[], true,
             map c | c in h.channels ::
               if Subscribed(h, h.channels[c].user, c) then h.channels[c].(open := false) else h.channels[c],
             h.made)
  }

  // ----- What every operation keeps -----

  ghost predicate Distinct(list: seq<int>) {
    forall i, j :: 0 <= i < j < |list| ==> list[i] != list[j]
  }

  /**
   A channel is listed, under its own account, exactly while it is open; no account
   lists more than sixteen; nobody is listed with none, or after the hub closed.
   */
  ghost predicate Valid(h: Hub) {
    && 0 <= h.made
    && (forall u :: u in h.subs ==> u != "" && !h.closed && Distinct(h.subs[u]) && 0 < |h.subs[u]| <= MAX_STREAMS)
    && (forall u, c :: Subscribed(h, u, c) ==> c in h.channels && h.channels[c].open && h.channels[c].user == u)
    && (forall c :: c in h.channels ==>
          && 0 <= c < h.made
          && |h.channels[c].buffer| <= BUFFER
          && (h.channels[c].open ==> Subscribed(h, h.channels[c].user, c)))
  }

  lemma PublishKeeps(h: Hub, user: string, ev: Event)
    requires Valid(h)
    ensures Valid(Published(h, user, ev))
  {
    var h' := Published(h, user, ev);
    assert forall u, c :: Subscribed(h', u, c) == Subscribed(h, u, c);
  }

  /** What a stream hears of an event: nothing when its buffer is full; a time that is set is kept. */
  ghost predicate Hears(before: Channel, after: Channel, subscribed: bool, event: Event, now: int) {
    && after.user == before.user && after.open == before.open
    && after.buffer == before.buffer
         + if subscribed && |before.buffer| < 16 then [Event(if event.at != 0 then event.at else now, event.body)]
           else []
  }

  lemma PublishedHeard(h: Hub, user: string, event: Event, now: int)
    ensures
      var h' := Published(h, user, Stamp(event, now));
      forall c :: c in h.channels ==>
        var subscribed := user != "" && !h.closed && Subscribed(h, user, c);
        c in h'.channels && Hears(h.channels[c], h'.channels[c], subscribed, event, now)
  {
  }

  lemma SubscribeKeeps(h: Hub, user: string)
    requires Valid(h)
    ensures Valid(Subscription(h, user))
  {
    var h' := Subscription(h, user);
    if Admits(h, user) {
      var list := if user in h.subs then h.subs[user] else [];
      assert h'.subs[user] == list + [h.made];
      forall c | c in list ensures Subscribed(h, user, c) && c < h.made {
        assert Subscribed(h, user, c);
      }
      assert forall k :: 0 <= k < |list| ==> list[k] in list;
      forall u, c ensures Subscribed(h', u, c) <==> Subscribed(h, u, c) || (u == user && c == h.made) {
      }
    }
  }

  lemma {:induction false} WithoutDistinct(list: seq<int>, c: int)
    requires Distinct(list)
    ensures Distinct(Without(list, c))
  {
    if list != [] {
      var rest := list[1..];
      forall i, j | 0 <= i < j < |rest| ensures rest[i] != rest[j] {
        assert rest[i] == list[i + 1] && rest[j] == list[j + 1];
      }
      WithoutDistinct(rest, c);
      forall d | d in Without(rest, c) ensures d != list[0] {
        var k :| 0 <= k < |rest| && rest[k] == d;
        assert rest[k] == list[k + 1];
      }
      assert forall k :: 0 <= k < |Without(rest, c)| ==> Without(rest, c)[k] in Without(rest, c);
    }
  }

  lemma UnsubscribeKeeps(h: Hub, user: string, c: int)
    requires Valid(h)
    ensures Valid(Unsubscribed(h, user, c))
  {
    if Subscribed(h, user, c) {
      var h' := Unsubscribed(h, user, c);
      WithoutDistinct(h.subs[user], c);
      forall u, d ensures Subscribed(h', u, d) <==> Subscribed(h, u, d) && d != c {
      }
    }
  }

  // ----- The operations as they run under the lock -----

  class Server {
    var subs: map<string, seq<int>>
    var closed: bool
    var channels: map<int, Channel>
    var made: int

    constructor ()
      ensures State() == Hub(map[], false, map[], 0) && Valid(State())
    {
      subs, closed, channels, made := map[], false, map[], 0;
    }

    function State(): Hub
      reads this
    {
      Hub(subs, closed, channels, made)
    }

    /** Sending on a closed channel panics. */
    method Send(c: int, ev: Event)
      requires c in channels && channels[c].open
      modifies this`channels
      ensures channels == old(channels)[c := Offer(old(channels)[c], ev)]
    {
      if |channels[c].buffer| < BUFFER {
        channels := channels[c := channels[c].(buffer := channels[c].buffer + [ev])];
      } else {
        channels := channels[c := channels[c]];
      }
    }

    /** Closing a closed channel panics. */
    method CloseChannel(c: int)
      requires c in channels && channels[c].open
      modifies this`channels
      ensures channels == old(channels)[c := old(channels)[c].(open := false)]
    {
      channels := channels[c := channels[c].(open := false)];
    }

    method Publish(user: string, event: Event, now: int)
      requires Valid(State())
      modifies this`channels
      ensures State() == Published(old(State()), user, Stamp(event, now))
      ensures forall c :: c in old(channels) ==>
        var subscribed := user != "" && !closed && Subscribed(old(State()), user, c);
        c in channels && Hears(old(channels)[c], channels[c], subscribed, event, now)
      ensures Valid(State())
    {
      PublishKeeps(State(), user, Stamp(event, now));
      PublishedHeard(State(), user, event, now);
      if user == "" {
        return;
      }
      var ev := Stamp(event, now);
      if closed {
        return;
      }
      if user in subs {
        assert forall c :: c in subs[user] ==> Subscribed(State(), user, c);
        SendAll(subs[user], ev);
      }
      ghost var done := Published(old(State()), user, ev).channels;
      forall c ensures c in channels <==> c in done {}
      forall c | c in channels ensures channels[c] == done[c] {}
    }

    method SendAll(list: seq<int>, ev: Event)
      requires Distinct(list) && forall c :: c in list ==> c in channels && channels[c].open
      modifies this`channels
      ensures forall c :: c in channels <==> c in old(channels)
      ensures forall c :: c in channels ==>
        channels[c] == if c in list then Offer(old(channels)[c], ev) else old(channels)[c]
    {
      var i := 0;
      while i < |list|
        invariant 0 <= i <= |list|
        invariant forall c :: c in channels <==> c in old(channels)
        invariant forall c :: c in channels ==>
          channels[c] == if c in list[..i] then Offer(old(channels)[c], ev) else old(channels)[c]
      {
        assert list[i] !in list[..i] && list[..i + 1] == list[..i] + [list[i]];
        assert list[i] in list;
        Send(list[i], ev);
        i := i + 1;
      }
      assert list[..i] == list;
    }

    method Subscribe(user: string) returns (ok: bool, channel: int)
      requires Valid(State())
      modifies this
      ensures ok <==> user != "" && !old(closed) && (user in old(subs) ==> |old(subs)[user]| < 16)
      ensures State() == Subscription(old(State()), user) && (ok ==> channel == old(made))
      ensures Valid(State())
    {
      SubscribeKeeps(State(), user);
      channel := made;
      if user == "" || closed {
        return false, channel;
      }
      var list := if user in subs then subs[user] else [];
      if |list| >= MAX_STREAMS {
        return false, channel;
      }
      channels := channels[channel := Channel(user, [], true)];
      subs := subs[user := list + [channel]];
      made := made + 1;
      return true, channel;
    }

    method Unsubscribe(user: string, c: int)
      requires Valid(State())
      modifies this`subs, this`channels
      ensures State() == Unsubscribed(old(State()), user, c)
      ensures Valid(State())
    {
      UnsubscribeKeeps(State(), user, c);
      if user !in subs {
        return;
      }
      if c !in subs[user] {
        return;
      }
      assert Subscribed(State(), user, c);
      var left := Without(subs[user], c);
      CloseChannel(c);
      if |left| == 0 {
        subs := subs - {user};
      } else {
        subs := subs[user := left];
      }
    }

    /** `users` is the order in which the map happens to be ranged over. */
    method Close(users: seq<string>)
      requires Valid(State())
      requires forall u :: u in subs <==> u in users
      requires forall i, j :: 0 <= i < j < |users| ==> users[i] != users[j]
      modifies this
      ensures State() == ClosedDown(old(State()))
      ensures Valid(State())
    {
      if closed {
        return;
      }
      closed := true;
      var i := 0;
      while i < |users|
        invariant 0 <= i <= |users|
        invariant subs == old(subs) && closed && made == old(made)
        invariant CloseProgress(old(State()), users[..i], channels)
      {
        assert users[i] in users && users[i] !in users[..i];
        CloseAccount(users[i], old(State()), users[..i]);
        assert users[..i + 1] == users[..i] + [users[i]];
        i := i + 1;
      }
      assert users[..i] == users;
      subs := map[];
      ghost var done := ClosedDown(old(State())).channels;
      forall c ensures c in channels <==> c in done {}
      forall c | c in channels ensures channels[c] == done[c] {}
    }

    /** Closes the channels of one account. */
    method CloseAccount(user: string, ghost h: Hub, ghost before: seq<string>)
      requires Valid(h) && subs == h.subs && user in subs && user !in before
      requires CloseProgress(h, before, channels)
      modifies this`channels
      ensures CloseProgress(h, before + [user], channels)
    {
      var list := subs[user];
      forall c | c in list ensures Subscribed(h, user, c) {}
      CloseList(list);
      forall c | c in channels && h.channels[c].user == user ensures c in list <==> Subscribed(h, user, c) {}
    }

    method CloseList(list: seq<int>)
      requires Distinct(list) && forall c :: c in list ==> c in channels && channels[c].open
      modifies this`channels
      ensures forall c :: c in channels <==> c in old(channels)
      ensures forall c :: c in channels ==>
        channels[c] == if c in list then old(channels)[c].(open := false) else old(channels)[c]
    {
      var i := 0;
      while i < |list|
        invariant 0 <= i <= |list|
        invariant forall c :: c in channels <==> c in old(channels)
        invariant forall c :: c in channels ==>
          channels[c] == if c in list[..i] then old(channels)[c].(open := false) else old(channels)[c]
      {
        assert list[i] !in list[..i] && list[..i + 1] == list[..i] + [list[i]];
        assert list[i] in list;
        CloseChannel(list[i]);
        i := i + 1;
      }
      assert list[..i] == list;
    }
  }

  /** The channels of these accounts are closed, the others untouched. */
  ghost predicate CloseProgress(h: Hub, users: seq<string>, channels: map<int, Channel>) {
    && (forall c :: c in channels <==> c in h.channels)
    && (forall c :: c in channels ==>
          channels[c] == if Subscribed(h, h.channels[c].user, c) && h.channels[c].user in users
                         then h.channels[c].(open := false) else h.channels[c])
  }
}
