/** Shared subscriptions: many subscribers behind one merged, deduplicated stream of upstream events. */
module SharedSubs {
  import opened JsonRpc
  import opened Dedup
  import opened Bookkeeping
  import opened Selections

  datatype Notification = Notification(upstream: string, payload: Payload)

  /** What a reader takes off its connection: an event notification, or anything else. */
  datatype Message = Event(event: Notification) | Noise

  function EventsOf(m: Message): seq<Notification> {
    if m.Event? then [m.event] else []
  }

  /** The events among the first n messages. */
  function EventsIn(messages: seq<Message>, n: nat): seq<Notification>
    requires n <= |messages|
  {
    if n == 0 then [] else EventsIn(messages, n - 1) + EventsOf(messages[n - 1])
  }

  /** How many messages a reader takes; closing(i) is whether it finds that it should stop before reading message i. */
  function TakenUpTo(messages: seq<Message>, closing: nat -> bool, i: nat): (n: nat)
    requires i <= |messages|
    ensures i <= n <= |messages|
    decreases |messages| - i
  {
    if i == |messages| || closing(i) then i else TakenUpTo(messages, closing, i + 1)
  }

  function Taken(messages: seq<Message>, closing: nat -> bool): seq<Notification> {
    EventsIn(messages, TakenUpTo(messages, closing, 0))
  }

  lemma {:induction false} TakenUpToStops(messages: seq<Message>, closing: nat -> bool, i: nat)
    requires i <= |messages|
    ensures var n := TakenUpTo(messages, closing, i);
      (forall j :: i <= j < n ==> !closing(j)) && (n == |messages| || closing(n))
    decreases |messages| - i
  {
    if i < |messages| && !closing(i) {
      TakenUpToStops(messages, closing, i + 1);
    }
  }

  function AsMessages(events: seq<Notification>): seq<Message> {
    seq(|events|, k requires 0 <= k < |events| => Event(events[k]))
  }

  lemma EventsStep(messages: seq<Message>, n: nat)
    requires n < |messages|
    ensures AsMessages(EventsIn(messages, n + 1)) ==
      AsMessages(EventsIn(messages, n)) + if messages[n].Event? then [messages[n]] else []
  {
  }

  lemma {:induction false} EventsAt(messages: seq<Message>, n: nat, isEvent: nat -> bool) returns (idx: seq<nat>)
    requires n <= |messages| && forall i: nat :: i < |messages| ==> isEvent(i) == messages[i].Event?
    ensures SelectedAt(messages, idx, AsMessages(EventsIn(messages, n))) && Positions(idx, n, isEvent)
  {
    idx := [];
    if n > 0 {
      var m := n - 1;
      idx := EventsAt(messages, m, isEvent);
      var before := AsMessages(EventsIn(messages, m));
      SelectStep(messages, idx, before, m, isEvent);
      PositionsStep(idx, m, isEvent);
      EventsStep(messages, m);
      assert before + [] == before;
      idx := if isEvent(m) then idx + [m] else idx;
    }
  }

  /**
   What a reader takes: the events, all of them and in order, up to the first message before which it finds that it
   should stop, or to the end if it never does.
   */
  lemma TakenAreTheEvents(messages: seq<Message>, closing: nat -> bool) returns (n: nat, idx: seq<nat>)
    ensures n <= |messages| && (forall j :: 0 <= j < n ==> !closing(j)) && (n == |messages| || closing(n))
    ensures forall i: nat :: i in idx <==> i < n && messages[i].Event?
    ensures forall j, k :: 0 <= j < k < |idx| ==> idx[j] < idx[k]
    ensures |Taken(messages, closing)| == |idx|
    ensures forall k :: 0 <= k < |idx| ==> idx[k] < |messages| && messages[idx[k]] == Event(Taken(messages, closing)[k])
  {
    n := TakenUpTo(messages, closing, 0);
    TakenUpToStops(messages, closing, 0);
    idx := EventsAt(messages, n, (i: nat) => i < |messages| && messages[i].Event?);
    var events := Taken(messages, closing);
    assert forall k :: 0 <= k < |events| ==> AsMessages(events)[k] == Event(events[k]);
  }

  // ----- What each kind of subscriber sees of the merged stream

  /** The accepted keys once the stream has been read. */
  function Window(start: seq<string>, stream: seq<Notification>, size: nat): seq<string> {
    if |stream| == 0 then start else
      Accept(Window(start, stream[..|stream| - 1], size), size, KeyOf(stream[|stream| - 1].payload))
  }

  /** The events of the stream that are not suppressed. */
  function NewOnes(start: seq<string>, stream: seq<Notification>, size: nat): seq<Notification> {
    if |stream| == 0 then [] else
      var before, last := stream[..|stream| - 1], stream[|stream| - 1];
      NewOnes(start, before, size)
      + if Suppressed(Window(start, before, size), size, KeyOf(last.payload)) then [] else [last]
  }

  function KeysOf(stream: seq<Notification>): seq<string> {
    if |stream| == 0 then [] else
      var key := KeyOf(stream[|stream| - 1].payload);
      KeysOf(stream[..|stream| - 1]) + if key.Some? then [key.value] else []
  }

  /** The keys a client gets to see are exactly the accepted ones. */
  lemma {:induction false} ClientsSeeWhatIsAccepted(start: seq<string>, stream: seq<Notification>, size: nat)
    ensures Window(start, stream, size) == start + KeysOf(NewOnes(start, stream, size))
  {
    if |stream| == 0 {
      assert start + [] == start;
    } else {
      var before, last := stream[..|stream| - 1], stream[|stream| - 1];
      ClientsSeeWhatIsAccepted(start, before, size);
      var seen, key := NewOnes(start, before, size), KeyOf(last.payload);
      if !Suppressed(Window(start, before, size), size, key) {
        assert (seen + [last])[..|seen|] == seen;
        if key.Some? {
          assert start + KeysOf(seen) + [key.value] == start + (KeysOf(seen) + [key.value]);
        } else {
          assert KeysOf(seen) + [] == KeysOf(seen);
        }
      } else {
        assert seen + [] == seen;
      }
    }
  }

  lemma {:induction false} WindowStaysSpaced(start: seq<string>, stream: seq<Notification>, size: nat)
    requires SpacedOut(start, size)
    ensures SpacedOut(Window(start, stream, size), size)
  {
    if |stream| > 0 {
      var before := stream[..|stream| - 1];
      WindowStaysSpaced(start, before, size);
      AcceptKeepsSpaced(Window(start, before, size), size, KeyOf(stream[|stream| - 1].payload));
    }
  }

  /** A client never gets the same key twice among any size + 1 consecutive keyed events. */
  lemma ClientsSeeNoRepeats(start: seq<string>, stream: seq<Notification>, size: nat)
    requires SpacedOut(start, size)
    ensures SpacedOut(KeysOf(NewOnes(start, stream, size)), size)
  {
    ClientsSeeWhatIsAccepted(start, stream, size);
    WindowStaysSpaced(start, stream, size);
    var keys := KeysOf(NewOnes(start, stream, size));
    assert forall i :: 0 <= i < |keys| ==> keys[i] == Window(start, stream, size)[|start| + i];
  }

  /** Nothing is lost to clients: a key of the stream was accepted in it, or was in the window before. */
  lemma {:induction false} ClientsMissNothing(start: seq<string>, stream: seq<Notification>, size: nat, i: nat)
    requires i < |stream| && KeyOf(stream[i].payload).Some?
    ensures KeyOf(stream[i].payload).value in Window(start, stream, size)
  {
    var n := |stream| - 1;
    if i < n {
      ClientsMissNothing(start, stream[..n], size, i);
    }
  }

  // ----- Which events are new to clients

  /** Event i of the stream is not suppressed. */
  predicate IsNew(start: seq<string>, stream: seq<Notification>, size: nat, i: nat)
    requires i < |stream|
  {
    !Suppressed(Window(start, stream[..i], size), size, KeyOf(stream[i].payload))
  }

  lemma {:induction false} NewUpTo(start: seq<string>, stream: seq<Notification>, size: nat, n: nat, isNew: nat -> bool)
    returns (idx: seq<nat>)
    requires n <= |stream| && forall i: nat :: i < |stream| ==> isNew(i) == IsNew(start, stream, size, i)
    ensures SelectedAt(stream, idx, NewOnes(start, stream[..n], size)) && Positions(idx, n, isNew)
  {
    idx := [];
    if n > 0 {
      idx := NewUpTo(start, stream, size, n - 1, isNew);
      assert stream[..n][..n - 1] == stream[..n - 1];
      SelectStep(stream, idx, NewOnes(start, stream[..n - 1], size), n - 1, isNew);
      PositionsStep(idx, n - 1, isNew);
      if isNew(n - 1) {
        idx := idx + [n - 1];
      }
    }
  }

  /** Clients get the new events, all of them, each once and in order. */
  lemma ClientsGetTheNewOnes(start: seq<string>, stream: seq<Notification>, size: nat) returns (idx: seq<nat>)
    ensures SelectedAt(stream, idx, NewOnes(start, stream, size))
    ensures forall i: nat :: i in idx <==> i < |stream| && IsNew(start, stream, size, i)
  {
    assert stream[..|stream|] == stream;
    idx := NewUpTo(start, stream, size, |stream|, (i: nat) => i < |stream| && IsNew(start, stream, size, i));
  }

  /** The window holds nothing but what it held before and keys of the stream. */
  lemma {:induction false} WindowOccurs(start: seq<string>, stream: seq<Notification>, size: nat, k: string)
    requires k in Window(start, stream, size)
    ensures k in start || exists j :: 0 <= j < |stream| && KeyOf(stream[j].payload) == Some(k)
  {
    if |stream| > 0 {
      var n := |stream| - 1;
      if KeyOf(stream[n].payload) != Some(k) {
        WindowOccurs(start, stream[..n], size, k);
        if j :| 0 <= j < n && KeyOf(stream[..n][j].payload) == Some(k) {
          assert KeyOf(stream[j].payload) == Some(k);
        }
      }
    }
  }

  /** The window grows at its end, by at most one key an event. */
  lemma {:induction false} WindowGrows(start: seq<string>, stream: seq<Notification>, size: nat, n: nat)
    requires n <= |stream|
    ensures var before, now := Window(start, stream[..n], size), Window(start, stream, size);
      before <= now && |now| <= |before| + |stream| - n
    decreases |stream| - n
  {
    if n < |stream| {
      WindowGrows(start, stream[..|stream| - 1], size, n);
      assert stream[..|stream| - 1][..n] == stream[..n];
    } else {
      assert stream[..n] == stream;
    }
  }

  /** An event whose key is neither in the window nor carried by an earlier event is new, and so is one without a key. */
  lemma FirstArrivalIsNew(start: seq<string>, stream: seq<Notification>, size: nat, i: nat)
    requires i < |stream|
    requires KeyOf(stream[i].payload).Some? ==> KeyOf(stream[i].payload).value !in start
    requires KeyOf(stream[i].payload).Some? ==> forall j :: 0 <= j < i ==> KeyOf(stream[j].payload) != KeyOf(stream[i].payload)
    ensures IsNew(start, stream, size, i)
  {
    var key := KeyOf(stream[i].payload);
    if key.Some? && key.value in Window(start, stream[..i], size) {
      WindowOccurs(start, stream[..i], size, key.value);
      assert false;
    }
  }

  /** Copies that come within size events of the first arrival are suppressed. */
  lemma CopiesAreSuppressed(start: seq<string>, stream: seq<Notification>, size: nat, j: nat, i: nat)
    requires j < i < |stream| && i - j <= size && IsNew(start, stream, size, j)
    requires KeyOf(stream[j].payload).Some? && KeyOf(stream[j].payload) == KeyOf(stream[i].payload)
    ensures !IsNew(start, stream, size, i)
  {
    var key, before := KeyOf(stream[j].payload).value, Window(start, stream[..j], size);
    assert stream[..j + 1][..j] == stream[..j];
    assert Window(start, stream[..j + 1], size) == before + [key];
    WindowGrows(start, stream[..i], size, j + 1);
    assert stream[..i][..j + 1] == stream[..j + 1];
    var now := Window(start, stream[..i], size);
    assert now[|before|] == key && |before| >= |now| - size;
    assert AmongLast(now, size, key);
    SuppressedMeans(now, size, Some(key));
  }

  /**
   From an empty window: a client gets every head whose hash no earlier head had, and no other if the window is as
   wide as the stream.
   */
  lemma ClientsGetEveryNewHead(stream: seq<Notification>, size: nat, i: nat, hash: string)
    requires i < |stream| && stream[i].payload == HeadPayload(Some(hash)) && hash != ""
    ensures (forall j :: 0 <= j < i ==> stream[j].payload != HeadPayload(Some(hash))) ==>
      IsNew([], stream, size, i) && stream[i] in NewOnes([], stream, size)
    ensures |stream| <= size && (exists j :: 0 <= j < i && stream[j].payload == HeadPayload(Some(hash))) ==>
      !IsNew([], stream, size, i)
  {
    forall p | KeyOf(p) == KeyOf(stream[i].payload) ensures p == HeadPayload(Some(hash)) {
      TypesNeverMeet(p, stream[i].payload);
      KeysIdentifyEvents(p, stream[i].payload);
    }
    if forall j :: 0 <= j < i ==> stream[j].payload != HeadPayload(Some(hash)) {
      FirstArrivalIsNew([], stream, size, i);
      var idx := ClientsGetTheNewOnes([], stream, size);
      assert i in idx;
    } else if |stream| <= size {
      var first := FirstHead(stream, i, hash);
      FirstArrivalIsNew([], stream, size, first);
      CopiesAreSuppressed([], stream, size, first, i);
    }
  }

  lemma {:induction false} FirstHead(stream: seq<Notification>, i: nat, hash: string) returns (first: nat)
    requires i <= |stream| && exists j :: 0 <= j < i && stream[j].payload == HeadPayload(Some(hash))
    ensures first < i && stream[first].payload == HeadPayload(Some(hash))
    ensures forall j :: 0 <= j < first ==> stream[j].payload != HeadPayload(Some(hash))
  {
    first := i - 1;
    if exists j :: 0 <= j < i - 1 && stream[j].payload == HeadPayload(Some(hash)) {
      first := FirstHead(stream, i - 1, hash);
    }
  }

  /** Reading message by message: the accepted keys, all events, and those that were not suppressed. */
  datatype Share = Share(window: seq<string>, all: seq<Notification>, first: seq<Notification>)

  function Next(x: Share, m: Message, size: nat): Share {
    match m
    case Noise => x
    case Event(e) =>
      var key := KeyOf(e.payload);
      Share(Accept(x.window, size, key), x.all + [e],
            x.first + if Suppressed(x.window, size, key) then [] else [e])
  }

  function Reading(start: seq<string>, messages: seq<Message>, n: nat, size: nat): Share
    requires n <= |messages|
  {
    if n == 0 then Share(start, [], []) else Next(Reading(start, messages, n - 1, size), messages[n - 1], size)
  }

  lemma {:induction false} ReadingIsSeeing(start: seq<string>, messages: seq<Message>, n: nat, size: nat)
    requires n <= |messages|
    ensures var taken := EventsIn(messages, n);
      Reading(start, messages, n, size) == Share(Window(start, taken, size), taken, NewOnes(start, taken, size))
  {
    if n > 0 {
      ReadingIsSeeing(start, messages, n - 1, size);
      NextIsSeeing(start, EventsIn(messages, n - 1), messages[n - 1], size);
    }
  }

  lemma NextIsSeeing(start: seq<string>, before: seq<Notification>, m: Message, size: nat)
    ensures var taken := before + EventsOf(m);
      Next(Share(Window(start, before, size), before, NewOnes(start, before, size)), m, size) ==
        Share(Window(start, taken, size), taken, NewOnes(start, taken, size))
  {
    match m
    case Noise => assert before + [] == before;
    case Event(e) => SeenStep(start, before, size, e);
  }

  lemma SeenStep(start: seq<string>, taken: seq<Notification>, size: nat, event: Notification)
    ensures var w, key := Window(start, taken, size), KeyOf(event.payload);
      && Window(start, taken + [event], size) == Accept(w, size, key)
      && NewOnes(start, taken + [event], size) ==
        NewOnes(start, taken, size) + if Suppressed(w, size, key) then [] else [event]
  {
    assert (taken + [event])[..|taken|] == taken;
  }

  class Subscriber {
    const id: string
    const skipDedup: bool
    var closed: bool
    /** The events handed to this subscriber. */
    var received: seq<Notification>

    constructor (id: string, skipDedup: bool)
      ensures this.id == id && this.skipDedup == skipDedup && !closed && received == []
    {
      this.id, this.skipDedup, closed, received := id, skipDedup, false, [];
    }

    method OnEvent(event: Notification)
      modifies this`received
      ensures received == old(received) + if closed then [] else [event]
    {
      if closed {
        return;
      }
      received := received + [event];
    }

    method Close()
      modifies this`closed
      ensures closed
    {
      closed := true;
    }
  }

  class SharedSubscription {
    const key: string
    const dedup: Deduplicator
    var subscribers: map<string, Subscriber>
    var closed: bool
    ghost var ids: set<string>
    /** Everyone who has ever been added. */
    ghost var audience: set<Subscriber>

    ghost predicate Valid()
      reads this
    {
      ids == subscribers.Keys && forall id :: id in subscribers ==> subscribers[id].id == id && subscribers[id] in audience
    }

    /** Open under this key, with exactly these subscribers. */
    ghost predicate Serves(k: string, who: set<string>)
      reads this
    {
      key == k && Valid() && !closed && who != {} && ids == who
    }

    /** Nothing has been read yet, and the deduplicator is ready. */
    ghost predicate Unread(size: nat)
      reads dedup, dedup.cache
    {
      dedup.Valid() && dedup.size == size && dedup.accepted == []
    }

    constructor (key: string, dedupSize: nat)
      requires dedupSize > 0
      ensures Valid() && this.key == key && subscribers == map[] && ids == {} && audience == {} && !closed
      ensures fresh(dedup) && fresh(dedup.cache) && Unread(dedupSize)
    {
      this.key, subscribers, closed, ids, audience := key, map[], false, {}, {};
      dedup := new Deduplicator(dedupSize);
    }

    method AddSubscriber(s: Subscriber)
      requires Valid()
      modifies this`subscribers, this`ids, this`audience
      ensures Valid() && subscribers == old(subscribers)[s.id := s] && ids == old(ids) + {s.id}
      ensures audience == old(audience) + {s}
    {
      subscribers, ids, audience := subscribers[s.id := s], ids + {s.id}, audience + {s};
    }

    method RemoveSubscriber(id: string)
      requires Valid()
      modifies this`subscribers, this`ids
      ensures Valid() && subscribers == old(subscribers) - {id} && ids == old(ids) - {id}
    {
      subscribers, ids := subscribers - {id}, ids - {id};
    }

    method SubscriberCount() returns (n: nat)
      requires Valid()
      ensures n == |ids| && (n == 0 <==> ids == {})
    {
      n := |subscribers|;
      assert n == |subscribers.Keys|;
    }

    method Close()
      modifies this`closed
      ensures closed
    {
      if closed {
        return;
      }
      closed := true;
    }

    /** A duplicate goes only to those who asked for everything; the order of subscribers does not matter. */
    method BroadcastEvent(event: Notification, isDuplicate: bool)
      requires Valid()
      modifies audience`received
      ensures forall id :: id in subscribers ==>
        subscribers[id].received == old(subscribers[id].received)
          + if subscribers[id].closed || (isDuplicate && !subscribers[id].skipDedup) then [] else [event]
    {
      var todo := subscribers.Keys;
      while todo != {}
        invariant todo <= subscribers.Keys
        invariant forall id :: id in todo ==> subscribers[id].received == old(subscribers[id].received)
        invariant forall id :: id in subscribers && id !in todo ==>
          subscribers[id].received == old(subscribers[id].received)
            + if subscribers[id].closed || (isDuplicate && !subscribers[id].skipDedup) then [] else [event]
        decreases todo
      {
        var id :| id in todo;
        todo := todo - {id};
        var sub := subscribers[id];
        if isDuplicate && !sub.skipDedup {
          continue;
        }
        sub.OnEvent(event);
      }
    }

    /** One event: who gets it depends on whether its key is in the window. */
    method HandleEvent(event: Notification)
      requires Valid() && dedup.Valid()
      modifies audience`received, dedup, dedup.cache
      ensures dedup.Valid() && dedup.accepted == Accept(old(dedup.accepted), dedup.size, KeyOf(event.payload))
      ensures var duplicate := Suppressed(old(dedup.accepted), dedup.size, KeyOf(event.payload));
        forall id :: id in subscribers && !subscribers[id].closed ==>
          subscribers[id].received == old(subscribers[id].received)
            + if duplicate && !subscribers[id].skipDedup then [] else [event]
    {
      var isDuplicate := dedup.IsDuplicate(KeyOf(event.payload));
      BroadcastEvent(event, isDuplicate);
    }

    /** Since `before`, every open skip-dedup subscriber has been handed all, every other open one fresh. */
    ghost predicate Delivered(before: map<string, seq<Notification>>, all: seq<Notification>, first: seq<Notification>)
      requires Valid()
      reads this, audience
    {
      before.Keys == subscribers.Keys && forall id :: id in subscribers && !subscribers[id].closed ==>
        subscribers[id].received == before[id] + if subscribers[id].skipDedup then all else first
    }

    method Deliver(event: Notification, ghost before: map<string, seq<Notification>>, ghost all: seq<Notification>,
                   ghost first: seq<Notification>)
      returns (ghost more: seq<Notification>)
      requires Valid() && dedup.Valid() && Delivered(before, all, first)
      modifies audience`received, dedup, dedup.cache
      ensures dedup.Valid() && dedup.accepted == Accept(old(dedup.accepted), dedup.size, KeyOf(event.payload))
      ensures more == if Suppressed(old(dedup.accepted), dedup.size, KeyOf(event.payload)) then [] else [event]
      ensures Delivered(before, all + [event], first + more)
    {
      more := if Suppressed(dedup.accepted, dedup.size, KeyOf(event.payload)) then [] else [event];
      HandleEvent(event);
    }

    /**
     The reading loop. The messages end where a read fails; the reader then asks to reconnect unless it should
     stop. Of the events it took a skip-dedup subscriber sees all, any other exactly those not suppressed.
     */
    method ReadUpstreamEvents(messages: seq<Message>, closing: nat -> bool) returns (reconnect: bool)
      requires Valid() && dedup.Valid()
      modifies audience`received, dedup, dedup.cache
      ensures dedup.Valid() && dedup.accepted == Window(old(dedup.accepted), Taken(messages, closing), dedup.size)
      ensures forall id :: id in subscribers && !subscribers[id].closed ==>
        subscribers[id].received == old(subscribers[id].received)
          + if subscribers[id].skipDedup then Taken(messages, closing)
            else NewOnes(old(dedup.accepted), Taken(messages, closing), dedup.size)
      ensures reconnect <==> forall i :: 0 <= i <= |messages| + 1 ==> !closing(i)
    {
      ghost var before := map id | id in subscribers :: subscribers[id].received;
      ReadingIsSeeing(dedup.accepted, messages, TakenUpTo(messages, closing, 0), dedup.size);
      reconnect := ReadLoop(messages, closing, before, dedup.accepted);
    }

    /** The deduplicator and everyone's share since `before`. */
    ghost predicate Progress(before: map<string, seq<Notification>>, x: Share)
      requires Valid()
      reads this, audience, dedup, dedup.cache
    {
      dedup.Valid() && dedup.accepted == x.window && Delivered(before, x.all, x.first)
    }

    method HandleMessage(message: Message, ghost before: map<string, seq<Notification>>, ghost x: Share)
      requires Valid() && Progress(before, x)
      modifies audience`received, dedup, dedup.cache
      ensures Progress(before, Next(x, message, dedup.size))
    {
      match message
      case Noise =>
      case Event(event) => ghost var more := Deliver(event, before, x.all, x.first);
    }

    method ReadLoop(messages: seq<Message>, closing: nat -> bool, ghost before: map<string, seq<Notification>>,
                    ghost start: seq<string>)
      returns (reconnect: bool)
      requires Valid() && Progress(before, Share(start, [], []))
      modifies audience`received, dedup, dedup.cache
      ensures Progress(before, Reading(start, messages, TakenUpTo(messages, closing, 0), dedup.size))
      ensures reconnect <==> forall i :: 0 <= i <= |messages| + 1 ==> !closing(i)
    {
      for i := 0 to |messages|
        invariant TakenUpTo(messages, closing, i) == TakenUpTo(messages, closing, 0)
        invariant Progress(before, Reading(start, messages, i, dedup.size))
        invariant forall j :: 0 <= j < i ==> !closing(j)
      {
        if closing(i) {
          return false;
        }
        HandleMessage(messages[i], before, Reading(start, messages, i, dedup.size));
      }
      return !closing(|messages|) && !closing(|messages| + 1);
    }
  }

  class SharedSubscriptionManager {
    var subscriptions: map<string, SharedSubscription>
    const dedupSize: nat
    /** Who is subscribed under each key. */
    ghost var registered: Table
    /** The shared subscriptions this manager has made. */
    ghost var made: set<SharedSubscription>

    ghost predicate Valid()
      reads this, made
    {
      && dedupSize > 0
      && registered.Keys == subscriptions.Keys
      && forall k :: k in subscriptions ==> subscriptions[k] in made && subscriptions[k].Serves(k, registered[k])
    }

    constructor (dedupSize: nat)
      requires dedupSize > 0
      ensures Valid() && subscriptions == map[] && registered == map[] && made == {} && this.dedupSize == dedupSize
    {
      subscriptions, this.dedupSize, registered, made := map[], dedupSize, map[], {};
    }

    ghost predicate ValidExcept(key: string)
      reads this, made
    {
      && dedupSize > 0
      && registered.Keys == subscriptions.Keys
      && forall k :: k in subscriptions ==>
        subscriptions[k] in made && subscriptions[k].key == k && (k != key ==> subscriptions[k].Serves(k, registered[k]))
    }

    method Extend(key: string, subscriber: Subscriber)
      requires Valid() && key in subscriptions
      modifies subscriptions[key]
      ensures ValidExcept(key) && subscriptions[key].Serves(key, registered[key] + {subscriber.id})
      ensures subscriptions[key].subscribers == old(subscriptions[key].subscribers)[subscriber.id := subscriber]
    {
      subscriptions[key].AddSubscriber(subscriber);
    }

    method Attach(key: string, subscriber: Subscriber)
      requires Valid() && key in subscriptions
      modifies this`registered, subscriptions[key]
      ensures Valid()
      ensures registered == Join(old(registered), key, subscriber.id)
      ensures subscriptions[key].subscribers == old(subscriptions[key].subscribers)[subscriber.id := subscriber]
    {
      Extend(key, subscriber);
      Reregister(key, registered[key] + {subscriber.id});
    }

    method Create(key: string, subscriber: Subscriber)
      requires Valid() && key !in subscriptions
      modifies this
      ensures Valid()
      ensures registered == Join(old(registered), key, subscriber.id)
      ensures key in subscriptions && fresh(subscriptions[key]) && subscriptions == old(subscriptions)[key := subscriptions[key]]
      ensures subscriptions[key].subscribers == map[subscriber.id := subscriber] && made == old(made) + {subscriptions[key]}
      ensures subscriptions[key].Unread(dedupSize)
      ensures fresh(subscriptions[key].dedup) && fresh(subscriptions[key].dedup.cache)
    {
      var shared := new SharedSubscription(key, dedupSize);
      shared.AddSubscriber(subscriber);
      Adopt(key, shared, subscriber.id);
    }

    method Adopt(key: string, shared: SharedSubscription, id: string)
      requires Valid() && key !in subscriptions && shared.Serves(key, {id})
      modifies this`subscriptions, this`registered, this`made
      ensures Valid()
      ensures registered == old(registered)[key := {id}]
      ensures subscriptions == old(subscriptions)[key := shared] && made == old(made) + {shared}
    {
      subscriptions, registered, made := subscriptions[key := shared], registered[key := {id}], made + {shared};
    }

    /** up says whether any upstream accepts a subscription, should a new one be needed. */
    method Subscribe(key: string, subscriber: Subscriber, up: bool) returns (ok: bool)
      requires Valid()
      modifies this, made
      ensures Valid()
      ensures ok <==> key in old(subscriptions) || up
      ensures registered == if ok then Join(old(registered), key, subscriber.id) else old(registered)
      ensures ok ==> key in subscriptions
      ensures ok && key in old(subscriptions) ==>
        subscriptions[key].subscribers == old(subscriptions[key].subscribers)[subscriber.id := subscriber]
      ensures ok && key !in old(subscriptions) ==> subscriptions[key].subscribers == map[subscriber.id := subscriber]
      ensures ok && key !in old(subscriptions) ==> fresh(subscriptions[key]) && subscriptions[key].Unread(dedupSize)
      ensures forall s :: s in made - old(made) ==> s.Unread(dedupSize) && fresh(s.dedup) && fresh(s.dedup.cache)
      ensures forall k :: k in old(subscriptions) ==> k in subscriptions && subscriptions[k] == old(subscriptions[k])
      ensures forall k :: k in old(subscriptions) && k != key ==>
        subscriptions[k].subscribers == old(subscriptions[k].subscribers)
      ensures old(made) <= made && fresh(made - old(made))
    {
      ok := key in subscriptions || up;
      if key in subscriptions {
        Attach(key, subscriber);
      } else if up {
        Create(key, subscriber);
      }
    }

    method Detach(key: string, id: string) returns (left: nat)
      requires Valid() && key in subscriptions
      modifies subscriptions[key]
      ensures ValidExcept(key)
      ensures left == |registered[key] - {id}|
      ensures left != 0 ==> subscriptions[key].Serves(key, registered[key] - {id})
    {
      var shared := subscriptions[key];
      shared.RemoveSubscriber(id);
      left := shared.SubscriberCount();
    }

    method Reregister(key: string, ghost ids: set<string>)
      requires ValidExcept(key) && key in subscriptions && subscriptions[key].Serves(key, ids)
      modifies this`registered
      ensures Valid() && registered == old(registered)[key := ids]
    {
      registered := registered[key := ids];
    }

    method Retire(key: string)
      requires ValidExcept(key) && key in subscriptions
      modifies this`subscriptions, this`registered, subscriptions[key]
      ensures Valid() && subscriptions == old(subscriptions) - {key} && registered == old(registered) - {key}
      ensures old(subscriptions[key]).closed
    {
      subscriptions[key].Close();
      subscriptions, registered := subscriptions - {key}, registered - {key};
    }

    /** The last subscriber to leave closes the shared subscription. */
    method Unsubscribe(key: string, id: string)
      requires Valid()
      modifies this`subscriptions, this`registered, made
      ensures Valid()
      ensures registered == Leave(old(registered), key, id)
      ensures forall k :: k in subscriptions ==> k in old(subscriptions) && subscriptions[k] == old(subscriptions[k])
      ensures key in old(subscriptions) && key !in subscriptions ==> old(subscriptions[key]).closed
    {
      if key !in subscriptions {
        return;
      }
      var left := Detach(key, id);
      if left == 0 {
        Retire(key);
      } else {
        Reregister(key, registered[key] - {id});
      }
    }

    method Close()
      requires Valid()
      modifies this`subscriptions, this`registered, made
      ensures Valid() && subscriptions == map[] && registered == map[]
      ensures forall k :: k in old(subscriptions) ==> old(subscriptions[k]).closed
    {
      CloseEach();
      subscriptions, registered := map[], map[];
    }

    method CloseEach()
      requires Valid()
      modifies made
      ensures forall k :: k in subscriptions ==> subscriptions[k].closed
    {
      var todo := subscriptions.Keys;
      while todo != {}
        invariant todo <= subscriptions.Keys
        invariant forall k :: k in subscriptions && k !in todo ==> subscriptions[k].closed
      {
        var k :| k in todo;
        subscriptions[k].Close();
        todo := todo - {k};
      }
    }
  }
}
