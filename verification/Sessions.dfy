/** Client sessions and their manager, on top of one pool's shared subscriptions. */
module Sessions {
  import opened Bookkeeping
  import opened SharedSubs

  datatype Info = Info(key: string, subscriber: Subscriber)

  datatype Outcome = Subscribed(id: string) | SessionClosed | LimitReached | NoUpstream

  class ClientSession {
    const conn: int
    const shared: SharedSubscriptionManager
    const maxSubs: int
    var subscriptions: map<string, Info>
    var closed: bool
    /** The key behind each ID, and every subscriber this session has made. */
    ghost var held: Held
    ghost var mine: set<Subscriber>

    ghost predicate Valid()
      reads this
    {
      && held.Keys == subscriptions.Keys
      && forall id :: id in subscriptions ==>
        var info := subscriptions[id];
        info.key == held[id] && info.subscriber in mine && info.subscriber.id == id && !info.subscriber.skipDedup
    }

    /** The open session of a connection, with these subscriptions. */
    ghost predicate Serves(c: int, sh: SharedSubscriptionManager, max: int, h: Held)
      reads this
    {
      conn == c && shared == sh && maxSubs == max && Valid() && !closed && held == h
    }

    constructor (conn: int, shared: SharedSubscriptionManager, maxSubs: int)
      ensures Valid() && this.conn == conn && this.shared == shared && this.maxSubs == maxSubs
      ensures held == map[] && mine == {} && !closed
    {
      this.conn, this.shared, this.maxSubs := conn, shared, maxSubs;
      subscriptions, closed, held, mine := map[], false, map[], {};
    }

    method GetSubscriptionCount() returns (n: nat)
      requires Valid()
      ensures n == |held|
    {
      n := |subscriptions|;
      assert |subscriptions.Keys| == |held.Keys|;
    }

    method Store(id: string, key: string, subscriber: Subscriber)
      requires Valid() && subscriber.id == id && !subscriber.skipDedup
      modifies this`subscriptions, this`held, this`mine
      ensures Valid() && held == old(held)[id := key] && mine == old(mine) + {subscriber}
    {
      subscriptions := subscriptions[id := Info(key, subscriber)];
      held, mine := held[id := key], mine + {subscriber};
    }

    /** Ask the shared manager; the session itself is not touched. */
    method JoinShared(key: string, subscriber: Subscriber, up: bool) returns (ok: bool)
      requires shared.Valid()
      modifies shared, shared.made
      ensures shared.Valid()
      ensures ok <==> key in old(shared.registered) || up
      ensures shared.registered == if ok then Join(old(shared.registered), key, subscriber.id) else old(shared.registered)
      ensures forall s :: s in shared.made - old(shared.made) ==>
        s.Unread(shared.dedupSize) && fresh(s.dedup) && fresh(s.dedup.cache)
    {
      ok := shared.Subscribe(key, subscriber, up);
    }

    method Register(key: string, id: string, up: bool) returns (ok: bool)
      requires Valid() && shared.Valid()
      modifies this`subscriptions, this`held, this`mine, shared, shared.made
      ensures Valid() && shared.Valid()
      ensures ok <==> key in old(shared.registered) || up
      ensures held == if ok then old(held)[id := key] else old(held)
      ensures shared.registered == if ok then Join(old(shared.registered), key, id) else old(shared.registered)
      ensures forall s :: s in shared.made - old(shared.made) ==>
        s.Unread(shared.dedupSize) && fresh(s.dedup) && fresh(s.dedup.cache)
    {
      var subscriber := new Subscriber(id, false);
      ok := JoinShared(key, subscriber, up);
      if ok {
        Store(id, key, subscriber);
      }
    }

    /** id is the generated subscription ID; up says whether an upstream accepts a new subscription. */
    method Subscribe(key: string, id: string, up: bool) returns (r: Outcome)
      requires Valid() && shared.Valid()
      modifies this`subscriptions, this`held, this`mine, shared, shared.made
      ensures Valid() && shared.Valid()
      ensures r.SessionClosed? <==> closed
      ensures r.LimitReached? <==> !closed && |old(held)| >= maxSubs
      ensures r.Subscribed? <==> !closed && Accepts(maxSubs, old(shared.registered), old(held), key, up)
      ensures r.NoUpstream? <==> !closed && |old(held)| < maxSubs && key !in old(shared.registered) && !up
      ensures r.Subscribed? ==> r.id == id
      ensures held == if r.Subscribed? then old(held)[id := key] else old(held)
      ensures shared.registered == if r.Subscribed? then Join(old(shared.registered), key, id) else old(shared.registered)
      ensures forall s :: s in shared.made - old(shared.made) ==>
        s.Unread(shared.dedupSize) && fresh(s.dedup) && fresh(s.dedup.cache)
    {
      if closed {
        return SessionClosed;
      }
      var count := GetSubscriptionCount();
      if count >= maxSubs {
        return LimitReached;
      }
      var ok := Register(key, id, up);
      return if ok then Subscribed(id) else NoUpstream;
    }

    method Unsubscribe(id: string) returns (found: bool)
      requires Valid() && shared.Valid()
      modifies this`subscriptions, this`held, mine, shared, shared.made
      ensures Valid() && shared.Valid()
      ensures found <==> id in old(held)
      ensures held == old(held) - {id}
      ensures found ==> id in old(subscriptions) && old(subscriptions)[id].subscriber.closed
      ensures shared.registered ==
        if found then Drop(old(shared.registered), {(old(held)[id], id)}) else old(shared.registered)
      ensures shared.made == old(shared.made)
    {
      if id !in subscriptions {
        return false;
      }
      var info := subscriptions[id];
      subscriptions, held := subscriptions - {id}, held - {id};
      info.subscriber.Close();
      LeaveIsDrop(shared.registered, info.key, id);
      shared.Unsubscribe(info.key, id);
      return true;
    }

    method Close()
      requires Valid() && shared.Valid()
      modifies this`subscriptions, this`held, this`closed, mine, shared, shared.made
      ensures Valid() && shared.Valid() && closed
      ensures !old(closed) ==> forall id :: id in old(subscriptions) ==> old(subscriptions)[id].subscriber.closed
      ensures held == if old(closed) then old(held) else map[]
      ensures shared.registered ==
        if old(closed) then old(shared.registered) else Drop(old(shared.registered), Pairs(old(held)))
      ensures shared.made == old(shared.made)
    {
      if closed {
        return;
      }
      closed := true;
      ReleaseAll();
      subscriptions, held := map[], map[];
    }

    method ReleaseAll()
      requires Valid() && shared.Valid()
      modifies mine, shared, shared.made
      ensures shared.Valid() && shared.made == old(shared.made)
      ensures shared.registered == Drop(old(shared.registered), Pairs(held))
      ensures forall id :: id in subscriptions ==> subscriptions[id].subscriber.closed
    {
      ghost var before, done := shared.registered, {};
      var todo := subscriptions.Keys;
      DropNothing(before);
      assert PairsOf(held, done) == {};
      while todo != {}
        invariant todo <= subscriptions.Keys && done == subscriptions.Keys - todo
        invariant shared.Valid() && shared.made == old(shared.made)
        invariant shared.registered == Drop(before, PairsOf(held, done))
        invariant forall id :: id in done ==> subscriptions[id].subscriber.closed
      {
        var id :| id in todo;
        LeaveStep(before, held, done, id);
        subscriptions[id].subscriber.Close();
        shared.Unsubscribe(subscriptions[id].key, id);
        todo, done := todo - {id}, done + {id};
      }
      assert PairsOf(held, done) == Pairs(held);
    }
  }

  class Manager {
    const shared: SharedSubscriptionManager
    const maxSubs: int
    var sessions: map<int, ClientSession>
    /** What each open session holds; the sessions and the subscribers made so far. */
    ghost var view: map<int, Held>
    ghost var made: set<ClientSession>
    ghost var clients: set<Subscriber>

    ghost predicate Runs(c: int, s: ClientSession, h: Held)
      reads this`made, this`clients, s
    {
      s in made && s.mine <= clients && s.Serves(c, shared, maxSubs, h)
    }

    ghost predicate Valid()
      reads this, made
    {
      view.Keys == sessions.Keys && forall c :: c in sessions ==> sessions[c] in made && Runs(c, sessions[c], view[c])
    }

    /** Everything is in order but for the sessions that are being dealt with. */
    ghost predicate ValidExcept(conns: set<int>)
      reads this, made
    {
      && view.Keys == sessions.Keys
      && forall c :: c in sessions ==>
        sessions[c] in made && sessions[c].conn == c && (c !in conns ==> Runs(c, sessions[c], view[c]))
    }

    constructor (shared: SharedSubscriptionManager, maxSubs: int)
      ensures Valid() && this.shared == shared && this.maxSubs == maxSubs && view == map[] && made == {} && clients == {}
    {
      this.shared, this.maxSubs := shared, maxSubs;
      sessions, view, made, clients := map[], map[], {}, {};
    }

    method Adopt(conn: int, session: ClientSession)
      requires Valid() && conn !in sessions
      requires session.Serves(conn, shared, maxSubs, map[]) && session.mine == {}
      modifies this`sessions, this`view, this`made
      ensures Valid() && sessions == old(sessions)[conn := session]
      ensures view == old(view)[conn := map[]] && made == old(made) + {session}
    {
      sessions, view, made := sessions[conn := session], view[conn := map[]], made + {session};
    }

    method GetOrCreateSession(conn: int) returns (session: ClientSession)
      requires Valid()
      modifies this`sessions, this`view, this`made
      ensures Valid() && conn in sessions && session == sessions[conn]
      ensures view == Opened(old(view), conn)
      ensures old(made) <= made && fresh(made - old(made))
    {
      if conn in sessions {
        return sessions[conn];
      }
      session := new ClientSession(conn, shared, maxSubs);
      Adopt(conn, session);
    }

    /** One session changes what it holds; the others do not notice. */
    method SubscribeSession(conn: int, key: string, id: string, up: bool) returns (r: Outcome, ghost h: Held)
      requires Valid() && shared.Valid() && conn in sessions
      modifies sessions[conn], shared, shared.made
      ensures ValidExcept({conn}) && shared.Valid()
      ensures r.Subscribed? <==> Accepts(maxSubs, old(shared.registered), view[conn], key, up)
      ensures r.Subscribed? ==> r.id == id
      ensures h == if r.Subscribed? then view[conn][id := key] else view[conn]
      ensures sessions[conn].Serves(conn, shared, maxSubs, h)
      ensures shared.registered ==
        if r.Subscribed? then Join(old(shared.registered), key, id) else old(shared.registered)
      ensures forall s :: s in shared.made - old(shared.made) ==>
        s.Unread(shared.dedupSize) && fresh(s.dedup) && fresh(s.dedup.cache)
    {
      assert Runs(conn, sessions[conn], view[conn]);
      r := sessions[conn].Subscribe(key, id, up);
      h := sessions[conn].held;
    }

    ghost method Refresh(conn: int, h: Held)
      requires ValidExcept({conn}) && conn in sessions && sessions[conn].Serves(conn, shared, maxSubs, h)
      modifies this`view, this`clients
      ensures Valid() && view == old(view)[conn := h] && clients == old(clients) + sessions[conn].mine
    {
      view, clients := view[conn := h], clients + sessions[conn].mine;
    }

    method SubscribeOpened(conn: int, key: string, id: string, up: bool) returns (r: Outcome)
      requires Valid() && shared.Valid() && conn in sessions
      modifies this`view, this`clients, sessions[conn], shared, shared.made
      ensures Valid() && shared.Valid()
      ensures r.Subscribed? <==> Accepts(maxSubs, old(shared.registered), old(view)[conn], key, up)
      ensures r.Subscribed? ==> r.id == id
      ensures view == old(view)[conn := if r.Subscribed? then old(view)[conn][id := key] else old(view)[conn]]
      ensures shared.registered ==
        if r.Subscribed? then Join(old(shared.registered), key, id) else old(shared.registered)
      ensures forall s :: s in shared.made - old(shared.made) ==>
        s.Unread(shared.dedupSize) && fresh(s.dedup) && fresh(s.dedup.cache)
    {
      ghost var h;
      r, h := SubscribeSession(conn, key, id, up);
      Refresh(conn, h);
    }

    method Subscribe(conn: int, key: string, id: string, up: bool) returns (r: Outcome)
      requires Valid() && shared.Valid()
      modifies this, made, shared, shared.made
      ensures Valid() && shared.Valid()
      ensures Moves(Event.Subscribe(conn, key, id, up), maxSubs, old(shared.registered), old(view), shared.registered, view)
      ensures r.Subscribed? ==> r.id == id && conn in view && id in view[conn] && view[conn][id] == key
      ensures forall s :: s in shared.made - old(shared.made) ==>
        s.Unread(shared.dedupSize) && fresh(s.dedup) && fresh(s.dedup.cache)
    {
      var session := GetOrCreateSession(conn);
      r := SubscribeOpened(conn, key, id, up);
      SubscribeMoves(maxSubs, old(shared.registered), old(view), conn, key, id, up, shared.registered, view);
    }

    method UnsubscribeSession(conn: int, id: string) returns (found: bool)
      requires Valid() && shared.Valid() && conn in sessions
      modifies sessions[conn], clients, shared, shared.made
      ensures ValidExcept({conn}) && shared.Valid()
      ensures var h, t := view[conn], old(shared.registered);
        && found == (id in h)
        && sessions[conn].Serves(conn, shared, maxSubs, h - {id})
        && shared.registered == if found then Drop(t, {(h[id], id)}) else t
    {
      assert Runs(conn, sessions[conn], view[conn]);
      found := sessions[conn].Unsubscribe(id);
    }

    method Unsubscribe(conn: int, id: string) returns (found: bool)
      requires Valid() && shared.Valid()
      modifies this, made, clients, shared, shared.made
      ensures Valid() && shared.Valid()
      ensures found <==> conn in old(view) && id in old(view)[conn]
      ensures Moves(Event.Unsubscribe(conn, id), maxSubs, old(shared.registered), old(view), shared.registered, view)
    {
      if conn !in sessions {
        return false;
      }
      found := UnsubscribeSession(conn, id);
      Refresh(conn, view[conn] - {id});
      UnsubscribeMoves(maxSubs, old(shared.registered), old(view), conn, id, shared.registered, view);
    }

    method CloseSession(conn: int, ghost done: set<int>)
      requires ValidExcept(done) && shared.Valid() && conn in sessions && conn !in done
      modifies sessions[conn], clients, shared, shared.made
      ensures ValidExcept(done + {conn}) && shared.Valid() && sessions[conn].closed
      ensures shared.registered == Drop(old(shared.registered), Pairs(view[conn]))
      ensures shared.made == old(shared.made)
    {
      assert Runs(conn, sessions[conn], view[conn]);
      sessions[conn].Close();
    }

    method Delete(conn: int)
      requires ValidExcept({conn})
      modifies this`sessions, this`view
      ensures Valid() && sessions == old(sessions) - {conn} && view == old(view) - {conn}
    {
      sessions, view := sessions - {conn}, view - {conn};
    }

    method Discard(conn: int)
      requires Valid() && shared.Valid() && conn in sessions
      modifies this`sessions, this`view, sessions[conn], clients, shared, shared.made
      ensures Valid() && shared.Valid() && old(sessions[conn]).closed
      ensures view == old(view) - {conn}
      ensures shared.registered == Drop(old(shared.registered), Pairs(old(view)[conn]))
    {
      CloseSession(conn, {});
      Delete(conn);
    }

    method RemoveSession(conn: int)
      requires Valid() && shared.Valid()
      modifies this, made, clients, shared, shared.made
      ensures Valid() && shared.Valid()
      ensures conn in old(sessions) ==> old(sessions[conn]).closed
      ensures Moves(Remove(conn), maxSubs, old(shared.registered), old(view), shared.registered, view)
    {
      if conn !in sessions {
        return;
      }
      Discard(conn);
    }

    method CloseEach()
      requires Valid() && shared.Valid()
      modifies made, clients, shared, shared.made
      ensures shared.Valid() && shared.registered == Drop(old(shared.registered), AllPairs(view))
      ensures forall c :: c in sessions ==> sessions[c].closed
    {
      ghost var t, done := shared.registered, {};
      var todo := sessions.Keys;
      DropNothing(t);
      assert PairsOfSome(view, done) == {};
      while todo != {}
        invariant done == sessions.Keys - todo && todo <= sessions.Keys
        invariant ValidExcept(done) && shared.Valid() && shared.made == old(shared.made)
        invariant forall c :: c in done ==> sessions[c].closed
        invariant shared.registered == Drop(t, PairsOfSome(view, done))
      {
        assert (forall c :: c !in todo) ==> todo == {};
        var c :| c in todo;
        CloseStep(t, view, done, c);
        CloseSession(c, done);
        todo, done := todo - {c}, done + {c};
      }
      assert PairsOfSome(view, done) == AllPairs(view);
    }

    method CloseAll()
      requires Valid() && shared.Valid()
      modifies this, made, clients, shared, shared.made
      ensures Valid() && shared.Valid() && view == map[]
      ensures forall c :: c in old(sessions) ==> old(sessions[c]).closed
      ensures Moves(Event.CloseAll, maxSubs, old(shared.registered), old(view), shared.registered, view)
    {
      CloseEach();
      sessions, view := map[], map[];
    }
  }
}
