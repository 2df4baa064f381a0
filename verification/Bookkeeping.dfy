/**
 Who is subscribed to what, seen from both ends: the table of shared subscriptions and the sessions
 that hold the subscription IDs. Operations are atomic and happen before the shared manager is closed.
 */
module Bookkeeping {
  import opened Text

  /** Subscription key -> IDs of its subscribers. */
  type Table = map<string, set<string>>

  /** Subscription ID -> key, for one client. */
  type Held = map<string, string>

  const MONITOR := "health-monitor"
  const HEADS := "newHeads:"

  predicate NoEmptySets(t: Table) { forall k :: k in t ==> t[k] != {} }

  predicate Member(t: Table, k: string, id: string) { k in t && id in t[k] }

  function Join(t: Table, k: string, id: string): Table {
    t[k := (if k in t then t[k] else {}) + {id}]
  }

  function Rest(t: Table, k: string, gone: set<(string, string)>): set<string>
    requires k in t
  {
    set id | id in t[k] && (k, id) !in gone
  }

  /** Remove (key, ID) pairs; a key whose last subscriber goes is closed with it. */
  function Drop(t: Table, gone: set<(string, string)>): Table {
    map k | k in t && Rest(t, k, gone) != {} :: Rest(t, k, gone)
  }

  function Pairs(h: Held): set<(string, string)> {
    set id | id in h :: (h[id], id)
  }

  /** The pairs of some of a client's IDs. */
  function PairsOf(h: Held, ids: set<string>): set<(string, string)>
    requires ids <= h.Keys
  {
    set id | id in ids :: (h[id], id)
  }

  function AllPairs(sessions: map<int, Held>): set<(string, string)> {
    set c, id | c in sessions && id in sessions[c] :: (sessions[c][id], id)
  }

  lemma JoinMembers(t: Table, k: string, id: string, k': string, id': string)
    ensures Member(Join(t, k, id), k', id') <==> Member(t, k', id') || (k' == k && id' == id)
    ensures NoEmptySets(t) ==> NoEmptySets(Join(t, k, id))
  {
  }

  lemma DropMembers(t: Table, gone: set<(string, string)>, k: string, id: string)
    ensures Member(Drop(t, gone), k, id) <==> Member(t, k, id) && (k, id) !in gone
    ensures NoEmptySets(Drop(t, gone))
  {
    if Member(t, k, id) && (k, id) !in gone {
      assert id in Rest(t, k, gone);
    }
  }

  /** Subscribers may leave one by one or together. */
  lemma DropDrop(t: Table, a: set<(string, string)>, b: set<(string, string)>)
    ensures Drop(Drop(t, a), b) == Drop(t, a + b)
  {
    var d := Drop(t, a);
    forall k | k in t ensures k in Drop(t, a + b) <==> k in Drop(d, b) {
      if k in d {
        assert Rest(d, k, b) == Rest(t, k, a + b);
      } else {
        assert Rest(t, k, a + b) <= Rest(t, k, a);
      }
    }
    forall k | k in Drop(t, a + b) ensures Drop(d, b)[k] == Drop(t, a + b)[k] {
      assert Rest(d, k, b) == Rest(t, k, a + b);
    }
  }

  /** One subscriber leaving, as the manager does it. */
  function Leave(t: Table, k: string, id: string): Table {
    if k !in t then t else if t[k] - {id} == {} then t - {k} else t[k := t[k] - {id}]
  }

  lemma LeaveIsDrop(t: Table, k: string, id: string)
    requires NoEmptySets(t)
    ensures Leave(t, k, id) == Drop(t, {(k, id)})
  {
    forall k' | k' in t ensures Rest(t, k', {(k, id)}) == if k' == k then t[k] - {id} else t[k'] {
    }
  }

  lemma DropNothing(t: Table)
    requires NoEmptySets(t)
    ensures Drop(t, {}) == t
  {
    assert forall k :: k in t ==> Rest(t, k, {}) == t[k];
  }

  /** A client leaving one by one. */
  lemma LeaveStep(t: Table, h: Held, ids: set<string>, id: string)
    requires NoEmptySets(t) && ids <= h.Keys && id in h
    ensures Leave(Drop(t, PairsOf(h, ids)), h[id], id) == Drop(t, PairsOf(h, ids + {id}))
  {
    var a := PairsOf(h, ids);
    DropMembers(t, a, "", "");
    LeaveIsDrop(Drop(t, a), h[id], id);
    DropDrop(t, a, {(h[id], id)});
    assert PairsOf(h, ids + {id}) == a + {(h[id], id)};
  }

  // ----- The whole system

  datatype System = System(table: Table, sessions: map<int, Held>, monitor: bool, maxSubs: int)

  /** up says whether an upstream accepts a new subscription. */
  datatype Event =
    | Open(conn: int)
    | Subscribe(conn: int, key: string, id: string, up: bool)
    | Unsubscribe(conn: int, id: string)
    | Remove(conn: int)
    | CloseAll
    | MonitorOn(up: bool)
    | MonitorOff

  function Opened(sessions: map<int, Held>, conn: int): map<int, Held> {
    if conn in sessions then sessions else sessions[conn := map[]]
  }

  predicate Accepts(maxSubs: int, t: Table, h: Held, key: string, up: bool) {
    |h| < maxSubs && (key in t || up)
  }

  function Subscribed(s: System, conn: int, key: string, id: string, up: bool): System
    requires conn in s.sessions
  {
    if !Accepts(s.maxSubs, s.table, s.sessions[conn], key, up) then s
    else s.(table := Join(s.table, key, id), sessions := s.sessions[conn := s.sessions[conn][id := key]])
  }

  function Step(s: System, e: Event): System {
    match e
    case Open(c) => s.(sessions := Opened(s.sessions, c))
    case Subscribe(c, key, id, up) => Subscribed(s.(sessions := Opened(s.sessions, c)), c, key, id, up)
    case Unsubscribe(c, id) =>
      if c !in s.sessions || id !in s.sessions[c] then s
      else s.(table := Drop(s.table, {(s.sessions[c][id], id)}), sessions := s.sessions[c := s.sessions[c] - {id}])
    case Remove(c) =>
      if c !in s.sessions then s
      else s.(table := Drop(s.table, Pairs(s.sessions[c])), sessions := s.sessions - {c})
    case CloseAll => s.(table := Drop(s.table, AllPairs(s.sessions)), sessions := map[])
    case MonitorOn(up) =>
      if HEADS in s.table || up then s.(table := Join(s.table, HEADS, MONITOR), monitor := true) else s
    case MonitorOff => s.(table := Drop(s.table, {(HEADS, MONITOR)}), monitor := false)
  }

  function PairsOfSome(sessions: map<int, Held>, conns: set<int>): set<(string, string)> {
    set c, id | c in conns && c in sessions && id in sessions[c] :: (sessions[c][id], id)
  }

  /** Sessions closing one by one. */
  lemma CloseStep(t: Table, sessions: map<int, Held>, conns: set<int>, c: int)
    requires c in sessions
    ensures Drop(Drop(t, PairsOfSome(sessions, conns)), Pairs(sessions[c])) == Drop(t, PairsOfSome(sessions, conns + {c}))
  {
    var a, b := PairsOfSome(sessions, conns), Pairs(sessions[c]);
    DropDrop(t, a, b);
    var all := PairsOfSome(sessions, conns + {c});
    forall p | p in b ensures p in all {
      assert p.1 in sessions[c] && sessions[c][p.1] == p.0;
    }
    assert all == a + b;
  }

  /** The table and the sessions move as the event says; the monitor is not concerned. */
  ghost predicate Moves(e: Event, maxSubs: int, t: Table, v: map<int, Held>, t': Table, v': map<int, Held>) {
    forall m: bool :: Step(System(t, v, m, maxSubs), e) == System(t', v', m, maxSubs)
  }

  /** What moves as the event says is where the event leads. */
  lemma MovesDecides(e: Event, s: System, t': Table, v': map<int, Held>)
    ensures Moves(e, s.maxSubs, s.table, s.sessions, t', v') ==>
      Step(s, e).table == t' && Step(s, e).sessions == v'
  {
    assert s == System(s.table, s.sessions, s.monitor, s.maxSubs);
  }

  lemma SubscribeMoves(maxSubs: int, t: Table, v: map<int, Held>, c: int, key: string, id: string, up: bool,
    t': Table, v': map<int, Held>)
    requires var v1 := Opened(v, c);
      if Accepts(maxSubs, t, v1[c], key, up) then t' == Join(t, key, id) && v' == v1[c := v1[c][id := key]]
      else t' == t && v' == v1[c := v1[c]]
    ensures Moves(Subscribe(c, key, id, up), maxSubs, t, v, t', v')
  {
    var v1 := Opened(v, c);
    assert v1[c := v1[c]] == v1;
    forall m: bool ensures Step(System(t, v, m, maxSubs), Subscribe(c, key, id, up)) == System(t', v', m, maxSubs) {
      assert Subscribed(System(t, v1, m, maxSubs), c, key, id, up) == System(t', v', m, maxSubs);
    }
  }

  lemma UnsubscribeMoves(maxSubs: int, t: Table, v: map<int, Held>, c: int, id: string, t': Table, v': map<int, Held>)
    requires c in v && v' == v[c := v[c] - {id}]
    requires t' == if id in v[c] then Drop(t, {(v[c][id], id)}) else t
    ensures Moves(Unsubscribe(c, id), maxSubs, t, v, t', v')
  {
    if id !in v[c] {
      assert v[c] - {id} == v[c];
      assert v' == v;
    }
    forall m: bool ensures Step(System(t, v, m, maxSubs), Unsubscribe(c, id)) == System(t', v', m, maxSubs) {
    }
  }

  // ----- What each event does, member by member

  /** What a connection holds; nothing without a session. */
  function HeldOf(s: System, c: int): Held { if c in s.sessions then s.sessions[c] else map[] }

  /** Below its limit a client joins a share that exists, whatever the upstreams, and makes a new one if one accepts. */
  lemma SubscribeAccepted(s: System, c: int, key: string, id: string, up: bool)
    requires |HeldOf(s, c)| < s.maxSubs && (key in s.table || up)
    ensures var t := Step(s, Subscribe(c, key, id, up));
      && t.monitor == s.monitor && t.maxSubs == s.maxSubs
      && t.sessions == s.sessions[c := HeldOf(s, c)[id := key]]
      && forall k, i :: Member(t.table, k, i) <==> Member(s.table, k, i) || (k == key && i == id)
  {
    assert Step(s, Subscribe(c, key, id, up)).table == Join(s.table, key, id);
    forall k, i ensures Member(Join(s.table, key, id), k, i) <==> Member(s.table, k, i) || (k == key && i == id) {
      JoinMembers(s.table, key, id, k, i);
    }
  }

  /** At its limit, or where a new share would be needed and no upstream accepts, it gets a session and nothing else. */
  lemma SubscribeRefused(s: System, c: int, key: string, id: string, up: bool)
    requires |HeldOf(s, c)| >= s.maxSubs || (key !in s.table && !up)
    ensures Step(s, Subscribe(c, key, id, up)) == s.(sessions := s.sessions[c := HeldOf(s, c)])
  {
  }

  /** Unsubscribing takes exactly that ID from its session, and it alone from under its key. */
  lemma UnsubscribeOutcome(s: System, c: int, id: string)
    ensures var t := Step(s, Unsubscribe(c, id));
      && t.monitor == s.monitor && t.maxSubs == s.maxSubs
      && if c in s.sessions && id in s.sessions[c]
         then t.sessions == s.sessions[c := s.sessions[c] - {id}]
              && forall k, i :: Member(t.table, k, i) <==> Member(s.table, k, i) && !(k == s.sessions[c][id] && i == id)
         else t == s
  {
    if c in s.sessions && id in s.sessions[c] {
      var gone := {(s.sessions[c][id], id)};
      forall k, i ensures Member(Drop(s.table, gone), k, i) <==> Member(s.table, k, i) && (k, i) !in gone {
        DropMembers(s.table, gone, k, i);
      }
    }
  }

  /** Removing a session removes what it holds, and nothing anyone holds under another key or ID. */
  lemma RemoveOutcome(s: System, c: int)
    ensures var t := Step(s, Remove(c));
      && t.monitor == s.monitor && t.maxSubs == s.maxSubs && t.sessions == s.sessions - {c}
      && forall k, i :: Member(t.table, k, i) <==>
           Member(s.table, k, i) && !(c in s.sessions && i in s.sessions[c] && s.sessions[c][i] == k)
  {
    if c in s.sessions {
      forall k, i ensures Member(Drop(s.table, Pairs(s.sessions[c])), k, i) <==>
        Member(s.table, k, i) && !(i in s.sessions[c] && s.sessions[c][i] == k)
      {
        DropMembers(s.table, Pairs(s.sessions[c]), k, i);
      }
    }
  }

  /** Closing all sessions leaves what no session holds. */
  lemma CloseAllOutcome(s: System)
    ensures var t := Step(s, CloseAll);
      && t.monitor == s.monitor && t.maxSubs == s.maxSubs && t.sessions == map[]
      && forall k, i :: Member(t.table, k, i) <==>
           Member(s.table, k, i) && forall c :: c in s.sessions ==> !(i in s.sessions[c] && s.sessions[c][i] == k)
  {
    forall k, i ensures Member(Step(s, CloseAll).table, k, i) <==>
      Member(s.table, k, i) && forall c :: c in s.sessions ==> !(i in s.sessions[c] && s.sessions[c][i] == k)
    {
      DropMembers(s.table, AllPairs(s.sessions), k, i);
      AllPairsAreHeld(s.sessions, k, i);
      assert forall c :: HeldBy(s.sessions, c, k, i) <==> c in s.sessions && i in s.sessions[c] && s.sessions[c][i] == k;
    }
  }

  /** The monitor joins and leaves the share of the heads under its own ID, like a client without a session. */
  lemma MonitorOutcome(s: System, up: bool)
    ensures var t := Step(s, MonitorOn(up));
      && t.sessions == s.sessions && t.maxSubs == s.maxSubs
      && if "newHeads:" in s.table || up
         then t.monitor
              && forall k, i :: Member(t.table, k, i) <==> Member(s.table, k, i) || (k == "newHeads:" && i == "health-monitor")
         else t == s
    ensures var t := Step(s, MonitorOff);
      && t.sessions == s.sessions && t.maxSubs == s.maxSubs && !t.monitor
      && forall k, i :: Member(t.table, k, i) <==> Member(s.table, k, i) && !(k == "newHeads:" && i == "health-monitor")
  {
    forall k, i ensures Member(Join(s.table, HEADS, MONITOR), k, i) <==> Member(s.table, k, i) || (k == HEADS && i == MONITOR) {
      JoinMembers(s.table, HEADS, MONITOR, k, i);
    }
    forall k, i ensures Member(Drop(s.table, {(HEADS, MONITOR)}), k, i) <==> Member(s.table, k, i) && (k, i) != (HEADS, MONITOR) {
      DropMembers(s.table, {(HEADS, MONITOR)}, k, i);
    }
  }

  /** Opening a connection gives it an empty session, unless it has one. */
  lemma OpenOutcome(s: System, c: int)
    ensures var t := Step(s, Open(c));
      && t.table == s.table && t.monitor == s.monitor && t.maxSubs == s.maxSubs
      && t.sessions == if c in s.sessions then s.sessions else s.sessions[c := map[]]
  {
  }

  function Initial(maxSubs: int): System { System(map[], map[], false, maxSubs) }

  function After(s: System, es: seq<Event>): System {
    if |es| == 0 then s else Step(After(s, es[..|es| - 1]), es[|es| - 1])
  }

  // ----- The two ends agree

  predicate HeldBy(sessions: map<int, Held>, c: int, k: string, id: string) {
    c in sessions && id in sessions[c] && sessions[c][id] == k
  }

  ghost predicate Holds(s: System, k: string, id: string) {
    (exists c :: HeldBy(s.sessions, c, k, id)) || (s.monitor && k == HEADS && id == MONITOR)
  }

  ghost predicate Agree(s: System) {
    forall k, id :: Member(s.table, k, id) <==> Holds(s, k, id)
  }

  predicate Bounded(s: System) {
    forall c :: c in s.sessions ==> s.sessions[c] == map[] || |s.sessions[c]| <= s.maxSubs
  }

  /** No ID is held twice for one key, and none for the monitor's key is the monitor's. */
  predicate OneOwner(s: System) {
    && (forall c, d, id :: (c in s.sessions && d in s.sessions && id in s.sessions[c] && id in s.sessions[d]
                            && s.sessions[c][id] == s.sessions[d][id]) ==> c == d)
    && forall c :: c in s.sessions ==> !HeldBy(s.sessions, c, HEADS, MONITOR)
  }

  ghost predicate Inv(s: System) {
    Agree(s) && NoEmptySets(s.table) && Bounded(s) && OneOwner(s)
  }

  predicate Accepted(s: System, e: Event) {
    e.Subscribe? && Accepts(s.maxSubs, s.table, Opened(s.sessions, e.conn)[e.conn], e.key, e.up)
  }

  /**
   The ID of an accepted subscription is not in use for its key by another session or the monitor, nor for
   another key by its own session. The same ID may serve other clients under other keys.
   */
  predicate FreshPair(s: System, c: int, key: string, id: string) {
    && (forall d :: d in s.sessions && d != c ==> !HeldBy(s.sessions, d, key, id))
    && (c in s.sessions && id in s.sessions[c] ==> s.sessions[c][id] == key)
    && (key, id) != (HEADS, MONITOR)
  }

  predicate Fresh(s: System, e: Event) {
    Accepted(s, e) ==> FreshPair(s, e.conn, e.key, e.id)
  }

  lemma OpenKeepsInv(s: System, c: int)
    requires Inv(s)
    ensures Inv(s.(sessions := Opened(s.sessions, c)))
  {
    var s' := s.(sessions := Opened(s.sessions, c));
    forall k, id ensures Holds(s', k, id) <==> Holds(s, k, id) {
      assert forall d :: HeldBy(s'.sessions, d, k, id) <==> HeldBy(s.sessions, d, k, id);
    }
  }

  lemma SubscribeKeepsOwners(s: System, c: int, key: string, id: string)
    requires Bounded(s) && OneOwner(s) && c in s.sessions && |s.sessions[c]| < s.maxSubs && FreshPair(s, c, key, id)
    ensures var s' := s.(table := Join(s.table, key, id), sessions := s.sessions[c := s.sessions[c][id := key]]);
      Bounded(s') && OneOwner(s')
  {
  }

  lemma SubscribeKeepsInv(s: System, c: int, key: string, id: string, up: bool)
    requires Inv(s) && c in s.sessions
    requires Accepts(s.maxSubs, s.table, s.sessions[c], key, up) ==> FreshPair(s, c, key, id)
    ensures Inv(Subscribed(s, c, key, id, up))
  {
    if Accepts(s.maxSubs, s.table, s.sessions[c], key, up) {
      var s' := Subscribed(s, c, key, id, up);
      SubscribeKeepsOwners(s, c, key, id);
      SubscribeKeepsAgree(s, c, key, id, s');
      JoinMembers(s.table, key, id, key, id);
    }
  }

  lemma SubscribeKeepsAgree(s: System, c: int, key: string, id: string, s': System)
    requires Agree(s) && c in s.sessions && (id in s.sessions[c] ==> s.sessions[c][id] == key)
    requires s' == s.(table := Join(s.table, key, id), sessions := s.sessions[c := s.sessions[c][id := key]])
    ensures Agree(s')
  {
    forall k, i ensures Member(s'.table, k, i) <==> Holds(s', k, i) {
      JoinMembers(s.table, key, id, k, i);
      assert forall d :: HeldBy(s'.sessions, d, k, i) <==> HeldBy(s.sessions, d, k, i) || (d == c && k == key && i == id);
    }
  }

  /** Whatever leaves the sessions leaves the table. */
  lemma DropKeepsAgree(s: System, gone: set<(string, string)>, s': System)
    requires Agree(s) && s'.table == Drop(s.table, gone)
    requires forall k, id :: Holds(s', k, id) <==> Holds(s, k, id) && (k, id) !in gone
    ensures Agree(s') && NoEmptySets(s'.table)
  {
    forall k, id ensures Member(s'.table, k, id) <==> Holds(s', k, id) {
      DropMembers(s.table, gone, k, id);
    }
    DropMembers(s.table, gone, "", "");
  }

  lemma UnsubscribeKeepsInv(s: System, c: int, id: string)
    requires Inv(s)
    ensures Inv(Step(s, Unsubscribe(c, id)))
  {
    if c in s.sessions && id in s.sessions[c] {
      var s', key := Step(s, Unsubscribe(c, id)), s.sessions[c][id];
      forall k, i ensures Holds(s', k, i) <==> Holds(s, k, i) && (k, i) != (key, id) {
        assert forall d :: HeldBy(s'.sessions, d, k, i) <==> HeldBy(s.sessions, d, k, i) && !(d == c && i == id);
        assert HeldBy(s.sessions, c, key, id);
      }
      DropKeepsAgree(s, {(key, id)}, s');
    }
  }

  lemma RemoveKeepsInv(s: System, c: int)
    requires Inv(s)
    ensures Inv(Step(s, Remove(c)))
  {
    if c in s.sessions {
      var s', gone := Step(s, Remove(c)), Pairs(s.sessions[c]);
      forall k, i ensures Holds(s', k, i) <==> Holds(s, k, i) && (k, i) !in gone {
        assert forall d :: HeldBy(s'.sessions, d, k, i) <==> HeldBy(s.sessions, d, k, i) && d != c;
        assert (k, i) in gone <==> HeldBy(s.sessions, c, k, i);
      }
      DropKeepsAgree(s, gone, s');
    }
  }

  lemma AllPairsAreHeld(sessions: map<int, Held>, k: string, id: string)
    ensures (k, id) in AllPairs(sessions) <==> exists c :: HeldBy(sessions, c, k, id)
  {
    if c :| HeldBy(sessions, c, k, id) {
      assert c in sessions && id in sessions[c];
    }
    if (k, id) in AllPairs(sessions) {
      var c, i :| c in sessions && i in sessions[c] && (sessions[c][i], i) == (k, id);
      assert HeldBy(sessions, c, k, id);
    }
  }

  lemma CloseAllKeepsInv(s: System)
    requires Inv(s)
    ensures Inv(Step(s, CloseAll))
  {
    var s', gone := Step(s, CloseAll), AllPairs(s.sessions);
    forall k, i ensures Holds(s', k, i) <==> Holds(s, k, i) && (k, i) !in gone {
      AllPairsAreHeld(s.sessions, k, i);
    }
    DropKeepsAgree(s, gone, s');
  }

  lemma MonitorKeepsInv(s: System, e: Event)
    requires Inv(s) && (e.MonitorOn? || e.MonitorOff?)
    ensures Inv(Step(s, e))
  {
    var s' := Step(s, e);
    forall k, i ensures Holds(s', k, i) <==>
      if e.MonitorOff? then Holds(s, k, i) && (k, i) != (HEADS, MONITOR)
      else Holds(s, k, i) || (s' != s && (k, i) == (HEADS, MONITOR))
    {
      assert forall c :: HeldBy(s'.sessions, c, k, i) <==> HeldBy(s.sessions, c, k, i);
    }
    if e.MonitorOff? {
      DropKeepsAgree(s, {(HEADS, MONITOR)}, s');
    } else if s' != s {
      forall k, i ensures Member(s'.table, k, i) <==> Holds(s', k, i) {
        JoinMembers(s.table, HEADS, MONITOR, k, i);
      }
      JoinMembers(s.table, HEADS, MONITOR, HEADS, MONITOR);
    }
  }

  lemma StepKeepsInv(s: System, e: Event)
    requires Inv(s) && Fresh(s, e)
    ensures Inv(Step(s, e)) && Step(s, e).maxSubs == s.maxSubs
  {
    match e
    case Open(c) => OpenKeepsInv(s, c);
    case Subscribe(c, key, id, up) =>
      OpenKeepsInv(s, c);
      SubscribeKeepsInv(s.(sessions := Opened(s.sessions, c)), c, key, id, up);
    case Unsubscribe(c, id) => UnsubscribeKeepsInv(s, c, id);
    case Remove(c) => RemoveKeepsInv(s, c);
    case CloseAll => CloseAllKeepsInv(s);
    case _ => MonitorKeepsInv(s, e);
  }

  predicate FreshAt(maxSubs: int, es: seq<Event>, i: nat)
    requires i < |es|
  {
    Fresh(After(Initial(maxSubs), es[..i]), es[i])
  }

  /** A run in which every accepted subscription is fresh. */
  predicate IsRun(maxSubs: int, es: seq<Event>) {
    forall i :: 0 <= i < |es| ==> FreshAt(maxSubs, es, i)
  }

  lemma RunStep(maxSubs: int, es: seq<Event>)
    requires |es| > 0
    ensures var p := es[..|es| - 1];
      IsRun(maxSubs, es) <==> IsRun(maxSubs, p) && Fresh(After(Initial(maxSubs), p), es[|es| - 1])
  {
    var p := es[..|es| - 1];
    forall i | 0 <= i < |p| ensures FreshAt(maxSubs, p, i) <==> FreshAt(maxSubs, es, i) {
      assert p[..i] == es[..i];
    }
    assert FreshAt(maxSubs, es, |es| - 1) <==> Fresh(After(Initial(maxSubs), p), es[|es| - 1]);
  }

  /** In every reachable state the two ends agree and no session exceeds its limit. */
  lemma {:induction false} AlwaysInv(maxSubs: int, es: seq<Event>)
    requires IsRun(maxSubs, es)
    ensures Inv(After(Initial(maxSubs), es)) && After(Initial(maxSubs), es).maxSubs == maxSubs
  {
    if |es| > 0 {
      var p := es[..|es| - 1];
      RunStep(maxSubs, es);
      AlwaysInv(maxSubs, p);
      StepKeepsInv(After(Initial(maxSubs), p), es[|es| - 1]);
    } else {
      var s := Initial(maxSubs);
      assert forall k, id :: !Holds(s, k, id) && !Member(s.table, k, id);
    }
  }

  /** What the sessions and the monitor hold for one key. */
  ghost function HolderIds(s: System, k: string): set<string> {
    (set c, id | c in s.sessions && id in s.sessions[c] && s.sessions[c][id] == k :: id)
    + if s.monitor && k == HEADS then {MONITOR} else {}
  }

  lemma HolderIdsAreHolders(s: System, k: string, id: string)
    ensures id in HolderIds(s, k) <==> Holds(s, k, id)
  {
    if c :| HeldBy(s.sessions, c, k, id) {
      assert c in s.sessions && id in s.sessions[c];
    }
    if c, i :| c in s.sessions && i in s.sessions[c] && s.sessions[c][i] == k && i == id {
      assert HeldBy(s.sessions, c, k, id);
    }
  }

  /** The subscriber set under a key is what is held for it, and the key exists only while that is not empty. */
  lemma TableIsWhatIsHeld(maxSubs: int, es: seq<Event>, k: string)
    requires IsRun(maxSubs, es)
    ensures var s := After(Initial(maxSubs), es);
      (k in s.table <==> HolderIds(s, k) != {}) && (k in s.table ==> s.table[k] == HolderIds(s, k))
  {
    AlwaysInv(maxSubs, es);
    AgreeingTableIsWhatIsHeld(After(Initial(maxSubs), es), k);
  }

  lemma AgreeingTableIsWhatIsHeld(s: System, k: string)
    requires Agree(s) && NoEmptySets(s.table)
    ensures (k in s.table <==> HolderIds(s, k) != {}) && (k in s.table ==> s.table[k] == HolderIds(s, k))
  {
    var held := HolderIds(s, k);
    forall id ensures Member(s.table, k, id) <==> id in held {
      HolderIdsAreHolders(s, k, id);
    }
    if k in s.table {
      assert forall id :: id in s.table[k] <==> Member(s.table, k, id);
    }
  }

  /** Closing every session and stopping the monitor leaves no shared subscription behind. */
  lemma ClosingEverythingEmptiesTheTable(maxSubs: int, es: seq<Event>)
    requires IsRun(maxSubs, es)
    ensures After(Initial(maxSubs), es + [CloseAll, MonitorOff]).table == map[]
  {
    var s := After(Initial(maxSubs), es);
    AlwaysInv(maxSubs, es);
    var all := es + [CloseAll, MonitorOff];
    assert all[..|all| - 1] == es + [CloseAll] && (es + [CloseAll])[..|es|] == es;
    StepKeepsInv(s, CloseAll);
    var s1 := Step(s, CloseAll);
    StepKeepsInv(s1, MonitorOff);
    NothingHeldNothingKept(Step(s1, MonitorOff));
  }

  lemma NothingHeldNothingKept(s: System)
    requires Inv(s) && !s.monitor && s.sessions == map[]
    ensures s.table == map[]
  {
    if k :| k in s.table {
      var id :| id in s.table[k];
      assert Member(s.table, k, id) && !Holds(s, k, id);
    }
  }

  // ----- Freshness is exactly what is needed

  /**
   Two sessions holding one ID for one key share a single place in the table: whichever leaves first takes the
   other's subscription away.
   */
  lemma SharedPairLosesASubscriber(s: System, c: int, d: int, key: string, id: string)
    requires c != d && HeldBy(s.sessions, c, key, id) && HeldBy(s.sessions, d, key, id)
    ensures var s' := Step(s, Remove(d)); HeldBy(s'.sessions, c, key, id) && !Member(s'.table, key, id) && !Agree(s')
  {
    var s' := Step(s, Remove(d));
    DropMembers(s.table, Pairs(s.sessions[d]), key, id);
    assert HeldBy(s'.sessions, c, key, id);
    assert Holds(s', key, id);
  }

  /** A client with the monitor's ID loses its place when the monitor stops. */
  lemma MonitorsPairIsLost(s: System, c: int)
    requires HeldBy(s.sessions, c, HEADS, MONITOR)
    ensures !Agree(Step(s, MonitorOff))
  {
    var s' := Step(s, MonitorOff);
    DropMembers(s.table, {(HEADS, MONITOR)}, HEADS, MONITOR);
    assert HeldBy(s'.sessions, c, HEADS, MONITOR);
    assert Holds(s', HEADS, MONITOR);
  }

  /** A session that reuses its own ID for another key forgets the first, which stays in the table. */
  lemma ReusedIdIsForgotten(s: System, c: int, key: string, id: string, up: bool)
    requires Inv(s) && c in s.sessions && id in s.sessions[c] && s.sessions[c][id] != key
    requires Accepts(s.maxSubs, s.table, s.sessions[c], key, up)
    ensures !Agree(Subscribed(s, c, key, id, up))
  {
    var s', was := Subscribed(s, c, key, id, up), s.sessions[c][id];
    assert HeldBy(s.sessions, c, was, id);
    assert Holds(s, was, id) && Member(s.table, was, id);
    JoinMembers(s.table, key, id, was, id);
    assert forall d :: !HeldBy(s'.sessions, d, was, id);
    assert !Holds(s', was, id);
  }

  /** The two ends agree, and still do after whichever session leaves or the monitor stops. */
  ghost predicate Survives(s: System) {
    && Agree(s)
    && (forall d :: Agree(Step(s, Remove(d))))
    && Agree(Step(s, MonitorOff))
  }

  lemma InvSurvives(s: System)
    requires Inv(s)
    ensures Survives(s)
  {
    forall d ensures Agree(Step(s, Remove(d))) { StepKeepsInv(s, Remove(d)); }
    StepKeepsInv(s, MonitorOff);
  }

  /** An accepted subscription leaves a system that survives the next departure if and only if its pair is fresh. */
  lemma FreshIffSurvives(s: System, e: Event)
    requires Inv(s)
    ensures Fresh(s, e) <==> Survives(Step(s, e))
  {
    if Fresh(s, e) {
      StepKeepsInv(s, e);
      InvSurvives(Step(s, e));
    } else {
      var Subscribe(c, key, id, up) := e;
      var o := s.(sessions := Opened(s.sessions, c));
      OpenKeepsInv(s, c);
      assert forall d :: HeldBy(o.sessions, d, key, id) <==> HeldBy(s.sessions, d, key, id);
      StaleIsFatal(o, c, key, id, up);
    }
  }

  lemma StaleIsFatal(s: System, c: int, key: string, id: string, up: bool)
    requires Inv(s) && c in s.sessions && Accepts(s.maxSubs, s.table, s.sessions[c], key, up)
    requires !FreshPair(s, c, key, id)
    ensures !Survives(Subscribed(s, c, key, id, up))
  {
    var s' := Subscribed(s, c, key, id, up);
    assert HeldBy(s'.sessions, c, key, id);
    if (key, id) == (HEADS, MONITOR) {
      MonitorsPairIsLost(s', c);
    } else if id in s.sessions[c] && s.sessions[c][id] != key {
      ReusedIdIsForgotten(s, c, key, id, up);
    } else {
      var d :| d in s.sessions && d != c && HeldBy(s.sessions, d, key, id);
      assert HeldBy(s'.sessions, d, key, id);
      SharedPairLosesASubscriber(s', c, d, key, id);
    }
  }

  ghost predicate AlwaysSurvives(maxSubs: int, es: seq<Event>) {
    forall n :: 0 <= n <= |es| ==> SurvivesAt(maxSubs, es, n)
  }

  ghost predicate SurvivesAt(maxSubs: int, es: seq<Event>, n: nat)
    requires n <= |es|
  {
    Survives(After(Initial(maxSubs), es[..n]))
  }

  /** Over whole runs: every state survives the next departure exactly when every accepted subscription was fresh. */
  lemma {:induction false} RunsSurviveIffFresh(maxSubs: int, es: seq<Event>)
    ensures AlwaysSurvives(maxSubs, es) <==> IsRun(maxSubs, es)
  {
    assert es[..|es|] == es;
    if |es| == 0 {
      AlwaysInv(maxSubs, es);
      InvSurvives(Initial(maxSubs));
    } else {
      var p := es[..|es| - 1];
      RunsSurviveIffFresh(maxSubs, p);
      RunStep(maxSubs, es);
      forall n | 0 <= n <= |p| ensures SurvivesAt(maxSubs, p, n) <==> SurvivesAt(maxSubs, es, n) {
        assert p[..n] == es[..n];
      }
      if IsRun(maxSubs, p) {
        AlwaysInv(maxSubs, p);
        FreshIffSurvives(After(Initial(maxSubs), p), es[|es| - 1]);
        assert SurvivesAt(maxSubs, es, |es|) <==> Fresh(After(Initial(maxSubs), p), es[|es| - 1]);
      }
    }
  }

  // ----- Subscription keys

  /** hash stands for the first eight bytes of a SHA-256 digest, in hexadecimal. */
  function SubscriptionKey(hash: string -> string, subType: string, params: string): string {
    subType + ":" + if params == "" || params == "null" then "" else hash(params)
  }

  /** A client's newHeads subscription shares the monitor's. */
  lemma HeadsAreShared(hash: string -> string)
    ensures SubscriptionKey(hash, "newHeads", "") == SubscriptionKey(hash, "newHeads", "null") == HEADS
  {
    assert "newHeads" + ":" + "" == "newHeads:";
  }

  function Effective(params: string): string { if params == "null" then "" else params }

  /** The digests of these two parameter texts are proper, as hexadecimal is, and do not collide. */
  predicate Separates(hash: string -> string, p: string, q: string) {
    && NoColon(hash(p)) && NoColon(hash(q)) && hash(p) != "" && hash(q) != ""
    && (hash(p) == hash(q) ==> p == q)
  }

  /** Where the digests do not collide only the same subscription is shared; "null" counts as none. */
  lemma KeysIdentifySubscriptions(hash: string -> string, t: string, p: string, t': string, p': string)
    requires Separates(hash, p, p')
    ensures SubscriptionKey(hash, t, p) == SubscriptionKey(hash, t', p') <==> t == t' && Effective(p) == Effective(p')
  {
    var b := if p == "" || p == "null" then "" else hash(p);
    var b' := if p' == "" || p' == "null" then "" else hash(p');
    if SubscriptionKey(hash, t, p) == SubscriptionKey(hash, t', p') {
      LastColonSplits(t, b, t', b');
    }
  }
}
