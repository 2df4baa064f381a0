/**
 One reader per upstream, all sharing one deduplication cache without a lock around its
 check-then-add: Contains, Add and the broadcast of different readers interleave. Keys are the
 keys of keyed events, and the cache is large enough not to evict.
 */
module ConcurrentDedup {

  datatype Phase = Idle | Absent(key: string) | Decided(key: string, duplicate: bool)

  /** announced lists (reader, key) for every event broadcast as new; finished holds the keys some reader is done with. */
  datatype State = State(
    cache: set<string>,
    readers: seq<Phase>,
    announced: seq<(nat, string)>,
    finished: set<string>)

  datatype Move = Check(r: nat, key: string) | Add(r: nat) | Broadcast(r: nat)

  function Initial(m: nat): State { State({}, seq(m, _ => Idle), [], {}) }

  predicate Enabled(s: State, m: Move) {
    && m.r < |s.readers|
    && match m
       case Check(r, _) => s.readers[r].Idle?
       case Add(r) => s.readers[r].Absent?
       case Broadcast(r) => s.readers[r].Decided?
  }

  function Step(s: State, m: Move): State
    requires Enabled(s, m)
  {
    match m
    case Check(r, k) =>
      s.(readers := s.readers[r := if k in s.cache then Decided(k, true) else Absent(k)])
    case Add(r) =>
      var k := s.readers[r].key;
      s.(cache := s.cache + {k}, readers := s.readers[r := Decided(k, false)])
    case Broadcast(r) =>
      var Decided(k, duplicate) := s.readers[r];
      State(s.cache, s.readers[r := Idle], if duplicate then s.announced else s.announced + [(r, k)], s.finished + {k})
  }

  ghost predicate IsRun(ss: seq<State>, ms: seq<Move>, m: nat) {
    && |ss| == |ms| + 1
    && ss[0] == Initial(m)
    && forall k :: 0 <= k < |ms| ==> Enabled(ss[k], ms[k]) && ss[k + 1] == Step(ss[k], ms[k])
  }

  /** Reader r has announced key as new, or is past finding it absent and will. */
  predicate Claims(s: State, r: nat, key: string) {
    || (r, key) in s.announced
    || (r < |s.readers| && (s.readers[r] == Absent(key) || s.readers[r] == Decided(key, false)))
  }

  /** Reader r has announced key as new, or has put it into the cache and will. */
  predicate Committed(s: State, r: nat, key: string) {
    (r, key) in s.announced || (r < |s.readers| && s.readers[r] == Decided(key, false))
  }

  predicate DistinctPairs(log: seq<(nat, string)>) {
    forall i, j :: 0 <= i < j < |log| ==> log[i] != log[j]
  }

  ghost predicate Inv(s: State) {
    && (forall k :: k in s.cache ==> exists r :: Committed(s, r, k))
    && (forall k :: k in s.finished ==> k in s.cache)
    && (forall r, k :: (r, k) in s.announced ==> r < |s.readers| && k in s.cache && k in s.finished)
    && (forall r :: 0 <= r < |s.readers| && s.readers[r].Decided? ==> s.readers[r].key in s.cache)
    && (forall r, k :: 0 <= r < |s.readers| && (s.readers[r] == Absent(k) || s.readers[r] == Decided(k, false)) ==>
         (r, k) !in s.announced)
    && DistinctPairs(s.announced)
  }

  lemma ClaimsPersist(s: State, m: Move, r: nat, k: string)
    requires Enabled(s, m) && Claims(s, r, k)
    ensures Claims(Step(s, m), r, k)
  {
  }

  lemma CommittedPersist(s: State, m: Move, r: nat, k: string)
    requires Enabled(s, m) && Committed(s, r, k)
    ensures Committed(Step(s, m), r, k)
  {
  }

  lemma StepKeepsInv(s: State, m: Move)
    requires Inv(s) && Enabled(s, m)
    ensures Inv(Step(s, m))
  {
    var t := Step(s, m);
    forall k | k in t.cache ensures exists r :: Committed(t, r, k) {
      if k in s.cache {
        var r :| Committed(s, r, k);
        CommittedPersist(s, m, r, k);
      } else {
        assert Committed(t, m.r, k);
      }
    }
    assert forall r, k :: (r, k) in t.announced ==>
      (r, k) in s.announced || (m == Broadcast(r) && s.readers[r] == Decided(k, false));
  }

  lemma {:induction false} AlwaysInv(ss: seq<State>, ms: seq<Move>, m: nat, k: nat)
    requires IsRun(ss, ms, m) && k < |ss|
    ensures Inv(ss[k]) && |ss[k].readers| == m
  {
    if k == 0 {
      assert forall r :: 0 <= r < m ==> ss[0].readers[r].Idle?;
    } else {
      AlwaysInv(ss, ms, m, k - 1);
      StepKeepsInv(ss[k - 1], ms[k - 1]);
    }
  }

  // ----- How often an event is announced as new

  function Announcements(log: seq<(nat, string)>, key: string): nat {
    if |log| == 0 then 0 else
      Announcements(log[..|log| - 1], key) + if log[|log| - 1].1 == key then 1 else 0
  }

  function Announcers(log: seq<(nat, string)>, key: string): set<nat> {
    set x | x in log && x.1 == key :: x.0
  }

  lemma {:induction false} AnnouncementsAreAnnouncers(log: seq<(nat, string)>, key: string)
    requires DistinctPairs(log)
    ensures Announcements(log, key) == |Announcers(log, key)|
  {
    if |log| > 0 {
      var p, x := log[..|log| - 1], log[|log| - 1];
      AnnouncementsAreAnnouncers(p, key);
      assert log == p + [x] && x !in p;
      if x.1 == key {
        assert Announcers(log, key) == Announcers(p, key) + {x.0};
        assert x == (x.0, key);
        assert x.0 !in Announcers(p, key);
      } else {
        assert Announcers(log, key) == Announcers(p, key);
      }
    }
  }

  lemma {:induction false} BelowSize(a: set<nat>, m: nat)
    requires forall r :: r in a ==> r < m
    ensures |a| <= m
  {
    if m == 0 {
      assert a == {};
    } else {
      BelowSize(a - {m - 1}, m - 1);
      assert |a| <= |a - {m - 1}| + 1;
    }
  }

  predicate Quiet(s: State) {
    forall r :: 0 <= r < |s.readers| ==> s.readers[r].Idle?
  }

  /**
   However the readers interleave, no key is announced as new more than once per reader; an event
   some reader is done with has been announced, or a reader in mid-step is about to announce it.
   Once all readers are between events, it has been announced.
   */
  lemma AnnouncedOncePerReader(ss: seq<State>, ms: seq<Move>, m: nat, k: nat, key: string)
    requires IsRun(ss, ms, m) && k < |ss|
    ensures Announcements(ss[k].announced, key) <= m
    ensures key in ss[k].finished ==> exists r :: Committed(ss[k], r, key)
    ensures key in ss[k].finished && Quiet(ss[k]) ==> Announcements(ss[k].announced, key) >= 1
  {
    var s := ss[k];
    AlwaysInv(ss, ms, m, k);
    AnnouncementsAreAnnouncers(s.announced, key);
    BelowSize(Announcers(s.announced, key), m);
    if key in s.finished && Quiet(s) {
      var r :| Committed(s, r, key);
      assert r in Announcers(s.announced, key);
    }
  }

  // ----- Without overlapping check-then-add sections

  /** No reader checks a key while another one has found that key absent and not yet added it. */
  ghost predicate NoOverlap(ss: seq<State>, ms: seq<Move>) {
    forall k, r :: 0 <= k < |ms| && k < |ss| && ms[k].Check? && 0 <= r < |ss[k].readers| ==>
      ss[k].readers[r] != Absent(ms[k].key)
  }

  ghost predicate OneClaimant(s: State) {
    forall q, r, k :: Claims(s, q, k) && Claims(s, r, k) ==> q == r
  }

  lemma OneClaimantStep(s: State, m: Move)
    requires Inv(s) && OneClaimant(s) && Enabled(s, m)
    requires m.Check? ==> forall r :: 0 <= r < |s.readers| ==> s.readers[r] != Absent(m.key)
    ensures OneClaimant(Step(s, m))
  {
    var t := Step(s, m);
    assert forall r, k :: (r, k) in t.announced ==>
      (r, k) in s.announced || (m == Broadcast(r) && s.readers[r] == Decided(k, false));
    forall r, k | Claims(t, r, k)
      ensures Claims(s, r, k) || (m == Check(r, k) && forall q :: !Claims(s, q, k))
    {
    }
  }

  lemma {:induction false} AlwaysOneClaimant(ss: seq<State>, ms: seq<Move>, m: nat, k: nat)
    requires IsRun(ss, ms, m) && NoOverlap(ss, ms) && k < |ss|
    ensures OneClaimant(ss[k])
  {
    if k == 0 {
      assert forall r :: 0 <= r < m ==> ss[0].readers[r].Idle?;
    } else {
      AlwaysOneClaimant(ss, ms, m, k - 1);
      AlwaysInv(ss, ms, m, k - 1);
      OneClaimantStep(ss[k - 1], ms[k - 1]);
    }
  }

  /** If the sections never overlap on a key, every event done with is announced exactly once. */
  lemma AnnouncedExactlyOnce(ss: seq<State>, ms: seq<Move>, m: nat, k: nat, key: string)
    requires IsRun(ss, ms, m) && NoOverlap(ss, ms) && k < |ss|
    ensures Announcements(ss[k].announced, key) <= 1
    ensures key in ss[k].finished && Quiet(ss[k]) ==> Announcements(ss[k].announced, key) == 1
  {
    var s := ss[k];
    AlwaysInv(ss, ms, m, k);
    AlwaysOneClaimant(ss, ms, m, k);
    AnnouncementsAreAnnouncers(s.announced, key);
    AnnouncedOncePerReader(ss, ms, m, k, key);
    var a := Announcers(s.announced, key);
    if a != {} {
      var q :| q in a;
      forall r | r in a ensures r == q {
        assert Claims(s, q, key) && Claims(s, r, key);
      }
      assert a == {q};
    }
  }

  // ----- Exactly once means exactly: no overlap

  lemma {:induction false} ClaimsPersistAlong(ss: seq<State>, ms: seq<Move>, m: nat, j: nat, k: nat, r: nat, key: string)
    requires IsRun(ss, ms, m) && j <= k < |ss| && Claims(ss[j], r, key)
    ensures Claims(ss[k], r, key)
    decreases k
  {
    if j < k {
      ClaimsPersistAlong(ss, ms, m, j, k - 1, r, key);
      ClaimsPersist(ss[k - 1], ms[k - 1], r, key);
    }
  }

  /** Two readers that claim a key both announce it in the end. */
  lemma TwoClaimsTwoAnnouncements(ss: seq<State>, ms: seq<Move>, m: nat, k: nat, q: nat, r: nat, key: string)
    requires IsRun(ss, ms, m) && k < |ss| && Quiet(ss[|ss| - 1])
    requires q != r && Claims(ss[k], q, key) && Claims(ss[k], r, key)
    ensures var end := ss[|ss| - 1]; key in end.finished && Announcements(end.announced, key) >= 2
  {
    var end := ss[|ss| - 1];
    AlwaysInv(ss, ms, m, |ss| - 1);
    ClaimsPersistAlong(ss, ms, m, k, |ss| - 1, q, key);
    ClaimsPersistAlong(ss, ms, m, k, |ss| - 1, r, key);
    AnnouncementsAreAnnouncers(end.announced, key);
    assert (q, key) in end.announced && (r, key) in end.announced;
    assert {q, r} <= Announcers(end.announced, key);
    assert |Announcers(end.announced, key)| == |{q, r}| + |Announcers(end.announced, key) - {q, r}|;
  }

  /** An overlap always ends in a second announcement. */
  lemma OverlapAnnouncesTwice(ss: seq<State>, ms: seq<Move>, m: nat, k: nat, q: nat, key: string)
    requires IsRun(ss, ms, m) && Quiet(ss[|ss| - 1])
    requires k < |ms| && ms[k].Check? && ms[k].key == key && q < |ss[k].readers| && ss[k].readers[q] == Absent(key)
    ensures var end := ss[|ss| - 1]; key in end.finished && Announcements(end.announced, key) >= 2
  {
    var r := ms[k].r;
    AlwaysInv(ss, ms, m, k);
    assert ss[k + 1] == Step(ss[k], ms[k]);
    if key in ss[k].cache {
      var p :| Committed(ss[k], p, key);
      assert Claims(ss[k], p, key) && Claims(ss[k], q, key);
      TwoClaimsTwoAnnouncements(ss, ms, m, k, p, q, key);
    } else {
      assert Claims(ss[k + 1], r, key) && Claims(ss[k + 1], q, key);
      TwoClaimsTwoAnnouncements(ss, ms, m, k + 1, r, q, key);
    }
  }

  /** Over a whole run, every event done with was announced exactly once if and only if no sections overlapped. */
  lemma ExactlyOnceIffNoOverlap(ss: seq<State>, ms: seq<Move>, m: nat)
    requires IsRun(ss, ms, m) && Quiet(ss[|ss| - 1])
    ensures NoOverlap(ss, ms) <==>
      var end := ss[|ss| - 1]; forall key :: key in end.finished ==> Announcements(end.announced, key) == 1
  {
    var end := ss[|ss| - 1];
    if NoOverlap(ss, ms) {
      forall key | key in end.finished ensures Announcements(end.announced, key) == 1 {
        AnnouncedExactlyOnce(ss, ms, m, |ss| - 1, key);
      }
    } else {
      var k, q :| 0 <= k < |ms| && k < |ss| && ms[k].Check? && 0 <= q < |ss[k].readers|
        && ss[k].readers[q] == Absent(ms[k].key);
      OverlapAnnouncesTwice(ss, ms, m, k, q, ms[k].key);
    }
  }

  // ----- Reachable states

  ghost predicate Reachable(m: nat, s: State) {
    exists ss, ms :: IsRun(ss, ms, m) && ss[|ss| - 1] == s
  }

  lemma InitialReachable(m: nat)
    ensures Reachable(m, Initial(m))
  {
    assert IsRun([Initial(m)], [], m);
  }

  lemma StepReachable(m: nat, s: State, move: Move)
    requires Reachable(m, s) && Enabled(s, move)
    ensures Reachable(m, Step(s, move))
  {
    var ss, ms :| IsRun(ss, ms, m) && ss[|ss| - 1] == s;
    var ss', ms' := ss + [Step(s, move)], ms + [move];
    forall k | 0 <= k < |ms'| ensures Enabled(ss'[k], ms'[k]) && ss'[k + 1] == Step(ss'[k], ms'[k]) {
      if k < |ms| {
        assert ss'[k] == ss[k] && ss'[k + 1] == ss[k + 1] && ms'[k] == ms[k];
      }
    }
    assert IsRun(ss', ms', m);
  }

  lemma ReachableInv(m: nat, s: State)
    requires Reachable(m, s)
    ensures Inv(s) && |s.readers| == m
  {
    var ss, ms :| IsRun(ss, ms, m) && ss[|ss| - 1] == s;
    AlwaysInv(ss, ms, m, |ss| - 1);
  }

  // ----- One announcement per reader is attained

  function Checked(m: nat, key: string, a: nat): State {
    State({}, seq(m, i => if i < a then Absent(key) else Idle), [], {})
  }

  function Added(m: nat, key: string, b: nat): State {
    State(if b > 0 then {key} else {}, seq(m, i => if i < b then Decided(key, false) else Absent(key)), [], {})
  }

  function Sent(m: nat, key: string, c: nat): State {
    State({key}, seq(m, i => if i < c then Idle else Decided(key, false)), seq(c, i => (i, key)), if c > 0 then {key} else {})
  }

  lemma {:induction false} CheckAll(m: nat, key: string, a: nat)
    requires a <= m
    ensures Reachable(m, Checked(m, key, a))
  {
    if a == 0 {
      InitialReachable(m);
      assert Checked(m, key, 0) == Initial(m);
    } else {
      CheckAll(m, key, a - 1);
      StepReachable(m, Checked(m, key, a - 1), Check(a - 1, key));
      assert Step(Checked(m, key, a - 1), Check(a - 1, key)) == Checked(m, key, a);
    }
  }

  lemma {:induction false} AddAll(m: nat, key: string, b: nat)
    requires b <= m
    ensures Reachable(m, Added(m, key, b))
  {
    if b == 0 {
      CheckAll(m, key, m);
      assert Added(m, key, 0) == Checked(m, key, m);
    } else {
      AddAll(m, key, b - 1);
      StepReachable(m, Added(m, key, b - 1), Add(b - 1));
      assert Step(Added(m, key, b - 1), Add(b - 1)) == Added(m, key, b);
    }
  }

  lemma {:induction false} SendAll(m: nat, key: string, c: nat)
    requires 0 < m && c <= m
    ensures Reachable(m, Sent(m, key, c))
    ensures Announcements(Sent(m, key, c).announced, key) == c
  {
    if c == 0 {
      AddAll(m, key, m);
      assert Sent(m, key, 0) == Added(m, key, m);
    } else {
      SendAll(m, key, c - 1);
      StepReachable(m, Sent(m, key, c - 1), Broadcast(c - 1));
      assert Step(Sent(m, key, c - 1), Broadcast(c - 1)) == Sent(m, key, c);
      assert Sent(m, key, c).announced[..c - 1] == Sent(m, key, c - 1).announced;
    }
  }

  /** However many readers there are, all of them can announce the same event. */
  lemma EveryReaderCanAnnounce(m: nat, key: string) returns (s: State)
    requires m > 0
    ensures Reachable(m, s) && Quiet(s) && Announcements(s.announced, key) == m
  {
    s := Sent(m, key, m);
    SendAll(m, key, m);
  }

  // ----- Done, but not yet announced

  /** Whatever some reader is done with has been announced as new already. */
  ghost predicate AnnouncedWhenDone(m: nat) {
    forall s: State, key: string :: Reachable(m, s) && key in s.finished ==> Announcements(s.announced, key) >= 1
  }

  /** A reader can be done with an event, as a duplicate, while the one that found it new has yet to announce it. */
  lemma DoneBeforeAnnounced(m: nat, key: string) returns (s: State)
    requires m >= 2
    ensures Reachable(m, s) && key in s.finished && Announcements(s.announced, key) == 0
  {
    InitialReachable(m);
    var s1 := Step(Initial(m), Check(0, key));
    StepReachable(m, Initial(m), Check(0, key));
    var s2 := Step(s1, Add(0));
    StepReachable(m, s1, Add(0));
    var s3 := Step(s2, Check(1, key));
    StepReachable(m, s2, Check(1, key));
    s := Step(s3, Broadcast(1));
    StepReachable(m, s3, Broadcast(1));
  }

  ghost predicate Announced(s: State, key: string) {
    exists r :: (r, key) in s.announced
  }

  /** With a single reader, finished keys and duplicates in hand have been announced. */
  ghost predicate LoneInv(s: State) {
    && (forall k :: k in s.finished ==> Announced(s, k))
    && forall r, k :: 0 <= r < |s.readers| && s.readers[r] == Decided(k, true) ==> Announced(s, k)
  }

  lemma AnnouncedStays(s: State, move: Move, key: string)
    requires Enabled(s, move) && Announced(s, key)
    ensures Announced(Step(s, move), key)
  {
    var r :| (r, key) in s.announced;
    assert (r, key) in Step(s, move).announced;
  }

  lemma LoneStep(s: State, move: Move)
    requires Inv(s) && LoneInv(s) && |s.readers| <= 1 && Enabled(s, move)
    ensures LoneInv(Step(s, move))
  {
    var t := Step(s, move);
    forall k | Announced(s, k) ensures Announced(t, k) { AnnouncedStays(s, move, k); }
    if move.Check? && move.key in s.cache {
      var r: nat :| Committed(s, r, move.key);
      assert r == move.r;
      assert (r, move.key) in s.announced;
    }
    if move.Broadcast? && !s.readers[move.r].duplicate {
      assert t.announced[|s.announced|] == (move.r, s.readers[move.r].key);
    }
  }

  lemma {:induction false} AlwaysLone(ss: seq<State>, ms: seq<Move>, m: nat, k: nat)
    requires IsRun(ss, ms, m) && m <= 1 && k < |ss|
    ensures LoneInv(ss[k])
  {
    if k > 0 {
      AlwaysLone(ss, ms, m, k - 1);
      AlwaysInv(ss, ms, m, k - 1);
      LoneStep(ss[k - 1], ms[k - 1]);
    }
  }

  lemma LoneReaderAnnouncesFirst(m: nat, s: State, key: string)
    requires m <= 1 && Reachable(m, s) && key in s.finished
    ensures Announcements(s.announced, key) >= 1
  {
    var ss, ms :| IsRun(ss, ms, m) && ss[|ss| - 1] == s;
    AlwaysLone(ss, ms, m, |ss| - 1);
    ReachableInv(m, s);
    AnnouncementsAreAnnouncers(s.announced, key);
    var r :| (r, key) in s.announced;
    assert r in Announcers(s.announced, key);
  }

  /** That a finished event has been announced holds in every state of every run exactly for at most one reader. */
  lemma AnnouncedWhenDoneIffOneReader(m: nat)
    ensures AnnouncedWhenDone(m) <==> m <= 1
  {
    if m <= 1 {
      forall s: State, key: string | Reachable(m, s) && key in s.finished
        ensures Announcements(s.announced, key) >= 1
      {
        LoneReaderAnnouncesFirst(m, s, key);
      }
    } else {
      var s := DoneBeforeAnnounced(m, "");
      assert !AnnouncedWhenDone(m);
    }
  }
}
