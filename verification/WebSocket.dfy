/**
 Requests over one WebSocket connection, correlated with their replies by a generated numeric ID.
 Every request waits on its own channel of capacity one; senders, the reading goroutine,
 cancellations and disconnects interleave between their locked sections.
 */
module WebSocket {
  import opened JsonRpc

  /** A channel with everything ever sent on it, and how much of that has been received. */
  datatype Channel = Channel(sent: seq<Response>, taken: nat, closed: bool)

  const OPEN := Channel([], 0, false)

  datatype Waiter = Waiting | Returned(resp: Response) | WriteError | ContextError | SawClose

  /**
   pending is the table guarded by the lock; handing holds responses the reader has taken out of
   the table for, but not yet sent to, their channel. original keeps the callers' own IDs.
   */
  datatype State = State(
    connected: bool,
    lastId: nat,
    pending: set<nat>,
    channels: map<nat, Channel>,
    waiters: map<nat, Waiter>,
    original: map<nat, Json>,
    handing: map<nat, Response>)

  const INITIAL := State(false, 0, {}, map[], map[], map[], map[])

  /** int64 conversion of a floating-point ID: truncation toward zero, exact for integers below 2^53. */
  function Truncate(x: real): int {
    if x >= 0.0 then x.Floor else -((-x).Floor)
  }

  predicate Answers(resp: Response, r: nat) {
    resp.id.Number? && Truncate(resp.id.n) == r
  }

  /** For the IDs in use, which start at 1: a response answers a request exactly when its number, cut down, is the ID. */
  lemma AnswersMeans(resp: Response, r: nat)
    requires r >= 1
    ensures Answers(resp, r) <==> resp.id.Number? && r as real <= resp.id.n < r as real + 1.0
  {
  }

  lemma AnswersMeansAll(r: nat)
    requires r >= 1
    ensures forall resp :: Answers(resp, r) <==> resp.id.Number? && r as real <= resp.id.n < r as real + 1.0
  {
    forall resp ensures Answers(resp, r) <==> resp.id.Number? && r as real <= resp.id.n < r as real + 1.0 {
      AnswersMeans(resp, r);
    }
  }

  /** Among integers only its own ID answers a request. */
  lemma IntegersAnswerThemselves(resp: Response, k: int, r: nat)
    requires r >= 1 && resp.id == Number(k as real)
    ensures Answers(resp, r) <==> k == r
  {
    AnswersMeans(resp, r);
  }

  datatype Move =
    | Connect
    | Send(id: Json)
    | WriteFailed(r: nat)
    | Message(resp: Response)
    | Deliver(r: nat)
    | Receive(r: nat)
    | ReceiveClose(r: nat)
    | Cancel(r: nat)
    | Disconnect

  predicate IsWaiting(s: State, r: nat) {
    r in s.waiters && s.waiters[r] == Waiting && r in s.channels && r in s.original
  }

  predicate Enabled(s: State, m: Move) {
    match m
    case Connect => !s.connected
    case Send(_) => s.connected
    case WriteFailed(r) => IsWaiting(s, r)
    case Message(_) => true
    case Deliver(r) => r in s.handing && r in s.channels
    case Receive(r) => IsWaiting(s, r) && s.channels[r].taken < |s.channels[r].sent|
    case ReceiveClose(r) => IsWaiting(s, r) && s.channels[r].taken >= |s.channels[r].sent| && s.channels[r].closed
    case Cancel(r) => IsWaiting(s, r)
    case Disconnect => true
  }

  function Step(s: State, m: Move): State
    requires Enabled(s, m)
  {
    match m
    case Connect => s.(connected := true)
    case Send(id) =>
      var r := s.lastId + 1;
      s.(lastId := r, pending := s.pending + {r}, channels := s.channels[r := OPEN],
         waiters := s.waiters[r := Waiting], original := s.original[r := id])
    case WriteFailed(r) => s.(pending := s.pending - {r}, waiters := s.waiters[r := WriteError])
    case Message(resp) =>
      if resp.id.Number? && Truncate(resp.id.n) >= 0 && Truncate(resp.id.n) in s.pending then
        var r: nat := Truncate(resp.id.n);
        s.(pending := s.pending - {r}, handing := s.handing[r := resp])
      else s
    case Deliver(r) =>
      var c := s.channels[r];
      s.(channels := s.channels[r := c.(sent := c.sent + [s.handing[r]])], handing := s.handing - {r})
    case Receive(r) =>
      var c := s.channels[r];
      s.(channels := s.channels[r := c.(taken := c.taken + 1)],
         waiters := s.waiters[r := Returned(c.sent[c.taken].(id := s.original[r]))])
    case ReceiveClose(r) => s.(waiters := s.waiters[r := SawClose])
    case Cancel(r) => s.(pending := s.pending - {r}, waiters := s.waiters[r := ContextError])
    case Disconnect =>
      s.(connected := false, pending := {}, channels := CloseAll(s.channels, s.pending))
  }

  function CloseAll(cs: map<nat, Channel>, ids: set<nat>): map<nat, Channel> {
    map r | r in cs :: if r in ids then cs[r].(closed := true) else cs[r]
  }

  // ----- Invariant

  /** A request still in the table, or being handed its response, has an untouched channel. */
  predicate Untouched(s: State, r: nat) {
    r in s.channels && s.channels[r] == OPEN
  }

  /** A channel carries at most one response, for its own request, and no response besides a close. */
  predicate ChannelOk(r: nat, c: Channel) {
    && |c.sent| <= 1 && c.taken <= |c.sent|
    && (c.closed ==> c.sent == [])
    && (c.sent != [] ==> Answers(c.sent[0], r))
  }

  /** A returned response is the one that was sent on the channel, under the caller's own ID. */
  predicate WaiterOk(s: State, r: nat)
    requires r in s.waiters
  {
    && r in s.original && r in s.channels
    && (s.waiters[r].Returned? ==>
          s.channels[r].sent != [] && s.waiters[r].resp == s.channels[r].sent[0].(id := s.original[r]))
    && (s.waiters[r] == Waiting ==> s.channels[r].taken == 0)
  }

  ghost predicate TableOk(s: State) {
    && (forall r :: r in s.pending ==> Untouched(s, r) && r !in s.handing)
    && (forall r :: r in s.handing ==> Untouched(s, r) && Answers(s.handing[r], r))
  }

  ghost predicate ChannelsOk(s: State) {
    && (forall r :: r in s.channels ==> r <= s.lastId && ChannelOk(r, s.channels[r]))
    && (forall r :: r in s.original ==> r <= s.lastId)
  }

  ghost predicate WaitersOk(s: State) {
    forall r :: r in s.waiters ==> WaiterOk(s, r)
  }

  ghost predicate Inv(s: State) {
    TableOk(s) && ChannelsOk(s) && WaitersOk(s)
  }

  lemma StepKeepsPending(s: State, m: Move)
    requires Inv(s) && Enabled(s, m)
    ensures forall r :: r in Step(s, m).pending ==> Untouched(Step(s, m), r) && r !in Step(s, m).handing
  {
  }

  lemma StepKeepsHanding(s: State, m: Move)
    requires Inv(s) && Enabled(s, m)
    ensures forall r :: r in Step(s, m).handing ==> Untouched(Step(s, m), r) && Answers(Step(s, m).handing[r], r)
  {
  }

  lemma StepKeepsTable(s: State, m: Move)
    requires Inv(s) && Enabled(s, m)
    ensures TableOk(Step(s, m))
  {
    StepKeepsPending(s, m);
    StepKeepsHanding(s, m);
  }

  lemma StepKeepsChannels(s: State, m: Move)
    requires Inv(s) && Enabled(s, m)
    ensures ChannelsOk(Step(s, m))
  {
  }

  lemma StepKeepsWaiters(s: State, m: Move)
    requires Inv(s) && Enabled(s, m)
    ensures WaitersOk(Step(s, m))
  {
  }

  lemma StepKeepsInv(s: State, m: Move)
    requires Inv(s) && Enabled(s, m)
    ensures Inv(Step(s, m))
  {
    StepKeepsTable(s, m);
    StepKeepsChannels(s, m);
    StepKeepsWaiters(s, m);
  }

  ghost predicate IsRun(ss: seq<State>, ms: seq<Move>) {
    && |ss| == |ms| + 1
    && ss[0] == INITIAL
    && forall k :: 0 <= k < |ms| ==> Enabled(ss[k], ms[k]) && ss[k + 1] == Step(ss[k], ms[k])
  }

  lemma {:induction false} AlwaysInv(ss: seq<State>, ms: seq<Move>, k: nat)
    requires IsRun(ss, ms) && k < |ss|
    ensures Inv(ss[k])
  {
    if k > 0 {
      AlwaysInv(ss, ms, k - 1);
      StepKeepsInv(ss[k - 1], ms[k - 1]);
    }
  }

  /** Each channel gets at most one of one response and one close. */
  lemma OneOutcomePerChannel(ss: seq<State>, ms: seq<Move>, k: nat, r: nat)
    requires IsRun(ss, ms) && k < |ss| && r in ss[k].channels
    ensures var c := ss[k].channels[r]; |c.sent| + (if c.closed then 1 else 0) <= 1
  {
    AlwaysInv(ss, ms, k);
  }

  /** Handing over a response never blocks and never meets a closed channel; no channel is closed twice. */
  lemma DeliveryIsSafe(ss: seq<State>, ms: seq<Move>, k: nat, r: nat)
    requires IsRun(ss, ms) && k < |ms|
    ensures ms[k] == Deliver(r) ==> ss[k].channels[r] == OPEN
    ensures ms[k] == Disconnect && r in ss[k].pending ==> r in ss[k].channels && !ss[k].channels[r].closed
  {
    AlwaysInv(ss, ms, k);
  }

  /** What a caller gets back is a reply to its own request, carrying the ID the caller chose. */
  lemma RepliesAreCorrelated(ss: seq<State>, ms: seq<Move>, k: nat, r: nat) returns (j: nat, reply: Response)
    requires IsRun(ss, ms) && k < |ss| && r in ss[k].waiters && ss[k].waiters[r].Returned?
    ensures r in ss[k].original && ss[k].waiters[r].resp.id == ss[k].original[r]
    ensures j < k && ms[j] == Message(reply) && Answers(reply, r)
    ensures reply.id.Number? && r as real <= reply.id.n < r as real + 1.0
    ensures ss[k].waiters[r].resp == reply.(id := ss[k].original[r])
  {
    NobodyIsStranded(ss, ms, k);
    AnswersMeansAll(r);
    AlwaysInv(ss, ms, k);
    reply := ss[k].channels[r].sent[0];
    j := SentCameFromMessage(ss, ms, k, r, reply);
  }

  /** resp is on its way to, or has been sent on, the channel of request r. */
  predicate Carried(s: State, r: nat, resp: Response) {
    (r in s.handing && s.handing[r] == resp) || (r in s.channels && resp in s.channels[r].sent)
  }

  lemma CarriedComesFromMessage(s: State, m: Move, r: nat, resp: Response)
    requires Enabled(s, m) && Carried(Step(s, m), r, resp) && !Carried(s, r, resp)
    ensures m == Message(resp) && Answers(resp, r)
  {
  }

  /** Nothing is handed over or sent that did not arrive as a message. */
  lemma {:induction false} SentCameFromMessage(ss: seq<State>, ms: seq<Move>, k: nat, r: nat, resp: Response) returns (j: nat)
    requires IsRun(ss, ms) && k < |ss| && Carried(ss[k], r, resp)
    ensures j < k && ms[j] == Message(resp) && Answers(resp, r)
  {
    if Carried(ss[k - 1], r, resp) {
      j := SentCameFromMessage(ss, ms, k - 1, r, resp);
    } else {
      j := k - 1;
      CarriedComesFromMessage(ss[k - 1], ms[k - 1], r, resp);
    }
  }

  // ----- Nobody waits in vain

  /** Something is coming, or there to be received: a table entry, a response being handed over, a response, or a close. */
  predicate HasProspect(s: State, r: nat) {
    || r in s.pending || r in s.handing
    || (r in s.channels && (s.channels[r].taken < |s.channels[r].sent| || s.channels[r].closed))
  }

  ghost predicate NoneStranded(s: State) {
    forall r :: r in s.waiters ==> r >= 1 && (s.waiters[r] == Waiting ==> HasProspect(s, r))
  }

  lemma StepStrandsNobody(s: State, m: Move)
    requires Inv(s) && NoneStranded(s) && Enabled(s, m)
    ensures NoneStranded(Step(s, m))
  {
  }

  /** In every reachable state a waiting request is in the table, is being answered, or has something to receive. */
  lemma {:induction false} NobodyIsStranded(ss: seq<State>, ms: seq<Move>, k: nat)
    requires IsRun(ss, ms) && k < |ss|
    ensures NoneStranded(ss[k])
  {
    if k > 0 {
      NobodyIsStranded(ss, ms, k - 1);
      AlwaysInv(ss, ms, k - 1);
      StepStrandsNobody(ss[k - 1], ms[k - 1]);
    }
  }

  /** A reply to a request in the table takes three steps to the caller, who gets it under its own ID. */
  lemma ReplyReachesCaller(s: State, resp: Response, r: nat)
    requires Inv(s) && r in s.pending && IsWaiting(s, r) && resp.id == Number(r as real) && r >= 1
    ensures Enabled(s, Message(resp))
    ensures var s1 := Step(s, Message(resp)); Enabled(s1, Deliver(r))
    ensures var s2 := Step(Step(s, Message(resp)), Deliver(r));
      Enabled(s2, Receive(r)) && Step(s2, Receive(r)).waiters[r] == Returned(resp.(id := s.original[r]))
  {
    IntegersAnswerThemselves(resp, r, r);
  }

  /** A message with any other ID changes nothing. */
  lemma StrayMessageIsIgnored(s: State, resp: Response)
    requires forall r :: r in s.pending ==> r >= 1 && !(resp.id.Number? && r as real <= resp.id.n < r as real + 1.0)
    ensures Step(s, Message(resp)) == s
  {
    forall r: nat | r in s.pending ensures !Answers(resp, r) {
      AnswersMeans(resp, r);
    }
  }

  /** A disconnect empties the table, closes exactly the channels that were in it, and lets whoever waits there see it. */
  lemma DisconnectReleases(s: State)
    requires Inv(s)
    ensures var t := Step(s, Disconnect);
      && !t.connected && t.pending == {} && t.channels.Keys == s.channels.Keys && t.handing == s.handing
      && (forall r :: r in s.channels ==>
            t.channels[r] == if r in s.pending then s.channels[r].(closed := true) else s.channels[r])
      && forall r :: r in s.pending && IsWaiting(s, r) ==> Enabled(t, ReceiveClose(r))
  {
  }

  /** A request gets the next ID, a place in the table and an empty channel; the caller's own ID is kept for it. */
  lemma SendEnrolls(s: State, id: Json)
    requires Inv(s) && s.connected
    ensures var r, t := s.lastId + 1, Step(s, Send(id));
      && t.lastId == r && r !in s.channels && r !in s.original
      && t.pending == s.pending + {r} && IsWaiting(t, r) && t.original[r] == id && t.channels[r] == Channel([], 0, false)
      && forall q :: q in s.channels ==> t.channels[q] == s.channels[q]
  {
  }

  /** Giving up, or failing to write, takes the request out of the table; a reply that comes later is ignored. */
  lemma LeavingWithdraws(s: State, r: nat, resp: Response)
    requires Inv(s) && IsWaiting(s, r) && r >= 1 && resp.id == Number(r as real)
    ensures var t := Step(s, Cancel(r));
      t.pending == s.pending - {r} && t.waiters[r] == ContextError && Step(t, Message(resp)) == t
    ensures var t := Step(s, WriteFailed(r));
      t.pending == s.pending - {r} && t.waiters[r] == WriteError && Step(t, Message(resp)) == t
  {
    IntegersAnswerThemselves(resp, r, r);
  }

  lemma StepKeepsIds(s: State, m: Move)
    requires ChannelsOk(s) && Enabled(s, m)
    ensures s.lastId <= Step(s, m).lastId
    ensures forall r :: r in s.original ==> r in Step(s, m).original && Step(s, m).original[r] == s.original[r]
  {
  }

  /** IDs are never reused: a request keeps its own ID entry, and every later request gets a larger number. */
  lemma {:induction false} IdsOnlyGrow(ss: seq<State>, ms: seq<Move>, j: nat, k: nat)
    requires IsRun(ss, ms) && j <= k < |ss|
    ensures ss[j].lastId <= ss[k].lastId
    ensures forall r :: r in ss[j].original ==> r in ss[k].original && ss[k].original[r] == ss[j].original[r]
    decreases k
  {
    if j < k {
      IdsOnlyGrow(ss, ms, j, k - 1);
      AlwaysInv(ss, ms, k - 1);
      StepKeepsIds(ss[k - 1], ms[k - 1]);
    }
  }

  // ----- The locked sections as code

  class Upstream {
    var connected: bool
    var wsReqID: nat
    var wsPending: set<nat>
    var channels: map<nat, Channel>
    var waiters: map<nat, Waiter>
    var original: map<nat, Json>
    var handing: map<nat, Response>

    function View(): State
      reads this
    {
      State(connected, wsReqID, wsPending, channels, waiters, original, handing)
    }

    constructor ()
      ensures View() == INITIAL
    {
      connected, wsReqID, wsPending := false, 0, {};
      channels, waiters, original, handing := map[], map[], map[], map[];
    }

    /** Enter a request into the table with a channel of its own. */
    method Enroll(id: Json) returns (r: nat)
      requires connected
      modifies this
      ensures r == wsReqID && View() == Step(old(View()), Send(id))
    {
      wsReqID := wsReqID + 1;
      r := wsReqID;
      channels := channels[r := OPEN];
      wsPending := wsPending + {r};
      waiters, original := waiters[r := Waiting], original[r := id];
    }

    /** Take a request that could not be sent out of the table. */
    method Withdraw(r: nat)
      requires IsWaiting(View(), r)
      modifies this
      ensures View() == Step(old(View()), WriteFailed(r))
    {
      wsPending := wsPending - {r};
      waiters := waiters[r := WriteError];
    }

    /** ExecuteWS up to writing: fails without a connection, and withdraws the request if it cannot be marshalled. */
    method BeginExecute(id: Json, marshals: bool) returns (r: Option<nat>)
      modifies this
      ensures !old(connected) ==> r == None && View() == old(View())
      ensures old(connected) && marshals ==> r == Some(wsReqID) && View() == Step(old(View()), Send(id))
      ensures old(connected) && !marshals ==>
        var sent := Step(old(View()), Send(id));
        r == None && Enabled(sent, WriteFailed(sent.lastId)) && View() == Step(sent, WriteFailed(sent.lastId))
    {
      if !connected {
        return None;
      }
      var reqID := Enroll(id);
      if !marshals {
        Withdraw(reqID);
        return None;
      }
      return Some(reqID);
    }

    /** The locked part of HandleWSMessage. */
    method HandleMessage(resp: Response)
      modifies this
      ensures View() == Step(old(View()), Message(resp))
    {
      if resp.id.Number? {
        var reqID := Truncate(resp.id.n);
        if reqID >= 0 && reqID in wsPending {
          wsPending := wsPending - {reqID};
          handing := handing[reqID := resp];
        }
      }
    }

    /** DisconnectWS: close every pending channel, one by one, and empty the table. */
    method Disconnect()
      requires forall r :: r in wsPending ==> r in channels
      modifies this
      ensures View() == Step(old(View()), Move.Disconnect)
    {
      connected := false;
      ghost var closing: set<nat> := {};
      while wsPending != {}
        invariant closing + wsPending == old(wsPending) && closing !! wsPending
        invariant channels == CloseAll(old(channels), closing)
        invariant !connected && wsReqID == old(wsReqID) && waiters == old(waiters)
        invariant original == old(original) && handing == old(handing)
        decreases wsPending
      {
        var r :| r in wsPending;
        channels := channels[r := channels[r].(closed := true)];
        wsPending := wsPending - {r};
        closing := closing + {r};
      }
    }
  }
}
