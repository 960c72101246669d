// The request lifecycle of a session of jsonrpc.js. Asynchronous functions run
// without interruption up to their next await; each such stretch is a step here, and
// the steps of all pending functions may come in any order.
module JsonrpcSession {

  datatype ReadyState = INIT | CONNECTING | OPEN | CLOSING | CLOSED | IDLE

  // A request waits in the queue or for its response; updated is when it was called.
  datatype Request = Request(id: int, updated: real)

  datatype Cause = ByResponse | QueueTimeout | WaitTimeout | Cancelled

  // One firing of the callback of a request.
  datatype Settlement = Settlement(id: int, cause: Cause)

  // requestMap lists the entries of the map in their order of insertion. The last
  // three fields record what has happened: requests queued, callbacks fired, and
  // requests written to the socket.
  datatype State = State(
    readyState: ReadyState, nextRequestId: int, requestQueue: seq<Request>, requestMap: seq<Request>,
    hasSocket: bool, enqueued: seq<int>, settled: seq<Settlement>, wire: seq<int>)

  const INITIAL := State(INIT, 1, [], [], false, [], [], [])

  const MAX_QUEUED := 100
  const MAX_WAIT_REQUESTS := 50
  const TIMEOUT := 3.0

  // ---------- the steps ----------

  function Settle(s: seq<Request>, cause: Cause): (r: seq<Settlement>)
    ensures |r| == |s|
  {
    seq(|s|, k requires 0 <= k < |s| => Settlement(s[k].id, cause))
  }

  // call, from its identifier on: a busy queue rejects it, but the identifier is spent.
  function CallStep(s: State, now: real): State {
    var id := s.nextRequestId;
    var s1 := s.(nextRequestId := id + 1);
    if |s.requestQueue| > MAX_QUEUED then s1
    else s1.(requestQueue := s.requestQueue + [Request(id, now)], enqueued := s.enqueued + [id])
  }

  // The entry of that identifier in the map, or -1.
  function Find(m: seq<Request>, id: int): (k: int)
    ensures -1 <= k < |m| && (k >= 0 ==> m[k].id == id)
    ensures k == -1 ==> forall j :: 0 <= j < |m| ==> m[j].id != id
  {
    if m == [] then -1 else if m[|m| - 1].id == id then |m| - 1 else Find(m[..|m| - 1], id)
  }

  function MapSet(m: seq<Request>, r: Request): seq<Request> {
    var k := Find(m, r.id);
    if k >= 0 then m[k := r] else m + [r]
  }

  // One turn of the loop of flushRequestQueue, up to its await.
  function FlushStep(s: State): State {
    if s.readyState != OPEN || |s.requestMap| >= MAX_WAIT_REQUESTS || s.requestQueue == [] then s
    else
      var r := s.requestQueue[0];
      s.(requestQueue := s.requestQueue[1..],
         requestMap := if r.id != 0 then MapSet(s.requestMap, r) else s.requestMap,
         wire := if s.hasSocket then s.wire + [r.id] else s.wire)
  }

  // processResponse
  function ResponseStep(s: State, id: int): State {
    var k := Find(s.requestMap, id);
    if id == 0 || k < 0 then s
    else s.(requestMap := s.requestMap[..k] + s.requestMap[k + 1..],
            settled := s.settled + [Settlement(id, ByResponse)])
  }

  predicate Late(r: Request, now: real) { now - r.updated > TIMEOUT }

  function LateOnes(m: seq<Request>, now: real): seq<Request> {
    if m == [] then []
    else if Late(m[|m| - 1], now) then LateOnes(m[..|m| - 1], now) + [m[|m| - 1]]
    else LateOnes(m[..|m| - 1], now)
  }

  function Punctual(m: seq<Request>, now: real): seq<Request> {
    if m == [] then []
    else if Late(m[|m| - 1], now) then Punctual(m[..|m| - 1], now)
    else Punctual(m[..|m| - 1], now) + [m[|m| - 1]]
  }

  // _onCheckRequestTimeout: the head of the queue, and every entry of the map.
  function TimeoutStep(s: State, now: real): State {
    var s1 :=
      if s.requestQueue != [] && Late(s.requestQueue[0], now) then
        s.(requestQueue := s.requestQueue[1..],
           settled := s.settled + Settle(s.requestQueue[..1], QueueTimeout))
      else s;
    s1.(requestMap := Punctual(s.requestMap, now),
        settled := s1.settled + Settle(LateOnes(s.requestMap, now), WaitTimeout))
  }

  // close: with a socket the session is CLOSING first, so that it is not CLOSED.
  function CloseStep(s: State): State {
    if !s.hasSocket && s.readyState == CLOSED then s
    else s.(readyState := CLOSED, hasSocket := false, requestQueue := [], requestMap := [],
            settled := s.settled + Settle(s.requestQueue, Cancelled) + Settle(s.requestMap, Cancelled))
  }

  // setReadyState: opening starts a flush at once.
  function StateStep(s: State, state: ReadyState): State {
    if s.readyState == state then s
    else
      var s1 := s.(readyState := state);
      if state == OPEN then FlushStep(s1) else s1
  }

  // _onSocketClose
  function SocketClosedStep(s: State): State { StateStep(s, CLOSED).(hasSocket := false) }

  datatype Action =
    | Call(now: real)
    | Flush
    | Response(id: int)
    | CheckTimeout(now: real)
    | Close
    | SetReadyState(state: ReadyState)
    | SetSocket
    | SocketClosed

  function Next(s: State, a: Action): State {
    match a
    case Call(now) => CallStep(s, now)
    case Flush => FlushStep(s)
    case Response(id) => ResponseStep(s, id)
    case CheckTimeout(now) => TimeoutStep(s, now)
    case Close => CloseStep(s)
    case SetReadyState(state) => StateStep(s, state)
    case SetSocket => s.(hasSocket := true)
    case SocketClosed => SocketClosedStep(s)
  }

  // A run: steps in any order.
  function Run(s: State, actions: seq<Action>): State {
    if actions == [] then s else Next(Run(s, actions[..|actions| - 1]), actions[|actions| - 1])
  }

  // ---------- what every run keeps ----------

  function Ids(s: seq<Request>): (r: seq<int>)
    ensures |r| == |s|
  {
    seq(|s|, k requires 0 <= k < |s| => s[k].id)
  }

  function SettledIds(s: seq<Settlement>): (r: seq<int>)
    ensures |r| == |s|
  {
    seq(|s|, k requires 0 <= k < |s| => s[k].id)
  }

  ghost predicate Increasing(s: seq<int>) { forall i, j :: 0 <= i < j < |s| ==> s[i] < s[j] }

  ghost predicate Below(s: seq<int>, t: seq<int>) {
    forall i, j :: 0 <= i < |s| && 0 <= j < |t| ==> s[i] < t[j]
  }

  ghost predicate Bounded(s: seq<int>, lo: int, hi: int) { forall i :: 0 <= i < |s| ==> lo <= s[i] < hi }

  // Identifiers grow from the map to the queue to the next one, and on the wire.
  ghost predicate Ordered(s: State) {
    var q, m := Ids(s.requestQueue), Ids(s.requestMap);
    && s.nextRequestId >= 1
    && Increasing(q) && Increasing(m) && Increasing(s.enqueued) && Increasing(s.wire)
    && Bounded(q, 1, s.nextRequestId) && Bounded(m, 1, s.nextRequestId)
    && Bounded(s.enqueued, 1, s.nextRequestId) && Bounded(s.wire, 1, s.nextRequestId)
    && Below(m, q) && Below(s.wire, q)
  }

  // Every queued request is settled, waiting in the queue or waiting for its
  // response: once, in one place.
  ghost predicate Conserved(s: State) {
    multiset(s.enqueued)
      == multiset(SettledIds(s.settled)) + (multiset(Ids(s.requestQueue)) + multiset(Ids(s.requestMap)))
  }

  ghost predicate Inv(s: State) {
    && Ordered(s) && Conserved(s)
    && |s.requestQueue| <= MAX_QUEUED + 1 && |s.requestMap| <= MAX_WAIT_REQUESTS
  }

  lemma AppendBelow(q: seq<int>, x: int, m: seq<int>, lo: int)
    requires Increasing(q) && Bounded(q, lo, x) && Bounded(m, lo, x) && Below(m, q) && lo <= x
    ensures Increasing(q + [x]) && Bounded(q + [x], lo, x + 1) && Bounded(m, lo, x + 1) && Below(m, q + [x])
  {
  }

  lemma AppendLast(q: seq<int>, x: int, lo: int)
    requires Increasing(q) && Bounded(q, lo, x) && lo <= x
    ensures Increasing(q + [x]) && Bounded(q + [x], lo, x + 1)
  {
  }

  lemma CallInv(s: State, now: real)
    requires Inv(s)
    ensures Inv(CallStep(s, now))
  {
    hide Increasing, Below;
    var s1, id := CallStep(s, now), s.nextRequestId;
    if |s.requestQueue| <= MAX_QUEUED {
      assert Ids(s1.requestQueue) == Ids(s.requestQueue) + [id];
      AppendBelow(Ids(s.requestQueue), id, Ids(s.requestMap), 1);
      AppendBelow(Ids(s.requestQueue), id, s.wire, 1);
      AppendLast(s.enqueued, id, 1);
    }
  }

  // Moving the head of the queue behind what is below it.
  lemma MoveHead(q: seq<int>, m: seq<int>, lo: int, hi: int)
    requires q != [] && Increasing(q) && Increasing(m) && Below(m, q) && Bounded(q, lo, hi) && Bounded(m, lo, hi)
    ensures Increasing(q[1..]) && Increasing(m + [q[0]]) && Below(m + [q[0]], q[1..]) && Below(m, q[1..])
    ensures Bounded(q[1..], lo, hi) && Bounded(m + [q[0]], lo, hi)
    ensures multiset(q) + multiset(m) == multiset(q[1..]) + multiset(m + [q[0]])
    ensures q[0] !in m
  {
    var h, t := q[0], q[1..];
    assert q == [h] + t;
    assert forall i :: 0 <= i < |t| ==> t[i] == q[i + 1];
    MoveHeadOrder(h, t, m, lo, hi);
    hide Increasing, Below, Bounded;
  }

  lemma MoveHeadOrder(h: int, t: seq<int>, m: seq<int>, lo: int, hi: int)
    requires lo <= h < hi && Increasing(m) && Increasing(t) && Bounded(t, lo, hi) && Bounded(m, lo, hi)
    requires (forall i :: 0 <= i < |m| ==> m[i] < h) && forall j :: 0 <= j < |t| ==> h < t[j]
    ensures Increasing(m + [h]) && Bounded(m + [h], lo, hi) && Below(m + [h], t) && Below(m, t)
  {
  }

  lemma Absent(m: seq<Request>, id: int)
    requires id !in Ids(m)
    ensures Find(m, id) == -1
  {
    assert forall j :: 0 <= j < |m| ==> Ids(m)[j] == m[j].id;
  }

  lemma FlushInv(s: State)
    requires Inv(s)
    ensures Inv(FlushStep(s))
  {
    assert s.requestQueue != [] ==> Ids(s.requestQueue)[0] >= 1;
    hide Increasing, Below, Bounded;
    var s1 := FlushStep(s);
    if s1 != s {
      var r := s.requestQueue[0];
      var q, m := Ids(s.requestQueue), Ids(s.requestMap);
      MoveHead(q, m, 1, s.nextRequestId);
      MoveHead(q, s.wire, 1, s.nextRequestId);
      assert q[0] == r.id;
      Absent(s.requestMap, r.id);
      assert Ids(s1.requestMap) == m + [q[0]] && Ids(s1.requestQueue) == q[1..];
      assert s1.wire == if s.hasSocket then s.wire + [q[0]] else s.wire;
    }
  }

  // Taking an element out keeps the order and the bounds.
  lemma DropOne(m: seq<int>, k: nat, q: seq<int>, lo: int, hi: int)
    requires k < |m| && Increasing(m) && Below(m, q) && Bounded(m, lo, hi)
    ensures var n := m[..k] + m[k + 1..];
            Increasing(n) && Below(n, q) && Bounded(n, lo, hi) && multiset(m) == multiset(n) + multiset{m[k]}
  {
    assert m == m[..k] + [m[k]] + m[k + 1..];
  }

  lemma ResponseInv(s: State, id: int)
    requires Inv(s)
    ensures Inv(ResponseStep(s, id))
  {
    hide Increasing, Below, Bounded;
    var s1 := ResponseStep(s, id);
    var k := Find(s.requestMap, id);
    if id != 0 && k >= 0 {
      var m := Ids(s.requestMap);
      DropOne(m, k, Ids(s.requestQueue), 1, s.nextRequestId);
      assert Ids(s1.requestMap) == m[..k] + m[k + 1..];
      assert SettledIds(s1.settled) == SettledIds(s.settled) + [id];
    }
  }

  lemma IdsNext(m: seq<Request>, r: Request)
    ensures Ids(m + [r]) == Ids(m) + [r.id]
  {
  }

  lemma {:induction false} SplitLateIds(m: seq<Request>, now: real)
    ensures multiset(Ids(m)) == multiset(Ids(LateOnes(m, now))) + multiset(Ids(Punctual(m, now)))
    ensures |Punctual(m, now)| <= |m|
  {
    if m != [] {
      var n, r := m[..|m| - 1], m[|m| - 1];
      SplitLateIds(n, now);
      assert m == n + [r];
      hide Ids, Late;
      IdsNext(n, r);
      IdsNext(LateOnes(n, now), r);
      IdsNext(Punctual(n, now), r);
    } else {
      assert Ids([]) == [];
    }
  }

  lemma {:induction false} SplitLate(m: seq<Request>, now: real)
    ensures multiset(Ids(m)) == multiset(Ids(LateOnes(m, now))) + multiset(Ids(Punctual(m, now)))
    ensures forall r :: r in LateOnes(m, now) <==> r in m && Late(r, now)
    ensures forall r :: r in Punctual(m, now) <==> r in m && !Late(r, now)
    ensures |Punctual(m, now)| <= |m|
  {
    SplitLateIds(m, now);
    if m != [] {
      var n, r := m[..|m| - 1], m[|m| - 1];
      SplitLate(n, now);
      assert m == n + [r];
      hide Ids, Late;
    }
  }

  lemma {:induction false} PunctualOrdered(m: seq<Request>, now: real)
    requires Increasing(Ids(m))
    ensures Increasing(Ids(Punctual(m, now)))
  {
    if m != [] {
      var n, r := m[..|m| - 1], m[|m| - 1];
      assert Ids(m) == Ids(n) + [r.id];
      assert Increasing(Ids(n)) by {
        assert forall i :: 0 <= i < |n| ==> Ids(n)[i] == Ids(m)[i];
      }
      PunctualOrdered(n, now);
      SplitLate(n, now);
      assert Ids(Punctual(n, now) + [r]) == Ids(Punctual(n, now)) + [r.id];
      forall i | 0 <= i < |Punctual(n, now)| ensures Ids(Punctual(n, now))[i] < r.id {
        assert Punctual(n, now)[i] in n;
        var j :| 0 <= j < |n| && n[j] == Punctual(n, now)[i];
        assert Ids(m)[j] < Ids(m)[|n|];
      }
    }
  }

  lemma TimeoutQueueInv(s: State)
    requires Inv(s) && s.requestQueue != []
    ensures Inv(s.(requestQueue := s.requestQueue[1..],
                   settled := s.settled + Settle(s.requestQueue[..1], QueueTimeout)))
  {
    hide Increasing, Below, Bounded;
    var s1 := s.(requestQueue := s.requestQueue[1..],
                 settled := s.settled + Settle(s.requestQueue[..1], QueueTimeout));
    var q := Ids(s.requestQueue);
    MoveHead(q, Ids(s.requestMap), 1, s.nextRequestId);
    MoveHead(q, s.wire, 1, s.nextRequestId);
    assert Ids(s1.requestQueue) == q[1..] && q == [q[0]] + q[1..];
    assert SettledIds(s1.settled) == SettledIds(s.settled) + [q[0]];
  }

  lemma TimeoutMapInv(s: State, now: real)
    requires Inv(s)
    ensures Inv(s.(requestMap := Punctual(s.requestMap, now),
                   settled := s.settled + Settle(LateOnes(s.requestMap, now), WaitTimeout)))
  {
    hide Increasing;
    var m, late := s.requestMap, LateOnes(s.requestMap, now);
    var s1 := s.(requestMap := Punctual(m, now), settled := s.settled + Settle(late, WaitTimeout));
    SplitLate(m, now);
    PunctualOrdered(m, now);
    assert SettledIds(s1.settled) == SettledIds(s.settled) + Ids(late);
    forall i | 0 <= i < |s1.requestMap|
      ensures exists j :: 0 <= j < |m| && Ids(m)[j] == Ids(s1.requestMap)[i]
    {
      assert s1.requestMap[i] in m;
      var j :| 0 <= j < |m| && m[j] == s1.requestMap[i];
      assert Ids(m)[j] == Ids(s1.requestMap)[i];
    }
  }

  lemma TimeoutInv(s: State, now: real)
    requires Inv(s)
    ensures Inv(TimeoutStep(s, now))
  {
    if s.requestQueue != [] && Late(s.requestQueue[0], now) {
      TimeoutQueueInv(s);
      TimeoutMapInv(s.(requestQueue := s.requestQueue[1..],
                       settled := s.settled + Settle(s.requestQueue[..1], QueueTimeout)), now);
    } else {
      TimeoutMapInv(s, now);
    }
  }

  lemma CloseInv(s: State)
    requires Inv(s)
    ensures Inv(CloseStep(s))
  {
    var s1 := CloseStep(s);
    if s.hasSocket || s.readyState != CLOSED {
      assert SettledIds(s1.settled) == SettledIds(s.settled) + Ids(s.requestQueue) + Ids(s.requestMap);
      assert Ids(s1.requestQueue) == [] && Ids(s1.requestMap) == [];
    }
  }

  lemma NextInv(s: State, a: Action)
    requires Inv(s)
    ensures Inv(Next(s, a))
  {
    hide Inv;
    match a {
      case Call(now) => CallInv(s, now);
      case Flush => FlushInv(s);
      case Response(id) => ResponseInv(s, id);
      case CheckTimeout(now) => TimeoutInv(s, now);
      case Close => CloseInv(s);
      case SetReadyState(state) => StateInv(s, state);
      case SetSocket => FlagsInv(s, s.readyState, true);
      case SocketClosed =>
        StateInv(s, CLOSED);
        FlagsInv(StateStep(s, CLOSED), StateStep(s, CLOSED).readyState, false);
    }
  }

  lemma FlagsInv(s: State, state: ReadyState, socket: bool)
    requires Inv(s)
    ensures Inv(s.(readyState := state, hasSocket := socket))
  {
  }

  lemma StateInv(s: State, state: ReadyState)
    requires Inv(s)
    ensures Inv(StateStep(s, state))
  {
    FlagsInv(s, state, s.hasSocket);
    FlushInv(s.(readyState := state));
  }

  // Whatever the order of the steps, the invariant holds.
  lemma {:induction false} RunInv(actions: seq<Action>)
    ensures Inv(Run(INITIAL, actions))
  {
    if actions == [] {
      assert Ids([]) == [] && SettledIds([]) == [];
    } else {
      RunInv(actions[..|actions| - 1]);
      NextInv(Run(INITIAL, actions[..|actions| - 1]), actions[|actions| - 1]);
    }
  }

  // ---------- what it means ----------

  lemma {:induction false} IncreasingOnce(s: seq<int>, x: int)
    requires Increasing(s)
    ensures multiset(s)[x] == if x in s then 1 else 0
  {
    if s != [] {
      var t := s[..|s| - 1];
      assert s == t + [s[|s| - 1]];
      IncreasingOnce(t, x);
    }
  }

  // In every run a callback fires at most once, and a request that was queued is
  // unsettled exactly while it is in one of the queue and the map.
  lemma SettledAtMostOnce(actions: seq<Action>, id: int)
    ensures var s := Run(INITIAL, actions);
            var f, q, m := SettledIds(s.settled), Ids(s.requestQueue), Ids(s.requestMap);
            multiset(f)[id] <= 1 && (id in f ==> id in s.enqueued)
            && (id in s.enqueued ==> (id !in f <==> (id in q) != (id in m)))
            && !(id in q && id in m)
  {
    RunInv(actions);
    var s := Run(INITIAL, actions);
    IncreasingOnce(s.enqueued, id);
    IncreasingOnce(Ids(s.requestQueue), id);
    IncreasingOnce(Ids(s.requestMap), id);
    assert multiset(s.enqueued)[id] == multiset(SettledIds(s.settled))[id]
      + multiset(Ids(s.requestQueue))[id] + multiset(Ids(s.requestMap))[id];
  }

  // The bounds and the order, in every run: at most 101 queued and 50 in flight,
  // in-flight identifiers below queued ones, and the wire in increasing order.
  lemma BoundsAndOrder(actions: seq<Action>)
    ensures var s := Run(INITIAL, actions);
            |s.requestQueue| <= 101 && |s.requestMap| <= 50
            && Below(Ids(s.requestMap), Ids(s.requestQueue)) && Increasing(s.wire)
  {
    RunInv(actions);
  }

  // A response settles the request of its identifier if that is in flight, with no
  // effect on any other, and is ignored otherwise.
  lemma ResponseMatches(s: State, id: int)
    requires Inv(s)
    ensures var s1, m := ResponseStep(s, id), Ids(s.requestMap);
            if id in m then
              s1.settled == s.settled + [Settlement(id, ByResponse)]
              && (forall r :: r in s1.requestMap <==> r in s.requestMap && r.id != id)
              && s1 == s.(requestMap := s1.requestMap, settled := s1.settled)
            else s1 == s
  {
    var m := s.requestMap;
    var k := Find(m, id);
    if k >= 0 {
      assert Ids(m)[k] == id;
      var m1 := m[..k] + m[k + 1..];
      forall r ensures r in m1 <==> r in m && r.id != id {
        if r in m && r.id != id {
          var j :| 0 <= j < |m| && m[j] == r;
          assert r == if j < k then m1[j] else m1[j - 1];
        }
        if r in m1 {
          var j :| 0 <= j < |m1| && m1[j] == r;
          var i := if j < k then j else j + 1;
          assert r == m[i] && Ids(m)[i] == r.id;
        }
      }
    } else {
      assert forall j :: 0 <= j < |m| ==> Ids(m)[j] == m[j].id;
    }
  }

  // A flush of an open session with less than 50 in flight takes the oldest request off the
  // queue, puts it behind the others in the map, and writes it if there is a socket. It does
  // nothing otherwise.
  lemma FlushSends(s: State)
    requires Inv(s)
    ensures var t := FlushStep(s);
            if s.readyState == OPEN && |s.requestMap| < 50 && s.requestQueue != [] then
              var r := s.requestQueue[0];
              && s.requestQueue == [r] + t.requestQueue && t.requestMap == s.requestMap + [r]
              && t.wire == (if s.hasSocket then s.wire + [r.id] else s.wire)
              && t == s.(requestQueue := t.requestQueue, requestMap := t.requestMap, wire := t.wire)
            else t == s
  {
    if s.requestQueue != [] {
      var q, m := Ids(s.requestQueue), Ids(s.requestMap);
      MoveHead(q, m, 1, s.nextRequestId);
      Absent(s.requestMap, s.requestQueue[0].id);
      assert q[0] >= 1;
    }
  }

  // A timeout check settles the entries of the map and the head of the queue that are
  // older than 3 seconds, and leaves everything else waiting.
  lemma TimeoutSettlesLate(s: State, now: real)
    ensures var t := TimeoutStep(s, now);
            var late := s.requestQueue != [] && now - s.requestQueue[0].updated > 3.0;
            && t.requestQueue == (if late then s.requestQueue[1..] else s.requestQueue)
            && (forall r :: r in t.requestMap <==> r in s.requestMap && now - r.updated <= 3.0)
            && (forall x :: x in t.settled <==>
                 || x in s.settled
                 || (late && x == Settlement(s.requestQueue[0].id, QueueTimeout))
                 || (x.cause == WaitTimeout
                     && exists r :: r in s.requestMap && now - r.updated > 3.0 && r.id == x.id))
  {
    SplitLate(s.requestMap, now);
    SettleIs(s.requestQueue[..if s.requestQueue == [] then 0 else 1], QueueTimeout);
    SettleIs(LateOnes(s.requestMap, now), WaitTimeout);
  }

  lemma SettleIs(s: seq<Request>, cause: Cause)
    ensures forall x :: x in Settle(s, cause) <==> x.cause == cause && exists r :: r in s && r.id == x.id
  {
    forall x ensures x in Settle(s, cause) <==> x.cause == cause && exists r :: r in s && r.id == x.id {
      if x in Settle(s, cause) {
        var k :| 0 <= k < |s| && Settle(s, cause)[k] == x;
        assert s[k] in s;
      }
      if x.cause == cause && exists r :: r in s && r.id == x.id {
        var r :| r in s && r.id == x.id;
        var k :| 0 <= k < |s| && s[k] == r;
        assert Settle(s, cause)[k] == x;
      }
    }
  }

  lemma {:induction false} SettleCount(s: seq<Request>, cause: Cause, x: Settlement)
    ensures multiset(Settle(s, cause))[x] == if x.cause == cause then multiset(Ids(s))[x.id] else 0
  {
    if s != [] {
      var h, r := s[..|s| - 1], s[|s| - 1];
      SettleCount(h, cause, x);
      assert Settle(s, cause) == Settle(h, cause) + [Settlement(r.id, cause)];
      assert Ids(s) == Ids(h) + [r.id];
    }
  }

  // close fires each pending callback once, and no other, when there is a socket or the
  // session is not yet CLOSED. So it leaves nothing pending exactly then, or when nothing
  // was; otherwise what is pending stays pending.
  lemma CloseSettlesAll(s: State, x: Settlement)
    requires Inv(s)
    ensures var t, q, m := CloseStep(s), Ids(s.requestQueue), Ids(s.requestMap);
            if s.hasSocket || s.readyState != CLOSED then
              && t.requestQueue == [] && t.requestMap == []
              && multiset(t.settled)[x]
                   == multiset(s.settled)[x] + if x.cause == Cancelled && (x.id in q || x.id in m) then 1 else 0
            else t == s
  {
    var q, m := Ids(s.requestQueue), Ids(s.requestMap);
    SettleCount(s.requestQueue, Cancelled, x);
    SettleCount(s.requestMap, Cancelled, x);
    IncreasingOnce(q, x.id);
    IncreasingOnce(m, x.id);
    assert !(x.id in q && x.id in m);
    hide Settle, Inv;
  }

  // A session that its peer has closed keeps a queued request across close.
  lemma CloseCanLeavePending()
    ensures var s := Run(INITIAL, [Call(0.0), SocketClosed, Close]);
            s.readyState == CLOSED && Ids(s.requestQueue) == [1] && s.settled == []
  {
    var a := [Call(0.0), SocketClosed, Close];
    assert a[..2][..1] == a[..1] && a[..1][..0] == [];
    var s1 := Run(INITIAL, a[..1]);
    assert s1 == CallStep(Run(INITIAL, []), 0.0) == CallStep(INITIAL, 0.0);
    var s2 := Run(INITIAL, a[..2]);
    assert s2 == SocketClosedStep(s1);
    assert s1.requestQueue == [Request(1, 0.0)];
  }

  function Checks(n: nat, now: real): (a: seq<Action>)
    ensures |a| == n
  {
    seq(n, _ => CheckTimeout(now))
  }

  // No request is forgotten: once all are late, as many timeout checks as there are
  // requests in the queue, and at least one, settle every one of them.
  lemma {:induction false} TimeoutsDrain(s: State, now: real, n: nat)
    requires forall r :: r in s.requestQueue || r in s.requestMap ==> now - r.updated > 3.0
    requires n >= 1 && n >= |s.requestQueue|
    ensures Run(s, Checks(n, now)).requestQueue == [] && Run(s, Checks(n, now)).requestMap == []
  {
    Drained(s, now, n);
  }

  lemma {:induction false} NoneLeft(m: seq<Request>, now: real)
    requires forall r :: r in m ==> Late(r, now)
    ensures Punctual(m, now) == []
  {
    if m != [] { NoneLeft(m[..|m| - 1], now); }
  }

  lemma {:induction false} Drained(s: State, now: real, n: nat)
    requires forall r :: r in s.requestQueue || r in s.requestMap ==> Late(r, now)
    ensures var t := Run(s, Checks(n, now));
            |t.requestQueue| == (if n <= |s.requestQueue| then |s.requestQueue| - n else 0)
            && (forall r :: r in t.requestQueue ==> Late(r, now))
            && (if n == 0 then t == s else t.requestMap == [])
  {
    if n > 0 {
      Drained(s, now, n - 1);
      assert Checks(n, now)[..n - 1] == Checks(n - 1, now);
      var t := Run(s, Checks(n - 1, now));
      NoneLeft(t.requestMap, now);
      if t.requestQueue != [] { assert t.requestQueue[0] in t.requestQueue; }
    }
  }
}
