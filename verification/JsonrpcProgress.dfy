// That no request of a session waits for ever, as long as timeouts are checked.
module JsonrpcProgress {
  import opened JsonrpcSession

  predicate Waiting(s: State, r: Request) { r in s.requestQueue || r in s.requestMap }

  predicate Settled(s: State, id: int) { id in SettledIds(s.settled) }

  // A check at due or later.
  predicate CheckFrom(a: Action, due: real) { a.CheckTimeout? && a.now >= due }

  function ChecksFrom(actions: seq<Action>, due: real): (c: nat) {
    if actions == [] then 0
    else ChecksFrom(actions[..|actions| - 1], due) + if CheckFrom(actions[|actions| - 1], due) then 1 else 0
  }

  // What waits in s is late from due on.
  ghost predicate Due(s: State, due: real) { forall r :: Waiting(s, r) ==> due - r.updated > 3.0 }

  // Where the requests of s can be in t: those of t that are old are requests of s.
  ghost predicate Accounted(s: State, t: State) {
    && t.nextRequestId >= s.nextRequestId
    && (forall r :: Waiting(t, r) && r.id < s.nextRequestId ==> Waiting(s, r))
    && (forall r :: Waiting(s, r) ==> Waiting(t, r) || Settled(t, r.id))
  }

  // The requests from place k of the queue on are new.
  ghost predicate NewFrom(s: State, t: State, k: int) {
    forall i :: 0 <= i < |t.requestQueue| && i >= k ==> t.requestQueue[i].id >= s.nextRequestId
  }

  ghost predicate MapNew(s: State, t: State) {
    forall r :: r in t.requestMap ==> r.id >= s.nextRequestId
  }

  // After c checks from due on: each took an old request off the queue, if there was one,
  // and the last one left no old request in the map.
  ghost predicate After(s: State, t: State, c: nat) {
    && Inv(t) && Accounted(s, t) && NewFrom(s, t, |s.requestQueue| - c)
    && (c >= 1 && c >= |s.requestQueue| ==> MapNew(s, t))
  }

  lemma IdsAt(q: seq<Request>, i: nat)
    requires i < |q|
    ensures Ids(q)[i] == q[i].id
  {
  }

  lemma WaitingOld(s: State, r: Request)
    requires Inv(s) && Waiting(s, r)
    ensures 1 <= r.id < s.nextRequestId
  {
    if r in s.requestQueue {
      var i :| 0 <= i < |s.requestQueue| && s.requestQueue[i] == r;
      IdsAt(s.requestQueue, i);
    } else {
      var i :| 0 <= i < |s.requestMap| && s.requestMap[i] == r;
      IdsAt(s.requestMap, i);
    }
  }

  lemma SettledMore(a: seq<Settlement>, b: seq<Settlement>, id: int)
    ensures id in SettledIds(a + b) <==> id in SettledIds(a) || id in SettledIds(b)
  {
    assert SettledIds(a + b) == SettledIds(a) + SettledIds(b);
  }

  lemma SettleHas(q: seq<Request>, cause: Cause, r: Request)
    requires r in q
    ensures r.id in SettledIds(Settle(q, cause))
  {
    var i :| 0 <= i < |q| && q[i] == r;
    assert SettledIds(Settle(q, cause))[i] == r.id;
  }

  // ---------- the steps ----------

  // What a step does to the requests: new ones may come, none is lost.
  ghost predicate Moves(t: State, u: State) {
    && u.nextRequestId >= t.nextRequestId
    && (forall r :: Waiting(u, r) ==> Waiting(t, r) || r.id >= t.nextRequestId)
    && (forall r :: Waiting(t, r) ==> Waiting(u, r) || Settled(u, r.id))
    && (forall id :: Settled(t, id) ==> Settled(u, id))
  }

  lemma MovesKeep(s: State, t: State, u: State)
    requires Accounted(s, t) && Moves(t, u)
    ensures Accounted(s, u)
  {
    hide Waiting, Settled;
  }

  lemma CallMoves(t: State, now: real)
    ensures Moves(t, CallStep(t, now))
  {
    var r := Request(t.nextRequestId, now);
    assert forall x :: x in t.requestQueue + [r] <==> x in t.requestQueue || x == r;
  }

  lemma CallNew(s: State, t: State, k: int, now: real)
    requires NewFrom(s, t, k) && t.nextRequestId >= s.nextRequestId
    ensures NewFrom(s, CallStep(t, now), k)
  {
  }

  lemma CallAfter(s: State, t: State, c: nat, now: real)
    requires After(s, t, c)
    ensures After(s, CallStep(t, now), c)
  {
    var u := CallStep(t, now);
    assert u.requestMap == t.requestMap;
    CallInv(t, now);
    CallMoves(t, now);
    CallNew(s, t, |s.requestQueue| - c, now);
    hide Inv, CallStep, Moves, NewFrom;
    MovesKeep(s, t, u);
  }

  // A flush that sends something.
  lemma FlushMoves(t: State, u: State, r: Request)
    requires t.requestQueue == [r] + u.requestQueue && u.requestMap == t.requestMap + [r]
    requires u.settled == t.settled && u.nextRequestId == t.nextRequestId
    ensures Moves(t, u)
  {
    assert forall x :: Waiting(u, x) <==> Waiting(t, x);
  }

  lemma FlushNew(s: State, t: State, u: State, r: Request, k: int)
    requires t.requestQueue == [r] + u.requestQueue && u.requestMap == t.requestMap + [r] && NewFrom(s, t, k)
    ensures NewFrom(s, u, k) && (k <= 0 && MapNew(s, t) ==> MapNew(s, u))
  {
    assert t.requestQueue[0] == r;
    assert forall i :: 0 <= i < |u.requestQueue| ==> u.requestQueue[i] == t.requestQueue[i + 1];
  }

  lemma FlushAfter(s: State, t: State, c: nat)
    requires After(s, t, c)
    ensures After(s, FlushStep(t), c)
  {
    var u := FlushStep(t);
    assert u.nextRequestId == t.nextRequestId;
    FlushInv(t);
    if t.readyState == OPEN && |t.requestMap| < MAX_WAIT_REQUESTS && t.requestQueue != [] {
      FlushSends(t);
      hide Inv, FlushStep, Moves, NewFrom, MapNew;
      var r := t.requestQueue[0];
      FlushMoves(t, u, r);
      MovesKeep(s, t, u);
      FlushNew(s, t, u, r, |s.requestQueue| - c);
    }
  }

  lemma ResponseMoves(t: State, id: int)
    requires Inv(t)
    ensures Moves(t, ResponseStep(t, id))
    ensures forall r :: r in ResponseStep(t, id).requestMap ==> r in t.requestMap
  {
    var u := ResponseStep(t, id);
    ResponseMatches(t, id);
    hide Inv, ResponseStep;
    if id in Ids(t.requestMap) {
      assert SettledIds([Settlement(id, ByResponse)]) == [id];
      forall i ensures Settled(u, i) <==> Settled(t, i) || i == id {
        SettledMore(t.settled, [Settlement(id, ByResponse)], i);
      }
      hide Settled;
    }
  }

  lemma ResponseAfter(s: State, t: State, c: nat, id: int)
    requires After(s, t, c)
    ensures After(s, ResponseStep(t, id), c)
  {
    var u := ResponseStep(t, id);
    assert u.requestQueue == t.requestQueue;
    ResponseInv(t, id);
    ResponseMoves(t, id);
    hide Inv, ResponseStep, Moves;
    MovesKeep(s, t, u);
  }

  lemma TimeoutMoves(t: State, now: real)
    ensures Moves(t, TimeoutStep(t, now))
  {
    var u := TimeoutStep(t, now);
    var q, late := t.requestQueue, LateOnes(t.requestMap, now);
    SplitLate(t.requestMap, now);
    var first := if q != [] && Late(q[0], now) then q[..1] else [];
    assert Settle([], QueueTimeout) == [];
    assert u.settled == t.settled + Settle(first, QueueTimeout) + Settle(late, WaitTimeout);
    assert first + u.requestQueue == q;
    hide TimeoutStep, LateOnes, Punctual, Late, Settle;
    SettledTwice(t, u, first, QueueTimeout, late, WaitTimeout);
  }

  // What two groups of requests gain when they are settled one after the other.
  lemma SettledTwice(t: State, u: State, a: seq<Request>, x: Cause, b: seq<Request>, y: Cause)
    requires u.settled == t.settled + Settle(a, x) + Settle(b, y)
    ensures forall r :: r in a || r in b ==> Settled(u, r.id)
    ensures forall id :: Settled(t, id) ==> Settled(u, id)
  {
    hide Settle;
    forall id
      ensures Settled(u, id) <==> Settled(t, id) || id in SettledIds(Settle(a, x)) || id in SettledIds(Settle(b, y))
    {
      SettledMore(t.settled, Settle(a, x), id);
      SettledMore(t.settled + Settle(a, x), Settle(b, y), id);
    }
    forall r | r in a || r in b ensures Settled(u, r.id) {
      if r in a { SettleHas(a, x, r); } else { SettleHas(b, y, r); }
    }
  }

  // A check takes away the head of the queue, or every request in the queue is new.
  lemma TimeoutHead(s: State, t: State, due: real, now: real, k: int)
    requires Inv(t) && Accounted(s, t) && Due(s, due) && NewFrom(s, t, k)
    ensures NewFrom(s, TimeoutStep(t, now), k)
    ensures now >= due ==> NewFrom(s, TimeoutStep(t, now), k - 1)
  {
    var q, u := t.requestQueue, TimeoutStep(t, now);
    if q != [] && Late(q[0], now) {
      assert u.requestQueue == q[1..];
    } else if q != [] && now >= due {
      assert Waiting(t, q[0]) && q[0].id >= s.nextRequestId;
      forall i | 0 <= i < |q| ensures q[i].id >= s.nextRequestId {
        IdsAt(q, 0);
        IdsAt(q, i);
      }
    }
  }

  lemma TimeoutMap(s: State, t: State, due: real, now: real)
    requires Accounted(s, t) && Due(s, due)
    ensures MapNew(s, t) ==> MapNew(s, TimeoutStep(t, now))
    ensures now >= due ==> MapNew(s, TimeoutStep(t, now))
  {
    SplitLate(t.requestMap, now);
    assert forall r :: r in t.requestMap ==> Waiting(t, r);
  }

  lemma TimeoutAfter(s: State, t: State, c: nat, due: real, now: real)
    requires After(s, t, c) && Due(s, due)
    ensures After(s, TimeoutStep(t, now), if now >= due then c + 1 else c)
  {
    hide Inv, Accounted, NewFrom, MapNew, Due, TimeoutStep, Moves;
    TimeoutInv(t, now);
    TimeoutMoves(t, now);
    MovesKeep(s, t, TimeoutStep(t, now));
    TimeoutHead(s, t, due, now, |s.requestQueue| - c);
    TimeoutMap(s, t, due, now);
  }

  lemma CloseAfter(s: State, t: State, c: nat)
    requires After(s, t, c)
    ensures After(s, CloseStep(t), c)
  {
    var u := CloseStep(t);
    CloseInv(t);
    if u != t {
      SettledTwice(t, u, t.requestQueue, Cancelled, t.requestMap, Cancelled);
      hide Inv, Settle, CloseStep;
      assert u.requestQueue == [] && u.requestMap == [] && u.nextRequestId == t.nextRequestId;
      MovesKeep(s, t, u);
    }
  }

  lemma FlagsAfter(s: State, t: State, c: nat, state: ReadyState, socket: bool)
    requires After(s, t, c)
    ensures After(s, t.(readyState := state, hasSocket := socket), c)
  {
    FlagsInv(t, state, socket);
    hide Inv;
  }

  lemma StateAfter(s: State, t: State, c: nat, state: ReadyState)
    requires After(s, t, c)
    ensures After(s, StateStep(t, state), c)
  {
    hide Inv, After, FlushStep;
    FlagsAfter(s, t, c, state, t.hasSocket);
    FlushAfter(s, t.(readyState := state), c);
  }

  lemma NextAfter(s: State, t: State, c: nat, due: real, a: Action)
    requires After(s, t, c) && Due(s, due)
    ensures After(s, Next(t, a), if CheckFrom(a, due) then c + 1 else c)
  {
    hide Inv, After, Due, StateStep;
    match a {
      case Call(now) => CallAfter(s, t, c, now);
      case Flush => FlushAfter(s, t, c);
      case Response(id) => ResponseAfter(s, t, c, id);
      case CheckTimeout(now) => TimeoutAfter(s, t, c, due, now);
      case Close => CloseAfter(s, t, c);
      case SetReadyState(state) => StateAfter(s, t, c, state);
      case SetSocket => FlagsAfter(s, t, c, t.readyState, true);
      case SocketClosed =>
        var u := StateStep(t, CLOSED);
        StateAfter(s, t, c, CLOSED);
        FlagsAfter(s, u, c, u.readyState, false);
    }
  }

  lemma StartAfter(s: State)
    requires Inv(s)
    ensures After(s, s, 0)
  {
    hide Inv;
  }

  lemma {:induction false} RunAfter(s: State, due: real, actions: seq<Action>)
    requires Inv(s) && Due(s, due)
    ensures After(s, Run(s, actions), ChecksFrom(actions, due))
  {
    hide Inv, After, Due, Next, CheckFrom;
    if actions == [] {
      StartAfter(s);
    } else {
      var h := actions[..|actions| - 1];
      RunAfter(s, due, h);
      NextAfter(s, Run(s, h), ChecksFrom(h, due), due, actions[|actions| - 1]);
    }
  }

  // Whatever else happens in between, as many checks as there are requests in the queue,
  // and at least one, settle every request that was waiting, once all of them are late.
  lemma LateChecksSettle(s: State, due: real, actions: seq<Action>, r: Request)
    requires Inv(s) && Due(s, due) && Waiting(s, r)
    requires ChecksFrom(actions, due) >= 1 && ChecksFrom(actions, due) >= |s.requestQueue|
    ensures Settled(Run(s, actions), r.id)
  {
    RunAfter(s, due, actions);
    WaitingOld(s, r);
    hide Inv, Run, Due;
  }

  // In every run, 101 checks from due on settle every request that was ever queued before.
  lemma AllSettled(before: seq<Action>, after: seq<Action>, due: real, id: int)
    requires Due(Run(INITIAL, before), due) && ChecksFrom(after, due) >= 101
    requires id in Run(INITIAL, before).enqueued
    ensures Settled(Run(Run(INITIAL, before), after), id)
  {
    var s := Run(INITIAL, before);
    RunInv(before);
    BoundsAndOrder(before);
    SettledAtMostOnce(before, id);
    hide Inv, Run, Due;
    if Settled(s, id) {
      SettledStays(s, after, id);
    } else if id in Ids(s.requestQueue) {
      var i :| 0 <= i < |s.requestQueue| && Ids(s.requestQueue)[i] == id;
      LateChecksSettle(s, due, after, s.requestQueue[i]);
    } else {
      var i :| 0 <= i < |s.requestMap| && Ids(s.requestMap)[i] == id;
      LateChecksSettle(s, due, after, s.requestMap[i]);
    }
  }

  lemma {:induction false} SettledStays(s: State, actions: seq<Action>, id: int)
    requires Settled(s, id)
    ensures Settled(Run(s, actions), id)
  {
    hide Next;
    if actions != [] {
      var t, a := Run(s, actions[..|actions| - 1]), actions[|actions| - 1];
      SettledStays(s, actions[..|actions| - 1], id);
      SettledGrows(t, a);
      SettledMore(t.settled, Next(t, a).settled[|t.settled|..], id);
      assert Next(t, a).settled == t.settled + Next(t, a).settled[|t.settled|..];
    }
  }

  lemma SettledGrows(t: State, a: Action)
    ensures t.settled <= Next(t, a).settled
  {
    hide LateOnes, Punctual, Settle;
  }
}
