// When the requests of a session of jsonrpc.js are sent and when they time out, in terms of
// the times at which call was called.
module JsonrpcTimeouts {
  import opened JsonrpcSession
  import opened JsonrpcProgress

  // The times of the calls of a run, in order. The call at place k has the identifier k + 1.
  function CallTimes(actions: seq<Action>): seq<real> {
    if actions == [] then []
    else
      var t, a := CallTimes(actions[..|actions| - 1]), actions[|actions| - 1];
      if a.Call? then t + [a.now] else t
  }

  // Every waiting request holds the time of its call.
  ghost predicate Timed(times: seq<real>, s: State) {
    && s.nextRequestId == |times| + 1
    && forall r :: Waiting(s, r) ==> 1 <= r.id <= |times| && r.updated == times[r.id - 1]
  }

  // What waits after a step other than a call has waited before.
  ghost predicate NothingNew(t: State, u: State) {
    u.nextRequestId == t.nextRequestId && forall r :: Waiting(u, r) ==> Waiting(t, r)
  }

  lemma FlushOld(t: State)
    ensures NothingNew(t, FlushStep(t))
  {
    if t.readyState == OPEN && |t.requestMap| < MAX_WAIT_REQUESTS && t.requestQueue != [] {
      var r := t.requestQueue[0];
      MapSetIn(t.requestMap, r);
      hide Find, MapSet;
      assert r in t.requestQueue;
    }
  }

  lemma MapSetIn(m: seq<Request>, r: Request)
    ensures forall x :: x in MapSet(m, r) ==> x in m || x == r
  {
  }

  lemma TimeoutOld(t: State, now: real)
    ensures NothingNew(t, TimeoutStep(t, now))
  {
    SplitLate(t.requestMap, now);
    hide Late, LateOnes, Punctual, Settle;
  }

  lemma StepOld(t: State, a: Action)
    requires !a.Call?
    ensures NothingNew(t, Next(t, a))
  {
    hide FlushStep, TimeoutStep;
    match a {
      case Flush => FlushOld(t);
      case Response(id) =>
      case CheckTimeout(now) => TimeoutOld(t, now);
      case Close =>
      case SetReadyState(state) => FlushOld(t.(readyState := state));
      case SetSocket =>
      case SocketClosed => assert StateStep(t, CLOSED) == t.(readyState := CLOSED);
    }
  }

  lemma OldTimed(times: seq<real>, t: State, u: State)
    requires Timed(times, t) && NothingNew(t, u)
    ensures Timed(times, u)
  {
    hide Waiting;
  }

  lemma CallTimed(times: seq<real>, t: State, now: real)
    requires Timed(times, t)
    ensures Timed(times + [now], CallStep(t, now))
  {
    var u, r := CallStep(t, now), Request(t.nextRequestId, now);
    assert forall x :: Waiting(u, x) ==> Waiting(t, x) || x == r;
    hide Waiting, CallStep;
  }

  lemma {:induction false} RunTimed(actions: seq<Action>)
    ensures Timed(CallTimes(actions), Run(INITIAL, actions))
  {
    if actions != [] {
      var h, a := actions[..|actions| - 1], actions[|actions| - 1];
      var t := Run(INITIAL, h);
      RunTimed(h);
      hide Timed, Run, Next, NothingNew;
      RunNext(INITIAL, actions);
      if a.Call? {
        CallTimed(CallTimes(h), t, a.now);
        NextCall(t, a.now);
      } else {
        StepOld(t, a);
        OldTimed(CallTimes(h), t, Next(t, a));
      }
    }
  }

  lemma RunNext(s: State, actions: seq<Action>)
    requires actions != []
    ensures Run(s, actions) == Next(Run(s, actions[..|actions| - 1]), actions[|actions| - 1])
  {
  }

  lemma NextCall(t: State, now: real)
    ensures Next(t, Call(now)) == CallStep(t, now)
  {
  }

  // ---------- calls ----------

  // In every run a call queues a request behind the others, with the next identifier and
  // its time, exactly when at most 100 are queued; else it changes nothing but that.
  lemma CallQueues(actions: seq<Action>, now: real)
    ensures var s, t := Run(INITIAL, actions), Run(INITIAL, actions + [Call(now)]);
            var id := |CallTimes(actions)| + 1;
            if |s.requestQueue| <= 100 then
              t == s.(nextRequestId := id + 1, requestQueue := s.requestQueue + [Request(id, now)],
                      enqueued := s.enqueued + [id])
            else t == s.(nextRequestId := id + 1)
  {
    var s, all := Run(INITIAL, actions), actions + [Call(now)];
    RunTimed(actions);
    RunNext(INITIAL, all);
    assert all[..|all| - 1] == actions;
    hide Run;
  }

  // Opening a session sends the oldest request at once.
  lemma OpeningSends(s: State)
    requires Inv(s) && s.readyState != OPEN && s.hasSocket && |s.requestMap| < 50 && s.requestQueue != []
    ensures StateStep(s, OPEN).wire == s.wire + [s.requestQueue[0].id]
  {
    FlagsInv(s, OPEN, true);
    FlushSends(s.(readyState := OPEN));
    hide Inv, FlushStep;
  }

  // ---------- timeouts ----------

  lemma InIds(q: seq<Request>, id: int)
    ensures id in Ids(q) <==> exists r :: r in q && r.id == id
  {
    if id in Ids(q) {
      var i :| 0 <= i < |q| && Ids(q)[i] == id;
      assert q[i] in q;
    }
    if r :| r in q && r.id == id {
      var i :| 0 <= i < |q| && q[i] == r;
      assert Ids(q)[i] == id;
    }
  }

  lemma QueueAfter(s: State, now: real, id: int)
    requires Inv(s)
    ensures var q := s.requestQueue;
            id in Ids(TimeoutStep(s, now).requestQueue) <==>
              id in Ids(q) && !(id == q[0].id && now - q[0].updated > 3.0)
  {
    var q := s.requestQueue;
    if q != [] {
      assert q == [q[0]] + q[1..];
      assert Ids(q) == [q[0].id] + Ids(q[1..]);
      IncreasingOnce(Ids(q), q[0].id);
      hide Inv, LateOnes, Punctual;
    }
  }

  lemma MapAfter(times: seq<real>, s: State, now: real, id: int)
    requires Timed(times, s) && 1 <= id <= |times|
    ensures id in Ids(TimeoutStep(s, now).requestMap) <==> id in Ids(s.requestMap) && now - times[id - 1] <= 3.0
  {
    var m, u := s.requestMap, TimeoutStep(s, now).requestMap;
    assert u == Punctual(m, now);
    SplitLate(m, now);
    InIds(m, id);
    InIds(u, id);
    assert forall r :: r in m ==> Waiting(s, r);
    hide Ids, Punctual, LateOnes, TimeoutStep;
  }

  // What waits has been queued.
  lemma WaitingQueued(s: State, id: int)
    requires Inv(s) && (id in Ids(s.requestQueue) || id in Ids(s.requestMap))
    ensures id in s.enqueued
  {
    assert id in multiset(s.enqueued);
  }

  // In every run, the oldest queued request and those in flight are settled by a check
  // exactly when more than 3 seconds have passed since their call; a check settles no
  // other request.
  lemma TimesOut(actions: seq<Action>, now: real, id: int)
    requires id in Ids(Run(INITIAL, actions).requestQueue) || id in Ids(Run(INITIAL, actions).requestMap)
    ensures var s, times := Run(INITIAL, actions), CallTimes(actions);
            var t, q := Run(INITIAL, actions + [CheckTimeout(now)]), Ids(s.requestQueue);
            && 1 <= id <= |times|
            && (Settled(t, id) <==> ((q != [] && id == q[0]) || id in Ids(s.requestMap)) && now - times[id - 1] > 3.0)
  {
    var s, all := Run(INITIAL, actions), actions + [CheckTimeout(now)];
    var t := TimeoutStep(s, now);
    RunTimed(actions);
    RunInv(actions);
    CheckLast(actions, now);
    SettledAtMostOnce(all, id);
    SettledAtMostOnce(actions, id);
    hide Run, TimeoutStep;
    WaitingQueued(s, id);
    WaitingTimed(CallTimes(actions), s, id);
    QueueAfter(s, now, id);
    MapAfter(CallTimes(actions), s, now, id);
    hide Inv, Ids, CallTimes;
  }

  lemma CheckLast(actions: seq<Action>, now: real)
    ensures var s := Run(INITIAL, actions);
            var t := Run(INITIAL, actions + [CheckTimeout(now)]);
            t == TimeoutStep(s, now) && t.enqueued == s.enqueued
  {
    var all := actions + [CheckTimeout(now)];
    assert all[..|all| - 1] == actions;
  }

  lemma WaitingTimed(times: seq<real>, s: State, id: int)
    requires Timed(times, s) && (id in Ids(s.requestQueue) || id in Ids(s.requestMap))
    ensures 1 <= id <= |times|
    ensures s.requestQueue != [] ==>
      var r := s.requestQueue[0];
      Ids(s.requestQueue)[0] == r.id && 1 <= r.id <= |times| && r.updated == times[r.id - 1]
  {
    InIds(s.requestQueue, id);
    InIds(s.requestMap, id);
    if s.requestQueue != [] { assert Waiting(s, s.requestQueue[0]); }
  }

  // In every run, once more than 3 seconds have passed since the last of the calls so far,
  // 101 checks settle every request that they queued, whatever else happens in between.
  lemma NoneWaitsForEver(before: seq<Action>, after: seq<Action>, last: real, due: real, id: int)
    requires (forall i :: 0 <= i < |before| && before[i].Call? ==> before[i].now <= last) && due > last + 3.0
    requires ChecksFrom(after, due) >= 101
    requires id in Run(INITIAL, before).enqueued
    ensures id in SettledIds(Run(Run(INITIAL, before), after).settled)
  {
    RunTimed(before);
    CallsBefore(before, last);
    hide Run, CallTimes, ChecksFrom;
    var s := Run(INITIAL, before);
    assert Due(s, due);
    AllSettled(before, after, due, id);
  }

  lemma {:induction false} CallsBefore(actions: seq<Action>, last: real)
    requires forall i :: 0 <= i < |actions| && actions[i].Call? ==> actions[i].now <= last
    ensures forall k :: 0 <= k < |CallTimes(actions)| ==> CallTimes(actions)[k] <= last
  {
    if actions != [] { CallsBefore(actions[..|actions| - 1], last); }
  }
}
