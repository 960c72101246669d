// The methods of a session of jsonrpc.js, on the fields they update, against the steps
// of JsonrpcSession.
module JsonrpcObject {

  import opened JsonrpcSession

  // Appending one entry at a time builds the list of settlements of a whole list.
  lemma SettleMore(s: seq<Request>, k: nat, cause: Cause)
    requires k < |s|
    ensures Settle(s[..k + 1], cause) == Settle(s[..k], cause) + [Settlement(s[k].id, cause)]
  {
  }

  // What is kept, then what is not looked at yet: the next entry goes or stays.
  lemma GoesOrStays(kept: seq<Request>, m: seq<Request>, k: nat)
    requires k < |m|
    ensures var s := kept + m[k..];
            s[|kept|] == m[k] && s == (kept + [m[k]]) + m[k + 1..]
            && s[..|kept|] + s[|kept| + 1..] == kept + m[k + 1..]
  {
  }

  lemma NothingLate(m: seq<Request>, now: real)
    ensures Punctual(m[..0], now) == [] && LateOnes(m[..0], now) == [] && Settle([], WaitTimeout) == []
  {
  }

  lemma LateNext(s: seq<Request>, r: Request)
    ensures Settle(s + [r], WaitTimeout) == Settle(s, WaitTimeout) + [Settlement(r.id, WaitTimeout)]
  {
  }

  lemma SplitAtNext(m: seq<Request>, k: nat, now: real)
    requires k < |m|
    ensures LateOnes(m[..k + 1], now)
              == if Late(m[k], now) then LateOnes(m[..k], now) + [m[k]] else LateOnes(m[..k], now)
    ensures Punctual(m[..k + 1], now)
              == if Late(m[k], now) then Punctual(m[..k], now) else Punctual(m[..k], now) + [m[k]]
  {
    assert m[..k + 1][..k] == m[..k];
  }

  class Session {
    var readyState: ReadyState
    var nextRequestId: int
    var requestQueue: seq<Request>
    var requestMap: seq<Request>
    var hasSocket: bool
    ghost var enqueued: seq<int>
    ghost var settled: seq<Settlement>
    ghost var wire: seq<int>

    ghost function View(): State
      reads this
    {
      State(readyState, nextRequestId, requestQueue, requestMap, hasSocket, enqueued, settled, wire)
    }

    constructor ()
      ensures View() == INITIAL
    {
      readyState, nextRequestId, requestQueue, requestMap, hasSocket := INIT, 1, [], [], false;
      enqueued, settled, wire := [], [], [];
    }

    // The callback of a request: its promise is settled.
    ghost method Fire(id: int, cause: Cause)
      modifies this`settled
      ensures settled == old(settled) + [Settlement(id, cause)]
    {
      settled := settled + [Settlement(id, cause)];
    }

    method Call(now: real) returns (accepted: bool)
      modifies this
      ensures View() == CallStep(old(View()), now)
      ensures accepted <==> |old(requestQueue)| <= 100
    {
      var id := nextRequestId;
      nextRequestId := nextRequestId + 1;
      if |requestQueue| > 100 { return false; }
      requestQueue := requestQueue + [Request(id, now)];
      enqueued := enqueued + [id];
      return true;
    }

    // The loop of flushRequestQueue goes on after the await exactly when it sent one.
    method FlushTurn() returns (sent: bool)
      modifies this
      ensures View() == FlushStep(old(View()))
      ensures sent <==> View() != old(View())
    {
      if readyState != OPEN { return false; }
      if |requestMap| >= MAX_WAIT_REQUESTS { return false; }
      if requestQueue == [] { return false; }
      var request := requestQueue[0];
      requestQueue := requestQueue[1..];
      if request.id != 0 { requestMap := MapSet(requestMap, request); }
      SendMessage(request);
      assert |requestQueue| < |old(requestQueue)|;
      return true;
    }

    // Without a socket the message is dropped.
    method SendMessage(request: Request)
      modifies this`wire
      ensures wire == if hasSocket then old(wire) + [request.id] else old(wire)
    {
      if !hasSocket { return; }
      wire := wire + [request.id];
    }

    method ProcessResponse(id: int)
      modifies this
      ensures View() == ResponseStep(old(View()), id)
    {
      if id == 0 { return; }
      var k := Find(requestMap, id);
      if k < 0 { return; }
      requestMap := requestMap[..k] + requestMap[k + 1..];
      Fire(id, ByResponse);
    }

    method CheckRequestTimeout(now: real)
      modifies this
      ensures View() == TimeoutStep(old(View()), now)
    {
      if requestQueue != [] && now - requestQueue[0].updated > TIMEOUT {
        Fire(requestQueue[0].id, QueueTimeout);
        requestQueue := requestQueue[1..];
      }
      DropLateEntries(now);
    }

    // Deleting entries of the map while going through it.
    method DropLateEntries(now: real)
      modifies this`requestMap, this`settled
      ensures requestMap == Punctual(old(requestMap), now)
      ensures settled == old(settled) + Settle(LateOnes(old(requestMap), now), WaitTimeout)
    {
      ghost var done, m, before, kept, late := 0, requestMap, settled, [], [];
      var i := 0;
      NothingLate(m, now);
      hide Settle, Punctual, LateOnes;
      while i < |requestMap|
        invariant done <= |m| && i == |kept|
        invariant requestMap == kept + m[done..]
        invariant kept == Punctual(m[..done], now) && late == LateOnes(m[..done], now)
        invariant settled == before + Settle(late, WaitTimeout)
        decreases |requestMap| - i
      {
        GoesOrStays(kept, m, done);
        SplitAtNext(m, done, now);
        if now - requestMap[i].updated > TIMEOUT {
          LateNext(late, m[done]);
          Fire(requestMap[i].id, WaitTimeout);
          requestMap := requestMap[..i] + requestMap[i + 1..];
          late := late + [m[done]];
        } else {
          i := i + 1;
          kept := kept + [m[done]];
        }
        done := done + 1;
      }
      assert m[..done] == m && requestMap == kept;
    }

    method SetReadyState(state: ReadyState)
      modifies this
      ensures View() == StateStep(old(View()), state)
    {
      if readyState == state { return; }
      readyState := state;
      if state == OPEN { var _ := FlushTurn(); }
    }

    method SocketClosed()
      modifies this
      ensures View() == SocketClosedStep(old(View()))
    {
      SetReadyState(CLOSED);
      hasSocket := false;
    }

    method Close()
      modifies this
      ensures View() == CloseStep(old(View()))
    {
      if hasSocket {
        hasSocket := false;
        SetReadyState(CLOSING);
      }
      if readyState != CLOSED {
        SetReadyState(CLOSED);
        CancelQueue();
        CancelMap();
      }
    }

    method CancelQueue()
      modifies this`requestQueue, this`settled
      ensures requestQueue == [] && settled == old(settled) + Settle(old(requestQueue), Cancelled)
    {
      ghost var done, q, before := 0, requestQueue, settled;
      while requestQueue != []
        invariant done <= |q| && requestQueue == q[done..]
        invariant settled == before + Settle(q[..done], Cancelled)
        decreases |requestQueue|
      {
        var request := requestQueue[0];
        requestQueue := requestQueue[1..];
        SettleMore(q, done, Cancelled);
        Fire(request.id, Cancelled);
        done := done + 1;
      }
      assert q[..done] == q;
    }

    method CancelMap()
      modifies this`requestMap, this`settled
      ensures requestMap == [] && settled == old(settled) + Settle(old(requestMap), Cancelled)
    {
      ghost var before := settled;
      for k := 0 to |requestMap|
        invariant settled == before + Settle(requestMap[..k], Cancelled)
      {
        SettleMore(requestMap, k, Cancelled);
        Fire(requestMap[k].id, Cancelled);
      }
      assert requestMap[..|requestMap|] == requestMap;
      requestMap := [];
    }
  }
}
