// What the listener lists of event-target.js mean: sequences of entries in order.
module ListenerLists {
  import opened Outcomes

  // A function, or an object that may have a handleEvent method.
  datatype Listener = Func(id: int) | Obj(id: int, handles: bool)

  datatype ListenerType = CAPTURE | BUBBLE | ATTRIBUTE

  datatype Entry = Entry(listener: Listener, listenerType: ListenerType, passive: bool, once: bool)

  predicate Matches(x: Entry, listener: Listener, listenerType: ListenerType) {
    x.listener == listener && x.listenerType == listenerType
  }

  // The first match, or the length.
  function Find(s: seq<Entry>, listener: Listener, listenerType: ListenerType): (k: nat)
    ensures k <= |s| && (k < |s| ==> Matches(s[k], listener, listenerType))
    ensures forall i :: 0 <= i < k ==> !Matches(s[i], listener, listenerType)
    decreases |s|
  {
    if s == [] || Matches(s[0], listener, listenerType) then 0 else Find(s[1..], listener, listenerType) + 1
  }

  // addEventListener appends, unless the pair is there.
  function Added(s: seq<Entry>, x: Entry): seq<Entry> {
    if Find(s, x.listener, x.listenerType) < |s| then s else s + [x]
  }

  // removeEventListener takes out the match.
  function Removed(s: seq<Entry>, listener: Listener, listenerType: ListenerType): seq<Entry> {
    var k := Find(s, listener, listenerType);
    if k < |s| then s[..k] + s[k + 1..] else s
  }

  function WithoutAttribute(s: seq<Entry>): seq<Entry> {
    if s == [] then []
    else
      var t := WithoutAttribute(s[..|s| - 1]);
      if s[|s| - 1].listenerType == ATTRIBUTE then t else t + [s[|s| - 1]]
  }

  // Setting the attribute takes the old one out and puts the new one last.
  function WithAttribute(s: seq<Entry>, listener: Option<Listener>): seq<Entry> {
    WithoutAttribute(s)
      + match listener case None => [] case Some(l) => [Entry(l, ATTRIBUTE, false, false)]
  }

  // The value of the attribute: the listener of its first node.
  function AttributeOf(s: seq<Entry>): Option<Listener>
    decreases |s|
  {
    if s == [] then None
    else if s[0].listenerType == ATTRIBUTE then Some(s[0].listener)
    else AttributeOf(s[1..])
  }

  // ---------- dispatch ----------

  // Whether dispatchEvent calls the listener: an attribute must be a function.
  predicate Called(x: Entry) { x.listener.Func? || (x.listenerType != ATTRIBUTE && x.listener.handles) }

  // Whether the event is stopped after an entry, if stops says which listeners stop it.
  predicate StoppedAfter(x: Entry, stopped: bool, stops: Listener -> bool) {
    stopped || (Called(x) && stops(x.listener))
  }

  // The number of entries visited.
  function Visited(s: seq<Entry>, stopped: bool, stops: Listener -> bool): (k: nat)
    ensures k <= |s|
    decreases |s|
  {
    if s == [] then 0
    else if StoppedAfter(s[0], stopped, stops) then 1
    else Visited(s[1..], stopped, stops) + 1
  }

  function Calls(s: seq<Entry>): seq<Listener> {
    if s == [] then []
    else
      var t := Calls(s[..|s| - 1]);
      if Called(s[|s| - 1]) then t + [s[|s| - 1].listener] else t
  }

  function NotOnce(s: seq<Entry>): seq<Entry> {
    if s == [] then []
    else
      var t := NotOnce(s[..|s| - 1]);
      if s[|s| - 1].once then t else t + [s[|s| - 1]]
  }

  // The list minus the visited once entries.
  function AfterDispatch(s: seq<Entry>, k: nat): seq<Entry>
    requires k <= |s|
  {
    NotOnce(s[..k]) + s[k..]
  }

  // ---------- what every operation keeps ----------

  // Entries that do not go together: the same pair, or two attributes.
  predicate Clash(x: Entry, y: Entry) {
    x.listenerType == y.listenerType && (x.listener == y.listener || x.listenerType == ATTRIBUTE)
  }

  ghost predicate Unique(s: seq<Entry>) { forall i, j :: 0 <= i < j < |s| ==> !Clash(s[i], s[j]) }

  ghost predicate Apart(s: seq<Entry>, t: seq<Entry>) { forall x, y :: x in s && y in t ==> !Clash(x, y) }

  lemma UniqueParts(s: seq<Entry>, t: seq<Entry>)
    ensures Unique(s + t) <==> Unique(s) && Unique(t) && Apart(s, t)
  {
    var r := s + t;
    assert forall i :: 0 <= i < |s| ==> r[i] == s[i];
    assert forall j :: 0 <= j < |t| ==> r[|s| + j] == t[j];
    if Unique(r) {
      forall x, y | x in s && y in t ensures !Clash(x, y) {
        var i :| 0 <= i < |s| && s[i] == x;
        var j :| 0 <= j < |t| && t[j] == y;
        assert !Clash(r[i], r[|s| + j]);
      }
    }
  }

  lemma AddedUnique(s: seq<Entry>, x: Entry)
    requires Unique(s) && x.listenerType != ATTRIBUTE
    ensures Unique(Added(s, x))
  {
    UniqueParts(s, [x]);
  }

  // Removing takes out every match, and only matches.
  lemma RemovedUnique(s: seq<Entry>, listener: Listener, listenerType: ListenerType)
    requires Unique(s)
    ensures var r := Removed(s, listener, listenerType);
            Unique(r) && forall x :: x in r <==> x in s && !Matches(x, listener, listenerType)
  {
    var k := Find(s, listener, listenerType);
    var r := Removed(s, listener, listenerType);
    forall x ensures x in r <==> x in s && !Matches(x, listener, listenerType) {
      if k < |s| {
        assert s[k] in s;
        if x in s && !Matches(x, listener, listenerType) {
          var i :| 0 <= i < |s| && s[i] == x;
          assert r[if i < k then i else i - 1] == x;
        }
      }
    }
  }

  // Adding what is new and removing it again changes nothing.
  lemma RemoveUndoesAdd(s: seq<Entry>, x: Entry)
    requires Find(s, x.listener, x.listenerType) == |s|
    ensures Removed(Added(s, x), x.listener, x.listenerType) == s
  {
    var r := s + [x];
    var k := Find(r, x.listener, x.listenerType);
    assert r[|s|] == x && forall i :: 0 <= i < |s| ==> r[i] == s[i];
  }

  lemma {:induction false} WithoutAttributeIn(s: seq<Entry>)
    ensures forall x :: x in WithoutAttribute(s) <==> x in s && x.listenerType != ATTRIBUTE
  {
    if s != [] {
      var h, e := s[..|s| - 1], s[|s| - 1];
      WithoutAttributeIn(h);
      assert s == h + [e];
    }
  }

  lemma {:induction false} WithoutAttributeIs(s: seq<Entry>)
    ensures forall x :: x in WithoutAttribute(s) <==> x in s && x.listenerType != ATTRIBUTE
    ensures Unique(s) ==> Unique(WithoutAttribute(s))
  {
    WithoutAttributeIn(s);
    if s != [] && Unique(s) {
      var h, e := s[..|s| - 1], s[|s| - 1];
      assert s == h + [e];
      assert WithoutAttribute(s) == WithoutAttribute(h) || WithoutAttribute(s) == WithoutAttribute(h) + [e];
      hide WithoutAttribute, Unique, Clash;
      UniqueParts(h, [e]);
      WithoutAttributeIs(h);
      UniqueParts(WithoutAttribute(h), [e]);
    }
  }

  lemma {:induction false} NoAttribute(s: seq<Entry>)
    requires forall x :: x in s ==> x.listenerType != ATTRIBUTE
    ensures AttributeOf(s) == None
    ensures forall x: Entry :: x.listenerType == ATTRIBUTE ==> AttributeOf(s + [x]) == Some(x.listener)
  {
    if s == [] {
      assert forall x :: s + [x] == [x];
    } else {
      NoAttribute(s[1..]);
      assert s[0] in s;
      assert forall x :: (s + [x])[1..] == s[1..] + [x];
    }
  }

  // After setting the attribute, reading it gives back what was set, and its entry is
  // the last one and the only one of its type.
  lemma SetThenGet(s: seq<Entry>, listener: Option<Listener>)
    requires Unique(s)
    ensures var r := WithAttribute(s, listener);
            Unique(r) && AttributeOf(r) == listener
            && (forall x: Entry :: x.listenerType != ATTRIBUTE ==> (x in r <==> x in s))
            && (listener.Some? ==> r[|r| - 1] == Entry(listener.value, ATTRIBUTE, false, false))
  {
    var t := WithoutAttribute(s);
    WithoutAttributeIs(s);
    NoAttribute(t);
    match listener {
      case None => assert t + [] == t;
      case Some(l) => UniqueParts(t, [Entry(l, ATTRIBUTE, false, false)]);
    }
  }

  lemma {:induction false} NotOnceIn(s: seq<Entry>)
    ensures forall x :: x in NotOnce(s) <==> x in s && !x.once
    ensures |NotOnce(s)| <= |s|
  {
    if s != [] {
      var h, e := s[..|s| - 1], s[|s| - 1];
      NotOnceIn(h);
      assert s == h + [e];
    }
  }

  lemma {:induction false} NotOnceIs(s: seq<Entry>)
    ensures forall x :: x in NotOnce(s) <==> x in s && !x.once
    ensures Unique(s) ==> Unique(NotOnce(s))
    ensures |NotOnce(s)| <= |s|
  {
    NotOnceIn(s);
    if s != [] && Unique(s) {
      var h, e := s[..|s| - 1], s[|s| - 1];
      assert s == h + [e];
      assert NotOnce(s) == NotOnce(h) || NotOnce(s) == NotOnce(h) + [e];
      hide NotOnce, Unique, Clash;
      UniqueParts(h, [e]);
      NotOnceIs(h);
      UniqueParts(NotOnce(h), [e]);
    }
  }

  lemma {:induction false} VisitedIs(s: seq<Entry>, stopped: bool, stops: Listener -> bool)
    ensures var k := Visited(s, stopped, stops);
            && (forall i :: 0 <= i < k - 1 ==> !StoppedAfter(s[i], stopped, stops))
            && (k < |s| ==> k > 0 && StoppedAfter(s[k - 1], stopped, stops))
            && (s != [] ==> k > 0)
    decreases |s|
  {
    if s != [] { VisitedIs(s[1..], stopped, stops); }
  }

  // What is visited is called at most once, if it is a once entry; the rest of the list
  // stays as it was, in its order.
  lemma DispatchKeeps(s: seq<Entry>, k: nat)
    requires Unique(s) && k <= |s|
    ensures var r := AfterDispatch(s, k);
            Unique(r) && forall x :: x in r <==> x in s && (!x.once || x in s[k..])
  {
    var a, b := s[..k], s[k..];
    NotOnceIs(a);
    assert s == a + b;
    UniqueParts(a, b);
    UniqueParts(NotOnce(a), b);
  }

  // ---------- who is called ----------

  lemma {:induction false} CallsBoth(s: seq<Entry>, t: seq<Entry>)
    ensures Calls(s + t) == Calls(s) + Calls(t)
  {
    if t == [] {
      assert s + t == s;
    } else {
      var n := |t| - 1;
      assert (s + t)[..|s + t| - 1] == s + t[..n];
      CallsBoth(s, t[..n]);
    }
  }

  lemma CallsOne(x: Entry)
    ensures Calls([x]) == if Called(x) then [x.listener] else []
  {
    assert [x][..0] == [];
  }

  // Each visited entry, at its place among the others, is called exactly when it is a
  // function, or an object with handleEvent that is not the attribute.
  lemma CallsAt(s: seq<Entry>, k: nat, i: nat)
    requires i < k <= |s|
    ensures var l := s[i].listener;
            Calls(s[..k]) == Calls(s[..i])
              + (if l.Func? || (s[i].listenerType != ATTRIBUTE && l.handles) then [l] else [])
              + Calls(s[i + 1..k])
  {
    assert s[..k] == s[..i] + ([s[i]] + s[i + 1..k]);
    CallsBoth(s[..i], [s[i]] + s[i + 1..k]);
    CallsBoth([s[i]], s[i + 1..k]);
    CallsOne(s[i]);
  }

  // The dispatch of an event that is not stopped yet ends right after the first listener
  // that is called and stops it, or with the list.
  lemma DispatchEnds(s: seq<Entry>, stops: Listener -> bool)
    ensures var k := Visited(s, false, stops);
            && (forall i :: 0 <= i < k && i < |s| - 1 ==>
                  var l := s[i].listener;
                  (i == k - 1 <==> (l.Func? || (s[i].listenerType != ATTRIBUTE && l.handles)) && stops(l)))
            && (s != [] ==> 1 <= k <= |s|)
  {
    VisitedIs(s, false, stops);
  }

  // An event that is stopped before visits one entry.
  lemma StoppedBefore(s: seq<Entry>, stops: Listener -> bool)
    ensures Visited(s, true, stops) == if s == [] then 0 else 1
  {
    VisitedIs(s, true, stops);
  }

  // A function that is added is called, last of all, by a dispatch that nothing stops.
  lemma AddedCalled(s: seq<Entry>, f: int, capture: bool, passive: bool, once: bool, stops: Listener -> bool)
    requires var l, listenerType := Func(f), if capture then CAPTURE else BUBBLE;
             Find(s, l, listenerType) == |s|
    requires forall x :: x in s ==> !stops(x.listener)
    ensures var r := Added(s, Entry(Func(f), if capture then CAPTURE else BUBBLE, passive, once));
            Visited(r, false, stops) == |s| + 1 && Calls(r[..|s| + 1]) == Calls(s) + [Func(f)]
  {
    hide Calls, Visited, StoppedAfter, Find;
    var x := Entry(Func(f), if capture then CAPTURE else BUBBLE, passive, once);
    AllVisited(s, x, stops);
    assert (s + [x])[..|s| + 1] == s + [x];
    CallsBoth(s, [x]);
    CallsOne(x);
  }

  lemma AllVisited(s: seq<Entry>, x: Entry, stops: Listener -> bool)
    requires forall y :: y in s ==> !stops(y.listener)
    ensures Visited(s + [x], false, stops) == |s| + 1
  {
    var r := s + [x];
    VisitedIs(r, false, stops);
    assert forall i :: 0 <= i < |s| ==> r[i] == s[i] && s[i] in s;
    hide Visited, Called;
  }

  // A place is visited when nothing before it stops the event.
  lemma VisitedWhen(s: seq<Entry>, i: nat, stopped: bool, stops: Listener -> bool)
    requires i < |s|
    ensures i < Visited(s, stopped, stops) <==> forall j :: 0 <= j < i ==> !StoppedAfter(s[j], stopped, stops)
  {
    VisitedIs(s, stopped, stops);
  }

  // A dispatch calls the listener of the attribute, at its place among the others,
  // exactly when nothing before it stops the event and it is a function.
  lemma AttributeCalled(s: seq<Entry>, i: nat, stopped: bool, stops: Listener -> bool)
    requires i < |s| && s[i].listenerType == ATTRIBUTE
    ensures var k, l := Visited(s, stopped, stops), s[i].listener;
            if forall j :: 0 <= j < i ==> !StoppedAfter(s[j], stopped, stops) then
              && i < k
              && Calls(s[..k]) == Calls(s[..i]) + (if l.Func? then [l] else []) + Calls(s[i + 1..k])
            else k <= i && Calls(s[..k]) == Calls(s[..i][..k])
  {
    var k := Visited(s, stopped, stops);
    VisitedWhen(s, i, stopped, stops);
    if i < k {
      assert s[..k] == s[..i] + ([s[i]] + s[i + 1..k]);
      CallsBoth(s[..i], [s[i]] + s[i + 1..k]);
      CallsBoth([s[i]], s[i + 1..k]);
      CallsOne(s[i]);
    } else {
      assert s[..i][..k] == s[..k];
    }
  }

  // So a dispatch after setting the attribute calls its listener, last of all, exactly
  // when its entry is visited and it is a function.
  lemma AttributeSetCalled(s: seq<Entry>, l: Listener, stopped: bool, stops: Listener -> bool)
    ensures var t, r := WithoutAttribute(s), WithAttribute(s, Some(l));
            var k := Visited(r, stopped, stops);
            && |r| == |t| + 1 && (k == |r| <==> forall j :: 0 <= j < |t| ==> !StoppedAfter(t[j], stopped, stops))
            && Calls(r[..k]) == if k == |r| then Calls(t) + (if l.Func? then [l] else []) else Calls(t[..k])
  {
    var t, r := WithoutAttribute(s), WithAttribute(s, Some(l));
    var k, n := Visited(r, stopped, stops), |t|;
    hide *;
    AttributeLast(s, l);
    VisitedWhen(r, n, stopped, stops);
    AttributeCalled(r, n, stopped, stops);
    assert r[..n] == t && forall j :: 0 <= j < n ==> r[j] == t[j];
    if k == |r| {
      assert r[n + 1..k] == [];
      NoCalls();
      assert (Calls(t) + (if l.Func? then [l] else [])) + [] == Calls(t) + (if l.Func? then [l] else []);
    }
  }

  lemma AttributeLast(s: seq<Entry>, l: Listener)
    ensures WithAttribute(s, Some(l)) == WithoutAttribute(s) + [Entry(l, ATTRIBUTE, false, false)]
  {
  }

  lemma NoCalls()
    ensures Calls([]) == []
  {
  }

  // An object with the method handleEvent is called as a listener, but not when it is
  // set as the attribute, though its entry is visited.
  lemma ObjectAttributeIgnored(stops: Listener -> bool)
    ensures var l := Obj(0, true);
            var added, attribute := Added([], Entry(l, BUBBLE, false, false)), WithAttribute([], Some(l));
            && Visited(added, false, stops) == 1 && Calls(added[..1]) == [l]
            && AttributeOf(attribute) == Some(l) && Visited(attribute, false, stops) == 1 && Calls(attribute[..1]) == []
  {
    var l := Obj(0, true);
    var x, y := Entry(l, BUBBLE, false, false), Entry(l, ATTRIBUTE, false, false);
    OneAdded(x);
    AttributeLast([], l);
    assert WithoutAttribute([]) == [] && [] + [y] == [y];
    OneVisited(x, stops);
    OneVisited(y, stops);
    CallsOne(x);
    CallsOne(y);
    assert AttributeOf([y]) == Some(l);
    assert [x][..1] == [x] && [y][..1] == [y];
    hide *;
  }

  lemma OneAdded(x: Entry)
    ensures Added([], x) == [x]
  {
    hide Matches;
  }

  lemma OneVisited(x: Entry, stops: Listener -> bool)
    ensures Visited([x], false, stops) == 1
  {
    hide StoppedAfter;
    assert [x][1..] == [];
  }

  datatype Operation =
    | Add(entry: Entry)
    | Remove(listener: Listener, listenerType: ListenerType)
    | SetAttribute(value: Option<Listener>)
    | Dispatch(stopped: bool, stops: Listener -> bool)

  function Apply(s: seq<Entry>, op: Operation): seq<Entry> {
    match op
    case Add(x) => if x.listenerType == ATTRIBUTE then s else Added(s, x)
    case Remove(l, t) => Removed(s, l, t)
    case SetAttribute(l) => WithAttribute(s, l)
    case Dispatch(stopped, stops) => AfterDispatch(s, Visited(s, stopped, stops))
  }

  function Run(ops: seq<Operation>): seq<Entry> {
    if ops == [] then [] else Apply(Run(ops[..|ops| - 1]), ops[|ops| - 1])
  }

  // In every run a list has no pair twice and at most one attribute.
  lemma {:induction false} RunUnique(ops: seq<Operation>)
    ensures Unique(Run(ops))
  {
    if ops != [] {
      RunUnique(ops[..|ops| - 1]);
      var s := Run(ops[..|ops| - 1]);
      match ops[|ops| - 1] {
        case Add(x) => if x.listenerType != ATTRIBUTE { AddedUnique(s, x); }
        case Remove(l, t) => RemovedUnique(s, l, t);
        case SetAttribute(l) => SetThenGet(s, l);
        case Dispatch(stopped, stops) => DispatchKeeps(s, Visited(s, stopped, stops));
      }
    }
  }
}
