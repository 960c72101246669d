// The linked lists of listeners of event-target.js, one for each event name.
module ListenerTarget {
  import opened Outcomes
  import opened ListenerLists

  class Node {
    const listener: Listener
    const listenerType: ListenerType
    const passive: bool
    const once: bool
    var next: Node?
    ghost const home: string  // the event name of the list it is made for

    constructor (x: Entry, ghost name: string)
      ensures EntryOf(this) == x && next == null && home == name
    {
      listener, listenerType, passive, once := x.listener, x.listenerType, x.passive, x.once;
      next := null;
      home := name;
    }
  }

  function EntryOf(n: Node): Entry { Entry(n.listener, n.listenerType, n.passive, n.once) }

  function Entries(s: seq<Node>): (r: seq<Entry>)
    ensures |r| == |s|
  {
    seq(|s|, k requires 0 <= k < |s| => EntryOf(s[k]))
  }

  function NodeAt(s: seq<Node>, i: int): Node? { if 0 <= i < |s| then s[i] else null }

  // ---------- lists in a snapshot of the next links ----------

  type Lists = map<string, seq<Node>>

  ghost function NodesOf(lists: Lists, name: string): seq<Node> { if name in lists then lists[name] else [] }

  // The head of the list in the map; an empty list has none.
  ghost predicate HeadValid(listeners: map<string, Node>, lists: Lists, name: string) {
    var s := NodesOf(lists, name);
    if s == [] then name !in listeners && name !in lists else name in listeners && listeners[name] == s[0]
  }

  // The nodes of a list: all different, made for it, each pointing to the one after
  // it and the last one nowhere.
  ghost predicate Linked(s: seq<Node>, name: string, nx: map<Node, Node?>) {
    && (forall i, j :: 0 <= i < j < |s| ==> s[i] != s[j])
    && (forall i :: 0 <= i < |s| ==> s[i] in nx && s[i].home == name && nx[s[i]] == NodeAt(s, i + 1))
  }

  ghost predicate ListsValid(listeners: map<string, Node>, lists: Lists, nx: map<Node, Node?>) {
    forall name: string :: HeadValid(listeners, lists, name) && Linked(NodesOf(lists, name), name, nx)
  }

  function RemoveAt<T>(s: seq<T>, k: nat): (t: seq<T>)
    requires k < |s|
    ensures |t| == |s| - 1 && forall i :: 0 <= i < |t| ==> t[i] == if i < k then s[i] else s[i + 1]
  {
    s[..k] + s[k + 1..]
  }

  // The traversed part w of a list and the rest of it, before and after one more entry.
  lemma Traversed(w: seq<Entry>, s: seq<Entry>, i: nat)
    requires i < |s|
    ensures var r := w + s[i..];
            r[|w|] == s[i] && RemoveAt(r, |w|) == w + s[i + 1..] && r == (w + [s[i]]) + s[i + 1..]
    ensures s[..i + 1][..i] == s[..i] && s[..i + 1][i] == s[i]
  {
  }

  // The entries before k, which are w, do not match.
  ghost predicate Searched(s: seq<Entry>, w: seq<Entry>, k: nat, listener: Listener, listenerType: ListenerType) {
    k <= |s| && w == s[..k] && forall i :: 0 <= i < k ==> !Matches(s[i], listener, listenerType)
  }

  lemma SearchedNone(s: seq<Entry>, listener: Listener, listenerType: ListenerType)
    ensures Searched(s, [], 0, listener, listenerType)
  {
  }

  lemma SearchedNext(s: seq<Entry>, w: seq<Entry>, k: nat, listener: Listener, listenerType: ListenerType)
    requires Searched(s, w, k, listener, listenerType) && k < |s|
    ensures if Matches(s[k], listener, listenerType) then Removed(s, listener, listenerType) == w + s[k + 1..]
            else Searched(s, w + [s[k]], k + 1, listener, listenerType)
  {
  }

  lemma SearchedAll(s: seq<Entry>, w: seq<Entry>, listener: Listener, listenerType: ListenerType)
    requires Searched(s, w, |s|, listener, listenerType)
    ensures Removed(s, listener, listenerType) == w
  {
  }

  // Where dispatchEvent is before entry i: w is kept, and calls have been made.
  ghost predicate Dispatching(
    s: seq<Entry>, w: seq<Entry>, calls: seq<Listener>, i: nat, stopped: bool, stops: Listener -> bool)
  {
    && i <= |s| && w == NotOnce(s[..i]) && calls == Calls(s[..i])
    && Visited(s, stopped, stops) == i + Visited(s[i..], stopped, stops)
  }

  lemma DispatchingFrom(s: seq<Entry>, stopped: bool, stops: Listener -> bool)
    ensures Dispatching(s, [], [], 0, stopped, stops)
  {
    assert s[..0] == [] && s[0..] == s;
  }

  lemma DispatchingNext(
    s: seq<Entry>, w: seq<Entry>, calls: seq<Listener>, i: nat, stopped: bool, stops: Listener -> bool)
    requires Dispatching(s, w, calls, i, stopped, stops) && i < |s|
    ensures var w1 := if s[i].once then w else w + [s[i]];
            var calls1 := calls + if Called(s[i]) then [s[i].listener] else [];
            if StoppedAfter(s[i], stopped, stops) then Dispatched(s, w1, calls1, i + 1, stopped, stops)
            else Dispatching(s, w1, calls1, i + 1, stopped, stops)
  {
    assert s[..i + 1][..i] == s[..i] && s[i..][1..] == s[i + 1..];
  }

  // Where dispatchEvent ends.
  ghost predicate Dispatched(
    s: seq<Entry>, w: seq<Entry>, calls: seq<Listener>, i: nat, stopped: bool, stops: Listener -> bool)
  {
    && i == Visited(s, stopped, stops) && calls == Calls(s[..i]) && w + s[i..] == AfterDispatch(s, i)
  }

  lemma DispatchedIs(
    s: seq<Entry>, w: seq<Entry>, calls: seq<Listener>, i: nat, stopped: bool, stops: Listener -> bool)
    requires Dispatched(s, w, calls, i, stopped, stops)
    ensures i == Visited(s, stopped, stops) && calls == Calls(s[..i]) && w + s[i..] == AfterDispatch(s, i)
  {
  }

  lemma DispatchingEnd(s: seq<Entry>, w: seq<Entry>, calls: seq<Listener>, stopped: bool, stops: Listener -> bool)
    requires Dispatching(s, w, calls, |s|, stopped, stops)
    ensures Dispatched(s, w, calls, |s|, stopped, stops)
  {
  }

  lemma WithoutAttributeTurn(s: seq<Entry>, i: nat)
    requires i < |s|
    ensures WithoutAttribute(s[..i + 1])
         == if s[i].listenerType == ATTRIBUTE then WithoutAttribute(s[..i]) else WithoutAttribute(s[..i]) + [s[i]]
  {
    assert s[..i + 1][..i] == s[..i];
  }

  lemma EntriesAppend(s: seq<Node>, node: Node)
    ensures Entries(s + [node]) == Entries(s) + [EntryOf(node)]
  {
  }

  lemma EntriesRemove(s: seq<Node>, k: nat)
    requires k < |s|
    ensures Entries(RemoveAt(s, k)) == RemoveAt(Entries(s), k)
  {
  }

  ghost function SetList(lists: Lists, name: string, s: seq<Node>): (r: Lists)
    ensures forall e :: NodesOf(r, e) == if e == name then s else NodesOf(lists, e)
  {
    if s == [] then lists - {name} else lists[name := s]
  }

  // Only the list of that name may differ.
  ghost predicate SameOthers(lists: Lists, lists1: Lists, name: string) {
    forall e :: e != name ==> NodesOf(lists1, e) == NodesOf(lists, e)
  }

  lemma SameOthersTrans(a: Lists, b: Lists, c: Lists, name: string)
    requires SameOthers(a, b, name) && SameOthers(b, c, name)
    ensures SameOthers(a, c, name)
  {
  }

  lemma NotChanged(lists: Lists, name: string)
    ensures SameOthers(lists, lists, name)
  {
  }

  lemma SetListOthers(lists: Lists, name: string, s: seq<Node>)
    ensures SameOthers(lists, SetList(lists, name, s), name)
  {
  }

  // Changing links of nodes of one list leaves the others linked.
  lemma OthersLinked(s: seq<Node>, e: string, name: string, nx: map<Node, Node?>, nx1: map<Node, Node?>)
    requires e != name && Linked(s, e, nx)
    requires forall n :: n in nx && n.home != name ==> n in nx1 && nx1[n] == nx[n]
    ensures Linked(s, e, nx1)
  {
  }

  lemma Unlinked(s: seq<Node>, name: string, nx: map<Node, Node?>, k: nat, nx1: map<Node, Node?>)
    requires Linked(s, name, nx) && k < |s|
    requires nx1 == if k > 0 then nx[s[k - 1] := nx[s[k]]] else nx
    ensures Linked(RemoveAt(s, k), name, nx1)
  {
    var t := RemoveAt(s, k);
    forall i | 0 <= i < |t| ensures t[i] in nx1 && nx1[t[i]] == NodeAt(t, i + 1) {
      assert k > 0 && i != k - 1 ==> t[i] != s[k - 1];
    }
  }

  // Taking the node at place k out of a list, as bypassing it does.
  lemma Bypassed(
    listeners: map<string, Node>, lists: Lists, nx: map<Node, Node?>, name: string, k: nat,
    listeners1: map<string, Node>, nx1: map<Node, Node?>)
    requires ListsValid(listeners, lists, nx) && k < |NodesOf(lists, name)|
    requires var s := NodesOf(lists, name);
             && nx1 == (if k > 0 then nx[s[k - 1] := nx[s[k]]] else nx)
             && listeners1 == (if k > 0 then listeners
                               else if |s| > 1 then listeners[name := s[1]] else listeners - {name})
    ensures ListsValid(listeners1, SetList(lists, name, RemoveAt(NodesOf(lists, name), k)), nx1)
  {
    var s := NodesOf(lists, name);
    var lists1 := SetList(lists, name, RemoveAt(s, k));
    assert HeadValid(listeners, lists, name) && Linked(s, name, nx);
    Unlinked(s, name, nx, k, nx1);
    forall e: string ensures HeadValid(listeners1, lists1, e) && Linked(NodesOf(lists1, e), e, nx1) {
      assert HeadValid(listeners, lists, e) && Linked(NodesOf(lists, e), e, nx);
      if e != name { OthersLinked(NodesOf(lists, e), e, name, nx, nx1); }
    }
  }

  // Putting a new node after the last one.
  lemma Appended(
    listeners: map<string, Node>, lists: Lists, nx: map<Node, Node?>, name: string, node: Node,
    listeners1: map<string, Node>, nx1: map<Node, Node?>)
    requires ListsValid(listeners, lists, nx) && node !in nx && node.home == name
    requires var s := NodesOf(lists, name);
             && nx1 == (if s != [] then nx[s[|s| - 1] := node] else nx)[node := NodeAt(s, -1)]
             && listeners1 == (if s != [] then listeners else listeners[name := node])
    ensures ListsValid(listeners1, SetList(lists, name, NodesOf(lists, name) + [node]), nx1)
  {
    var s := NodesOf(lists, name);
    var t := s + [node];
    var lists1 := SetList(lists, name, t);
    assert HeadValid(listeners, lists, name) && Linked(s, name, nx);
    assert Linked(t, name, nx1);
    forall e: string ensures HeadValid(listeners1, lists1, e) && Linked(NodesOf(lists1, e), e, nx1) {
      assert HeadValid(listeners, lists, e) && Linked(NodesOf(lists, e), e, nx);
      if e != name { OthersLinked(NodesOf(lists, e), e, name, nx, nx1); }
    }
  }

  // ---------- the class ----------

  class EventTarget {
    var listeners: map<string, Node>
    ghost var lists: Lists
    ghost var nodes: set<Node>

    ghost function Nexts(): map<Node, Node?>
      reads this`nodes, nodes
    {
      map n | n in nodes :: n.next
    }

    ghost function Nodes(name: string): seq<Node>
      reads this
    {
      NodesOf(lists, name)
    }

    // The list of an event name, as a sequence of entries.
    ghost function List(name: string): seq<Entry>
      reads this
    {
      Entries(Nodes(name))
    }

    ghost predicate Valid()
      reads this, nodes
    {
      ListsValid(listeners, lists, Nexts())
    }

    constructor ()
      ensures Valid() && nodes == {} && forall name :: List(name) == []
    {
      listeners, lists, nodes := map[], map[], {};
    }

    lemma At(name: string, k: nat)
      requires Valid() && k < |Nodes(name)|
      ensures name in listeners && listeners[name] == Nodes(name)[0] && Nodes(name)[k] in nodes
      ensures Nodes(name)[k].next == NodeAt(Nodes(name), k + 1)
    {
      var s := Nodes(name);
      assert HeadValid(listeners, lists, name) && Linked(s, name, Nexts());
      assert s[k] in Nexts() && Nexts()[s[k]] == NodeAt(s, k + 1);
    }

    lemma Empty(name: string)
      requires Valid() && Nodes(name) == []
      ensures name !in listeners
    {
      assert HeadValid(listeners, lists, name);
    }

    // Take the node at place k out of its list; it still points to what was after it.
    method Bypass(name: string, prev: Node?, node: Node, ghost k: nat)
      requires Valid() && k < |Nodes(name)| && node == Nodes(name)[k]
      requires prev == NodeAt(Nodes(name), k - 1)
      modifies this, nodes
      ensures Valid() && nodes == old(nodes) && node.next == old(node.next)
      ensures lists == SetList(old(lists), name, RemoveAt(old(Nodes(name)), k))
    {
      hide *;
      ghost var s, nx, before := Nodes(name), Nexts(), listeners;
      Around(name, k);
      Unhook(name, prev, node);
      Bypassed(before, lists, nx, name, k, listeners, Nexts());
      lists := SetList(lists, name, RemoveAt(s, k));
      MakeValid();
    }

    // Point past a node: in the node before it, or in the map.
    method Unhook(name: string, prev: Node?, node: Node)
      requires prev != node && (prev != null ==> prev in nodes) && node in nodes
      modifies this`listeners, nodes
      ensures Nexts() == if prev != null then old(Nexts())[prev := old(Nexts())[node]] else old(Nexts())
      ensures node.next == old(node.next)
      ensures listeners == if prev != null then old(listeners)
                           else if node.next != null then old(listeners)[name := node.next] else old(listeners) - {name}
    {
      if prev != null {
        prev.next := node.next;
      } else if node.next != null {
        listeners := listeners[name := node.next];
      } else {
        listeners := listeners - {name};
      }
    }

    // Point to a new node: from the last one, or from the map.
    method Hook(name: string, prev: Node?, node: Node)
      requires (prev != null ==> prev in nodes) && node !in nodes && node.next == null
      modifies this`listeners, this`nodes, nodes
      ensures nodes == old(nodes) + {node} && node.next == null
      ensures Nexts() == (if prev != null then old(Nexts())[prev := node] else old(Nexts()))[node := node.next]
      ensures listeners == if prev != null then old(listeners) else old(listeners)[name := node]
    {
      if prev != null {
        prev.next := node;
      } else {
        listeners := listeners[name := node];
      }
      nodes := nodes + {node};
    }

    lemma MakeValid()
      requires ListsValid(listeners, lists, Nexts())
      ensures Valid()
    {
    }

    lemma AroundEnd(name: string, node: Node)
      requires Valid() && node !in nodes
      ensures ListsValid(listeners, lists, Nexts()) && Nodes(name) == NodesOf(lists, name) && node !in Nexts()
      ensures List(name) == Entries(Nodes(name))
      ensures var s := Nodes(name);
              && NodeAt(s, -1) == null
              && (if s == [] then NodeAt(s, |s| - 1) == null
                  else NodeAt(s, |s| - 1) == s[|s| - 1] && s[|s| - 1] in nodes)
    {
      if Nodes(name) != [] { At(name, |Nodes(name)| - 1); }
    }

    // What is around the node at place k.
    lemma Around(name: string, k: nat)
      requires Valid() && k < |Nodes(name)|
      ensures ListsValid(listeners, lists, Nexts()) && Nodes(name) == NodesOf(lists, name)
      ensures var s := Nodes(name);
              && s[k] in nodes && s[k] in Nexts() && Nexts()[s[k]] == s[k].next
              && (if k + 1 < |s| then s[k].next == s[k + 1] else s[k].next == null)
              && (if k > 0 then NodeAt(s, k - 1) == s[k - 1] && s[k - 1] in nodes && s[k - 1] != s[k]
                  else NodeAt(s, k - 1) == null)
    {
      At(name, k);
      if k > 0 { At(name, k - 1); }
      assert Linked(NodesOf(lists, name), name, Nexts());
    }

    // A traversal of the list s that has kept w and is at its entry i.
    ghost predicate Traversing(name: string, prev: Node?, node: Node?, w: seq<Entry>, s: seq<Entry>, i: nat)
      reads this, nodes
    {
      && Valid() && i <= |s| && List(name) == w + s[i..]
      && node == NodeAt(Nodes(name), |w|) && prev == NodeAt(Nodes(name), |w| - 1)
    }

    lemma TraversingAt(name: string, prev: Node?, node: Node?, w: seq<Entry>, s: seq<Entry>, i: nat)
      requires Traversing(name, prev, node, w, s, i)
      ensures Valid() && (node == null <==> i == |s|) && (node == null ==> List(name) == w)
      ensures node != null ==> i < |s| && EntryOf(node) == s[i] && node in nodes
    {
      if i < |s| {
        At(name, |w|);
        Traversed(w, s, i);
        assert List(name)[|w|] == EntryOf(Nodes(name)[|w|]);
      } else {
        assert w + s[i..] == w;
      }
    }

    lemma TraversingFrom(name: string, node: Node?, s: seq<Entry>)
      requires Valid() && s == List(name) && node == NodeAt(Nodes(name), 0)
      ensures Traversing(name, null, node, [], s, 0)
    {
      assert [] + s[0..] == s;
    }

    // Going on to the next node, or taking this one out first.
    method Advance(
      name: string, prev: Node?, node: Node, drop: bool, ghost w: seq<Entry>, ghost s: seq<Entry>, ghost i: nat)
      returns (prev1: Node?, ghost w1: seq<Entry>)
      requires Traversing(name, prev, node, w, s, i)
      modifies this, nodes
      ensures nodes == old(nodes) && SameOthers(old(lists), lists, name)
      ensures i < |s| && w1 == (if drop then w else w + [s[i]]) && Traversing(name, prev1, node.next, w1, s, i + 1)
    {
      TraversingAt(name, prev, node, w, s, i);
      prev1, w1 := prev, w;
      ghost var ns := Nodes(name);
      At(name, |w|);
      Traversed(w, s, i);
      EntriesRemove(ns, |w|);
      SetListOthers(lists, name, RemoveAt(ns, |w|));
      hide ListsValid, RemoveAt, Entries, SameOthers;
      if drop {
        Bypass(name, prev, node, |w|);
        assert Nodes(name) == RemoveAt(ns, |w|);
      } else {
        prev1 := node;
        w1 := w + [s[i]];
        NotChanged(lists, name);
      }
    }

    // Put a new node at the end of a list, after its last node.
    method Attach(name: string, prev: Node?, node: Node)
      requires Valid() && prev == NodeAt(Nodes(name), |Nodes(name)| - 1)
      requires node !in nodes && node.next == null && node.home == name
      modifies this, nodes
      ensures Valid() && nodes == old(nodes) + {node}
      ensures List(name) == old(List(name)) + [EntryOf(node)] && SameOthers(old(lists), lists, name)
    {
      hide *;
      ghost var s, nx, before := Nodes(name), Nexts(), listeners;
      AroundEnd(name, node);
      SetListOthers(lists, name, s + [node]);
      EntriesAppend(s, node);
      Hook(name, prev, node);
      Appended(before, lists, nx, name, node, listeners, Nexts());
      lists := SetList(lists, name, s + [node]);
      MakeValid();
      ListIs(name, s + [node]);
    }

    lemma ListIs(name: string, s: seq<Node>)
      requires NodesOf(lists, name) == s
      ensures List(name) == Entries(s)
    {
    }

    method AddEventListener(name: string, listener: Option<Listener>, capture: bool, passive: bool, once: bool)
      requires Valid()
      modifies this, nodes
      ensures Valid() && fresh(nodes - old(nodes)) && SameOthers(old(lists), lists, name)
      ensures List(name) == match listener
        case None => old(List(name))
        case Some(l) => Added(old(List(name)), Entry(l, if capture then CAPTURE else BUBBLE, passive, once))
    {
      hide *;
      if listener == None {
        NotChanged(lists, name);
        return;
      }
      var listenerType := if capture then CAPTURE else BUBBLE;
      ghost var x := Entry(listener.value, listenerType, passive, once);
      var newNode := new Node(Entry(listener.value, listenerType, passive, once), name);
      EntryIs(newNode);
      ghost var s := List(name);
      var prev: Node? := null;
      var node := Head(name);
      ghost var k := 0;
      assert s[..0] == [];
      TraversingFrom(name, node, s);
      while node != null
        invariant k <= |s| && Traversing(name, prev, node, s[..k], s, k)
        invariant forall i :: 0 <= i < k ==> !Matches(s[i], listener.value, listenerType)
        modifies {}
        decreases |s| - k
      {
        TraversingAt(name, prev, node, s[..k], s, k);
        MatchIs(node, listener.value, listenerType);
        if node.listener == listener.value && node.listenerType == listenerType {
          AddedOld(s, k, x);
          NotChanged(lists, name);
          return;
        }
        TraversingNext(name, prev, node, s[..k], s, k);
        assert s[..k] + [s[k]] == s[..k + 1];
        prev, node := node, node.next;
        k := k + 1;
      }
      TraversingAt(name, prev, node, s[..k], s, k);
      TraversingEnd(name, prev, node, s[..k], s, k);
      AddedNew(s, x);
      Attach(name, prev, newNode);
    }

    lemma AddedOld(s: seq<Entry>, k: nat, x: Entry)
      requires k < |s| && Matches(s[k], x.listener, x.listenerType)
      ensures Added(s, x) == s
    {
      hide Matches;
    }

    lemma AddedNew(s: seq<Entry>, x: Entry)
      requires forall i :: 0 <= i < |s| ==> !Matches(s[i], x.listener, x.listenerType)
      ensures Added(s, x) == s + [x]
    {
      hide Matches;
    }

    method Head(name: string) returns (node: Node?)
      requires Valid()
      ensures node == NodeAt(Nodes(name), 0)
    {
      if Nodes(name) != [] { At(name, 0); } else { Empty(name); }
      node := if name in listeners then listeners[name] else null;
    }

    method RemoveEventListener(name: string, listener: Option<Listener>, capture: bool)
      requires Valid()
      modifies this, nodes
      ensures Valid() && nodes == old(nodes) && SameOthers(old(lists), lists, name)
      ensures List(name) == match listener
        case None => old(List(name))
        case Some(l) => Removed(old(List(name)), l, if capture then CAPTURE else BUBBLE)
    {
      NotChanged(lists, name);
      if listener == None { return; }
      RemoveMatch(name, listener.value, if capture then CAPTURE else BUBBLE);
    }

    lemma MatchIs(node: Node, listener: Listener, listenerType: ListenerType)
      ensures Matches(EntryOf(node), listener, listenerType)
         <==> node.listener == listener && node.listenerType == listenerType
    {
    }

    // The loop of removeEventListener.
    method RemoveMatch(name: string, listener: Listener, listenerType: ListenerType)
      requires Valid()
      modifies this, nodes
      ensures Valid() && nodes == old(nodes) && SameOthers(old(lists), lists, name)
      ensures List(name) == Removed(old(List(name)), listener, listenerType)
    {
      hide *;
      ghost var s := List(name);
      var prev: Node? := null;
      var node := Head(name);
      ghost var k, w: seq<Entry> := 0, [];
      TraversingFrom(name, node, s);
      NotChanged(lists, name);
      SearchedNone(s, listener, listenerType);
      while node != null
        invariant Traversing(name, prev, node, w, s, k) && Searched(s, w, k, listener, listenerType)
        modifies {}
        decreases |s| - k
      {
        TraversingAt(name, prev, node, w, s, k);
        MatchIs(node, listener, listenerType);
        if node.listener == listener && node.listenerType == listenerType {
          break;
        }
        TraversingNext(name, prev, node, w, s, k);
        SearchedNext(s, w, k, listener, listenerType);
        prev, node, w := node, node.next, w + [s[k]];
        k := k + 1;
      }
      TraversingAt(name, prev, node, w, s, k);
      if node == null {
        SearchedAll(s, w, listener, listenerType);
      } else {
        MatchIs(node, listener, listenerType);
        SearchedNext(s, w, k, listener, listenerType);
        prev, w := Advance(name, prev, node, true, w, s, k);
        StoppedHere(name, prev, node.next, w, s, k + 1);
      }
    }

    lemma TraversingNext(name: string, prev: Node?, node: Node, w: seq<Entry>, s: seq<Entry>, i: nat)
      requires Traversing(name, prev, node, w, s, i)
      ensures i < |s| && Traversing(name, node, node.next, w + [s[i]], s, i + 1)
    {
      TraversingAt(name, prev, node, w, s, i);
      At(name, |w|);
      Traversed(w, s, i);
    }

    // The getter of an event attribute.
    method GetAttribute(name: string) returns (r: Option<Listener>)
      requires Valid()
      ensures r == AttributeOf(List(name))
    {
      ghost var s := List(name);
      var node := Head(name);
      ghost var k := 0;
      assert s[0..] == s;
      while node != null
        invariant k <= |s| && node == NodeAt(Nodes(name), k) && AttributeOf(s) == AttributeOf(s[k..])
        decreases |s| - k
      {
        At(name, k);
        assert s[k] == EntryOf(node) && s[k..][0] == s[k] && s[k..][1..] == s[k + 1..];
        if node.listenerType == ATTRIBUTE {
          return Some(node.listener);
        }
        node := node.next;
        k := k + 1;
      }
      return None;
    }

    // The setter of an event attribute.
    method SetAttribute(name: string, listener: Option<Listener>)
      requires Valid()
      modifies this, nodes
      ensures Valid() && fresh(nodes - old(nodes)) && SameOthers(old(lists), lists, name)
      ensures List(name) == WithAttribute(old(List(name)), listener)
    {
      hide *;
      WithAttributeIs(List(name), listener);
      var prev := DropAttribute(name);
      if listener != None {
        var newNode := new Node(Entry(listener.value, ATTRIBUTE, false, false), name);
        EntryIs(newNode);
        ghost var before := lists;
        Attach(name, prev, newNode);
        SameOthersTrans(old(lists), before, lists, name);
      }
    }

    // The loop of the setter: to the tail, while the old value goes.
    method DropAttribute(name: string) returns (prev: Node?)
      requires Valid()
      modifies this, nodes
      ensures Valid() && nodes == old(nodes) && SameOthers(old(lists), lists, name)
      ensures List(name) == WithoutAttribute(old(List(name)))
      ensures prev == NodeAt(Nodes(name), |Nodes(name)| - 1)
    {
      hide *;
      ghost var s := List(name);
      prev := null;
      var node := Head(name);
      ghost var i, w: seq<Entry> := 0, [];
      NoneWithout(s);
      TraversingFrom(name, node, s);
      NotChanged(lists, name);
      while node != null
        invariant Traversing(name, prev, node, w, s, i) && i <= |s| && w == WithoutAttribute(s[..i])
        invariant nodes == old(nodes) && SameOthers(old(lists), lists, name)
        decreases |s| - i
      {
        ghost var before := lists;
        TraversingAt(name, prev, node, w, s, i);
        WithoutAttributeTurn(s, i);
        EntryIs(node);
        prev, w := Advance(name, prev, node, node.listenerType == ATTRIBUTE, w, s, i);
        SameOthersTrans(old(lists), before, lists, name);
        node := node.next;
        i := i + 1;
      }
      TraversingAt(name, prev, node, w, s, i);
      TraversingEnd(name, prev, node, w, s, i);
      assert s[..|s|] == s;
    }

    lemma EntryIs(node: Node)
      ensures EntryOf(node) == Entry(node.listener, node.listenerType, node.passive, node.once)
    {
    }

    lemma NoneWithout(s: seq<Entry>)
      ensures WithoutAttribute(s[..0]) == []
    {
    }

    lemma WithAttributeIs(s: seq<Entry>, listener: Option<Listener>)
      ensures WithAttribute(s, listener)
           == if listener == None then WithoutAttribute(s)
              else WithoutAttribute(s) + [Entry(listener.value, ATTRIBUTE, false, false)]
    {
      assert WithoutAttribute(s) + [] == WithoutAttribute(s);
    }

    lemma TraversingEnd(name: string, prev: Node?, node: Node?, w: seq<Entry>, s: seq<Entry>, i: nat)
      requires Traversing(name, prev, node, w, s, i) && node == null
      ensures prev == NodeAt(Nodes(name), |Nodes(name)| - 1)
    {
      TraversingAt(name, prev, node, w, s, i);
    }

    // Call a listener: what is called, and whether the event is stopped afterwards.
    static method Invoke(entry: Entry, stopped0: bool, stops: Listener -> bool)
      returns (called: seq<Listener>, stopped: bool)
      ensures called == (if Called(entry) then [entry.listener] else [])
      ensures stopped == StoppedAfter(entry, stopped0, stops) && (stopped0 ==> stopped)
    {
      if Called(entry) {
        return [entry.listener], stopped0 || stops(entry.listener);
      }
      return [], stopped0;
    }

    // dispatchEvent with listeners that leave the list alone. stopped is the immediate
    // stop flag of the event, and stops says which listeners set it.
    method DispatchEvent(name: string, stopped0: bool, stops: Listener -> bool) returns (calls: seq<Listener>)
      requires Valid()
      modifies this, nodes
      ensures Valid() && nodes == old(nodes) && SameOthers(old(lists), lists, name)
      ensures var s := old(List(name));
              var k := Visited(s, stopped0, stops);
              calls == Calls(s[..k]) && List(name) == AfterDispatch(s, k)
    {
      hide Traversing, SameOthers, Dispatching, Dispatched, Called, StoppedAfter;
      hide Entries, Valid, Nexts, Nodes, NodesOf, List;
      ghost var s := List(name);
      var stopped := stopped0;
      var prev: Node? := null;
      var node := Head(name);
      ghost var i, w: seq<Entry> := 0, [];
      calls := [];
      TraversingFrom(name, node, s);
      NotChanged(lists, name);
      DispatchingFrom(s, stopped0, stops);
      while node != null
        invariant Traversing(name, prev, node, w, s, i) && Dispatching(s, w, calls, i, stopped0, stops)
        invariant nodes == old(nodes) && SameOthers(old(lists), lists, name) && stopped == stopped0
        decreases |s| - i
      {
        ghost var before := lists;
        TraversingAt(name, prev, node, w, s, i);
        DispatchingNext(s, w, calls, i, stopped0, stops);
        var entry := EntryOf(node);
        prev, w := Advance(name, prev, node, entry.once, w, s, i);
        SameOthersTrans(old(lists), before, lists, name);
        var called;
        called, stopped := Invoke(entry, stopped, stops);
        calls := calls + called;
        i := i + 1;
        if stopped {
          StoppedHere(name, prev, node.next, w, s, i);
          DispatchedIs(s, w, calls, i, stopped0, stops);
          return;
        }
        node := node.next;
      }
      TraversingAt(name, prev, node, w, s, i);
      StoppedHere(name, prev, node, w, s, i);
      DispatchingEnd(s, w, calls, stopped0, stops);
      DispatchedIs(s, w, calls, i, stopped0, stops);
    }

    lemma StoppedHere(name: string, prev: Node?, node: Node?, w: seq<Entry>, s: seq<Entry>, i: nat)
      requires Traversing(name, prev, node, w, s, i)
      ensures Valid() && i <= |s| && List(name) == w + s[i..]
    {
    }
  }
}
