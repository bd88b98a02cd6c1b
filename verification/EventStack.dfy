/** The lock-free stack of progress events: any number of publishers push with compare-and-swap, one consumer
    swaps the whole stack out and turns it round (internal/cli/statusbar.go, 64-85 and 132-137). */
module EventStack {
  import opened Graph
  import opened Text

  /** Nodes are never reused; `next` is an index of another node. */
  datatype Node<E> = Node(event: E, next: Option<nat>)

  /** A publisher with the event it was called with. */
  datatype Publisher<E> =
    | Idle
    | Loading(node: nat, event: E)
    | Linking(node: nat, event: E, seen: Option<nat>)
    | Swapping(node: nat, event: E, seen: Option<nat>)

  datatype Consumer =
    | Away
    | Turning(first: Option<nat>, head: Option<nat>)
    | Relinking(first: Option<nat>, node: nat, next: Option<nat>)
    | Draining(event: Option<nat>)

  /** `published` lists the nodes in the order their compare-and-swap succeeded and `sent` the events
      their publishers were called with; `delivered` lists the nodes read by the consumer and `received`
      the events it found there. */
  datatype State<E> = State(nodes: seq<Node<E>>, head: Option<nat>, publishers: seq<Publisher<E>>, consumer: Consumer,
                            published: seq<nat>, sent: seq<E>, delivered: seq<nat>, received: seq<E>)

  ghost predicate Init<E>(s: State<E>) {
    && s.nodes == [] && s.head == None && s.consumer == Away && s.published == [] && s.delivered == []
    && s.sent == [] && s.received == []
    && forall p | 0 <= p < |s.publishers| :: s.publishers[p] == Idle
  }

  ghost predicate PublisherStep<E>(s: State<E>, t: State<E>, p: nat, event: E) {
    && p < |s.publishers|
    && match s.publishers[p]
       case Idle =>
         t == s.(nodes := s.nodes + [Node(event, None)], publishers := s.publishers[p := Loading(|s.nodes|, event)])
       case Loading(node, own) =>
         t == s.(publishers := s.publishers[p := Linking(node, own, s.head)])
       case Linking(node, own, seen) =>
         node < |s.nodes| &&
         t == s.(nodes := s.nodes[node := s.nodes[node].(next := seen)], publishers := s.publishers[p := Swapping(node, own, seen)])
       case Swapping(node, own, seen) =>
         if s.head == seen then
           t == s.(head := Some(node), publishers := s.publishers[p := Idle], published := s.published + [node],
                   sent := s.sent + [own])
         else
           t == s.(publishers := s.publishers[p := Loading(node, own)])
  }

  ghost predicate ConsumerStep<E>(s: State<E>, t: State<E>) {
    match s.consumer
    case Away => t == s.(head := None, consumer := Turning(None, s.head))
    case Turning(first, None) => t == s.(consumer := Draining(first))
    case Turning(first, Some(head)) =>
      head < |s.nodes| && t == s.(consumer := Relinking(first, head, s.nodes[head].next))
    case Relinking(first, head, next) =>
      head < |s.nodes| &&
      t == s.(nodes := s.nodes[head := s.nodes[head].(next := first)], consumer := Turning(Some(head), next))
    case Draining(None) => t == s.(consumer := Away)
    case Draining(Some(at)) =>
      at < |s.nodes| && t == s.(delivered := s.delivered + [at], received := s.received + [s.nodes[at].event],
                                consumer := Draining(s.nodes[at].next))
  }

  ghost predicate Next<E(!new)>(s: State<E>, t: State<E>) {
    ConsumerStep(s, t) || exists p, event :: PublisherStep(s, t, p, event)
  }

  ghost predicate Run<E(!new)>(trace: seq<State<E>>) {
    && trace != [] && Init(trace[0])
    && forall k | 0 < k < |trace| :: Next(trace[k - 1], trace[k])
  }

  // ---------- the lists in memory ----------

  /** The nodes from `start` on, following the links to the end. */
  ghost predicate List<E>(nodes: seq<Node<E>>, start: Option<nat>, s: seq<nat>)
    decreases |s|
  {
    match start
    case None => s == []
    case Some(x) => s != [] && s[0] == x && x < |nodes| && List(nodes, nodes[x].next, s[1..])
  }

  /** A list does not change when only nodes outside it are written or added. */
  lemma {:induction false} ListKept<E>(a: seq<Node<E>>, b: seq<Node<E>>, start: Option<nat>, s: seq<nat>)
    requires List(a, start, s)
    requires forall x | x in s && x < |a| :: x < |b| && b[x].next == a[x].next
    ensures List(b, start, s)
    decreases |s|
  {
    if start.Some? {
      assert s[0] in s;
      assert forall x | x in s[1..] :: x in s;
      ListKept(a, b, a[start.value].next, s[1..]);
    }
  }

  ghost function Reverse<T>(s: seq<T>): (r: seq<T>)
    ensures |r| == |s| && forall k | 0 <= k < |s| :: r[k] == s[|s| - 1 - k]
  {
    if s == [] then [] else Reverse(s[1..]) + [s[0]]
  }

  /** What the shared stack, the consumer's detached rest and its turned list hold. */
  datatype View = View(stack: seq<nat>, rest: seq<nat>, turned: seq<nat>)

  ghost predicate Holds<E>(s: State<E>, v: View) {
    && List(s.nodes, s.head, v.stack)
    && match s.consumer
       case Away => v.rest == [] && v.turned == []
       case Turning(first, head) => List(s.nodes, head, v.rest) && List(s.nodes, first, v.turned)
       case Relinking(first, head, next) =>
         && v.rest != [] && v.rest[0] == head && head < |s.nodes|
         && List(s.nodes, next, v.rest[1..]) && s.nodes[head].next == next
         && List(s.nodes, first, v.turned)
       case Draining(at) => v.rest == [] && List(s.nodes, at, v.turned)
  }

  /** In the order of publication: the delivered nodes, those the consumer still has, those on the stack. */
  ghost function Pending(v: View): seq<nat> {
    Reverse(v.rest) + v.turned + Reverse(v.stack)
  }

  ghost function Private<E>(p: Publisher<E>): set<nat> {
    if p.Idle? then {} else {p.node}
  }

  /** A publisher's own node is on no list, and is linked to what it saw when it is about to be pushed. */
  ghost predicate Owns<E>(s: State<E>, p: nat)
    requires p < |s.publishers|
  {
    var q := s.publishers[p];
    && (!q.Idle? ==> q.node < |s.nodes| && q.node !in s.published && s.nodes[q.node].event == q.event)
    && (q.Swapping? ==> s.nodes[q.node].next == q.seen)
  }

  /** The log holds the events of these nodes. */
  ghost predicate Logs<E>(nodes: seq<Node<E>>, s: seq<nat>, log: seq<E>) {
    |log| == |s| && forall k | 0 <= k < |s| :: s[k] < |nodes| && nodes[s[k]].event == log[k]
  }

  ghost predicate Inv<E>(s: State<E>, v: View) {
    && Holds(s, v)
    && Logs(s.nodes, s.published, s.sent) && Logs(s.nodes, s.delivered, s.received)
    && Distinct(s.published)
    && (forall x | x in s.published :: x < |s.nodes|)
    && s.published == s.delivered + Pending(v)
    && (forall p | 0 <= p < |s.publishers| :: Owns(s, p))
    && (forall p, q | 0 <= p < q < |s.publishers| :: Private(s.publishers[p]) !! Private(s.publishers[q]))
  }

  lemma InReverse<T>(s: seq<T>, x: T)
    ensures x in Reverse(s) <==> x in s
  {
    if x in s {
      var k :| 0 <= k < |s| && s[k] == x;
      assert Reverse(s)[|s| - 1 - k] == x;
    }
  }

  lemma Listed<E>(s: State<E>, v: View)
    requires Inv(s, v)
    ensures forall x | x in v.rest || x in v.turned || x in v.stack :: x in s.published && x !in s.delivered
    ensures forall x | x in v.rest :: x !in v.turned && x !in v.stack
    ensures forall x | x in v.turned :: x !in v.stack
    ensures Distinct(v.rest) && Distinct(v.turned) && Distinct(v.stack)
  {
    hide Holds, Owns, Private;
    var a, b, c, d := s.delivered, Reverse(v.rest), v.turned, Reverse(v.stack);
    assert s.published == a + b + c + d;
    forall x ensures x in b <==> x in v.rest { InReverse(v.rest, x); }
    forall x ensures x in d <==> x in v.stack { InReverse(v.stack, x); }
    FourApart(a, b, c, d);
    assert forall i | 0 <= i < |v.rest| :: b[|b| - 1 - i] == v.rest[i];
    assert forall i | 0 <= i < |v.stack| :: d[|d| - 1 - i] == v.stack[i];
  }

  lemma FourApart<T>(a: seq<T>, b: seq<T>, c: seq<T>, d: seq<T>)
    requires Distinct(a + b + c + d)
    ensures forall x | x in b || x in c || x in d :: x in a + b + c + d && x !in a
    ensures forall x | x in b :: x !in c && x !in d
    ensures forall x | x in c :: x !in d
    ensures Distinct(b) && Distinct(c) && Distinct(d)
  {
    var s := a + b + c + d;
    assert forall i | 0 <= i < |a| :: s[i] == a[i];
    assert forall i | 0 <= i < |b| :: s[|a| + i] == b[i];
    assert forall i | 0 <= i < |c| :: s[|a| + |b| + i] == c[i];
    assert forall i | 0 <= i < |d| :: s[|a| + |b| + |c| + i] == d[i];
  }

  // ---------- every step keeps the invariant ----------

  /** Writing a node on no list, or adding one, leaves all lists as they are. */
  lemma HoldsKept<E>(s: State<E>, t: State<E>, v: View)
    requires Inv(s, v) && t.head == s.head && t.consumer == s.consumer && |s.nodes| <= |t.nodes|
    requires forall x | x in s.published :: x < |s.nodes| && t.nodes[x].next == s.nodes[x].next
    ensures Holds(t, v)
  {
    hide Owns, Private;
    Listed(s, v);
    ListKept(s.nodes, t.nodes, s.head, v.stack);
    match s.consumer
    case Away =>
    case Turning(first, head) =>
      ListKept(s.nodes, t.nodes, head, v.rest);
      ListKept(s.nodes, t.nodes, first, v.turned);
    case Relinking(first, node, next) =>
      assert node in v.rest;
      assert forall x | x in v.rest[1..] :: x in v.rest;
      ListKept(s.nodes, t.nodes, next, v.rest[1..]);
      ListKept(s.nodes, t.nodes, first, v.turned);
    case Draining(event) =>
      ListKept(s.nodes, t.nodes, event, v.turned);
  }

  lemma PublisherKeepsInv<E>(s: State<E>, t: State<E>, v: View, p: nat, event: E) returns (w: View)
    requires Inv(s, v) && PublisherStep(s, t, p, event)
    ensures Inv(t, w)
  {
    hide Holds, Pending;
    w := v;
    assert Owns(s, p);
    match s.publishers[p]
    case Idle =>
      HoldsKept(s, t, v);
      forall q | 0 <= q < |t.publishers| ensures Owns(t, q) { assert Owns(s, q); }
      forall q | 0 <= q < |t.publishers| && q != p ensures Private(t.publishers[q]) !! {|s.nodes|} { assert Owns(s, q); }
    case Loading(node, own) =>
      HoldsKept(s, t, v);
      forall q | 0 <= q < |t.publishers| ensures Owns(t, q) { assert Owns(s, q); }
    case Linking(node, own, seen) =>
      HoldsKept(s, t, v);
      forall q | 0 <= q < |t.publishers| ensures Owns(t, q) {
        assert Owns(s, q);
        assert q != p ==> Private(s.publishers[q]) !! Private(s.publishers[p]);
      }
    case Swapping(node, own, seen) =>
      forall q | 0 <= q < |t.publishers| ensures Owns(t, q) {
        assert Owns(s, q);
        assert q != p ==> Private(s.publishers[q]) !! Private(s.publishers[p]);
      }
      if s.head == seen {
        w := View([node] + v.stack, v.rest, v.turned);
        Pushed(s, t, v, node);
      } else {
        HoldsKept(s, t, v);
      }
  }

  lemma Pushed<E>(s: State<E>, t: State<E>, v: View, node: nat)
    requires Holds(s, v) && node < |s.nodes| && s.nodes[node].next == s.head
    requires t.nodes == s.nodes && t.head == Some(node) && t.consumer == s.consumer
    ensures Holds(t, View([node] + v.stack, v.rest, v.turned))
    ensures Pending(View([node] + v.stack, v.rest, v.turned)) == Pending(v) + [node]
  {
    var longer := [node] + v.stack;
    assert longer[1..] == v.stack;
    assert Reverse(longer) == Reverse(v.stack) + [node];
  }

  lemma ConsumerKeepsInv<E>(s: State<E>, t: State<E>, v: View) returns (w: View)
    requires Inv(s, v) && ConsumerStep(s, t)
    ensures Inv(t, w)
  {
    hide Owns, Private;
    w := v;
    LogsKept(s, t, v);
    hide Logs;
    forall p | 0 <= p < |t.publishers| ensures Owns(t, p) { OwnsKept(s, t, v, p); }
    match s.consumer
    case Away =>
      w := View([], v.stack, []);
      assert Reverse<nat>([]) == [];
      assert Pending(w) == Pending(v);
    case Turning(first, None) =>
    case Turning(first, Some(head)) =>
    case Relinking(first, node, next) =>
      w := View(v.stack, v.rest[1..], [node] + v.turned);
      Relinked(s, t, v);
    case Draining(None) =>
    case Draining(Some(event)) =>
      w := View(v.stack, [], v.turned[1..]);
      assert v.turned == [event] + v.turned[1..];
      assert Reverse<nat>([]) == [];
      assert Pending(v) == [event] + Pending(w);
      assert s.delivered + Pending(v) == t.delivered + Pending(w);
  }

  /** Relinking keeps the events, and the one received is that of the node it is found in. */
  lemma LogsKept<E>(s: State<E>, t: State<E>, v: View)
    requires Inv(s, v) && ConsumerStep(s, t)
    ensures Logs(t.nodes, t.published, t.sent) && Logs(t.nodes, t.delivered, t.received)
  {
    hide Owns, Private, Pending, Holds;
  }

  /** The consumer writes only nodes that were published and are off the stack, so no publisher's own. */
  lemma OwnsKept<E>(s: State<E>, t: State<E>, v: View, p: nat)
    requires Inv(s, v) && ConsumerStep(s, t) && p < |s.publishers|
    ensures t.publishers == s.publishers && Owns(t, p)
  {
    hide Pending;
    assert Owns(s, p);
    if s.consumer.Relinking? {
      Listed(s, v);
      assert s.consumer.node in v.rest;
    }
  }

  lemma Relinked<E>(s: State<E>, t: State<E>, v: View)
    requires Inv(s, v) && ConsumerStep(s, t) && s.consumer.Relinking?
    ensures var w := View(v.stack, v.rest[1..], [s.consumer.node] + v.turned);
            Holds(t, w) && Pending(w) == Pending(v)
  {
    hide Owns, Private, Pending;
    var node, rest := s.consumer.node, v.rest[1..];
    assert v.rest == [node] + rest;
    NodeApart(s, v, rest);
    RelinkedLists(s, t, v, rest);
    PendingMoves(v.stack, node, rest, v.turned);
  }

  lemma NodeApart<E>(s: State<E>, v: View, rest: seq<nat>)
    requires Inv(s, v) && s.consumer.Relinking? && v.rest == [s.consumer.node] + rest
    ensures s.consumer.node !in rest && s.consumer.node !in v.turned && s.consumer.node !in v.stack
  {
    hide Owns, Private, Pending, Holds;
    Listed(s, v);
    assert v.rest[0] in v.rest;
    assert forall k | 0 <= k < |rest| :: rest[k] == v.rest[k + 1];
  }

  lemma PendingMoves(stack: seq<nat>, node: nat, rest: seq<nat>, turned: seq<nat>)
    ensures Pending(View(stack, [node] + rest, turned)) == Pending(View(stack, rest, [node] + turned))
  {
    assert ([node] + rest)[1..] == rest;
    assert Reverse([node] + rest) == Reverse(rest) + [node];
  }

  lemma RelinkedLists<E>(s: State<E>, t: State<E>, v: View, rest: seq<nat>)
    requires Holds(s, v) && ConsumerStep(s, t) && s.consumer.Relinking?
    requires v.rest == [s.consumer.node] + rest
    requires s.consumer.node !in rest && s.consumer.node !in v.turned && s.consumer.node !in v.stack
    ensures Holds(t, View(v.stack, rest, [s.consumer.node] + v.turned))
  {
    var node, longer := s.consumer.node, [s.consumer.node] + v.turned;
    assert v.rest[1..] == rest && longer[1..] == v.turned;
    ListKept(s.nodes, t.nodes, s.head, v.stack);
    ListKept(s.nodes, t.nodes, s.consumer.next, rest);
    ListKept(s.nodes, t.nodes, s.consumer.first, v.turned);
  }

  lemma {:induction false} RunKeepsInv<E(!new)>(trace: seq<State<E>>) returns (v: View)
    requires Run(trace)
    ensures Inv(trace[|trace| - 1], v)
  {
    var last := |trace| - 1;
    if last == 0 {
      v := View([], [], []);
      assert Reverse<nat>([]) == [];
    } else {
      assert Run(trace[..last]);
      var u := RunKeepsInv(trace[..last]);
      var s, t := trace[last - 1], trace[last];
      assert Next(s, t);
      if ConsumerStep(s, t) {
        v := ConsumerKeepsInv(s, t, u);
      } else {
        var p, event :| PublisherStep(s, t, p, event);
        v := PublisherKeepsInv(s, t, u, p, event);
      }
    }
  }

  // ---------- what every run delivers ----------

  /** In every run the events received are the first ones sent, in the order of their
      compare-and-swap, none twice; and once nothing is on the stack or with the consumer, they are
      all of them. */
  lemma DeliveredInOrder<E(!new)>(trace: seq<State<E>>)
    requires Run(trace)
    ensures var s := trace[|trace| - 1];
            && s.delivered <= s.published && Distinct(s.published)
            && |s.sent| == |s.published| && |s.received| == |s.delivered| && s.received <= s.sent
            && (s.head == None && s.consumer == Away ==> s.delivered == s.published && s.received == s.sent)
  {
    var s := trace[|trace| - 1];
    var v := RunKeepsInv(trace);
    assert forall k | 0 <= k < |s.delivered| :: s.delivered[k] == s.published[k];
    if s.head == None && s.consumer == Away {
      assert Reverse<nat>([]) == [];
      assert Pending(v) == [];
    }
  }

  /** What the consumer relinks is never on the shared stack, and is no publisher's own node. */
  lemma OnlyDetachedWritten<E(!new)>(trace: seq<State<E>>) returns (stack: seq<nat>)
    requires Run(trace) && trace[|trace| - 1].consumer.Relinking?
    ensures var s := trace[|trace| - 1];
            && List(s.nodes, s.head, stack) && s.consumer.node !in stack
            && s.consumer.node in s.published && s.consumer.node !in s.delivered
            && forall p | 0 <= p < |s.publishers| :: s.consumer.node !in Private(s.publishers[p])
  {
    var s := trace[|trace| - 1];
    var v := RunKeepsInv(trace);
    stack := v.stack;
    Listed(s, v);
    assert s.consumer.node in v.rest;
    forall p | 0 <= p < |s.publishers| ensures s.consumer.node !in Private(s.publishers[p]) {
      assert Owns(s, p);
    }
  }
}
