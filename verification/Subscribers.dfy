/** The subscriber list of a topic (src/mqtt_message.c) on values. */
module SubscriberSpec {
  import opened Sequences
  import opened Strings
  import opened Wrappers

  datatype Subscription = Subscription(client: seq<byte>, qos: nat)

  /** What `clients_tail` points to: nothing, the last node that can be reached from
      `clients_head`, or a node that has been unlinked. */
  datatype Tail = NoTail | AtLast | Unlinked

  datatype Subs = Subs(nodes: seq<Subscription>, tail: Tail)

  ghost predicate Consistent(s: Subs) {
    if s.nodes == [] then s.tail != AtLast else s.tail != NoTail
  }

  /** The first node of a client, or the length of the list. */
  function First(nodes: seq<Subscription>, client: seq<byte>): (k: nat)
    ensures k <= |nodes|
    ensures k < |nodes| ==> nodes[k].client == client
    ensures forall i :: 0 <= i < k ==> nodes[i].client != client
  {
    if nodes == [] || nodes[0].client == client then 0 else 1 + First(nodes[1..], client)
  }

  function Subscribe(s: Subs, x: Subscription): Subs {
    if s.nodes == [] || s.tail == NoTail then Subs([x], AtLast)
    else if s.tail == AtLast then Subs(s.nodes + [x], AtLast)
    else s
  }

  /** None: the code follows the null head of an emptied list. `movesTail` is false for the code as
      it is written, and true if it moves the tail pointer off the node that it removes. */
  function Unsubscribe(s: Subs, client: seq<byte>, movesTail: bool): Option<Subs> {
    var k := First(s.nodes, client);
    if s.nodes == [] then (if s.tail == NoTail then Some(s) else None)
    else if k == |s.nodes| then Some(s)
    else Some(Without(s, k, movesTail))
  }

  /** The list without node k. */
  function Without(s: Subs, k: nat, movesTail: bool): Subs
    requires k < |s.nodes|
  {
    Subs(Remove(s.nodes, k),
         if movesTail then (if |s.nodes| == 1 then NoTail else s.tail)
         else if k == |s.nodes| - 1 then Unlinked else s.tail)
  }

  // ----- against the list a topic is meant to have

  datatype Op = Sub(x: Subscription) | Unsub(client: seq<byte>, movesTail: bool)

  function Intended(nodes: seq<Subscription>, op: Op): seq<Subscription> {
    match op
    case Sub(x) => nodes + [x]
    case Unsub(client, _) =>
      var k := First(nodes, client);
      if k == |nodes| then nodes else Remove(nodes, k)
  }

  function IntendedRun(ops: seq<Op>): seq<Subscription> {
    if ops == [] then [] else Intended(IntendedRun(ops[..|ops| - 1]), ops[|ops| - 1])
  }

  function Apply(s: Subs, op: Op): Option<Subs> {
    match op
    case Sub(x) => Some(Subscribe(s, x))
    case Unsub(client, movesTail) => Unsubscribe(s, client, movesTail)
  }

  function Run(ops: seq<Op>): (s: Option<Subs>)
    ensures s.Some? ==> Consistent(s.value)
  {
    if ops == [] then Some(Subs([], NoTail))
    else match Run(ops[..|ops| - 1])
      case None => None
      case Some(s) => Apply(s, ops[|ops| - 1])
  }

  /** The tail may be used: a subscriber is appended to a node that can be reached, and nobody
      unsubscribes from a list that has been emptied. */
  predicate Sound(s: Subs, op: Op) {
    match op
    case Sub(_) => s.nodes == [] || s.tail == AtLast
    case Unsub(_, _) => s.nodes != [] || s.tail == NoTail
  }

  lemma StepIff(s: Subs, op: Op)
    requires Consistent(s)
    ensures (Apply(s, op).Some? && Apply(s, op).value.nodes == Intended(s.nodes, op)) <==> Sound(s, op)
  {
    if op.Sub? && !Sound(s, op) {
      assert |Apply(s, op).value.nodes| != |Intended(s.nodes, op)|;
    }
  }

  /** The tail goes stale exactly when the client's first node is the last node. */
  lemma StaleIff(s: Subs, client: seq<byte>)
    requires Consistent(s) && s.tail == AtLast
    ensures var k := First(s.nodes, client);
            && Unsubscribe(s, client, false).Some?
            && (Unsubscribe(s, client, false).value.tail == Unlinked <==> k == |s.nodes| - 1)
  {
  }

  /** After these operations the topic has the subscribers it is meant to have. */
  ghost predicate Faithful(ops: seq<Op>) {
    Run(ops).Some? && Run(ops).value.nodes == IntendedRun(ops)
  }

  ghost predicate SoundAfter(ops: seq<Op>, op: Op) {
    Run(ops).Some? ==> Sound(Run(ops).value, op)
  }

  lemma FaithfulStep(ops: seq<Op>, op: Op)
    requires Faithful(ops)
    ensures Faithful(ops + [op]) <==> SoundAfter(ops, op)
  {
    RunSnoc(ops, op);
    StepIff(Run(ops).value, op);
  }

  /** A topic has the intended subscribers after every step of a run if and only if no step of
      the run finds the tail unlinked when it matters. */
  lemma RunIff(ops: seq<Op>)
    ensures (forall n :: 0 <= n <= |ops| ==> Faithful(ops[..n]))
       <==> (forall n :: 0 <= n < |ops| ==> SoundAfter(ops[..n], ops[n]))
  {
    forall n | 0 <= n < |ops| && Faithful(ops[..n])
      ensures Faithful(ops[..n + 1]) <==> SoundAfter(ops[..n], ops[n])
    {
      assert ops[..n + 1] == ops[..n] + [ops[n]];
      FaithfulStep(ops[..n], ops[n]);
    }
    PrefixIff(ops, Faithful, SoundAfter);
  }

  /** Does the run move the tail whenever it removes a node? */
  ghost predicate MovesTail(ops: seq<Op>) {
    forall i :: 0 <= i < |ops| && ops[i].Unsub? ==> ops[i].movesTail
  }

  /** With the tail moved, every run has the intended subscribers, and the tail is always the last
      node that can be reached from the head. */
  lemma {:induction false} RepairedRun(ops: seq<Op>)
    requires MovesTail(ops)
    ensures Run(ops) == Some(Subs(IntendedRun(ops), if IntendedRun(ops) == [] then NoTail else AtLast))
  {
    if ops != [] {
      var before, op := ops[..|ops| - 1], ops[|ops| - 1];
      RepairedRun(before);
      assert ops == before + [op] && op == ops[|ops| - 1];
      RunSnoc(before, op);
      var nodes := IntendedRun(before);
      assert op.Sub? ==> [] + [op.x] == [op.x];
      if op.Unsub? && First(nodes, op.client) < |nodes| {
        assert Remove(nodes, First(nodes, op.client)) == [] <==> |nodes| == 1;
      }
    }
  }

  /** A client that subscribes after the last of two subscribers has left gets no messages, and
      leaving an emptied topic once more follows a null pointer. */
  lemma LostSubscriber(a: seq<byte>, b: seq<byte>, c: seq<byte>)
    requires a != b
    ensures var ops := [Sub(Subscription(a, 0)), Sub(Subscription(b, 0)), Unsub(b, false), Sub(Subscription(c, 0))];
            Run(ops) == Some(Subs([Subscription(a, 0)], Unlinked)) &&
            IntendedRun(ops) == [Subscription(a, 0), Subscription(c, 0)]
    ensures Run([Sub(Subscription(a, 0)), Unsub(a, false), Unsub(a, false)]) == None
  {
    var x, y, z := Sub(Subscription(a, 0)), Sub(Subscription(b, 0)), Sub(Subscription(c, 0));
    assert [x] == [] + [x] && [x, y] == [x] + [y] && [x, y, Unsub(b, false)] == [x, y] + [Unsub(b, false)];
    assert [x, y, Unsub(b, false), z] == [x, y, Unsub(b, false)] + [z];
    RunSnoc([], x);
    RunSnoc([x], y);
    RunSnoc([x, y], Unsub(b, false));
    RunSnoc([x, y, Unsub(b, false)], z);
    FirstIs([x.x, y.x], b, 1);
    assert [x.x] + [y.x] == [x.x, y.x] && Remove([x.x, y.x], 1) == [x.x];
    assert Run([x, y]).value == Subs([x.x, y.x], AtLast);
    EmptiedTwice(a);
  }

  lemma EmptiedTwice(a: seq<byte>)
    ensures Run([Sub(Subscription(a, 0)), Unsub(a, false), Unsub(a, false)]) == None
  {
    var x, y := Sub(Subscription(a, 0)), Unsub(a, false);
    assert [x] == [] + [x] && [x, y] == [x] + [y] && [x, y, y] == [x, y] + [y];
    RunSnoc([], x);
    RunSnoc([x], y);
    RunSnoc([x, y], y);
    FirstIs([x.x], a, 0);
    assert Remove([x.x], 0) == [];
  }

  lemma RunSnoc(ops: seq<Op>, op: Op)
    ensures IntendedRun(ops + [op]) == Intended(IntendedRun(ops), op)
    ensures Run(ops + [op]) == if Run(ops).None? then None else Apply(Run(ops).value, op)
  {
    assert (ops + [op])[..|ops|] == ops;
  }

  lemma FirstIs(nodes: seq<Subscription>, client: seq<byte>, k: nat)
    requires k <= |nodes| && forall i :: 0 <= i < k ==> nodes[i].client != client
    requires k < |nodes| ==> nodes[k].client == client
    ensures First(nodes, client) == k
  {
  }
}

/** The same list as linked nodes, updated in place. */
module Subscribers {
  import opened Sequences
  import opened Strings
  import opened SubscriberSpec

  datatype Status = Success | NullDereference

  class ClientNode {
    const client: seq<byte>
    const qos: nat
    var next: ClientNode?
    ghost const owner: SubscriberList

    constructor (client: seq<byte>, qos: nat, ghost owner: SubscriberList)
      ensures this.client == client && this.qos == qos && next == null && this.owner == owner
    {
      this.client, this.qos, this.next, this.owner := client, qos, null, owner;
    }
  }

  ghost function Values(ns: seq<ClientNode>): (xs: seq<Subscription>)
    ensures |xs| == |ns|
    ensures forall i {:trigger xs[i]} :: 0 <= i < |ns| ==> xs[i] == Subscription(ns[i].client, ns[i].qos)
  {
    seq(|ns|, i requires 0 <= i < |ns| => Subscription(ns[i].client, ns[i].qos))
  }

  class SubscriberList {
    var head: ClientNode?
    var tail: ClientNode?
    /** Whether unsubscribing moves the tail off a node that it removes; false in the code as written. */
    const movesTail: bool
    ghost var nodes: seq<ClientNode>
    /** The topic whose list it is. */
    ghost const name: seq<byte>

    ghost predicate Valid()
      reads this, nodes, tail
    {
      && (forall n :: n in nodes ==> n.owner == this) && (tail != null ==> tail.owner == this)
      && head == At(nodes, 0, null)
      && (forall i {:trigger nodes[i].next} :: 0 <= i < |nodes| ==> nodes[i].next == At(nodes, i + 1, null))
      && (forall i, j :: 0 <= i < j < |nodes| ==> nodes[i] != nodes[j])
      && (tail == null ==> nodes == [])
      && (tail != null ==> tail.next == null)
      && (movesTail ==> tail == At(nodes, |nodes| - 1, null))
    }

    /** The list, its nodes, and an unlinked node that it still points to. */
    ghost function Footprint(): set<object>
      reads this
    {
      var unlinked: set<ClientNode> := if tail == null then {} else {tail};
      var all: set<object> := (set n: ClientNode | n in nodes) + unlinked;
      all + {this}
    }

    ghost function View(): Subs
      reads this
    {
      Subs(Values(nodes),
           if tail == null then NoTail
           else if nodes != [] && tail == nodes[|nodes| - 1] then AtLast
           else Unlinked)
    }

    constructor (movesTail: bool, ghost name: seq<byte>)
      ensures Valid() && View() == Subs([], NoTail) && this.movesTail == movesTail && this.name == name
      ensures nodes == [] && tail == null
    {
      head, tail, nodes := null, null, [];
      this.movesTail, this.name := movesTail, name;
    }

    /** `mqtt_topic_sub`, once the client has been found. */
    method TopicSub(client: seq<byte>, qos: nat)
      requires Valid()
      modifies this, tail
      ensures Valid() && View() == Subscribe(old(View()), Subscription(client, qos))
      ensures fresh(Footprint() - old(Footprint()))
    {
      var node := new ClientNode(client, qos, this);
      if head == null || tail == null {
        head := node;
        tail := node;
        nodes := [node];
      } else {
        ghost var last := nodes[|nodes| - 1];
        tail.next := node;
        if tail == last {
          nodes := nodes + [node];
        }
        tail := node;
      }
    }

    /** `mqtt_topic_unsub`, once the client has been found. */
    method TopicUnsub(client: seq<byte>) returns (status: Status)
      requires Valid()
      modifies this`head, this`tail, this`nodes, nodes
      ensures status == if Unsubscribe(old(View()), client, movesTail).None? then NullDereference else Success
      ensures status == Success ==> Valid() && View() == Unsubscribe(old(View()), client, movesTail).value
      ensures Footprint() <= old(Footprint())
    {
      hide First, Without;
      if head == null && tail == null {
        return Success;
      }
      var node := head;
      if node == null {
        return NullDereference;
      }
      var cmp := StringCmp(node.client, client);
      if cmp == 0 {
        FirstIs(Values(nodes), client, 0);
        UnlinkFirst();
        return Success;
      }
      var found := false;
      ghost var i := 0;
      while node.next != null && !found
        invariant 0 <= i < |nodes| && node == nodes[i]
        invariant forall j :: 0 <= j <= i ==> nodes[j].client != client
        invariant found ==> node.next != null && node.next.client == client
        decreases |nodes| - i, !found
        modifies {}
      {
        cmp := StringCmp(node.next.client, client);
        if cmp == 0 {
          found := true;
        } else {
          node := node.next;
          i := i + 1;
        }
      }
      FirstIs(Values(nodes), client, i + 1);
      if found {
        UnlinkNext(node, i);
      }
      return Success;
    }

    method UnlinkFirst()
      requires Valid() && nodes != []
      modifies this`head, this`tail, this`nodes
      ensures Valid() && View() == Without(old(View()), 0, movesTail) && Footprint() <= old(Footprint())
    {
      head := head.next;
      if movesTail && head == null {
        tail := null;
      }
      nodes := Remove(nodes, 0);
    }

    method UnlinkNext(node: ClientNode, ghost i: nat)
      requires Valid() && i + 1 < |nodes| && node == nodes[i]
      modifies this`tail, this`nodes, node`next
      ensures Valid() && View() == Without(old(View()), i + 1, movesTail) && Footprint() <= old(Footprint())
    {
      if movesTail && tail == node.next {
        tail := node;
      }
      node.next := node.next.next;
      nodes := Remove(nodes, i + 1);
    }
  }
}
