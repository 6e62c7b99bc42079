/** Topics, subscriptions and the queues of messages not yet sent (src/mqtt_message.c and the
    queue flush of src/mqtt_handler.c) on values. */
module PubSub {
  import opened Sequences
  import opened Strings
  import opened SubscriberSpec
  import opened Wrappers

  type Id = seq<byte>
  type Name = seq<byte>

  datatype Msg = Msg(topic: Name, content: seq<byte>)

  /** `struct client_in_hash`: the socket it was created for and its unsent messages. */
  datatype Client = Client(sockfd: nat, queue: seq<Msg>)

  /** `struct mqtt_topic`: its subscriber list and its message log. */
  datatype Topic = Topic(subs: Subs, log: seq<seq<byte>>)

  /** A message of a client's queue that was handed to a socket. */
  datatype Sent = Sent(sockfd: nat, client: Id, msg: Msg)

  /** `nodes` is `client_hash_node` of each slot, by client id: the client table has one record per id. */
  datatype Engine = Engine(clients: map<Id, Client>, topics: map<Name, Topic>, nodes: map<nat, Id>, out: seq<Sent>)

  const EMPTY := Engine(map[], map[], map[], [])

  ghost predicate Valid(e: Engine) {
    && (forall s :: s in e.nodes ==> e.nodes[s] in e.clients)
    && (forall n :: n in e.topics ==> Known(e, e.topics[n].subs.nodes))
  }

  /** Every topic name fits the two bytes of its length field. */
  ghost predicate Short(e: Engine) {
    forall c :: c in e.clients ==> forall m :: m in e.clients[c].queue ==> |m.topic| <= 65535
  }

  ghost predicate Known(e: Engine, subs: seq<Subscription>) {
    forall i :: 0 <= i < |subs| ==> subs[i].client in e.clients
  }

  // ----- operations

  function Emit(sockfd: nat, c: Id, queue: seq<Msg>): (out: seq<Sent>)
    ensures |out| == |queue|
  {
    if queue == [] then []
    else Emit(sockfd, c, queue[..|queue| - 1]) + [Sent(sockfd, c, queue[|queue| - 1])]
  }

  /** `mqtt_send_client_msg`: the queue of the client that the slot's node names goes to the socket. */
  function Flush(e: Engine, sockfd: nat): Engine {
    if sockfd in e.nodes && e.nodes[sockfd] in e.clients then
      var c := e.nodes[sockfd];
      e.(clients := e.clients[c := e.clients[c].(queue := [])], out := e.out + Emit(sockfd, c, e.clients[c].queue))
    else e
  }

  /** `mqtt_distribute_msg`. */
  function Distribute(e: Engine, c: Id, m: Msg): Engine
    requires c in e.clients
  {
    var queued := e.(clients := e.clients[c := e.clients[c].(queue := e.clients[c].queue + [m])]);
    if e.clients[c].sockfd > 0 then Flush(queued, e.clients[c].sockfd) else queued
  }

  function DistributeAll(e: Engine, subs: seq<Subscription>, m: Msg): (r: Engine)
    requires Known(e, subs)
    ensures r.clients.Keys == e.clients.Keys && r.topics == e.topics && r.nodes == e.nodes
  {
    if subs == [] then e
    else Distribute(DistributeAll(e, subs[..|subs| - 1], m), subs[|subs| - 1].client, m)
  }

  function TopicIn(topics: map<Name, Topic>, name: Name): Topic {
    if name in topics then topics[name] else Topic(Subs([], NoTail), [])
  }

  function TopicOf(e: Engine, name: Name): Topic {
    TopicIn(e.topics, name)
  }

  /** `_mqtt_topic_add_msg` on the topic of that name, which is created if there is none. */
  function Publish(e: Engine, name: Name, content: seq<byte>): Engine
    requires Known(e, TopicOf(e, name).subs.nodes)
  {
    var topic := TopicOf(e, name);
    var logged := e.(topics := e.topics[name := topic.(log := topic.log + [content])]);
    DistributeAll(logged, topic.subs.nodes, Msg(name, content))
  }

  /** One round of `mqtt_parse_subtopices`: the topic is created if need be, then `mqtt_topic_sub`. */
  function SubscribeTo(e: Engine, name: Name, c: Id, qos: nat): Engine {
    var topic := TopicOf(e, name);
    e.(topics := e.topics[name :=
        if c in e.clients then topic.(subs := Subscribe(topic.subs, Subscription(c, qos))) else topic])
  }

  /** `mqtt_topic_unsub`. None: it follows a null pointer. */
  function WithoutClient(topics: map<Name, Topic>, name: Name, c: Id, movesTail: bool): Option<map<Name, Topic>> {
    if name !in topics then Some(topics)
    else match Unsubscribe(topics[name].subs, c, movesTail)
      case None => None
      case Some(subs) => Some(topics[name := topics[name].(subs := subs)])
  }

  function UnsubscribeFrom(e: Engine, name: Name, c: Id, movesTail: bool): Option<Engine> {
    if c !in e.clients then Some(e)
    else match WithoutClient(e.topics, name, c, movesTail)
      case None => None
      case Some(topics) => Some(e.(topics := topics))
  }

  /** `mqtt_set_env` for a slot. A known client keeps the socket it was first seen on, unless
      that is refreshed. */
  function Attach(e: Engine, sockfd: nat, c: Id, refresh: bool): Engine {
    e.(nodes := e.nodes[sockfd := c],
       clients := if c !in e.clients then e.clients[c := Client(sockfd, [])]
                  else if refresh then e.clients[c := e.clients[c].(sockfd := sockfd)] else e.clients)
  }

  /** The slot and the client's record no longer point at each other. */
  function Detach(e: Engine, sockfd: nat): Engine {
    if sockfd in e.nodes && e.nodes[sockfd] in e.clients then
      var c := e.nodes[sockfd];
      e.(nodes := e.nodes - {sockfd}, clients := e.clients[c := e.clients[c].(sockfd := 0)])
    else e.(nodes := e.nodes - {sockfd})
  }

  // ----- runs

  datatype Action =
    | DoAttach(sockfd: nat, client: Id, refresh: bool)
    | DoDetach(sockfd: nat)
    | DoFlush(sockfd: nat)
    | DoSubscribe(name: Name, client: Id, qos: nat)
    | DoUnsubscribe(name: Name, client: Id, movesTail: bool)
    | DoPublish(name: Name, content: seq<byte>)

  function Step(e: Engine, a: Action): Option<Engine>
    requires Valid(e)
  {
    match a
    case DoAttach(s, c, refresh) => Some(Attach(e, s, c, refresh))
    case DoDetach(s) => Some(Detach(e, s))
    case DoFlush(s) => Some(Flush(e, s))
    case DoSubscribe(n, c, qos) => Some(SubscribeTo(e, n, c, qos))
    case DoUnsubscribe(n, c, movesTail) => UnsubscribeFrom(e, n, c, movesTail)
    case DoPublish(n, content) => assert Known(e, TopicOf(e, n).subs.nodes); Some(Publish(e, n, content))
  }

  lemma StepValid(e: Engine, a: Action)
    requires Valid(e)
    ensures Step(e, a).Some? ==> Valid(Step(e, a).value)
  {
    if a.DoUnsubscribe? {
      UnsubscribeValid(e, a);
    }
  }

  lemma UnsubscribeValid(e: Engine, a: Action)
    requires Valid(e) && a.DoUnsubscribe?
    ensures Step(e, a).Some? ==> Valid(Step(e, a).value)
  {
    if a.name in e.topics && Step(e, a).Some? {
      var was, now := e.topics[a.name].subs, TopicOf(Step(e, a).value, a.name).subs;
      assert forall x :: x in now.nodes ==> x in was.nodes;
    }
  }

  function Run(trace: seq<Action>): (e: Option<Engine>)
    ensures e.Some? ==> Valid(e.value)
  {
    if trace == [] then Some(EMPTY)
    else match Run(trace[..|trace| - 1])
      case None => None
      case Some(e) => StepValid(e, trace[|trace| - 1]); Step(e, trace[|trace| - 1])
  }

  // ----- the reference: subscriptions and publications alone

  /** The clients that have ever been connected. */
  function Clients(trace: seq<Action>): set<Id> {
    if trace == [] then {}
    else Clients(trace[..|trace| - 1]) + (if trace[|trace| - 1].DoAttach? then {trace[|trace| - 1].client} else {})
  }

  /** What an action asks of one topic's subscriber list. */
  function OpOf(clients: set<Id>, a: Action, name: Name): Option<Op> {
    match a
    case DoSubscribe(n, c, qos) => if n == name && c in clients then Some(Sub(Subscription(c, qos))) else None
    case DoUnsubscribe(n, c, movesTail) => if n == name && c in clients then Some(Unsub(c, movesTail)) else None
    case _ => None
  }

  function TopicOps(trace: seq<Action>, name: Name): seq<Op> {
    if trace == [] then [] else
      var before := trace[..|trace| - 1];
      match OpOf(Clients(before), trace[|trace| - 1], name)
      case Some(op) => TopicOps(before, name) + [op]
      case None => TopicOps(before, name)
  }

  /** One copy for each subscription the client holds. */
  function Copies(nodes: seq<Subscription>, c: Id, m: Msg): seq<Msg> {
    if nodes == [] then []
    else Copies(nodes[..|nodes| - 1], c, m) + (if nodes[|nodes| - 1].client == c then [m] else [])
  }

  function Holders(trace: seq<Action>, name: Name): seq<Subscription> {
    match SubscriberSpec.Run(TopicOps(trace, name))
    case Some(s) => s.nodes
    case None => []
  }

  /** Everything a client is owed: each message published to a topic, in order, once for each
      subscription it held there at the time. */
  function Owed(trace: seq<Action>, c: Id): seq<Msg> {
    if trace == [] then [] else
      var before, a := trace[..|trace| - 1], trace[|trace| - 1];
      Owed(before, c) + (if a.DoPublish? then Copies(Holders(before, a.name), c, Msg(a.name, a.content)) else [])
  }

  function Published(trace: seq<Action>, name: Name): seq<seq<byte>> {
    if trace == [] then [] else
      var before, a := trace[..|trace| - 1], trace[|trace| - 1];
      Published(before, name) + (if a.DoPublish? && a.name == name then [a.content] else [])
  }

  // ----- conservation

  function SentOf(out: seq<Sent>, c: Id): seq<Msg> {
    if out == [] then []
    else SentOf(out[..|out| - 1], c) + (if out[|out| - 1].client == c then [out[|out| - 1].msg] else [])
  }

  function QueueOf(e: Engine, c: Id): seq<Msg> {
    if c in e.clients then e.clients[c].queue else []
  }

  /** What has been handed out for a client, followed by what still waits for it. */
  function Total(e: Engine, c: Id): seq<Msg> {
    SentOf(e.out, c) + QueueOf(e, c)
  }

  lemma SentOfSnoc(out: seq<Sent>, x: Sent, c: Id)
    ensures SentOf(out + [x], c) == SentOf(out, c) + if x.client == c then [x.msg] else []
  {
    assert (out + [x])[..|out|] == out;
  }

  lemma {:induction false} SentOfEmit(out: seq<Sent>, sockfd: nat, owner: Id, queue: seq<Msg>, c: Id)
    ensures SentOf(out + Emit(sockfd, owner, queue), c) == SentOf(out, c) + if c == owner then queue else []
  {
    hide SentOf;
    if queue == [] {
      assert out + Emit(sockfd, owner, queue) == out;
    } else {
      var init, last := queue[..|queue| - 1], queue[|queue| - 1];
      SentOfEmit(out, sockfd, owner, init, c);
      SentOfSnoc(out + Emit(sockfd, owner, init), Sent(sockfd, owner, last), c);
      assert out + Emit(sockfd, owner, queue) == out + Emit(sockfd, owner, init) + [Sent(sockfd, owner, last)];
      assert queue == init + [last];
    }
  }

  lemma FlushConserves(e: Engine, sockfd: nat, c: Id)
    ensures Total(Flush(e, sockfd), c) == Total(e, c)
  {
    if sockfd in e.nodes && e.nodes[sockfd] in e.clients {
      var owner := e.nodes[sockfd];
      SentOfEmit(e.out, sockfd, owner, e.clients[owner].queue, c);
    }
  }

  lemma DistributeAddsOne(e: Engine, d: Id, m: Msg, c: Id)
    requires d in e.clients
    ensures Total(Distribute(e, d, m), c) == Total(e, c) + if c == d then [m] else []
  {
    var queued := e.(clients := e.clients[d := e.clients[d].(queue := e.clients[d].queue + [m])]);
    FlushConserves(queued, e.clients[d].sockfd, c);
  }

  lemma {:induction false} DistributeAllAddsCopies(e: Engine, subs: seq<Subscription>, m: Msg, c: Id)
    requires Known(e, subs)
    ensures Total(DistributeAll(e, subs, m), c) == Total(e, c) + Copies(subs, c, m)
  {
    if subs != [] {
      var init := subs[..|subs| - 1];
      DistributeAllAddsCopies(e, init, m, c);
      DistributeAddsOne(DistributeAll(e, init, m), subs[|subs| - 1].client, m, c);
    }
  }

  lemma StepTables(e: Engine, a: Action, name: Name)
    requires Valid(e) && Step(e, a).Some?
    ensures var e' := Step(e, a).value;
            && e'.clients.Keys == e.clients.Keys + (if a.DoAttach? then {a.client} else {})
            && TopicOf(e', name).log == TopicOf(e, name).log + (if a.DoPublish? && a.name == name then [a.content] else [])
            && Some(TopicOf(e', name).subs) == match OpOf(e.clients.Keys, a, name)
                                               case None => Some(TopicOf(e, name).subs)
                                               case Some(op) => Apply(TopicOf(e, name).subs, op)
  {
    if a.DoUnsubscribe? && a.name !in e.topics {
      assert First([], a.client) == 0;
    }
  }

  /** The engine's tables are what the trace makes of each topic and client on its own. */
  lemma {:induction false} TablesFollowTrace(trace: seq<Action>, name: Name)
    requires Run(trace).Some?
    ensures Run(trace).value.clients.Keys == Clients(trace)
    ensures SubscriberSpec.Run(TopicOps(trace, name)) == Some(TopicOf(Run(trace).value, name).subs)
    ensures TopicOf(Run(trace).value, name).log == Published(trace, name)
  {
    if trace != [] {
      hide Step, Valid, TopicOf, OpOf, Apply;
      var before, a := trace[..|trace| - 1], trace[|trace| - 1];
      TablesFollowTrace(before, name);
      StepTables(Run(before).value, a, name);
      match OpOf(Clients(before), a, name)
      case Some(op) => RunSnoc(TopicOps(before, name), op);
      case None =>
    } else {
      hide Step, Valid, OpOf, Apply;
    }
  }

  lemma PublishAddsCopies(e: Engine, name: Name, content: seq<byte>, c: Id)
    requires Known(e, TopicOf(e, name).subs.nodes)
    ensures Total(Publish(e, name, content), c) == Total(e, c) + Copies(TopicOf(e, name).subs.nodes, c, Msg(name, content))
  {
    var topic := TopicOf(e, name);
    var logged := e.(topics := e.topics[name := topic.(log := topic.log + [content])]);
    DistributeAllAddsCopies(logged, topic.subs.nodes, Msg(name, content), c);
  }

  lemma StepConserves(e: Engine, a: Action, c: Id)
    requires Valid(e) && Step(e, a).Some?
    ensures Total(Step(e, a).value, c) == Total(e, c) +
            if a.DoPublish? then Copies(TopicOf(e, a.name).subs.nodes, c, Msg(a.name, a.content)) else []
  {
    hide Total, Publish, Flush;
    match a
    case DoPublish(n, content) => PublishAddsCopies(e, n, content, c);
    case DoFlush(s) => FlushConserves(e, s, c);
    case _ => SameTotal(e, Step(e, a).value, c);
  }

  /** Nothing is lost, duplicated or reordered on any run: for every client, what has been handed
      out followed by what waits is what the client is owed. */
  lemma {:induction false} Conservation(trace: seq<Action>, c: Id)
    requires Run(trace).Some?
    ensures Total(Run(trace).value, c) == Owed(trace, c)
  {
    if trace != [] {
      hide Step, Valid, TopicOf, Total, Copies;
      var before, a := trace[..|trace| - 1], trace[|trace| - 1];
      Conservation(before, c);
      StepConserves(Run(before).value, a, c);
      if a.DoPublish? {
        TablesFollowTrace(before, a.name);
      }
    } else {
      assert Total(EMPTY, c) == [];
    }
  }

  lemma SameTotal(e: Engine, e': Engine, c: Id)
    requires e.out == e'.out && QueueOf(e, c) == QueueOf(e', c)
    ensures Total(e, c) == Total(e', c)
  {
  }

  // ----- against the subscriptions as they are meant

  /** What a client is owed if subscribing always takes effect. */
  function OwedIntended(trace: seq<Action>, c: Id): seq<Msg> {
    if trace == [] then [] else
      var before, a := trace[..|trace| - 1], trace[|trace| - 1];
      OwedIntended(before, c) +
      (if a.DoPublish? then Copies(IntendedRun(TopicOps(before, a.name)), c, Msg(a.name, a.content)) else [])
  }

  function Count(nodes: seq<Subscription>, c: Id): nat {
    if nodes == [] then 0
    else Count(nodes[..|nodes| - 1], c) + (if nodes[|nodes| - 1].client == c then 1 else 0)
  }

  lemma {:induction false} CopiesCount(nodes: seq<Subscription>, c: Id, m: Msg)
    ensures |Copies(nodes, c, m)| == Count(nodes, c)
    ensures forall i :: 0 <= i < |Copies(nodes, c, m)| ==> Copies(nodes, c, m)[i] == m
  {
    if nodes != [] {
      CopiesCount(nodes[..|nodes| - 1], c, m);
    }
  }

  lemma CopiesIff(a: seq<Subscription>, b: seq<Subscription>, c: Id, m: Msg)
    ensures Copies(a, c, m) == Copies(b, c, m) <==> Count(a, c) == Count(b, c)
  {
    CopiesCount(a, c, m);
    CopiesCount(b, c, m);
  }

  /** The server still runs, and every client has been or will be sent what its subscriptions owe it. */
  ghost predicate Delivers(trace: seq<Action>) {
    Run(trace).Some? && forall c :: Total(Run(trace).value, c) == OwedIntended(trace, c)
  }

  /** The action follows no null pointer, and whatever it publishes meets as many subscriber nodes
      of each client as the client means to have. */
  ghost predicate MeetsAll(trace: seq<Action>, a: Action) {
    Run(trace).Some? ==>
      && Step(Run(trace).value, a).Some?
      && (a.DoPublish? ==> forall c :: Count(Holders(trace, a.name), c) == Count(IntendedRun(TopicOps(trace, a.name)), c))
  }

  lemma TraceSnoc(trace: seq<Action>, a: Action)
    ensures Run(trace + [a]) == if Run(trace).None? then None else Step(Run(trace).value, a)
    ensures Run(trace).Some? && !a.DoUnsubscribe? ==> Run(trace + [a]).Some?
    ensures Clients(trace + [a]) == Clients(trace) + (if a.DoAttach? then {a.client} else {})
    ensures forall n :: TopicOps(trace + [a], n) == match OpOf(Clients(trace), a, n)
                                                    case Some(op) => TopicOps(trace, n) + [op]
                                                    case None => TopicOps(trace, n)
    ensures forall c :: Owed(trace + [a], c) == Owed(trace, c) +
              if a.DoPublish? then Copies(Holders(trace, a.name), c, Msg(a.name, a.content)) else []
    ensures forall c :: OwedIntended(trace + [a], c) == OwedIntended(trace, c) +
              if a.DoPublish? then Copies(IntendedRun(TopicOps(trace, a.name)), c, Msg(a.name, a.content)) else []
  {
    assert (trace + [a])[..|trace|] == trace;
  }

  /** The same for one topic. */
  lemma OpsSnoc(trace: seq<Action>, a: Action, name: Name)
    ensures TopicOps(trace + [a], name) ==
            TopicOps(trace, name) + match OpOf(Clients(trace), a, name) case Some(op) => [op] case None => []
    ensures Clients(trace) <= Clients(trace + [a])
  {
    assert (trace + [a])[..|trace|] == trace;
  }

  lemma DeliversStep(trace: seq<Action>, a: Action)
    requires Delivers(trace)
    ensures Delivers(trace + [a]) <==> MeetsAll(trace, a)
  {
    hide Step, Valid, Total, Copies, OwedIntended, Run, TopicOps, Count;
    TraceSnoc(trace, a);
    var e := Run(trace).value;
    if Step(e, a).Some? {
      var t := Step(e, a).value;
      if a.DoPublish? {
        TablesFollowTrace(trace, a.name);
        var had, meant := Holders(trace, a.name), IntendedRun(TopicOps(trace, a.name));
        var m := Msg(a.name, a.content);
        forall c
          ensures Total(t, c) == OwedIntended(trace + [a], c) <==> Count(had, c) == Count(meant, c)
        {
          StepConserves(e, a, c);
          CopiesIff(had, meant, c, m);
          SameSuffix(Total(e, c), Copies(had, c, m), Copies(meant, c, m));
        }
      } else {
        forall c
          ensures Total(t, c) == OwedIntended(trace + [a], c)
        {
          StepConserves(e, a, c);
          assert Total(e, c) + [] == Total(e, c);
        }
      }
    }
  }

  lemma SameSuffix<T>(s: seq<T>, x: seq<T>, y: seq<T>)
    ensures s + x == s + y <==> x == y
  {
    assert (s + x)[|s|..] == x && (s + y)[|s|..] == y;
  }

  /** A run delivers what is meant throughout if and only if it never unsubscribes from an emptied
      list and every publication meets the nodes that each client means to have. */
  lemma DeliveryIff(trace: seq<Action>)
    ensures (forall n :: 0 <= n <= |trace| ==> Delivers(trace[..n]))
       <==> (forall n :: 0 <= n < |trace| ==> MeetsAll(trace[..n], trace[n]))
  {
    hide *;
    NothingOwed();
    forall n | 0 <= n < |trace| && Delivers(trace[..n])
      ensures Delivers(trace[..n + 1]) <==> MeetsAll(trace[..n], trace[n])
    {
      assert trace[..n + 1] == trace[..n] + [trace[n]];
      DeliversStep(trace[..n], trace[n]);
    }
    PrefixIff(trace, Delivers, MeetsAll);
  }

  lemma NothingOwed()
    ensures Delivers([])
  {
  }

  /** The action finds the tail of its topic's list where it may be used: a known client subscribes to
      an empty list or behind a tail that can be reached, and does not leave an emptied one. */
  predicate Guarded(e: Engine, a: Action) {
    match a
    case DoSubscribe(name, c, qos) => c in e.clients ==> Sound(TopicOf(e, name).subs, Sub(Subscription(c, qos)))
    case DoUnsubscribe(name, c, movesTail) => c in e.clients ==> Sound(TopicOf(e, name).subs, Unsub(c, movesTail))
    case _ => true
  }

  ghost predicate GuardedAfter(trace: seq<Action>, a: Action) {
    Run(trace).Some? ==> Guarded(Run(trace).value, a)
  }

  /** The server still runs, and every topic has the subscribers it is meant to have. */
  ghost predicate AllFaithful(trace: seq<Action>) {
    Run(trace).Some? && forall name :: Faithful(TopicOps(trace, name))
  }

  lemma FaithfulTopic(trace: seq<Action>, a: Action, name: Name)
    requires Run(trace).Some? && Faithful(TopicOps(trace, name))
    ensures Faithful(TopicOps(trace + [a], name)) <==>
              match OpOf(Run(trace).value.clients.Keys, a, name)
              case Some(op) => Sound(TopicOf(Run(trace).value, name).subs, op)
              case None => true
  {
    hide Run, TopicOps, TopicOf, Clients, OpOf, Sound, Faithful;
    TraceSnoc(trace, a);
    TablesFollowTrace(trace, name);
    match OpOf(Clients(trace), a, name)
    case Some(op) => FaithfulStep(TopicOps(trace, name), op);
    case None =>
  }

  lemma GuardedSteps(e: Engine, a: Action)
    requires Valid(e) && Guarded(e, a)
    ensures Step(e, a).Some?
  {
  }

  lemma GuardedIs(e: Engine, a: Action, name: Name)
    ensures Guarded(e, a) ==> match OpOf(e.clients.Keys, a, name)
                              case Some(op) => Sound(TopicOf(e, name).subs, op)
                              case None => true
    ensures !Guarded(e, a) ==> (a.DoSubscribe? || a.DoUnsubscribe?) && match OpOf(e.clients.Keys, a, a.name)
                                                                      case Some(op) => !Sound(TopicOf(e, a.name).subs, op)
                                                                      case None => false
  {
  }

  lemma AllFaithfulStep(trace: seq<Action>, a: Action)
    requires AllFaithful(trace)
    ensures AllFaithful(trace + [a]) <==> GuardedAfter(trace, a)
  {
    hide Run, TopicOps, TopicOf, Guarded, Faithful, Step, OpOf, Sound, Valid;
    var e := Run(trace).value;
    forall name
      ensures Guarded(e, a) ==> Faithful(TopicOps(trace + [a], name))
    {
      FaithfulTopic(trace, a, name);
      GuardedIs(e, a, name);
    }
    if Guarded(e, a) {
      GuardedSteps(e, a);
      TraceSnoc(trace, a);
    } else {
      GuardedIs(e, a, []);
      FaithfulTopic(trace, a, a.name);
    }
  }

  /** Every topic has the subscribers it is meant to have throughout a run if and only if every step
      is guarded. */
  lemma FaithfulRunIff(trace: seq<Action>)
    ensures (forall n :: 0 <= n <= |trace| ==> AllFaithful(trace[..n]))
       <==> (forall n :: 0 <= n < |trace| ==> GuardedAfter(trace[..n], trace[n]))
  {
    assert AllFaithful([]);
    hide *;
    forall n | 0 <= n < |trace| && AllFaithful(trace[..n])
      ensures AllFaithful(trace[..n + 1]) <==> GuardedAfter(trace[..n], trace[n])
    {
      assert trace[..n + 1] == trace[..n] + [trace[n]];
      AllFaithfulStep(trace[..n], trace[n]);
    }
    PrefixIff(trace, AllFaithful, GuardedAfter);
  }

  lemma FaithfulMeets(trace: seq<Action>, a: Action)
    requires AllFaithful(trace) && AllFaithful(trace + [a])
    ensures MeetsAll(trace, a)
  {
    hide Run, Step, TopicOps, Count;
    TraceSnoc(trace, a);
    if a.DoPublish? {
      assert Faithful(TopicOps(trace, a.name));
    }
  }

  /** A run whose every step is guarded delivers to every client what it is meant to get. */
  lemma GuardedDelivers(trace: seq<Action>)
    requires forall n :: 0 <= n < |trace| ==> GuardedAfter(trace[..n], trace[n])
    ensures forall n :: 0 <= n <= |trace| ==> Delivers(trace[..n])
  {
    hide *;
    FaithfulRunIff(trace);
    forall n | 0 <= n < |trace|
      ensures MeetsAll(trace[..n], trace[n])
    {
      assert trace[..n + 1] == trace[..n] + [trace[n]];
      FaithfulMeets(trace[..n], trace[n]);
    }
    DeliveryIff(trace);
  }

  ghost predicate AllMoveTail(trace: seq<Action>) {
    forall i :: 0 <= i < |trace| && trace[i].DoUnsubscribe? ==> trace[i].movesTail
  }

  lemma {:induction false} OpsMoveTail(trace: seq<Action>, name: Name)
    requires AllMoveTail(trace)
    ensures MovesTail(TopicOps(trace, name))
  {
    if trace != [] {
      OpsMoveTail(trace[..|trace| - 1], name);
    }
  }

  /** With the tail moved when the last node is removed, every run goes on to its end and every
      client is sent, or will be sent, exactly what its subscriptions owe it. */
  lemma {:induction false} RepairedDelivery(trace: seq<Action>)
    requires AllMoveTail(trace)
    ensures Delivers(trace)
  {
    if trace != [] {
      hide Delivers, MeetsAll;
      var before, a := trace[..|trace| - 1], trace[|trace| - 1];
      assert trace == before + [a];
      RepairedDelivery(before);
      RepairedMeetsAll(before, a);
      DeliversStep(before, a);
    } else {
      NothingOwed();
    }
  }

  lemma RepairedMeetsAll(trace: seq<Action>, a: Action)
    requires AllMoveTail(trace + [a])
    ensures MeetsAll(trace, a)
  {
    assert forall i :: 0 <= i < |trace| ==> trace[i] == (trace + [a])[i];
    if (a.DoPublish? || a.DoUnsubscribe?) && Run(trace).Some? {
      OpsMoveTail(trace, a.name);
      RepairedRun(TopicOps(trace, a.name));
      TablesFollowTrace(trace, a.name);
    }
  }

  /** As written: the last of two subscribers leaves, a third client subscribes, and it never gets
      the message that is published next. */
  lemma MissedMessage(a: Id, b: Id, c: Id, name: Name, content: seq<byte>)
    requires a != b && a != c
    ensures var trace := [DoAttach(1, a, false), DoAttach(2, b, false), DoAttach(3, c, false),
                          DoSubscribe(name, a, 0), DoSubscribe(name, b, 0), DoUnsubscribe(name, b, false),
                          DoSubscribe(name, c, 0), DoPublish(name, content)];
            && Run(trace).Some?
            && Total(Run(trace).value, c) == []
            && OwedIntended(trace, c) == [Msg(name, content)]
  {
    hide *;
    var t5 := TwoSubscribers(a, b, c, name);
    var t7 := LeaveAndCome(t5, a, b, c, name);
    var publish := DoPublish(name, content);
    LostSubscriber(a, b, c);
    HoldersOf(t7, name);
    CopiesOfTwo(a, c, Msg(name, content));
    TraceSnoc(t7, publish);
    Conservation(t7 + [publish], c);
    assert t7 + [publish] == [DoAttach(1, a, false), DoAttach(2, b, false), DoAttach(3, c, false),
                              DoSubscribe(name, a, 0), DoSubscribe(name, b, 0), DoUnsubscribe(name, b, false),
                              DoSubscribe(name, c, 0), publish];
  }

  lemma HoldersOf(trace: seq<Action>, name: Name)
    ensures SubscriberSpec.Run(TopicOps(trace, name)).Some? ==>
              Holders(trace, name) == SubscriberSpec.Run(TopicOps(trace, name)).value.nodes
  {
  }

  lemma LeaveAndCome(t5: seq<Action>, a: Id, b: Id, c: Id, name: Name) returns (t7: seq<Action>)
    requires a != b && Run(t5).Some? && {a, b, c} <= Clients(t5)
    requires TopicOps(t5, name) == [Sub(Subscription(a, 0)), Sub(Subscription(b, 0))]
    requires Owed(t5, c) == [] && OwedIntended(t5, c) == []
    ensures t7 == t5 + [DoUnsubscribe(name, b, false), DoSubscribe(name, c, 0)] && Run(t7).Some?
    ensures TopicOps(t7, name) ==
            [Sub(Subscription(a, 0)), Sub(Subscription(b, 0)), Unsub(b, false), Sub(Subscription(c, 0))]
    ensures Owed(t7, c) == [] && OwedIntended(t7, c) == []
  {
    hide Run, Clients, TopicOps, Owed, OwedIntended, SubscriberSpec.Run, Step, Valid, TopicOf, Holders, IntendedRun, Copies;
    LeaveGoesOn(t5, a, b, name);
    var leave, come := DoUnsubscribe(name, b, false), DoSubscribe(name, c, 0);
    TraceSnoc(t5, leave);
    TraceSnoc(t5 + [leave], come);
    t7 := t5 + [leave] + [come];
    assert t7 == t5 + [leave, come];
  }

  lemma LeaveGoesOn(trace: seq<Action>, a: Id, b: Id, name: Name)
    requires Run(trace).Some? && TopicOps(trace, name) == [Sub(Subscription(a, 0)), Sub(Subscription(b, 0))]
    ensures Step(Run(trace).value, DoUnsubscribe(name, b, false)).Some?
  {
    hide Run, Clients, TopicOps, SubscriberSpec.Run;
    var x, y := Sub(Subscription(a, 0)), Sub(Subscription(b, 0));
    TablesFollowTrace(trace, name);
    EmptyTrace(name, a);
    RunSnoc([], x);
    RunSnoc([x], y);
    assert [] + [x] == [x] && [x] + [y] == [x, y];
    assert TopicOf(Run(trace).value, name).subs.nodes != [];
  }

  lemma TwoSubscribers(a: Id, b: Id, c: Id, name: Name) returns (t5: seq<Action>)
    ensures t5 == [DoAttach(1, a, false), DoAttach(2, b, false), DoAttach(3, c, false),
                   DoSubscribe(name, a, 0), DoSubscribe(name, b, 0)]
    ensures Run(t5).Some? && {a, b, c} <= Clients(t5)
    ensures TopicOps(t5, name) == [Sub(Subscription(a, 0)), Sub(Subscription(b, 0))]
    ensures Owed(t5, c) == [] && OwedIntended(t5, c) == []
  {
    hide *;
    EmptyTrace(name, c);
    var t1 := Next([], DoAttach(1, a, false), name, c);
    var t2 := Next(t1, DoAttach(2, b, false), name, c);
    var t3 := Next(t2, DoAttach(3, c, false), name, c);
    var t4 := Next(t3, DoSubscribe(name, a, 0), name, c);
    t5 := Next(t4, DoSubscribe(name, b, 0), name, c);
  }

  /** One more step that connects a client or subscribes a known one. */
  lemma Next(trace: seq<Action>, a: Action, name: Name, c: Id) returns (next: seq<Action>)
    requires Run(trace).Some? && (a.DoAttach? || (a.DoSubscribe? && a.name == name && a.client in Clients(trace)))
    ensures next == trace + [a] && Run(next).Some?
    ensures Clients(next) == Clients(trace) + (if a.DoAttach? then {a.client} else {})
    ensures TopicOps(next, name) == TopicOps(trace, name) + if a.DoAttach? then [] else [Sub(Subscription(a.client, a.qos))]
    ensures Owed(next, c) == Owed(trace, c) && OwedIntended(next, c) == OwedIntended(trace, c)
  {
    hide Run, Clients, TopicOps, Owed, OwedIntended, Step, Valid;
    TraceSnoc(trace, a);
    next := trace + [a];
  }

  lemma EmptyTrace(name: Name, c: Id)
    ensures Run([]) == Some(EMPTY) && Clients([]) == {} && TopicOps([], name) == []
    ensures Owed([], c) == [] && OwedIntended([], c) == []
    ensures SubscriberSpec.Run([]) == Some(Subs([], NoTail))
  {
  }

  lemma CopiesOfTwo(a: Id, c: Id, m: Msg)
    requires a != c
    ensures Copies([Subscription(a, 0)], c, m) == []
    ensures Copies([Subscription(a, 0), Subscription(c, 0)], c, m) == [m]
  {
    assert [Subscription(a, 0), Subscription(c, 0)][..1] == [Subscription(a, 0)];
  }

  lemma PublishToOne(e: Engine, x: Subscription, name: Name, content: seq<byte>)
    requires name in e.topics && e.topics[name].subs.nodes == [x] && x.client in e.clients
    requires e.clients[x.client].sockfd > 0 && e.clients[x.client].queue == []
    requires e.clients[x.client].sockfd in e.nodes && e.nodes[e.clients[x.client].sockfd] == x.client
    ensures Publish(e, name, content).out == e.out + [Sent(e.clients[x.client].sockfd, x.client, Msg(name, content))]
  {
    var topic, c, m := e.topics[name], x.client, Msg(name, content);
    var logged := e.(topics := e.topics[name := topic.(log := topic.log + [content])]);
    assert DistributeAll(logged, [], m) == logged && [x][..0] == [];
    assert Publish(e, name, content) == Distribute(logged, c, m);
    EmitOne(e.clients[c].sockfd, c, [m]);
    assert [] + [m] == [m];
  }

  /** A message is handed out at once exactly when the client's record names a slot whose node is
      that client; otherwise it is left waiting. */
  lemma PromptIff(e: Engine, c: Id, m: Msg)
    requires c in e.clients
    ensures QueueOf(Distribute(e, c, m), c) == [] <==>
              e.clients[c].sockfd > 0 && e.clients[c].sockfd in e.nodes && e.nodes[e.clients[c].sockfd] == c
  {
  }

  /** Outputs from position k on went to slots whose node is the client the message was waiting for. */
  ghost predicate Routed(e: Engine, k: nat) {
    forall i :: k <= i < |e.out| ==> e.out[i].sockfd in e.nodes && e.nodes[e.out[i].sockfd] == e.out[i].client
  }

  lemma {:induction false} EmitOne(sockfd: nat, c: Id, queue: seq<Msg>)
    ensures forall i :: 0 <= i < |queue| ==> Emit(sockfd, c, queue)[i] == Sent(sockfd, c, queue[i])
  {
    if queue != [] {
      EmitOne(sockfd, c, queue[..|queue| - 1]);
    }
  }

  lemma FlushRoutes(e: Engine, sockfd: nat, k: nat)
    requires Routed(e, k)
    ensures e.out <= Flush(e, sockfd).out && Routed(Flush(e, sockfd), k)
  {
    if sockfd in e.nodes && e.nodes[sockfd] in e.clients {
      EmitOne(sockfd, e.nodes[sockfd], e.clients[e.nodes[sockfd]].queue);
    }
  }

  lemma {:induction false} DistributeAllRoutes(e: Engine, subs: seq<Subscription>, m: Msg, k: nat)
    requires Known(e, subs) && Routed(e, k)
    ensures e.out <= DistributeAll(e, subs, m).out && Routed(DistributeAll(e, subs, m), k)
  {
    if subs != [] {
      var init, c := subs[..|subs| - 1], subs[|subs| - 1].client;
      DistributeAllRoutes(e, init, m, k);
      var before := DistributeAll(e, init, m);
      FlushRoutes(before.(clients := before.clients[c := before.clients[c].(queue := before.clients[c].queue + [m])]),
                  before.clients[c].sockfd, k);
    }
  }

  lemma PublishRoutes(e: Engine, name: Name, content: seq<byte>)
    requires Known(e, TopicOf(e, name).subs.nodes)
    ensures e.out <= Publish(e, name, content).out && Routed(Publish(e, name, content), |e.out|)
  {
    var topic := TopicOf(e, name);
    var logged := e.(topics := e.topics[name := topic.(log := topic.log + [content])]);
    DistributeAllRoutes(logged, topic.subs.nodes, Msg(name, content), |e.out|);
  }

  // ----- which slots a publication sends to

  /** The clients for which something waits. */
  function Waiting(e: Engine): set<Id> {
    set c | c in e.clients && e.clients[c].queue != []
  }

  /** The slots that a walk over the subscribers sends something to, from the records, the slots'
      nodes and the clients for which something waits; and the clients still waiting after it. */
  function Targets(e: Engine, subs: seq<Subscription>, waiting: set<Id>): (set<nat>, set<Id>)
    requires Known(e, subs)
  {
    if subs == [] then ({}, waiting)
    else
      var (slots, before) := Targets(e, subs[..|subs| - 1], waiting);
      var c := subs[|subs| - 1].client;
      var s, now := e.clients[c].sockfd, before + {c};
      if s > 0 && s in e.nodes && e.nodes[s] in e.clients then
        (if e.nodes[s] in now then slots + {s} else slots, now - {e.nodes[s]})
      else (slots, now)
  }

  function SlotsOf(out: seq<Sent>): set<nat> {
    set i | 0 <= i < |out| :: out[i].sockfd
  }

  lemma SlotsOfConcat(a: seq<Sent>, b: seq<Sent>)
    ensures SlotsOf(a + b) == SlotsOf(a) + SlotsOf(b)
  {
    forall s | s in SlotsOf(a) + SlotsOf(b)
      ensures s in SlotsOf(a + b)
    {
      if s in SlotsOf(a) {
        var i :| 0 <= i < |a| && a[i].sockfd == s;
        assert (a + b)[i].sockfd == s;
      } else {
        var i :| 0 <= i < |b| && b[i].sockfd == s;
        assert (a + b)[|a| + i].sockfd == s;
      }
    }
  }

  lemma SlotsOfEmit(sockfd: nat, c: Id, queue: seq<Msg>)
    ensures SlotsOf(Emit(sockfd, c, queue)) == if queue == [] then {} else {sockfd}
  {
    EmitOne(sockfd, c, queue);
    var out := Emit(sockfd, c, queue);
    if queue != [] {
      assert out[0].sockfd == sockfd;
    }
  }

  /** The walk keeps every record's socket, sends to exactly the slots of `Targets`, and leaves
      exactly its clients waiting. */
  lemma {:induction false} TargetsExact(e: Engine, subs: seq<Subscription>, m: Msg)
    requires Known(e, subs)
    ensures var r, t := DistributeAll(e, subs, m), Targets(e, subs, Waiting(e));
            && (forall c :: c in e.clients ==> r.clients[c].sockfd == e.clients[c].sockfd)
            && e.out <= r.out && SlotsOf(r.out[|e.out|..]) == t.0
            && Waiting(r) == t.1
  {
    hide DistributeAll, SlotsOf, Distribute, Waiting;
    if subs == [] {
      NobodySent(e, m);
    } else {
      var init, c := subs[..|subs| - 1], subs[|subs| - 1].client;
      TargetsExact(e, init, m);
      var mid := DistributeAll(e, init, m);
      DistributeTargets(mid, c, m);
      DistributeAllStep(e, subs, m);
      var r := Distribute(mid, c, m);
      assert r.out[|e.out|..] == mid.out[|e.out|..] + r.out[|mid.out|..];
      SlotsOfConcat(mid.out[|e.out|..], r.out[|mid.out|..]);
    }
  }

  lemma NobodySent(e: Engine, m: Msg)
    ensures DistributeAll(e, [], m) == e && SlotsOf(e.out[|e.out|..]) == {}
  {
  }

  lemma DistributeAllStep(e: Engine, subs: seq<Subscription>, m: Msg)
    requires Known(e, subs) && subs != []
    ensures DistributeAll(e, subs, m) ==
            Distribute(DistributeAll(e, subs[..|subs| - 1], m), subs[|subs| - 1].client, m)
  {
  }

  lemma DistributeTargets(e: Engine, c: Id, m: Msg)
    requires c in e.clients
    ensures var r, s := Distribute(e, c, m), e.clients[c].sockfd;
            var flushed := s > 0 && s in e.nodes && e.nodes[s] in e.clients;
            && r.clients.Keys == e.clients.Keys
            && (forall d :: d in e.clients ==> r.clients[d].sockfd == e.clients[d].sockfd)
            && e.out <= r.out
            && SlotsOf(r.out[|e.out|..]) == (if flushed && e.nodes[s] in Waiting(e) + {c} then {s} else {})
            && Waiting(r) == Waiting(e) + {c} - (if flushed then {e.nodes[s]} else {})
  {
    var s, r := e.clients[c].sockfd, Distribute(e, c, m);
    var queued := e.(clients := e.clients[c := e.clients[c].(queue := e.clients[c].queue + [m])]);
    assert Waiting(queued) == Waiting(e) + {c};
    if s > 0 && s in e.nodes && e.nodes[s] in e.clients {
      var d := e.nodes[s];
      assert r.out[|e.out|..] == Emit(s, d, queued.clients[d].queue);
      SlotsOfEmit(s, d, queued.clients[d].queue);
    } else {
      assert r.out[|e.out|..] == [];
    }
  }

  /** A publication sends to exactly the slots, and leaves waiting exactly the clients, that the state
      before it says. */
  lemma PublishTargets(e: Engine, name: Name, content: seq<byte>)
    requires Known(e, TopicOf(e, name).subs.nodes)
    ensures var r, t := Publish(e, name, content), Targets(e, TopicOf(e, name).subs.nodes, Waiting(e));
            e.out <= r.out && SlotsOf(r.out[|e.out|..]) == t.0 && Waiting(r) == t.1
  {
    var topic := TopicOf(e, name);
    var logged := e.(topics := e.topics[name := topic.(log := topic.log + [content])]);
    TargetsExact(logged, topic.subs.nodes, Msg(name, content));
    SameTargets(e, logged, topic.subs.nodes, Waiting(e));
  }

  lemma {:induction false} SameTargets(e: Engine, e': Engine, subs: seq<Subscription>, waiting: set<Id>)
    requires Known(e, subs) && e.clients == e'.clients && e.nodes == e'.nodes
    ensures Targets(e, subs, waiting) == Targets(e', subs, waiting) && Waiting(e) == Waiting(e')
  {
    if subs != [] {
      SameTargets(e, e', subs[..|subs| - 1], waiting);
    }
  }

  // ----- when a publication reaches a slot

  /** What went to a slot. */
  function SlotMsgs(out: seq<Sent>, sockfd: nat): seq<Msg> {
    if out == [] then []
    else SlotMsgs(out[..|out| - 1], sockfd) + (if out[|out| - 1].sockfd == sockfd then [out[|out| - 1].msg] else [])
  }

  lemma {:induction false} SlotIsClient(out: seq<Sent>, sockfd: nat, c: Id)
    requires forall i :: 0 <= i < |out| ==> (out[i].sockfd == sockfd <==> out[i].client == c)
    ensures SlotMsgs(out, sockfd) == SentOf(out, c)
  {
    if out != [] {
      SlotIsClient(out[..|out| - 1], sockfd, c);
    }
  }

  lemma {:induction false} SentOfConcat(a: seq<Sent>, b: seq<Sent>, c: Id)
    ensures SentOf(a + b, c) == SentOf(a, c) + SentOf(b, c)
  {
    if b == [] {
      assert a + b == a;
    } else {
      assert (a + b)[..|a + b| - 1] == a + b[..|b| - 1];
      SentOfConcat(a, b[..|b| - 1], c);
    }
  }

  lemma {:induction false} SlotIsPart(out: seq<Sent>, k: nat, c: Id)
    requires forall i :: 0 <= i < |out| && out[i].sockfd == k ==> out[i].client == c
    ensures |SlotMsgs(out, k)| <= |SentOf(out, c)|
    ensures |SlotMsgs(out, k)| == |SentOf(out, c)| <==>
              forall i :: 0 <= i < |out| && out[i].client == c ==> out[i].sockfd == k
  {
    if out != [] {
      SlotIsPart(out[..|out| - 1], k, c);
    }
  }

  /** Slot k is the only one with client c as its node that a publication sends to, and nothing is left
      waiting for c. Both come from the records, nodes and queues before the publication. */
  predicate OnlyThere(e: Engine, name: Name, k: nat, c: Id)
    requires Known(e, TopicOf(e, name).subs.nodes)
  {
    var (slots, waiting) := Targets(e, TopicOf(e, name).subs.nodes, Waiting(e));
    c !in waiting && forall s :: s in slots && s in e.nodes && e.nodes[s] == c ==> s == k
  }

  lemma OutGrows(e: Engine, r: Engine, out: seq<Sent>, copies: seq<Msg>, c: Id)
    requires r.out == e.out + out && Total(r, c) == Total(e, c) + copies
    ensures SentOf(out, c) + QueueOf(r, c) == QueueOf(e, c) + copies
  {
    SentOfConcat(e.out, out, c);
    hide SentOf, QueueOf;
    var sent := SentOf(e.out, c);
    assert sent + SentOf(out, c) + QueueOf(r, c) == sent + (SentOf(out, c) + QueueOf(r, c));
    assert sent + QueueOf(e, c) + copies == sent + (QueueOf(e, c) + copies);
    SameSuffix(sent, SentOf(out, c) + QueueOf(r, c), QueueOf(e, c) + copies);
  }

  lemma OutNodes(e: Engine, name: Name, content: seq<byte>)
    requires Known(e, TopicOf(e, name).subs.nodes)
    ensures var r := Publish(e, name, content);
            && e.out <= r.out && r.clients.Keys == e.clients.Keys
            && var out := r.out[|e.out|..];
            forall i :: 0 <= i < |out| ==> out[i].sockfd in e.nodes && e.nodes[out[i].sockfd] == out[i].client
  {
    hide TopicOf, DistributeAll;
    PublishRoutes(e, name, content);
  }

  lemma OnlyThereIs(e: Engine, r: Engine, name: Name, out: seq<Sent>, k: nat, c: Id)
    requires Known(e, TopicOf(e, name).subs.nodes) && c in r.clients
    requires (SlotsOf(out), Waiting(r)) == Targets(e, TopicOf(e, name).subs.nodes, Waiting(e))
    requires forall i :: 0 <= i < |out| ==> out[i].sockfd in e.nodes && e.nodes[out[i].sockfd] == out[i].client
    ensures OnlyThere(e, name, k, c) <==>
            QueueOf(r, c) == [] && forall i :: 0 <= i < |out| && out[i].client == c ==> out[i].sockfd == k
  {
    hide Targets, TopicOf;
    forall i | 0 <= i < |out|
      ensures out[i].sockfd in SlotsOf(out)
    {
    }
  }

  /** A publication sends a slot all that waits for its client, then one copy for each subscription,
      and nothing else, exactly when it sends to no other slot with that client and leaves nothing. */
  lemma ReachesIff(e: Engine, name: Name, content: seq<byte>, k: nat, c: Id)
    requires Known(e, TopicOf(e, name).subs.nodes) && k in e.nodes && e.nodes[k] == c && c in e.clients
    ensures var r := Publish(e, name, content);
            && e.out <= r.out
            && (SlotMsgs(r.out[|e.out|..], k) == QueueOf(e, c) + Copies(TopicOf(e, name).subs.nodes, c, Msg(name, content))
                <==> OnlyThere(e, name, k, c))
  {
    hide *;
    var r := Publish(e, name, content);
    PublishTargets(e, name, content);
    var out := r.out[|e.out|..];
    assert r.out == e.out + out;
    PublishAddsCopies(e, name, content, c);
    OutGrows(e, r, out, Copies(TopicOf(e, name).subs.nodes, c, Msg(name, content)), c);
    OutNodes(e, name, content);
    OnlyThereIs(e, r, name, out, k, c);
    SlotIsPart(out, k, c);
    assert |SentOf(out, c) + QueueOf(r, c)| == |SentOf(out, c)| + |QueueOf(r, c)|;
    if OnlyThere(e, name, k, c) {
      SlotIsClient(out, k, c);
      assert SentOf(out, c) + [] == SentOf(out, c);
    }
  }

  /** Every subscriber's record names a slot whose node is that subscriber. */
  ghost predicate OwnRecords(e: Engine, subs: seq<Subscription>)
    requires Known(e, subs)
  {
    forall i :: 0 <= i < |subs| ==>
      var s := e.clients[subs[i].client].sockfd; s > 0 && s in e.nodes && e.nodes[s] == subs[i].client
  }

  lemma {:induction false} OwnTargets(e: Engine, subs: seq<Subscription>, waiting: set<Id>)
    requires Known(e, subs) && OwnRecords(e, subs)
    ensures var t := Targets(e, subs, waiting);
            && (forall s :: s in t.0 <==> exists i :: 0 <= i < |subs| && e.clients[subs[i].client].sockfd == s)
            && (forall c :: c in t.1 <==> c in waiting && forall i :: 0 <= i < |subs| ==> subs[i].client != c)
  {
    if subs != [] {
      OwnTargets(e, subs[..|subs| - 1], waiting);
    }
  }

  /** If the record of every subscriber names a slot of its own, a publication reaches a subscriber's
      slot in full exactly when it is the one its record names. */
  lemma ReachesByRecordIff(e: Engine, name: Name, content: seq<byte>, k: nat, c: Id)
    requires Known(e, TopicOf(e, name).subs.nodes) && k in e.nodes && e.nodes[k] == c && c in e.clients
    requires OwnRecords(e, TopicOf(e, name).subs.nodes)
    requires exists i :: 0 <= i < |TopicOf(e, name).subs.nodes| && TopicOf(e, name).subs.nodes[i].client == c
    ensures var r := Publish(e, name, content);
            && e.out <= r.out
            && (SlotMsgs(r.out[|e.out|..], k) == QueueOf(e, c) + Copies(TopicOf(e, name).subs.nodes, c, Msg(name, content))
                <==> e.clients[c].sockfd == k)
  {
    hide TopicOf, Publish, Targets, Waiting, SlotMsgs, Copies;
    var subs := TopicOf(e, name).subs.nodes;
    ReachesIff(e, name, content, k, c);
    OwnTargets(e, subs, Waiting(e));
    var i :| 0 <= i < |subs| && subs[i].client == c;
    var (slots, waiting) := Targets(e, subs, Waiting(e));
    assert e.clients[c].sockfd in slots && c !in waiting;
    forall s | s in slots && s in e.nodes && e.nodes[s] == c
      ensures s == e.clients[c].sockfd
    {
      var j :| 0 <= j < |subs| && e.clients[subs[j].client].sockfd == s;
    }
  }
}
