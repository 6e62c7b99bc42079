/** Connections, client ids and the records they are tied to (src/mqtt_handler.c), on values.
    `repaired` is false for the code as it is written; when it is true, closing a connection also
    clears the slot, CONNECT also refreshes the socket of a known client, and unsubscribing also
    moves the tail of the subscriber list. */
module Session {
  import opened Sequences
  import opened Strings
  import opened Wrappers
  import opened PubSub
  import opened SubscriberSpec

  /** How the rest of a CONNECT goes once its client id is registered. Without a user name the
      handler ends without a return value; `failed` is what the caller makes of that. A user name
      without a password fails an assertion of `check_auth`. */
  datatype Login = Granted | Refused | Truncated | Passwordless | Anonymous(failed: bool)

  datatype Event =
    | Connect(sockfd: nat, id: Id, login: Login)
    | Subscribe(sockfd: nat, topics: seq<Name>, qos: nat)
    | Unsubscribe(sockfd: nat, name: Name)
    | Publish(sockfd: nat, name: Name, content: seq<byte>)
    | Close(sockfd: nat)

  /** `names` is `client_id` of each slot, `ids` the set of ids in use, `timed` the slots whose timer
      is in the deadline list, where CONNECT puts it before anything else, and `live` those of them
      whose CONNECT was granted. */
  datatype State = State(engine: Engine, names: map<nat, Id>, ids: set<Id>, timed: set<nat>, live: set<nat>)

  const INIT := State(EMPTY, map[], {}, {}, {})

  const MAX_ID := 23

  predicate Registers(s: State, e: Event) {
    e.Connect? && |e.id| <= MAX_ID && e.id !in s.ids
  }

  predicate Opens(s: State, e: Event) {
    Registers(s, e) && e.login.Granted?
  }

  /** Does the event end in `shut_dead_conn`? */
  predicate Closes(s: State, e: Event) {
    match e
    case Connect(_, _, login) => !Registers(s, e) || login.Truncated? || (login.Anonymous? && login.failed)
    case Subscribe(sockfd, _, _) => sockfd !in s.names
    case Close(_) => true
    case _ => false
  }

  /** What the event does to topics, queues and client records, in order. */
  function Effects(s: State, e: Event, repaired: bool): seq<Action> {
    if Closes(s, e) then (if repaired then [DoDetach(e.sockfd)] else [])
    else match e
      case Connect(sockfd, id, _) => if Opens(s, e) then [DoAttach(sockfd, id, repaired), DoFlush(sockfd)] else []
      case Subscribe(sockfd, topics, qos) =>
        seq(|topics|, i requires 0 <= i < |topics| => DoSubscribe(topics[i], s.names[sockfd], qos))
      case Unsubscribe(sockfd, name) => if sockfd in s.names then [DoUnsubscribe(name, s.names[sockfd], repaired)] else []
      case Publish(_, name, content) => [DoPublish(name, content)]
      case Close(_) => []
  }

  function Perform(e: Engine, actions: seq<Action>): (r: Option<Engine>)
    requires Valid(e)
    ensures r.Some? ==> Valid(r.value)
  {
    if actions == [] then Some(e)
    else match Perform(e, actions[..|actions| - 1])
      case None => None
      case Some(e') => StepValid(e', actions[|actions| - 1]); PubSub.Step(e', actions[|actions| - 1])
  }

  /** The event makes the server stop: an assertion on an empty string or a missing password, or a
      null client id. */
  predicate Stops(s: State, e: Event) {
    || (Opens(s, e) && e.id == [])
    || (Registers(s, e) && e.login.Passwordless?)
    || (e.Publish? && (e.name == [] || e.content == []))
    || (e.Subscribe? && e.sockfd in s.names && [] in e.topics)
    || (e.Unsubscribe? && e.sockfd !in s.names)
  }

  /** CONNECT comes on a connection that has not sent one yet, and PUBLISH on one that has: the timer
      is not in the list, or is. */
  predicate Allowed(s: State, e: Event) {
    match e
    case Connect(sockfd, _, _) => sockfd !in s.timed && sockfd > 0
    case Publish(sockfd, _, _) => sockfd in s.timed
    case _ => true
  }

  function Step(s: State, e: Event, repaired: bool): (r: Option<State>)
    requires Valid(s.engine)
    ensures r.Some? ==> Valid(r.value.engine)
  {
    if Stops(s, e) then None
    else match Perform(s.engine, Effects(s, e, repaired))
      case None => None
      case Some(engine) =>
        var ids := if Registers(s, e) then s.ids + {e.id} else s.ids;
        if Closes(s, e) then
          Some(State(engine,
                     if repaired then s.names - {e.sockfd} else s.names,
                     if e.sockfd in s.names then ids - {s.names[e.sockfd]} else ids,
                     s.timed - {e.sockfd},
                     s.live - {e.sockfd}))
        else
          var timed := if e.Connect? then s.timed + {e.sockfd} else s.timed;
          if Opens(s, e) then Some(State(engine, s.names[e.sockfd := e.id], ids, timed, s.live + {e.sockfd}))
          else Some(State(engine, s.names, ids, timed, s.live))
  }

  function RunFrom(s: State, trace: seq<Event>, repaired: bool): (r: Option<State>)
    requires Valid(s.engine)
    ensures r.Some? ==> Valid(r.value.engine)
  {
    if trace == [] then Some(s)
    else match RunFrom(s, trace[..|trace| - 1], repaired)
      case None => None
      case Some(t) => if Allowed(t, trace[|trace| - 1]) then Step(t, trace[|trace| - 1], repaired) else None
  }

  lemma {:induction false} RunFromJoin(s: State, trace: seq<Event>, more: seq<Event>, repaired: bool)
    requires Valid(s.engine) && RunFrom(s, trace, repaired).Some?
    ensures RunFrom(s, trace + more, repaired) == RunFrom(RunFrom(s, trace, repaired).value, more, repaired)
  {
    if more == [] {
      assert trace + more == trace;
    } else {
      hide Step, Allowed, Valid;
      RunFromJoin(s, trace, more[..|more| - 1], repaired);
      LastOfJoin(trace, more);
    }
  }

  lemma PerformNone(e: Engine, actions: seq<Action>)
    requires Valid(e)
    ensures Perform(e, actions[..0]) == Some(e)
  {
  }

  lemma PerformNext(e: Engine, actions: seq<Action>, n: nat)
    requires Valid(e) && n < |actions| && Perform(e, actions[..n]).Some?
    ensures Perform(e, actions[..n + 1]) == PubSub.Step(Perform(e, actions[..n]).value, actions[n])
  {
    hide PubSub.Step, Valid;
    assert actions[..n + 1][..n] == actions[..n];
  }

  /** What closing a connection does. */
  lemma CloseIs(s: State, k: nat, repaired: bool)
    requires Valid(s.engine)
    ensures !Stops(s, Close(k))
    ensures Step(s, Close(k), repaired) ==
            Some(State(if repaired then Detach(s.engine, k) else s.engine,
                       if repaired then s.names - {k} else s.names,
                       if k in s.names then s.ids - {s.names[k]} else s.ids,
                       s.timed - {k}, s.live - {k}))
  {
    hide Detach;
    PerformOne(s.engine, DoDetach(k));
  }

  // ----- every session run is a run of the engine

  function AllEffects(trace: seq<Event>, repaired: bool): seq<Action> {
    if trace == [] then [] else
      var before := trace[..|trace| - 1];
      AllEffects(before, repaired) +
      match RunFrom(INIT, before, repaired)
      case Some(s) => Effects(s, trace[|trace| - 1], repaired)
      case None => []
  }

  lemma {:induction false} PerformAppends(trace: seq<Action>, actions: seq<Action>)
    requires PubSub.Run(trace).Some?
    ensures PubSub.Run(trace + actions) == Perform(PubSub.Run(trace).value, actions)
  {
    if actions == [] {
      assert trace + actions == trace;
    } else {
      var all := trace + actions;
      PerformAppends(trace, actions[..|actions| - 1]);
      assert all[..|all| - 1] == trace + actions[..|actions| - 1];
    }
  }

  lemma {:induction false} SessionIsEngineRun(trace: seq<Event>, repaired: bool)
    requires RunFrom(INIT, trace, repaired).Some?
    ensures PubSub.Run(AllEffects(trace, repaired)) == Some(RunFrom(INIT, trace, repaired).value.engine)
  {
    if trace != [] {
      var before, e := trace[..|trace| - 1], trace[|trace| - 1];
      SessionIsEngineRun(before, repaired);
      PerformAppends(AllEffects(before, repaired), Effects(RunFrom(INIT, before, repaired).value, e, repaired));
    }
  }

  /** Only unsubscribing can follow a null pointer. */
  lemma {:induction false} PerformGoesOn(e: Engine, actions: seq<Action>)
    requires Valid(e) && forall a :: a in actions ==> !a.DoUnsubscribe?
    ensures Perform(e, actions).Some?
  {
    if actions != [] {
      PerformGoesOn(e, actions[..|actions| - 1]);
    }
  }

  lemma StepGoesOnIff(s: State, e: Event, repaired: bool)
    requires Valid(s.engine) && !e.Unsubscribe?
    ensures Step(s, e, repaired).Some? <==> !Stops(s, e)
    ensures Stops(s, e) <==>
            || (e.Connect? && |e.id| <= 23 && e.id !in s.ids && (e.login.Passwordless? || (e.login.Granted? && e.id == [])))
            || (e.Publish? && (e.name == [] || e.content == []))
            || (e.Subscribe? && e.sockfd in s.names && [] in e.topics)
  {
    PerformGoesOn(s.engine, Effects(s, e, repaired));
  }

  /** Conservation for the sessions of any run, as written or repaired. */
  lemma SessionConservation(trace: seq<Event>, repaired: bool, c: Id)
    requires RunFrom(INIT, trace, repaired).Some?
    ensures Total(RunFrom(INIT, trace, repaired).value.engine, c) == Owed(AllEffects(trace, repaired), c)
  {
    SessionIsEngineRun(trace, repaired);
    Conservation(AllEffects(trace, repaired), c);
  }

  lemma {:induction false} PerformGrows(e: Engine, actions: seq<Action>)
    requires Valid(e) && Perform(e, actions).Some?
    ensures e.clients.Keys <= Perform(e, actions).value.clients.Keys
    ensures forall a :: a in actions && a.DoAttach? ==> a.client in Perform(e, actions).value.clients
  {
    if actions != [] {
      hide PubSub.Step, Valid;
      var init, last := actions[..|actions| - 1], actions[|actions| - 1];
      PerformGrows(e, init);
      StepTables(Perform(e, init).value, last, []);
    }
  }

  /** On every run a slot that bears a client id bears one from the client table, so that
      `mqtt_topic_sub` always finds its client. */
  lemma {:induction false} NamesKnown(trace: seq<Event>, repaired: bool, sockfd: nat)
    requires RunFrom(INIT, trace, repaired).Some?
    ensures var s := RunFrom(INIT, trace, repaired).value; sockfd in s.names ==> s.names[sockfd] in s.engine.clients
  {
    if trace != [] {
      var before, e := trace[..|trace| - 1], trace[|trace| - 1];
      NamesKnown(before, repaired, sockfd);
      var s := RunFrom(INIT, before, repaired).value;
      PerformGrows(s.engine, Effects(s, e, repaired));
      if Opens(s, e) {
        assert Effects(s, e, repaired)[0] == DoAttach(e.sockfd, e.id, repaired);
      }
    }
  }

  // ----- the reference: what the events ask for, by themselves

  /** The client id that each slot bears, and the ids in use. */
  datatype Book = Book(holders: map<nat, Id>, ids: set<Id>)

  /** A slot is closed: its id may be used again, and the slot is cleared if the code is repaired. */
  function Leave(b: Book, k: nat, repaired: bool): Book {
    Book(if repaired then b.holders - {k} else b.holders, if k in b.holders then b.ids - {b.holders[k]} else b.ids)
  }

  /** CONNECT is turned away if its id is in use or longer than 23 bytes; otherwise the id is in use
      from then on, and the slot bears it if the CONNECT is granted. */
  function Enter(b: Book, e: Event, repaired: bool): Book {
    match e
    case Connect(k, id, login) =>
      if id in b.ids || |id| > 23 then Leave(b, k, repaired)
      else
        var entered := b.(ids := b.ids + {id});
        (match login
         case Granted => entered.(holders := b.holders[k := id])
         case Refused | Passwordless => entered
         case Truncated => Leave(entered, k, repaired)
         case Anonymous(failed) => if failed then Leave(entered, k, repaired) else entered)
    case Close(k) => Leave(b, k, repaired)
    case Subscribe(k, _, _) => if k in b.holders then b else Leave(b, k, repaired)
    case _ => b
  }

  function BookOf(trace: seq<Event>, repaired: bool): Book {
    if trace == [] then Book(map[], {}) else Enter(BookOf(trace[..|trace| - 1], repaired), trace[|trace| - 1], repaired)
  }

  /** The operation once for each time that the topic occurs. */
  function Each(topics: seq<Name>, name: Name, op: Op): seq<Op> {
    if topics == [] then [] else Each(topics[..|topics| - 1], name, op) + if topics[|topics| - 1] == name then [op] else []
  }

  /** What the clients ask for concerning one topic: a subscription for each time it occurs in a
      SUBSCRIBE, in order, and its end for each UNSUBSCRIBE. */
  function Asked(trace: seq<Event>, repaired: bool, name: Name): seq<Op> {
    if trace == [] then [] else
      var before, e := trace[..|trace| - 1], trace[|trace| - 1];
      var holders := BookOf(before, repaired).holders;
      Asked(before, repaired, name) +
      match e
      case Subscribe(k, topics, qos) =>
        if k in holders then Each(topics, name, Sub(Subscription(holders[k], qos))) else []
      case Unsubscribe(k, n) => if k in holders && n == name then [Unsub(holders[k], repaired)] else []
      case _ => []
  }

  /** What a client should get: each message published, in order, once for each subscription that it
      has asked for by then. */
  function Due(trace: seq<Event>, repaired: bool, c: Id): seq<Msg> {
    if trace == [] then [] else
      var before, e := trace[..|trace| - 1], trace[|trace| - 1];
      Due(before, repaired, c) +
      if e.Publish? then Copies(IntendedRun(Asked(before, repaired, e.name)), c, Msg(e.name, e.content)) else []
  }

  /** On every run slots and ids are what the events say. */
  lemma {:induction false} BookIs(trace: seq<Event>, repaired: bool)
    requires RunFrom(INIT, trace, repaired).Some?
    ensures var s := RunFrom(INIT, trace, repaired).value; BookOf(trace, repaired) == Book(s.names, s.ids)
  {
    if trace != [] {
      BookIs(trace[..|trace| - 1], repaired);
    }
  }

  /** What a step that closes nothing asks of one topic. */
  function OpsOf(s: State, e: Event, repaired: bool, name: Name): seq<Op> {
    match e
    case Subscribe(k, topics, qos) => if k in s.names then Each(topics, name, Sub(Subscription(s.names[k], qos))) else []
    case Unsubscribe(k, n) => if k in s.names && n == name then [Unsub(s.names[k], repaired)] else []
    case _ => []
  }

  lemma {:induction false} SubscribeOps(before: seq<Action>, actions: seq<Action>, topics: seq<Name>, c: Id, qos: nat,
                                        name: Name)
    requires c in Clients(before) && |actions| == |topics|
    requires forall i :: 0 <= i < |topics| ==> actions[i] == DoSubscribe(topics[i], c, qos)
    ensures TopicOps(before + actions, name) == TopicOps(before, name) + Each(topics, name, Sub(Subscription(c, qos)))
    ensures c in Clients(before + actions)
  {
    hide TopicOps, Clients;
    if topics == [] {
      assert before + actions == before;
    } else {
      var init, last := actions[..|actions| - 1], actions[|actions| - 1];
      SubscribeOps(before, init, topics[..|topics| - 1], c, qos, name);
      OpsSnoc(before + init, last, name);
      assert before + actions == before + init + [last];
    }
  }

  lemma {:induction false} QuietOps(before: seq<Action>, actions: seq<Action>, name: Name)
    requires forall a :: a in actions ==> !a.DoSubscribe? && !a.DoUnsubscribe?
    ensures TopicOps(before + actions, name) == TopicOps(before, name)
  {
    hide TopicOps, Clients;
    if actions == [] {
      assert before + actions == before;
    } else {
      var init, last := actions[..|actions| - 1], actions[|actions| - 1];
      QuietOps(before, init, name);
      OpsSnoc(before + init, last, name);
      assert before + actions == before + init + [last];
    }
  }

  /** What the actions of one step ask of one topic is what its event says. */
  lemma EffectsOps(before: seq<Action>, s: State, e: Event, repaired: bool, name: Name)
    requires s.names.Values <= Clients(before)
    ensures TopicOps(before + Effects(s, e, repaired), name) == TopicOps(before, name) + OpsOf(s, e, repaired, name)
  {
    hide TopicOps, Clients, Each;
    if e.Subscribe? && e.sockfd in s.names {
      SubscribeOps(before, Effects(s, e, repaired), e.topics, s.names[e.sockfd], e.qos, name);
    } else if e.Unsubscribe? && e.sockfd in s.names {
      OpsSnoc(before, DoUnsubscribe(e.name, s.names[e.sockfd], repaired), name);
    } else {
      QuietOps(before, Effects(s, e, repaired), name);
    }
  }

  lemma NamesAreClients(trace: seq<Event>, repaired: bool)
    requires RunFrom(INIT, trace, repaired).Some?
    ensures RunFrom(INIT, trace, repaired).value.names.Values <= Clients(AllEffects(trace, repaired))
  {
    hide RunFrom, AllEffects, Clients;
    var s := RunFrom(INIT, trace, repaired).value;
    SessionIsEngineRun(trace, repaired);
    TablesFollowTrace(AllEffects(trace, repaired), []);
    forall c | c in s.names.Values
      ensures c in s.engine.clients
    {
      var k :| k in s.names && s.names[k] == c;
      NamesKnown(trace, repaired, k);
    }
  }

  lemma AllEffectsStep(trace: seq<Event>, repaired: bool)
    requires trace != [] && RunFrom(INIT, trace, repaired).Some?
    ensures var before := trace[..|trace| - 1];
            && RunFrom(INIT, before, repaired).Some?
            && AllEffects(trace, repaired) ==
               AllEffects(before, repaired) + Effects(RunFrom(INIT, before, repaired).value, trace[|trace| - 1], repaired)
  {
  }

  /** On every run what reaches a topic's list is what the events ask for. */
  lemma {:induction false} AskedIs(trace: seq<Event>, repaired: bool, name: Name)
    requires RunFrom(INIT, trace, repaired).Some?
    ensures TopicOps(AllEffects(trace, repaired), name) == Asked(trace, repaired, name)
  {
    if trace != [] {
      hide RunFrom, AllEffects, Effects, TopicOps, Clients, BookOf;
      var before, e := trace[..|trace| - 1], trace[|trace| - 1];
      AllEffectsStep(trace, repaired);
      AskedIs(before, repaired, name);
      NamesAreClients(before, repaired);
      BookIs(before, repaired);
      EffectsOps(AllEffects(before, repaired), RunFrom(INIT, before, repaired).value, e, repaired, name);
    } else {
      NothingAsked(repaired, name, []);
    }
  }

  lemma NothingAsked(repaired: bool, name: Name, c: Id)
    ensures AllEffects([], repaired) == [] && TopicOps([], name) == [] && OwedIntended([], c) == []
  {
  }

  /** What the actions of one step owe is what its event says. */
  lemma {:induction false} EffectsOwe(before: seq<Action>, actions: seq<Action>, c: Id)
    requires forall a :: a in actions ==> !a.DoPublish?
    ensures OwedIntended(before + actions, c) == OwedIntended(before, c)
  {
    hide OwedIntended;
    if actions == [] {
      assert before + actions == before;
    } else {
      var init, last := actions[..|actions| - 1], actions[|actions| - 1];
      EffectsOwe(before, init, c);
      TraceSnoc(before + init, last);
      assert before + actions == before + init + [last];
    }
  }

  lemma PublishEffects(s: State, e: Event, repaired: bool)
    ensures e.Publish? ==> Effects(s, e, repaired) == [DoPublish(e.name, e.content)]
    ensures !e.Publish? ==> forall a :: a in Effects(s, e, repaired) ==> !a.DoPublish?
  {
  }

  /** On every run what the actions owe a client is what the events say it should get. */
  lemma {:induction false} DueIs(trace: seq<Event>, repaired: bool, c: Id)
    requires RunFrom(INIT, trace, repaired).Some?
    ensures OwedIntended(AllEffects(trace, repaired), c) == Due(trace, repaired, c)
  {
    if trace != [] {
      hide RunFrom, AllEffects, Effects, TopicOps, OwedIntended, Asked, IntendedRun;
      var before, e := trace[..|trace| - 1], trace[|trace| - 1];
      AllEffectsStep(trace, repaired);
      DueIs(before, repaired, c);
      var s := RunFrom(INIT, before, repaired).value;
      PublishEffects(s, e, repaired);
      if e.Publish? {
        AskedIs(before, repaired, e.name);
        TraceSnoc(AllEffects(before, repaired), DoPublish(e.name, e.content));
      } else {
        EffectsOwe(AllEffects(before, repaired), Effects(s, e, repaired), c);
      }
    } else {
      NothingAsked(repaired, [], c);
    }
  }

  /** The run never removes a subscriber, or moves the tail when it does. */
  ghost predicate KeepsTails(trace: seq<Event>, repaired: bool) {
    repaired || forall e :: e in trace ==> !e.Unsubscribe?
  }

  lemma {:induction false} EffectsMoveTail(trace: seq<Event>, repaired: bool)
    requires KeepsTails(trace, repaired)
    ensures AllMoveTail(AllEffects(trace, repaired))
  {
    if trace != [] {
      hide RunFrom, Effects, AllMoveTail;
      var before, e := trace[..|trace| - 1], trace[|trace| - 1];
      EffectsMoveTail(before, repaired);
      assert e in trace;
      if RunFrom(INIT, before, repaired).Some? {
        var s := RunFrom(INIT, before, repaired).value;
        MovesTailNext(AllEffects(before, repaired), s, e, repaired);
      } else {
        assert AllEffects(before, repaired) + [] == AllEffects(before, repaired);
      }
    } else {
      hide RunFrom, Effects;
    }
  }

  lemma MovesTailNext(actions: seq<Action>, s: State, e: Event, repaired: bool)
    requires AllMoveTail(actions) && (repaired || !e.Unsubscribe?)
    ensures AllMoveTail(actions + Effects(s, e, repaired))
  {
  }

  /** On every run of the repaired code, and on every run as written without an UNSUBSCRIBE, each client
      is sent, or will be sent, exactly what the subscriptions it asked for owe it. */
  lemma SessionDelivery(trace: seq<Event>, repaired: bool, c: Id)
    requires RunFrom(INIT, trace, repaired).Some? && KeepsTails(trace, repaired)
    ensures Total(RunFrom(INIT, trace, repaired).value.engine, c) == Due(trace, repaired, c)
  {
    hide RunFrom, AllEffects, KeepsTails, OwedIntended, Total, Due;
    DueIs(trace, repaired, c);
    SessionIsEngineRun(trace, repaired);
    EffectsMoveTail(trace, repaired);
    RepairedDelivery(AllEffects(trace, repaired));
  }

  /** On every run only connections whose timer runs have a session. */
  lemma {:induction false} LiveTimed(trace: seq<Event>, repaired: bool)
    requires RunFrom(INIT, trace, repaired).Some?
    ensures RunFrom(INIT, trace, repaired).value.live <= RunFrom(INIT, trace, repaired).value.timed
  {
    if trace != [] {
      LiveTimed(trace[..|trace| - 1], repaired);
    }
  }

  // ----- offline delivery, as written

  /** A granted CONNECT sends everything that was waiting for the client, first and in order, to
      the new connection, and leaves its queue empty. */
  lemma ConnectDelivers(s: State, e: Event, repaired: bool)
    requires Valid(s.engine) && Opens(s, e) && Step(s, e, repaired).Some?
    ensures var t := Step(s, e, repaired).value.engine;
            t.out == s.engine.out + Emit(e.sockfd, e.id, QueueOf(s.engine, e.id)) && QueueOf(t, e.id) == []
  {
    PerformTwo(s.engine, DoAttach(e.sockfd, e.id, repaired), DoFlush(e.sockfd));
  }

  lemma PerformTwo(e: Engine, a: Action, b: Action)
    requires Valid(e) && (a.DoAttach? && b.DoFlush?)
    ensures Perform(e, [a, b]) == Some(Flush(Attach(e, a.sockfd, a.client, a.refresh), b.sockfd))
  {
    PerformOne(e, a);
    assert [a, b][..1] == [a];
    assert Perform(e, [a, b]) == PubSub.Step(Attach(e, a.sockfd, a.client, a.refresh), b);
  }

  lemma PerformOne(e: Engine, a: Action)
    requires Valid(e)
    ensures Perform(e, [a]) == PubSub.Step(e, a) && Perform(e, []) == Some(e)
  {
    assert [a][..0] == [];
  }

  // ----- repaired: sessions and records agree on every run

  /** Every slot's client record points back at it and has nothing waiting; every other record
      points nowhere. */
  ghost predicate Linked(e: Engine) {
    && (forall s :: s in e.nodes ==>
          s > 0 && e.nodes[s] in e.clients && e.clients[e.nodes[s]] == Client(s, []))
    && (forall c :: c in e.clients ==>
          e.clients[c].sockfd == 0 || (e.clients[c].sockfd in e.nodes && e.nodes[e.clients[c].sockfd] == c))
  }

  ghost predicate Consistent(s: State) {
    && Linked(s.engine)
    && s.engine.nodes == s.names
    && s.live == s.names.Keys <= s.timed
    && (forall l :: l in s.live ==> s.names[l] in s.ids)
  }

  lemma DistributeLinked(e: Engine, c: Id, m: Msg)
    requires Linked(e) && c in e.clients
    ensures Linked(Distribute(e, c, m)) && Distribute(e, c, m).nodes == e.nodes
  {
    var s, t := e.clients[c].sockfd, Distribute(e, c, m);
    if s > 0 {
      assert s in e.nodes && e.nodes[s] == c && e.clients[c] == Client(s, []);
      assert t == e.(clients := t.clients, out := t.out);
      assert t.clients[c] == Client(s, []);
      assert t.clients == e.clients;
    } else {
      assert t == e.(clients := e.clients[c := Client(0, e.clients[c].queue + [m])]);
      assert forall x :: x in e.nodes ==> e.nodes[x] != c;
    }
  }

  lemma {:induction false} DistributeAllLinked(e: Engine, subs: seq<SubscriberSpec.Subscription>, m: Msg)
    requires Linked(e) && Known(e, subs)
    ensures Linked(DistributeAll(e, subs, m))
  {
    if subs != [] {
      DistributeAllLinked(e, subs[..|subs| - 1], m);
      DistributeLinked(DistributeAll(e, subs[..|subs| - 1], m), subs[|subs| - 1].client, m);
    }
  }

  lemma AttachLinked(e: Engine, sockfd: nat, c: Id)
    requires Linked(e) && sockfd > 0 && sockfd !in e.nodes
    requires c in e.clients ==> e.clients[c].sockfd == 0
    ensures var t := Flush(Attach(e, sockfd, c, true), sockfd); Linked(t) && t.nodes == e.nodes[sockfd := c]
  {
  }

  lemma DetachLinked(e: Engine, sockfd: nat)
    requires Linked(e)
    ensures Linked(Detach(e, sockfd)) && Detach(e, sockfd).nodes == e.nodes - {sockfd}
  {
    var t := Detach(e, sockfd);
    forall s | s in t.nodes
      ensures s > 0 && t.nodes[s] in t.clients && t.clients[t.nodes[s]] == Client(s, [])
    {
      assert e.clients[e.nodes[s]].sockfd == s;
    }
  }

  lemma PublishLinked(e: Engine, name: Name, content: seq<byte>)
    requires Valid(e) && Linked(e)
    requires Known(e, TopicOf(e, name).subs.nodes)
    ensures Linked(PubSub.Publish(e, name, content)) && PubSub.Publish(e, name, content).nodes == e.nodes
  {
    var topic := TopicOf(e, name);
    var logged := e.(topics := e.topics[name := topic.(log := topic.log + [content])]);
    DistributeAllLinked(logged, topic.subs.nodes, Msg(name, content));
  }

  lemma ListStep(e: Engine, a: Action)
    requires Valid(e) && (a.DoSubscribe? || a.DoUnsubscribe?)
    ensures PubSub.Step(e, a).Some? ==>
              && PubSub.Step(e, a).value.clients == e.clients
              && PubSub.Step(e, a).value.nodes == e.nodes
              && PubSub.Step(e, a).value.out == e.out
  {
  }

  /** Changes of subscriber lists only. */
  lemma {:induction false} ListsOnly(e: Engine, actions: seq<Action>)
    requires Valid(e) && forall a :: a in actions ==> a.DoSubscribe? || a.DoUnsubscribe?
    ensures Perform(e, actions).Some? ==>
              && Perform(e, actions).value.clients == e.clients
              && Perform(e, actions).value.nodes == e.nodes
              && Perform(e, actions).value.out == e.out
  {
    if actions != [] {
      hide Valid, PubSub.Step;
      var init := actions[..|actions| - 1];
      ListsOnly(e, init);
      if Perform(e, init).Some? {
        ListStep(Perform(e, init).value, actions[|actions| - 1]);
      }
    }
  }

  lemma StepConsistent(s: State, e: Event)
    requires Valid(s.engine) && Consistent(s) && Allowed(s, e) && Step(s, e, true).Some?
    ensures Consistent(Step(s, e, true).value)
  {
    if Closes(s, e) {
      CloseConsistent(s, e);
    } else {
      match e
      case Connect(_, _, _) => ConnectConsistent(s, e);
      case Publish(_, name, content) =>
        PerformOne(s.engine, DoPublish(name, content));
        PublishLinked(s.engine, name, content);
      case _ => ListsOnly(s.engine, Effects(s, e, true));
    }
  }

  lemma ConnectConsistent(s: State, e: Event)
    requires Valid(s.engine) && Consistent(s) && Allowed(s, e) && Step(s, e, true).Some?
    requires e.Connect? && !Closes(s, e)
    ensures Consistent(Step(s, e, true).value)
  {
    if Opens(s, e) {
      PerformTwo(s.engine, DoAttach(e.sockfd, e.id, true), DoFlush(e.sockfd));
      AttachLinked(s.engine, e.sockfd, e.id);
    } else {
      PerformOne(s.engine, DoFlush(0));
    }
  }

  lemma CloseConsistent(s: State, e: Event)
    requires Valid(s.engine) && Consistent(s) && Closes(s, e) && Step(s, e, true).Some?
    ensures Consistent(Step(s, e, true).value)
  {
    var t := Step(s, e, true).value;
    PerformOne(s.engine, DoDetach(e.sockfd));
    DetachLinked(s.engine, e.sockfd);
    forall l | l in t.live
      ensures t.names[l] in t.ids
    {
      assert s.engine.clients[s.names[l]].sockfd == l;
    }
  }

  lemma {:induction false} EveryRunConsistent(trace: seq<Event>)
    requires RunFrom(INIT, trace, true).Some?
    ensures Consistent(RunFrom(INIT, trace, true).value)
  {
    if trace != [] {
      var before, e := trace[..|trace| - 1], trace[|trace| - 1];
      EveryRunConsistent(before);
      StepConsistent(RunFrom(INIT, before, true).value, e);
    }
  }

  /** On every run of the repaired code live connections have client ids of their own, all in the
      set; each one's record is the table's entry for its id and names its slot; and nothing ever
      waits for a client that is connected. */
  lemma SessionsConsistent(trace: seq<Event>, a: nat, b: nat)
    requires RunFrom(INIT, trace, true).Some?
    ensures var s := RunFrom(INIT, trace, true).value;
            a in s.live ==>
              && a in s.names && s.names[a] in s.ids
              && a in s.engine.nodes && s.engine.nodes[a] == s.names[a]
              && s.names[a] in s.engine.clients && s.engine.clients[s.names[a]] == Client(a, [])
              && (b in s.live && b in s.names && a != b ==> s.names[a] != s.names[b])
  {
    EveryRunConsistent(trace);
  }

  /** On every run of the repaired code, what a step hands out goes to live connections, and to
      each only messages that were waiting for the client it belongs to. */
  lemma StepRoutes(trace: seq<Event>, e: Event, i: nat)
    requires RunFrom(INIT, trace + [e], true).Some?
    ensures RunFrom(INIT, trace, true).Some?
    ensures var before, s := RunFrom(INIT, trace, true).value.engine.out, RunFrom(INIT, trace + [e], true).value;
            && before <= s.engine.out
            && (|before| <= i < |s.engine.out| ==>
                  var x := s.engine.out[i];
                  x.sockfd in s.live && x.sockfd in s.names && s.names[x.sockfd] == x.client)
  {
    assert (trace + [e])[..|trace|] == trace;
    EveryRunConsistent(trace + [e]);
    var s := RunFrom(INIT, trace, true).value;
    if Closes(s, e) {
      PerformOne(s.engine, DoDetach(e.sockfd));
    } else {
      match e
      case Connect(sockfd, id, _) =>
        if Opens(s, e) {
          PerformTwo(s.engine, DoAttach(sockfd, id, true), DoFlush(sockfd));
          FlushRoutes(Attach(s.engine, sockfd, id, true), sockfd, |s.engine.out|);
        } else {
          PerformOne(s.engine, DoFlush(0));
        }
      case Publish(_, name, content) =>
        PerformOne(s.engine, DoPublish(name, content));
        PublishRoutes(s.engine, name, content);
      case _ => ListsOnly(s.engine, Effects(s, e, true));
    }
  }

  /** On every run of the repaired code a publication sends to each live connection one copy for each
      subscription that its client means to have to that topic, and nothing else. */
  lemma PublicationReaches(trace: seq<Event>, e: Event, k: nat)
    requires e.Publish? && RunFrom(INIT, trace + [e], true).Some?
    ensures RunFrom(INIT, trace, true).Some?
    ensures var s, t := RunFrom(INIT, trace, true).value, RunFrom(INIT, trace + [e], true).value;
            && s.engine.out <= t.engine.out
            && (k in t.live ==>
                  && k in t.names
                  && SlotMsgs(t.engine.out[|s.engine.out|..], k) ==
                     Copies(IntendedRun(Asked(trace, true, e.name)), t.names[k], Msg(e.name, e.content)))
  {
    PublishStep(trace, e, true);
    StepRoutes(trace, e, 0);
    var s, t := RunFrom(INIT, trace, true).value, RunFrom(INIT, trace + [e], true).value;
    hide *;
    if k in t.live {
      SessionsConsistent(trace + [e], k, k);
      var c, out := t.names[k], t.engine.out[|s.engine.out|..];
      SessionsConsistent(trace, k, k);
      OnlyThatSlot(trace, e, k);
      SlotIsClient(out, k, c);
      assert t.engine.out == s.engine.out + out;
      SentOfConcat(s.engine.out, out, c);
      StepConserves(s.engine, DoPublish(e.name, e.content), c);
      NothingWaits(s.engine, c);
      NothingWaits(t.engine, c);
      IntendedHolders(trace, true, e.name);
      SameSuffix(SentOf(s.engine.out, c), SentOf(out, c),
                 Copies(IntendedRun(Asked(trace, true, e.name)), c, Msg(e.name, e.content)));
    }
  }

  /** What a step hands out to a live connection is what it hands out for its client. */
  lemma OnlyThatSlot(trace: seq<Event>, e: Event, k: nat)
    requires RunFrom(INIT, trace, true).Some? && RunFrom(INIT, trace + [e], true).Some?
    ensures var s, t := RunFrom(INIT, trace, true).value, RunFrom(INIT, trace + [e], true).value;
            k in t.live ==>
              && k in t.names && s.engine.out <= t.engine.out
              && var out := t.engine.out[|s.engine.out|..];
              forall i :: 0 <= i < |out| ==> (out[i].sockfd == k <==> out[i].client == t.names[k])
  {
    var s, t := RunFrom(INIT, trace, true).value, RunFrom(INIT, trace + [e], true).value;
    hide *;
    OutOnlyGrows(trace, e);
    SessionsConsistent(trace + [e], k, k);
    if k in t.live {
      var out := t.engine.out[|s.engine.out|..];
      forall i | 0 <= i < |out|
        ensures out[i].sockfd == k <==> out[i].client == t.names[k]
      {
        SlotAfter(trace, e, k, i);
      }
    }
  }

  lemma SlotAfter(trace: seq<Event>, e: Event, k: nat, i: nat)
    requires RunFrom(INIT, trace, true).Some? && RunFrom(INIT, trace + [e], true).Some?
    requires var s, t := RunFrom(INIT, trace, true).value, RunFrom(INIT, trace + [e], true).value;
             k in t.live && k in t.names && |s.engine.out| + i < |t.engine.out|
    ensures var s, t := RunFrom(INIT, trace, true).value, RunFrom(INIT, trace + [e], true).value;
            var x := t.engine.out[|s.engine.out|..][i];
            x.sockfd == k <==> x.client == t.names[k]
  {
    hide *;
    NobodyRegistered();
    var s, t := RunFrom(INIT, trace, true).value, RunFrom(INIT, trace + [e], true).value;
    ThatSlot(trace, e, k, |s.engine.out| + i);
    DropAt(t.engine.out, |s.engine.out|, i);
  }

  lemma OutOnlyGrows(trace: seq<Event>, e: Event)
    requires RunFrom(INIT, trace, true).Some? && RunFrom(INIT, trace + [e], true).Some?
    ensures RunFrom(INIT, trace, true).value.engine.out <= RunFrom(INIT, trace + [e], true).value.engine.out
  {
    hide *;
    StepRoutes(trace, e, 0);
  }

  lemma ThatSlot(trace: seq<Event>, e: Event, k: nat, i: nat)
    requires RunFrom(INIT, trace, true).Some? && RunFrom(INIT, trace + [e], true).Some?
    ensures var s, t := RunFrom(INIT, trace, true).value, RunFrom(INIT, trace + [e], true).value;
            k in t.live && |s.engine.out| <= i < |t.engine.out| ==>
              && k in t.names
              && (t.engine.out[i].sockfd == k <==> t.engine.out[i].client == t.names[k])
  {
    hide *;
    NobodyRegistered();
    var s, t := RunFrom(INIT, trace, true).value, RunFrom(INIT, trace + [e], true).value;
    if k in t.live && |s.engine.out| <= i < |t.engine.out| {
      StepRoutes(trace, e, i);
      SessionsConsistent(trace + [e], k, t.engine.out[i].sockfd);
    }
  }

  lemma NothingWaits(e: Engine, c: Id)
    requires c in e.clients && e.clients[c].queue == []
    ensures Total(e, c) == SentOf(e.out, c)
  {
  }

  lemma PublishStep(trace: seq<Event>, e: Event, repaired: bool)
    requires e.Publish? && RunFrom(INIT, trace + [e], repaired).Some?
    ensures RunFrom(INIT, trace, repaired).Some?
    ensures var s, t := RunFrom(INIT, trace, repaired).value, RunFrom(INIT, trace + [e], repaired).value;
            && t.live == s.live && t.names == s.names && Valid(s.engine)
            && PubSub.Step(s.engine, DoPublish(e.name, e.content)) == Some(t.engine)
  {
    assert (trace + [e])[..|trace|] == trace;
    PerformOne(RunFrom(INIT, trace, repaired).value.engine, DoPublish(e.name, e.content));
  }

  lemma IntendedHolders(trace: seq<Event>, repaired: bool, name: Name)
    requires RunFrom(INIT, trace, repaired).Some? && KeepsTails(trace, repaired)
    ensures TopicOf(RunFrom(INIT, trace, repaired).value.engine, name).subs.nodes ==
            IntendedRun(Asked(trace, repaired, name))
  {
    hide RunFrom, AllEffects, KeepsTails, TopicOf, TopicOps, Asked;
    AskedIs(trace, repaired, name);
    var actions := AllEffects(trace, repaired);
    SessionIsEngineRun(trace, repaired);
    EffectsMoveTail(trace, repaired);
    OpsMoveTail(actions, name);
    SubscriberSpec.RepairedRun(TopicOps(actions, name));
    TablesFollowTrace(actions, name);
  }

  // ----- as written and repaired: where messages go

  lemma {:induction false} RunNames(s: State, trace: seq<Event>, repaired: bool)
    requires Valid(s.engine) && s.names == s.engine.nodes && RunFrom(s, trace, repaired).Some?
    ensures var t := RunFrom(s, trace, repaired).value; t.names == t.engine.nodes
  {
    if trace != [] {
      hide Step, Allowed, Valid;
      RunNames(s, trace[..|trace| - 1], repaired);
      StepNames(RunFrom(s, trace[..|trace| - 1], repaired).value, trace[|trace| - 1], repaired);
    }
  }

  /** On every run a slot's node is the client whose id the slot bears. */
  lemma NamesAreNodes(trace: seq<Event>, repaired: bool)
    requires RunFrom(INIT, trace, repaired).Some?
    ensures var s := RunFrom(INIT, trace, repaired).value; s.names == s.engine.nodes
  {
    RunNames(INIT, trace, repaired);
  }

  lemma StepNames(s: State, e: Event, repaired: bool)
    requires Valid(s.engine) && s.names == s.engine.nodes && Step(s, e, repaired).Some?
    ensures var t := Step(s, e, repaired).value; t.names == t.engine.nodes
  {
    if Closes(s, e) {
      PerformOne(s.engine, DoDetach(e.sockfd));
    } else {
      match e
      case Connect(sockfd, id, _) =>
        if Opens(s, e) {
          PerformTwo(s.engine, DoAttach(sockfd, id, repaired), DoFlush(sockfd));
        } else {
          PerformOne(s.engine, DoFlush(0));
        }
      case Publish(_, name, content) => PerformOne(s.engine, DoPublish(name, content));
      case _ => ListsOnly(s.engine, Effects(s, e, repaired));
    }
  }

  /** What a step hands out goes to live connections that bear the id of the client it was for. */
  ghost predicate Routes(s: State, t: State) {
    forall i :: |s.engine.out| <= i < |t.engine.out| ==>
      var x := t.engine.out[i]; x.sockfd in t.live && x.sockfd in t.names && t.names[x.sockfd] == x.client
  }

  /** Every slot that a publication sends something to has a live connection. The slots come from
      the records' sockets, the slots' nodes and who has messages waiting, before the publication. */
  predicate SendsToLive(s: State, e: Event)
    requires Valid(s.engine)
  {
    e.Publish? ==>
      assert Known(s.engine, TopicOf(s.engine, e.name).subs.nodes);
      Targets(s.engine, TopicOf(s.engine, e.name).subs.nodes, Waiting(s.engine)).0 <= s.live
  }

  lemma RoutesIff(s: State, e: Event, repaired: bool)
    requires Valid(s.engine) && s.names == s.engine.nodes && Step(s, e, repaired).Some?
    ensures Routes(s, Step(s, e, repaired).value) <==> SendsToLive(s, e)
  {
    var t := Step(s, e, repaired).value;
    if Closes(s, e) {
      PerformOne(s.engine, DoDetach(e.sockfd));
    } else {
      match e
      case Connect(sockfd, id, _) =>
        if Opens(s, e) {
          PerformTwo(s.engine, DoAttach(sockfd, id, repaired), DoFlush(sockfd));
          EmitOne(sockfd, id, QueueOf(s.engine, id));
        } else {
          PerformOne(s.engine, DoFlush(0));
        }
      case Publish(_, name, content) => PublishRoutesIff(s, e, repaired);
      case _ => ListsOnly(s.engine, Effects(s, e, repaired));
    }
  }

  lemma PublishRoutesIff(s: State, e: Event, repaired: bool)
    requires Valid(s.engine) && s.names == s.engine.nodes && e.Publish? && Step(s, e, repaired).Some?
    ensures Routes(s, Step(s, e, repaired).value) <==> SendsToLive(s, e)
  {
    hide PubSub.Publish, Targets, Waiting, SlotsOf;
    assert Known(s.engine, TopicOf(s.engine, e.name).subs.nodes);
    var r := PubSub.Publish(s.engine, e.name, e.content);
    PerformOne(s.engine, DoPublish(e.name, e.content));
    PublishRoutes(s.engine, e.name, e.content);
    PublishTargets(s.engine, e.name, e.content);
    PublishKeepsNodes(s.engine, e.name, e.content);
    SlotsFrom(r.out, |s.engine.out|);
  }

  lemma PublishKeepsNodes(e: Engine, name: Name, content: seq<byte>)
    requires Known(e, TopicOf(e, name).subs.nodes)
    ensures PubSub.Publish(e, name, content).nodes == e.nodes
  {
  }

  lemma SlotsFrom(out: seq<Sent>, n: nat)
    requires n <= |out|
    ensures forall s :: s in SlotsOf(out[n..]) <==> exists i :: n <= i < |out| && out[i].sockfd == s
  {
    forall s | exists i :: n <= i < |out| && out[i].sockfd == s
      ensures s in SlotsOf(out[n..])
    {
      var i :| n <= i < |out| && out[i].sockfd == s;
      assert out[n..][i - n].sockfd == s;
    }
  }

  /** The run's next step hands everything out to live connections of the right client. */
  ghost predicate RoutesAfter(trace: seq<Event>, e: Event, repaired: bool) {
    && RunFrom(INIT, trace, repaired).Some? && RunFrom(INIT, trace + [e], repaired).Some?
    && Routes(RunFrom(INIT, trace, repaired).value, RunFrom(INIT, trace + [e], repaired).value)
  }

  ghost predicate SendsToLiveAfter(trace: seq<Event>, e: Event, repaired: bool) {
    RunFrom(INIT, trace, repaired).Some? ==> SendsToLive(RunFrom(INIT, trace, repaired).value, e)
  }

  lemma RoutesAfterIff(trace: seq<Event>, e: Event, repaired: bool)
    requires RunFrom(INIT, trace + [e], repaired).Some?
    ensures RoutesAfter(trace, e, repaired) <==> SendsToLiveAfter(trace, e, repaired)
  {
    hide Routes, SendsToLive, Step, Allowed;
    assert (trace + [e])[..|trace|] == trace;
    NamesAreNodes(trace, repaired);
    RoutesIff(RunFrom(INIT, trace, repaired).value, e, repaired);
  }

  /** A run hands everything out to live connections of the right client if and only if no
      publication of the run sends something to a slot without a live connection. */
  lemma RoutedIff(trace: seq<Event>, repaired: bool)
    requires RunFrom(INIT, trace, repaired).Some?
    ensures (forall n :: 0 <= n < |trace| ==> RoutesAfter(trace[..n], trace[n], repaired))
       <==> (forall n :: 0 <= n < |trace| ==> SendsToLiveAfter(trace[..n], trace[n], repaired))
  {
    hide RunFrom, RoutesAfter, SendsToLiveAfter;
    forall n | 0 <= n < |trace|
      ensures RoutesAfter(trace[..n], trace[n], repaired) <==> SendsToLiveAfter(trace[..n], trace[n], repaired)
    {
      PrefixDefined(INIT, trace, repaired, n + 1);
      assert trace[..n + 1] == trace[..n] + [trace[n]];
      RoutesAfterIff(trace[..n], trace[n], repaired);
    }
  }

  /** After the run, the next publication reaches a live connection in full, as written and repaired,
      exactly when it sends to no other slot that bears the client's id and leaves nothing waiting. As
      long as no subscriber has been removed, or with the tail moved, that is one copy for each
      subscription that the client means to have. */
  lemma PublicationReachesIff(trace: seq<Event>, e: Event, repaired: bool, k: nat)
    requires e.Publish? && RunFrom(INIT, trace + [e], repaired).Some?
    ensures RunFrom(INIT, trace, repaired).Some?
    ensures var s, t := RunFrom(INIT, trace, repaired).value, RunFrom(INIT, trace + [e], repaired).value;
            && Known(s.engine, TopicOf(s.engine, e.name).subs.nodes)
            && s.engine.out <= t.engine.out
            && (k in s.names ==>
                  var c, m := s.names[k], Msg(e.name, e.content);
                  var due := QueueOf(s.engine, c) + Copies(TopicOf(s.engine, e.name).subs.nodes, c, m);
                  && (SlotMsgs(t.engine.out[|s.engine.out|..], k) == due <==> OnlyThere(s.engine, e.name, k, c))
                  && (KeepsTails(trace, repaired) ==>
                        TopicOf(s.engine, e.name).subs.nodes ==
                        IntendedRun(Asked(trace, repaired, e.name))))
  {
    PublishStep(trace, e, repaired);
    var s := RunFrom(INIT, trace, repaired).value;
    assert Known(s.engine, TopicOf(s.engine, e.name).subs.nodes);
    assert PubSub.Step(s.engine, DoPublish(e.name, e.content)) == Some(PubSub.Publish(s.engine, e.name, e.content));
    NamesAreNodes(trace, repaired);
    NamesKnown(trace, repaired, k);
    hide *;
    PublishRoutes(s.engine, e.name, e.content);
    if k in s.names {
      ReachesIff(s.engine, e.name, e.content, k, s.names[k]);
    }
    if KeepsTails(trace, repaired) {
      IntendedHolders(trace, repaired, e.name);
    }
  }

  /** As written: a client comes back on another socket, and what is published to it goes to the
      closed one. */
  lemma SentToClosedSocket(c: Id, name: Name, content: seq<byte>)
    requires 1 <= |c| <= MAX_ID && name != [] && content != []
    ensures var trace := [Connect(5, c, Granted), Close(5), Connect(7, c, Granted),
                          Event.Subscribe(7, [name], 0), Publish(7, name, content)];
            && RunFrom(INIT, trace, false).Some?
            && var s := RunFrom(INIT, trace, false).value;
            s.live == {7} && 7 in s.names && s.names[7] == c && s.engine.out == [Sent(5, c, Msg(name, content))]
  {
    var subscribe, publish := Event.Subscribe(7, [name], 0), Publish(7, name, content);
    var back := [Connect(5, c, Granted), Close(5), Connect(7, c, Granted)];
    var s := ComeBack(c);
    hide RunFrom, Step, PubSub.Publish, SubscribeTo;
    RunSnoc(back, subscribe);
    StepSubscribe(s, 7, name);
    var t := s.(engine := SubscribeTo(s.engine, name, c, 0));
    SubscribedOnce(s.engine, name, c);
    RunSnoc(back + [subscribe], publish);
    StepPublish(t, publish);
    PublishToOne(t.engine, SubscriberSpec.Subscription(c, 0), name, content);
    assert back + [subscribe] + [publish] == [Connect(5, c, Granted), Close(5), Connect(7, c, Granted), subscribe, publish];
  }

  lemma SubscribedOnce(e: Engine, name: Name, c: Id)
    requires name !in e.topics && c in e.clients
    ensures var r := SubscribeTo(e, name, c, 0);
            && name in r.topics && r.topics[name].subs.nodes == [SubscriberSpec.Subscription(c, 0)]
            && r == e.(topics := r.topics)
  {
  }

  /** A client whose record names another slot than the one it came back on. */
  lemma ComeBack(c: Id) returns (s: State)
    requires 1 <= |c| <= MAX_ID
    ensures RunFrom(INIT, [Connect(5, c, Granted), Close(5), Connect(7, c, Granted)], false) == Some(s)
    ensures s.engine == Engine(map[c := Client(5, [])], map[], map[5 := c, 7 := c], [])
    ensures s.names == map[5 := c, 7 := c] && s.ids == {c} && s.timed == s.live == {7}
  {
    var open, close, again := Connect(5, c, Granted), Close(5), Connect(7, c, Granted);
    assert [] + [open] == [open] && [open] + [close] == [open, close] && [open, close] + [again] == [open, close, again];
    hide RunFrom, Step;
    RunSnoc([], open);
    var s1 := StepLogin(INIT, open);
    RunSnoc([open], close);
    var s2 := StepClose(s1, close);
    RunSnoc([open, close], again);
    s := StepLogin(s2, again);
  }

  lemma StepSubscribe(s: State, sockfd: nat, name: Name)
    requires Valid(s.engine) && sockfd in s.names && s.names[sockfd] in s.engine.clients && name != []
    ensures Step(s, Event.Subscribe(sockfd, [name], 0), false) ==
            Some(s.(engine := SubscribeTo(s.engine, name, s.names[sockfd], 0)))
  {
    var e, a := Event.Subscribe(sockfd, [name], 0), DoSubscribe(name, s.names[sockfd], 0);
    PerformOne(s.engine, a);
    assert Effects(s, e, false) == [a];
  }

  lemma StepPublish(s: State, e: Event)
    requires Valid(s.engine) && e.Publish? && !Stops(s, e)
    ensures Known(s.engine, TopicOf(s.engine, e.name).subs.nodes)
    ensures Step(s, e, false) == Some(s.(engine := PubSub.Publish(s.engine, e.name, e.content)))
  {
    hide PubSub.Publish;
    PerformOne(s.engine, DoPublish(e.name, e.content));
  }

  // ----- as written: when two connections can share an id

  /** Live connections have client ids of their own, all in the set. */
  ghost predicate Registered(s: State) {
    && (forall l :: l in s.live ==> l in s.names && s.names[l] in s.ids)
    && (forall l, k :: l in s.live && k in s.live && l != k ==> s.names[l] != s.names[k])
  }

  /** The event closes a slot that still bears the client id of another live connection. */
  ghost predicate StaleClose(s: State, e: Event) {
    && Closes(s, e)
    && e.sockfd in s.names
    && exists l :: l in s.live && l in s.names && l != e.sockfd && s.names[l] == s.names[e.sockfd]
  }

  lemma RegisteredIff(s: State, e: Event)
    requires Valid(s.engine) && s.live <= s.timed && Registered(s) && Allowed(s, e) && Step(s, e, false).Some?
    ensures Registered(Step(s, e, false).value) <==> !StaleClose(s, e)
  {
    var t := Step(s, e, false).value;
    if StaleClose(s, e) {
      var l :| l in s.live && l in s.names && l != e.sockfd && s.names[l] == s.names[e.sockfd];
      assert l in t.live && t.names[l] !in t.ids;
    }
  }

  ghost predicate StillRegistered(trace: seq<Event>) {
    RunFrom(INIT, trace, false).Some? && Registered(RunFrom(INIT, trace, false).value)
  }

  ghost predicate ClosesCleanly(trace: seq<Event>, e: Event) {
    RunFrom(INIT, trace, false).Some? ==> !StaleClose(RunFrom(INIT, trace, false).value, e)
  }

  /** On a run of the code as written all connections keep ids of their own throughout if and only
      if no step of the run closes a slot that bears the id of another live connection. */
  lemma RegisteredRunIff(trace: seq<Event>)
    requires RunFrom(INIT, trace, false).Some?
    ensures (forall n :: 0 <= n <= |trace| ==> StillRegistered(trace[..n]))
       <==> (forall n :: 0 <= n < |trace| ==> ClosesCleanly(trace[..n], trace[n]))
  {
    hide *;
    NobodyRegistered();
    forall n | 0 <= n < |trace| && StillRegistered(trace[..n])
      ensures StillRegistered(trace[..n + 1]) <==> ClosesCleanly(trace[..n], trace[n])
    {
      assert trace[..n + 1] == trace[..n] + [trace[n]];
      PrefixDefined(INIT, trace, false, n + 1);
      RegisteredStep(trace[..n], trace[n]);
    }
    PrefixIff(trace, StillRegistered, ClosesCleanly);
  }

  lemma NobodyRegistered()
    ensures StillRegistered([]) && Valid(INIT.engine)
  {
  }

  lemma {:induction false} PrefixDefined(s: State, trace: seq<Event>, repaired: bool, n: nat)
    requires Valid(s.engine) && RunFrom(s, trace, repaired).Some? && n <= |trace|
    ensures RunFrom(s, trace[..n], repaired).Some?
  {
    if n < |trace| {
      PrefixDefined(s, trace[..|trace| - 1], repaired, n);
      assert trace[..|trace| - 1][..n] == trace[..n];
    } else {
      assert trace[..n] == trace;
    }
  }

  lemma RegisteredStep(before: seq<Event>, e: Event)
    requires RunFrom(INIT, before + [e], false).Some?
    ensures StillRegistered(before) ==> (StillRegistered(before + [e]) <==> ClosesCleanly(before, e))
  {
    assert (before + [e])[..|before|] == before;
    if StillRegistered(before) {
      LiveTimed(before, false);
      RegisteredIff(RunFrom(INIT, before, false).value, e);
    }
  }

  /** A client comes back on another socket; its old socket is used again and closed without a
      CONNECT; and a second connection gets the same client id. */
  lemma TwoSessionsOneId(id: Id)
    requires 1 <= |id| <= MAX_ID
    ensures var trace := [Connect(5, id, Granted), Close(5), Connect(7, id, Granted), Close(5), Connect(8, id, Granted)];
            && RunFrom(INIT, trace, false).Some?
            && var s := RunFrom(INIT, trace, false).value;
            s.live == {7, 8} && 7 in s.names && 8 in s.names && s.names[7] == s.names[8] == id
  {
    var back := [Connect(5, id, Granted), Close(5), Connect(7, id, Granted)];
    var close, again := Close(5), Connect(8, id, Granted);
    var s := ComeBack(id);
    hide RunFrom, Step;
    RunSnoc(back, close);
    var s4 := StepClose(s, close);
    RunSnoc(back + [close], again);
    var s5 := StepLogin(s4, again);
    assert back + [close] + [again] == [Connect(5, id, Granted), Close(5), Connect(7, id, Granted), close, again];
  }

  lemma RunSnoc(trace: seq<Event>, e: Event)
    ensures RunFrom(INIT, [], false) == Some(INIT)
    ensures RunFrom(INIT, trace + [e], false) ==
            match RunFrom(INIT, trace, false)
            case None => None
            case Some(s) => if Allowed(s, e) then Step(s, e, false) else None
  {
    assert (trace + [e])[..|trace|] == trace;
  }

  lemma StepLogin(s: State, e: Event) returns (t: State)
    requires Valid(s.engine) && Opens(s, e) && e.id != []
    ensures Step(s, e, false) == Some(t) && Valid(t.engine)
    ensures t.names == s.names[e.sockfd := e.id] && t.ids == s.ids + {e.id}
    ensures t.timed == s.timed + {e.sockfd} && t.live == s.live + {e.sockfd}
    ensures t.engine == Flush(Attach(s.engine, e.sockfd, e.id, false), e.sockfd)
  {
    PerformTwo(s.engine, DoAttach(e.sockfd, e.id, false), DoFlush(e.sockfd));
    t := Step(s, e, false).value;
  }

  lemma StepClose(s: State, e: Event) returns (t: State)
    requires Valid(s.engine) && e.Close? && e.sockfd in s.names
    ensures Step(s, e, false) == Some(t) && Valid(t.engine)
    ensures t.names == s.names && t.ids == s.ids - {s.names[e.sockfd]} && t.engine == s.engine
    ensures t.timed == s.timed - {e.sockfd} && t.live == s.live - {e.sockfd}
  {
    PerformOne(s.engine, DoFlush(0));
    t := Step(s, e, false).value;
  }

  // ----- as written and repaired: ids that are never given back

  /** The id is in the set, but no slot bears it. */
  ghost predicate Burned(s: State, id: Id) {
    id in s.ids && forall l :: l in s.names ==> s.names[l] != id
  }

  /** A CONNECT that registers its id and is then not granted leaves the id in use by nobody. */
  lemma BurnedIff(s: State, e: Event, repaired: bool)
    requires Valid(s.engine) && Registers(s, e) && Step(s, e, repaired).Some?
    requires forall l :: l in s.names ==> s.names[l] != e.id
    ensures Burned(Step(s, e, repaired).value, e.id) <==> !e.login.Granted?
  {
    if Opens(s, e) {
      assert Step(s, e, repaired).value.names[e.sockfd] == e.id;
    }
  }

  /** Whatever happens from then on, the id stays in use by nobody, so no CONNECT with it is granted. */
  lemma {:induction false} BurnedForever(s: State, trace: seq<Event>, repaired: bool, id: Id)
    requires Valid(s.engine) && Burned(s, id) && RunFrom(s, trace, repaired).Some?
    ensures Burned(RunFrom(s, trace, repaired).value, id)
    ensures forall e: Event :: e.Connect? && e.id == id ==> !Opens(RunFrom(s, trace, repaired).value, e)
  {
    if trace != [] {
      BurnedForever(s, trace[..|trace| - 1], repaired, id);
    }
  }

  // ----- closing several connections

  /** Shutting connections one after the other. */
  function CloseAll(slots: seq<nat>): (events: seq<Event>)
    ensures forall e :: e in events ==> e.Close?
  {
    if slots == [] then [] else CloseAll(slots[..|slots| - 1]) + [Close(slots[|slots| - 1])]
  }

  /** The sessions of these slots have ended, exactly their ids may be used again, all other slots are as
      they were, and no message and no subscription has come or gone. */
  ghost predicate ClosedAll(s: State, t: State, slots: seq<nat>, repaired: bool) {
    && (forall k :: k in t.timed <==> k in s.timed && k !in slots)
    && (forall k :: k in t.live <==> k in s.live && k !in slots)
    && (forall k :: k in t.names <==> k in s.names && !(repaired && k in slots))
    && (forall k :: k in t.names ==> t.names[k] == s.names[k])
    && t.ids <= s.ids
    && (forall k :: k in s.names && k in slots ==> s.names[k] !in t.ids)
    && (forall id :: id in s.ids - t.ids ==> exists k :: k in slots && k in s.names && s.names[k] == id)
    && t.engine.topics == s.engine.topics && t.engine.out == s.engine.out
  }

  lemma {:induction false} CloseAllDoes(trace: seq<Event>, slots: seq<nat>, repaired: bool)
    requires RunFrom(INIT, trace, repaired).Some?
    ensures RunFrom(INIT, trace + CloseAll(slots), repaired).Some?
    ensures ClosedAll(RunFrom(INIT, trace, repaired).value, RunFrom(INIT, trace + CloseAll(slots), repaired).value, slots,
                      repaired)
  {
    if slots == [] {
      assert trace + CloseAll(slots) == trace;
    } else {
      hide RunFrom, ClosedAll;
      var init, last := slots[..|slots| - 1], slots[|slots| - 1];
      assert trace + CloseAll(slots) == trace + CloseAll(init) + [Close(last)];
      CloseAllDoes(trace, init, repaired);
      CloseDoes(trace + CloseAll(init), last, repaired);
      ClosedNext(RunFrom(INIT, trace, repaired).value, RunFrom(INIT, trace + CloseAll(init), repaired).value,
                 RunFrom(INIT, trace + CloseAll(slots), repaired).value, slots, repaired);
    }
  }

  lemma ClosedNext(s: State, mid: State, t: State, slots: seq<nat>, repaired: bool)
    requires slots != [] && ClosedAll(s, mid, slots[..|slots| - 1], repaired)
    requires var k := slots[|slots| - 1];
             && t.timed == mid.timed - {k} && t.live == mid.live - {k}
             && t.names == (if repaired then mid.names - {k} else mid.names)
             && t.ids == (if k in mid.names then mid.ids - {mid.names[k]} else mid.ids)
             && t.engine.topics == mid.engine.topics && t.engine.out == mid.engine.out
    ensures ClosedAll(s, t, slots, repaired)
  {
    var init, last := slots[..|slots| - 1], slots[|slots| - 1];
    assert forall k :: k in slots <==> k in init || k == last;
    forall id | id in s.ids - t.ids
      ensures exists k :: k in slots && k in s.names && s.names[k] == id
    {
      if id in mid.ids {
        assert last in slots && last in s.names && s.names[last] == id;
      } else {
        assert id in s.ids - mid.ids;
        var k :| k in init && k in s.names && s.names[k] == id;
        assert k in slots;
      }
    }
  }

  lemma CloseDoes(trace: seq<Event>, k: nat, repaired: bool)
    requires RunFrom(INIT, trace, repaired).Some?
    ensures RunFrom(INIT, trace + [Close(k)], repaired).Some?
    ensures var s, t := RunFrom(INIT, trace, repaired).value, RunFrom(INIT, trace + [Close(k)], repaired).value;
            && t.timed == s.timed - {k} && t.live == s.live - {k}
            && t.names == (if repaired then s.names - {k} else s.names)
            && t.ids == (if k in s.names then s.ids - {s.names[k]} else s.ids)
            && t.engine.topics == s.engine.topics && t.engine.out == s.engine.out
  {
    assert (trace + [Close(k)])[..|trace|] == trace;
    PerformOne(RunFrom(INIT, trace, repaired).value.engine, DoDetach(k));
  }

  function Members(slots: seq<nat>): set<nat> {
    set s | s in slots
  }

  lemma CloseNone(s: State, slots: seq<nat>, repaired: bool)
    requires Valid(s.engine)
    ensures RunFrom(s, CloseAll(slots[..0]), repaired) == Some(s) && Members(slots[..0]) == {}
  {
  }

  lemma CloseNext(s: State, slots: seq<nat>, n: nat, repaired: bool)
    requires Valid(s.engine) && n < |slots|
    requires RunFrom(s, CloseAll(slots[..n]), repaired).Some?
    ensures RunFrom(s, CloseAll(slots[..n + 1]), repaired) ==
            Step(RunFrom(s, CloseAll(slots[..n]), repaired).value, Close(slots[n]), repaired)
    ensures Members(slots[..n + 1]) == Members(slots[..n]) + {slots[n]}
  {
    hide Step, Valid, Members;
    assert slots[..n + 1][..n] == slots[..n];
    NextMember(slots, n);
    RunFromSnoc(s, CloseAll(slots[..n]), Close(slots[n]), repaired);
  }

  lemma RunFromSnoc(s: State, trace: seq<Event>, e: Event, repaired: bool)
    requires Valid(s.engine)
    ensures RunFrom(s, trace + [e], repaired) ==
            match RunFrom(s, trace, repaired)
            case None => None
            case Some(t) => if Allowed(t, e) then Step(t, e, repaired) else None
  {
    hide Step, Valid, Allowed;
    assert (trace + [e])[..|trace|] == trace;
  }

  lemma NextMember(slots: seq<nat>, n: nat)
    requires n < |slots|
    ensures Members(slots[..n + 1]) == Members(slots[..n]) + {slots[n]}
  {
  }

  lemma {:induction false} ClosingsGoOn(s: State, slots: seq<nat>, repaired: bool)
    requires Valid(s.engine)
    ensures RunFrom(s, CloseAll(slots), repaired).Some?
  {
    if slots == [] {
      assert CloseAll(slots) == [];
    } else {
      hide Step, Valid;
      var init := slots[..|slots| - 1];
      ClosingsGoOn(s, init, repaired);
      RunFromSnoc(s, CloseAll(init), Close(slots[|slots| - 1]), repaired);
      StepGoesOnIff(RunFrom(s, CloseAll(init), repaired).value, Close(slots[|slots| - 1]), repaired);
    }
  }
}
