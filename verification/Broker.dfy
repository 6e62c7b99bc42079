/** The server's tables, updated in place by its message handlers (src/mqtt_handler.c and
    src/mqtt_message.c). Client records and topics are reached through their table entries. */
module Broker {
  import opened Strings
  import opened Wrappers
  import opened PubSub
  import opened SubscriberSpec
  import opened Session

  class Broker {
    var clients: map<Id, Client>
    var topics: map<Name, Topic>
    var nodes: map<nat, Id>
    var out: seq<Sent>
    var names: map<nat, Id>
    var ids: set<Id>
    ghost var timed: set<nat>
    ghost var live: set<nat>
    /** Whether closing clears the slot and CONNECT refreshes the socket; false in the code as written. */
    const repaired: bool

    ghost function Engine(): Engine
      reads this
    {
      PubSub.Engine(clients, topics, nodes, out)
    }

    ghost function State(): Session.State
      reads this
    {
      Session.State(Engine(), names, ids, timed, live)
    }

    constructor (repaired: bool)
      ensures State() == INIT && this.repaired == repaired
    {
      clients, topics, nodes, out, names, ids := map[], map[], map[], [], map[], {};
      timed, live := {}, {};
      this.repaired := repaired;
    }

    /** `mqtt_send_client_msg`. A topic name that does not fit its length field would keep the
        loop on the same message for ever. */
    method SendClientMsg(sockfd: nat)
      requires Valid(Engine())
      requires sockfd in nodes ==> forall m :: m in clients[nodes[sockfd]].queue ==> |m.topic| <= 65535
      modifies this`clients, this`out
      ensures Engine() == Flush(old(Engine()), sockfd)
    {
      if sockfd !in nodes {
        return;
      }
      var c := nodes[sockfd];
      var queue := clients[c].queue;
      var n := 0;
      while n < |queue|
        invariant 0 <= n <= |queue| && out == old(out) + Emit(sockfd, c, queue[..n])
        modifies this`out
      {
        assert queue[..n + 1][..n] == queue[..n];
        out := out + [Sent(sockfd, c, queue[n])];
        n := n + 1;
      }
      assert queue[..n] == queue;
      clients := clients[c := clients[c].(queue := [])];
    }

    /** `mqtt_distribute_msg`. */
    method DistributeMsg(c: Id, m: Msg)
      requires Valid(Engine()) && c in clients && Short(Engine()) && |m.topic| <= 65535
      modifies this`clients, this`out
      ensures Engine() == Distribute(old(Engine()), c, m) && Valid(Engine()) && Short(Engine())
    {
      clients := clients[c := clients[c].(queue := clients[c].queue + [m])];
      if clients[c].sockfd > 0 {
        SendClientMsg(clients[c].sockfd);
      }
    }

    /** What `mqtt_handler_publish` does with a topic and a content that it has read. */
    method HandlerPublish(sockfd: nat, name: Name, content: seq<byte>)
      requires Valid(Engine()) && Short(Engine()) && |name| <= 65535
      requires !Stops(State(), Session.Publish(sockfd, name, content))
      modifies this`clients, this`topics, this`out
      ensures Some(State()) == Session.Step(old(State()), Session.Publish(sockfd, name, content), repaired)
      ensures Valid(Engine()) && Short(Engine())
    {
      hide PubSub.Publish;
      PerformOne(Engine(), DoPublish(name, content));
      TopicAddMsg(name, content);
    }

    /** `_mqtt_topic_add_msg`, after the lookup in `mqtt_handler_publish`. */
    method TopicAddMsg(name: Name, content: seq<byte>)
      requires Valid(Engine()) && Short(Engine()) && |name| <= 65535
      modifies this`clients, this`topics, this`out
      ensures Known(old(Engine()), TopicOf(old(Engine()), name).subs.nodes)
      ensures Engine() == PubSub.Publish(old(Engine()), name, content)
      ensures Short(Engine())
    {
      if name !in topics {
        topics := topics[name := Topic(Subs([], NoTail), [])];
      }
      var topic := topics[name];
      topics := topics[name := topic.(log := topic.log + [content])];
      DistributeTo(topic.subs.nodes, Msg(name, content));
    }

    /** The walk over the subscribers in `_mqtt_topic_add_msg`. */
    method DistributeTo(subs: seq<Subscription>, m: Msg)
      requires Valid(Engine()) && Short(Engine()) && Known(Engine(), subs) && |m.topic| <= 65535
      modifies this`clients, this`out
      ensures Engine() == DistributeAll(old(Engine()), subs, m) && Short(Engine())
    {
      hide Short, Distribute;
      ghost var start := Engine();
      var n := 0;
      while n < |subs|
        invariant 0 <= n <= |subs| && Valid(Engine()) && Short(Engine())
        invariant Known(start, subs) && Engine() == DistributeAll(start, subs[..n], m)
        modifies this`clients, this`out
      {
        assert subs[..n + 1][..n] == subs[..n];
        DistributeMsg(subs[n].client, m);
        n := n + 1;
      }
      assert subs[..n] == subs;
    }

    /** `mqtt_set_env`. */
    method SetEnv(sockfd: nat, id: Id)
      requires Valid(Engine()) && id != []
      modifies this`names, this`nodes, this`clients, this`live
      ensures Engine() == Attach(old(Engine()), sockfd, id, repaired)
      ensures names == old(names)[sockfd := id] && live == old(live) + {sockfd}
    {
      names := names[sockfd := id];
      if id !in clients {
        clients := clients[id := Client(sockfd, [])];
      } else if repaired {
        clients := clients[id := clients[id].(sockfd := sockfd)];
      }
      nodes := nodes[sockfd := id];
      live := live + {sockfd};
    }

    /** `shut_dead_conn`, apart from the timer and the socket itself. */
    method ShutDeadConn(sockfd: nat)
      requires Valid(Engine())
      modifies this`names, this`nodes, this`clients, this`ids, this`timed, this`live
      ensures !Stops(old(State()), Close(sockfd)) && Some(State()) == Session.Step(old(State()), Close(sockfd), repaired)
      ensures old(Short(Engine())) ==> Short(Engine())
      ensures Valid(Engine()) && timed == old(timed) - {sockfd}
    {
      CloseIs(State(), sockfd, repaired);
      hide Session.Step, Stops;
      if sockfd in names {
        ids := ids - {names[sockfd]};
      }
      timed, live := timed - {sockfd}, live - {sockfd};
      if repaired {
        if sockfd in nodes && nodes[sockfd] in clients {
          clients := clients[nodes[sockfd] := clients[nodes[sockfd]].(sockfd := 0)];
        }
        nodes := nodes - {sockfd};
        names := names - {sockfd};
      }
    }

    /** The calls of `shut_dead_conn` for the connections that a tick reaps. */
    method ShutAll(slots: seq<nat>)
      requires Valid(Engine()) && Short(Engine())
      modifies this`names, this`nodes, this`clients, this`ids, this`timed, this`live
      ensures Valid(Engine()) && Short(Engine())
      ensures timed == old(timed) - Members(slots)
      ensures Some(State()) == RunFrom(old(State()), CloseAll(slots), repaired)
    {
      ghost var start, done := State(), timed;
      CloseNone(start, slots, repaired);
      hide *;
      var n := 0;
      while n < |slots|
        invariant 0 <= n <= |slots| && Valid(Engine()) && Short(Engine())
        invariant Valid(start.engine) && RunFrom(start, CloseAll(slots[..n]), repaired) == Some(State())
        invariant timed == done - Members(slots[..n])
      {
        CloseNext(start, slots, n, repaired);
        ShutDeadConn(slots[n]);
        n := n + 1;
      }
      assert slots[..n] == slots;
    }

    /** `mqtt_conn_ack` when the CONNECT is granted. */
    method ConnAck(sockfd: nat, id: Id)
      requires Valid(Engine()) && Short(Engine()) && id != []
      modifies this`names, this`nodes, this`clients, this`live, this`out
      ensures Engine() == Flush(Attach(old(Engine()), sockfd, id, repaired), sockfd)
      ensures names == old(names)[sockfd := id] && live == old(live) + {sockfd} && Short(Engine())
    {
      SetEnv(sockfd, id);
      SendClientMsg(sockfd);
    }

    /** `mqtt_handler_connect` from the client id on; the packet loop shuts the connection when the
        handler fails. */
    method HandlerConnect(sockfd: nat, id: Id, login: Login) returns (failed: bool)
      requires Valid(Engine()) && Short(Engine())
      requires Allowed(State(), Connect(sockfd, id, login)) && !Stops(State(), Connect(sockfd, id, login))
      modifies this
      ensures Some(State()) == Session.Step(old(State()), Connect(sockfd, id, login), repaired)
      ensures failed == Closes(old(State()), Connect(sockfd, id, login)) && Valid(Engine()) && Short(Engine())
      ensures timed == if failed then old(timed) else old(timed) + {sockfd}
    {
      hide Flush, Attach, Perform, PubSub.Step, Short, Valid;
      PerformOne(Engine(), DoDetach(sockfd));
      timed := timed + {sockfd};
      assert timed - {sockfd} == old(timed) - {sockfd};
      if |id| > MAX_ID {
        ShutDeadConn(sockfd);
        return true;
      }
      if id in ids {
        ShutDeadConn(sockfd);
        return true;
      }
      ids := ids + {id};
      match login {
        case Truncated =>
          ShutDeadConn(sockfd);
          return true;
        case Granted =>
          PerformTwo(Engine(), DoAttach(sockfd, id, repaired), DoFlush(sockfd));
          ConnAck(sockfd, id);
        case Refused | Passwordless =>
        case Anonymous(missing) =>
          if missing {
            ShutDeadConn(sockfd);
            return true;
          }
      }
      return false;
    }

    /** `mqtt_handler_subscribe` on topic names that have been read. */
    method HandlerSubscribe(sockfd: nat, filters: seq<Name>, qos: nat) returns (failed: bool)
      requires Valid(Engine()) && !Stops(State(), Session.Subscribe(sockfd, filters, qos))
      requires sockfd in names ==> names[sockfd] in clients
      modifies this
      ensures Some(State()) == Session.Step(old(State()), Session.Subscribe(sockfd, filters, qos), repaired)
      ensures Valid(Engine()) && (old(Short(Engine())) ==> Short(Engine()))
      ensures failed == (sockfd !in old(names)) && timed == if failed then old(timed) - {sockfd} else old(timed)
    {
      hide Perform, PubSub.Step;
      ghost var e := Session.Subscribe(sockfd, filters, qos);
      if sockfd !in names {
        ShutDeadConn(sockfd);
        return true;
      }
      var c := names[sockfd];
      ghost var actions := Effects(State(), e, repaired);
      SubscribeAll(filters, c, qos, actions);
      return false;
    }

    /** The loop of `mqtt_parse_subtopices`. */
    method SubscribeAll(filters: seq<Name>, c: Id, qos: nat, ghost actions: seq<Action>)
      requires Valid(Engine()) && c in clients && |actions| == |filters|
      requires forall i :: 0 <= i < |filters| ==> actions[i] == DoSubscribe(filters[i], c, qos)
      modifies this`topics
      ensures Valid(Engine()) && Perform(old(Engine()), actions) == Some(Engine())
    {
      ghost var start := Engine();
      PerformNone(start, actions);
      var n := 0;
      while n < |filters|
        invariant 0 <= n <= |filters| && Valid(Engine())
        invariant Valid(start) && Perform(start, actions[..n]) == Some(Engine())
      {
        hide Valid, Perform, SubscribeTo;
        PerformNext(start, actions, n);
        TopicSub(filters[n], c, qos);
        n := n + 1;
      }
      assert actions[..n] == actions;
    }

    /** `mqtt_topic_get`, `mqtt_topic_add` and `mqtt_topic_sub`. */
    method TopicSub(name: Name, c: Id, qos: nat)
      requires c in clients
      modifies this`topics
      ensures Engine() == SubscribeTo(old(Engine()), name, c, qos)
    {
      if name !in topics {
        topics := topics[name := Topic(Subs([], NoTail), [])];
      }
      var topic := topics[name];
      topics := topics[name := topic.(subs := SubscriberSpec.Subscribe(topic.subs, Subscription(c, qos)))];
    }
  }
}
