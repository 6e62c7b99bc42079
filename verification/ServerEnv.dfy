/** `struct server_env`: the tables and the deadline list together, as the handlers and the tick
    update them in place, against `Session` and `KeepAlive` (src/mqtt_handler.c, src/server.c). */
module ServerEnv {
  import opened Strings
  import opened Wrappers
  import opened PubSub
  import opened Session
  import opened TimerList
  import opened Codec
  import Broker
  import Connections
  import Frames
  import KeepAlive
  import opened Outgoing
  import Packet
  import Server
  import Stream
  import TimerSpec

  class Env {
    const broker: Broker.Broker
    const connections: Connections.Connections

    ghost predicate Valid()
      reads this, broker, connections, connections.list, connections.list.timers, connections.timer
    {
      && PubSub.Valid(broker.Engine()) && Short(broker.Engine())
      && connections.Valid()
      && broker.timed == connections.expireTime.Keys
      && broker.names == broker.nodes
    }

    lemma Tables()
      requires Valid()
      ensures PubSub.Valid(broker.State().engine) && broker.timed == connections.expireTime.Keys
    {
    }

    lemma NameKnown(sockfd: nat)
      requires Valid()
      ensures sockfd in broker.names ==> broker.names[sockfd] in broker.clients
    {
    }

    constructor (slots: nat, repaired: bool, reentrant: bool)
      ensures Valid() && broker.State() == INIT && broker.repaired == repaired
      ensures connections.Clock() == KeepAlive.State([], map[])
    {
      broker := new Broker.Broker(repaired);
      connections := new Connections.Connections(slots, reentrant);
    }

    /** `mqtt_handler_publish` on a topic and a content that have been read. */
    method HandlePublish(sockfd: nat, name: Name, content: seq<byte>, now: int) returns (status: Status)
      requires Valid() && |name| <= 65535
      requires Allowed(broker.State(), Session.Publish(sockfd, name, content))
      requires !Stops(broker.State(), Session.Publish(sockfd, name, content))
      modifies broker, connections.list, connections.list.timers
      ensures Some(broker.State()) ==
              Session.Step(old(broker.State()), Session.Publish(sockfd, name, content), broker.repaired)
      ensures match KeepAlive.Step(old(connections.Clock()), KeepAlive.Activity(sockfd, now), connections.Written())
              case None => status == Blocked
              case Some(clock) => status == Success && Valid() && connections.Clock() == clock
    {
      hide Session.Step, KeepAlive.Step, Short, PubSub.Valid, Stops, Connections.Connections.Valid;
      ghost var s := broker.State();
      broker.HandlerPublish(sockfd, name, content);
      StepNames(s, Session.Publish(sockfd, name, content), broker.repaired);
      status := connections.Activity(sockfd, now);
    }

    /** `mqtt_handler_ping`, apart from the answer. */
    method HandlePing(sockfd: nat, now: int) returns (status: Status)
      requires Valid() && sockfd in broker.timed
      modifies connections.list, connections.list.timers
      ensures match KeepAlive.Step(old(connections.Clock()), KeepAlive.Activity(sockfd, now), connections.Written())
              case None => status == Blocked
              case Some(clock) => status == Success && Valid() && connections.Clock() == clock
    {
      status := connections.Activity(sockfd, now);
    }

    /** The timer's part of `shut_dead_conn`, once the tables have been dealt with. */
    method ShutTimer(sockfd: nat, now: int)
      requires PubSub.Valid(broker.Engine()) && Short(broker.Engine()) && broker.names == broker.nodes
      requires connections.Valid() && sockfd < |connections.timer|
      requires broker.timed == connections.expireTime.Keys - {sockfd}
      modifies connections`expireTime, connections.list, connections.list.timers, connections.timer[sockfd]
      ensures Valid()
      ensures connections.Clock() == KeepAlive.Effect(old(connections.Clock()), KeepAlive.Shut(sockfd, now), false)
    {
      hide KeepAlive.Effect, Short, PubSub.Valid, Connections.Connections.Valid;
      connections.Shut(sockfd, now);
    }

    /** `shut_dead_conn`, apart from the socket itself. */
    method ShutDeadConn(sockfd: nat, now: int)
      requires Valid() && sockfd < |connections.timer|
      modifies broker, connections, connections.list, connections.list.timers, connections.timer[sockfd]
      ensures Valid()
      ensures !Stops(old(broker.State()), Close(sockfd))
      ensures Some(broker.State()) == Session.Step(old(broker.State()), Close(sockfd), broker.repaired)
      ensures connections.Clock() == KeepAlive.Effect(old(connections.Clock()), KeepAlive.Shut(sockfd, now), false)
    {
      hide Session.Step, KeepAlive.Effect, Stops, Short, PubSub.Valid, Connections.Connections.Valid;
      ghost var s := broker.State();
      broker.ShutDeadConn(sockfd);
      StepNames(s, Close(sockfd), broker.repaired);
      ShutTimer(sockfd, now);
    }

    /** `mqtt_handler_connect` on a packet that has been read; the packet loop shuts the connection
        when the handler fails. */
    method HandleConnect(sockfd: nat, id: Id, login: Login, keepAlive: nat, now: int)
      requires Valid() && sockfd < |connections.timer|
      requires Allowed(broker.State(), Connect(sockfd, id, login)) && !Stops(broker.State(), Connect(sockfd, id, login))
      modifies broker, connections, connections.list, connections.list.timers, connections.timer[sockfd]
      ensures Valid()
      ensures Some(broker.State()) == Session.Step(old(broker.State()), Connect(sockfd, id, login), broker.repaired)
      ensures var open := KeepAlive.Effect(old(connections.Clock()), KeepAlive.Open(sockfd, keepAlive, now), false);
              connections.Clock() ==
              if Closes(old(broker.State()), Connect(sockfd, id, login))
              then KeepAlive.Effect(open, KeepAlive.Shut(sockfd, now), false) else open
    {
      hide Session.Step, KeepAlive.Effect, Closes, Stops, Short, PubSub.Valid, Connections.Connections.Valid;
      var status := connections.Open(sockfd, keepAlive, now);
      ghost var ts := connections.list.timers;
      ghost var s := broker.State();
      var failed := broker.HandlerConnect(sockfd, id, login);
      StepNames(s, Connect(sockfd, id, login), broker.repaired);
      if failed {
        assert connections.list.timers == ts;
        assert forall i :: 0 <= i < |ts| ==> ts[i] in old(connections.list.timers) || ts[i] == connections.timer[sockfd];
        ShutTimer(sockfd, now);
      }
    }

    /** `mqtt_handler_subscribe` on topic names that have been read; without a client id the packet
        loop shuts the connection. */
    method HandleSubscribe(sockfd: nat, filters: seq<Name>, qos: nat, now: int)
      requires Valid() && sockfd < |connections.timer|
      requires !Stops(broker.State(), Session.Subscribe(sockfd, filters, qos))
      modifies broker, connections, connections.list, connections.list.timers, connections.timer[sockfd]
      ensures Valid()
      ensures Some(broker.State()) ==
              Session.Step(old(broker.State()), Session.Subscribe(sockfd, filters, qos), broker.repaired)
      ensures connections.Clock() ==
              if sockfd in old(broker.names) then old(connections.Clock())
              else KeepAlive.Effect(old(connections.Clock()), KeepAlive.Shut(sockfd, now), false)
    {
      hide Session.Step, KeepAlive.Effect, Stops, Short, PubSub.Valid, Connections.Connections.Valid;
      NameKnown(sockfd);
      ghost var s := broker.State();
      var failed := broker.HandlerSubscribe(sockfd, filters, qos);
      StepNames(s, Session.Subscribe(sockfd, filters, qos), broker.repaired);
      if failed {
        ShutTimer(sockfd, now);
      }
    }

    /** `timer_handler`: every connection that the list reaps is shut. */
    method TimerHandler(now: int) returns (status: Status, reaped: seq<nat>)
      requires Valid()
      modifies broker, connections, connections.list, connections.list.timers
      ensures match KeepAlive.Step(old(connections.Clock()), KeepAlive.Expiry(now), connections.Written())
              case None => status == Blocked
              case Some(clock) =>
                && status == Success && Valid() && connections.Clock() == clock
                && reaped ==
                   TimerSpec.Slots(TimerSpec.Tick(old(connections.list.View()), now, connections.Written().unlinks).0)
                && Some(broker.State()) == RunFrom(old(broker.State()), CloseAll(reaped), broker.repaired)
    {
      hide KeepAlive.Effect, KeepAlive.Blocks, RunFrom, Short, PubSub.Valid, Connections.Connections.Valid;
      status, reaped := connections.Expiry(now);
      if status == Success {
        ghost var s := broker.State();
        broker.ShutAll(reaped);
        RunNames(s, CloseAll(reaped), broker.repaired);
      }
    }

    // ----- whole inputs

    ghost function WrittenAs(rule: Rule): Server.Code {
      Server.Code(rule, broker.repaired, connections.Written())
    }

    /** The server goes on exactly if it should, and then is in the state it should be in. */
    ghost predicate Reached(ok: bool, r: Option<(Session.State, KeepAlive.State)>)
      reads this, broker, connections, connections.list, connections.list.timers, connections.timer
    {
      ok == r.Some? && (ok ==> Valid() && r.value == (broker.State(), connections.Clock()))
    }

    /** `shut_dead_conn` as an outcome. */
    method Shut(rule: Rule, sockfd: nat, now: int)
      requires Valid() && sockfd < |connections.timer|
      modifies broker, connections, connections.list, connections.timer
      ensures Reached(true, Server.Apply(WrittenAs(rule), old(broker.State()), old(connections.Clock()),
                                         Some(Server.Closing(sockfd, now))))
    {
      connections.ListedTimers();
      Server.ApplyOne(WrittenAs(rule), broker.State(), connections.Clock(), Close(sockfd), KeepAlive.Shut(sockfd, now));
      hide Session.Step, Server.Apply, KeepAlive.Effect, Valid, Stops;
      ShutDeadConn(sockfd, now);
    }

    /** PUBLISH that has been read. */
    method Published(rule: Rule, sockfd: nat, name: Name, content: seq<byte>, now: int) returns (ok: bool)
      requires Valid() && sockfd < |connections.timer| && name != [] && content != [] && |name| <= 65535
      modifies broker, connections, connections.list, connections.timer
      ensures Reached(ok, Server.Apply(WrittenAs(rule), old(broker.State()), old(connections.Clock()),
                                       Some(Server.Deeds([Publish(sockfd, name, content)],
                                                         [KeepAlive.Activity(sockfd, now)]))))
    {
      connections.ListedTimers();
      Server.ApplyOne(WrittenAs(rule), broker.State(), connections.Clock(), Publish(sockfd, name, content),
                      KeepAlive.Activity(sockfd, now));
      hide Session.Step, Server.Apply, KeepAlive.Step;
      if sockfd !in connections.expireTime {
        return false;
      }
      hide Valid;
      var status := HandlePublish(sockfd, name, content, now);
      return status == Success;
    }

    /** PINGREQ that has been read. */
    method Pinged(rule: Rule, sockfd: nat, now: int) returns (ok: bool)
      requires Valid() && sockfd < |connections.timer|
      modifies broker, connections, connections.list, connections.timer
      ensures Reached(ok, if sockfd !in old(broker.timed) then None
                          else Server.Apply(WrittenAs(rule), old(broker.State()), old(connections.Clock()),
                                            Some(Server.Deeds([], [KeepAlive.Activity(sockfd, now)]))))
    {
      connections.ListedTimers();
      Server.ApplyOne(WrittenAs(rule), broker.State(), connections.Clock(), Close(sockfd), KeepAlive.Activity(sockfd, now));
      hide Session.Step, Server.Apply, KeepAlive.Step;
      if sockfd !in connections.expireTime {
        return false;
      }
      hide Valid;
      var status := HandlePing(sockfd, now);
      return status == Success;
    }

    /** SUBSCRIBE that has been read, on a slot with a client id. */
    method Subscribed(rule: Rule, sockfd: nat, topics: seq<Name>, qos: nat, now: int)
      requires Valid() && sockfd < |connections.timer| && sockfd in broker.names && [] !in topics
      modifies broker, connections, connections.list, connections.timer
      ensures Reached(true, Server.Apply(WrittenAs(rule), old(broker.State()), old(connections.Clock()),
                                         Some(Server.Deeds([Session.Subscribe(sockfd, topics, qos)], []))))
    {
      connections.ListedTimers();
      Server.ApplyOne(WrittenAs(rule), broker.State(), connections.Clock(), Session.Subscribe(sockfd, topics, qos),
                      KeepAlive.Shut(sockfd, now));
      hide Session.Step, Server.Apply, KeepAlive.Step, KeepAlive.Effect, Valid;
      HandleSubscribe(sockfd, topics, qos, now);
    }

    /** What a packet that has been read does, for all packets but CONNECT. */
    method Received(rule: Rule, sockfd: nat, item: Frames.Item, ghost left: seq<byte>, now: int) returns (ok: bool)
      requires Valid() && sockfd < |connections.timer|
      requires item.GotPublish? ==> item.topic != [] && item.content != [] && |item.topic| <= 65535
      requires item.GotSubscribe? ==> sockfd in broker.names && [] !in item.topics
      modifies broker, connections, connections.list, connections.timer
      ensures Reached(ok, Server.Apply(WrittenAs(rule), old(broker.State()), old(connections.Clock()),
                                       Server.TurnDeeds(old(broker.State()), sockfd, Frames.Go(item, left), now)))
    {
      Server.ApplyNothing(WrittenAs(rule), broker.State(), connections.Clock());
      hide Server.Apply, Valid;
      match item
      case GotPublish(topic, content) => ok := Published(rule, sockfd, topic, content, now);
      case GotSubscribe(qos, topics) =>
        Subscribed(rule, sockfd, topics, qos, now);
        ok := true;
      case GotPing => ok := Pinged(rule, sockfd, now);
      case _ => ok := true;
    }

    /** What the packet loop does with what a handler tells it, for all packets but CONNECT. */
    method Conclude(rule: Rule, sockfd: nat, h: Stream.Handled, ghost turn: Frames.Turn, ghost left: seq<byte>,
                    now: int)
      returns (ok: bool)
      requires Valid() && sockfd < |connections.timer| && Stream.Follows(h, turn, left)
      requires turn.Go? && turn.item.GotPublish? ==>
                 turn.item.topic != [] && turn.item.content != [] && |turn.item.topic| <= 65535
      requires turn.Go? && turn.item.GotSubscribe? ==> sockfd in broker.names && [] !in turn.item.topics
      modifies broker, connections, connections.list, connections.timer
      ensures Reached(ok, Server.Apply(WrittenAs(rule), old(broker.State()), old(connections.Clock()),
                                       Server.TurnDeeds(old(broker.State()), sockfd, turn, now)))
    {
      Server.ApplyNothing(WrittenAs(rule), broker.State(), connections.Clock());
      if turn.Stop? {
        Server.StopDeeds(broker.State(), sockfd, turn, now);
      }
      hide Server.Apply, Server.Closing, Server.TurnDeeds, Valid;
      match h
      case Got(item) => ok := Received(rule, sockfd, item, left, now);
      case Ended(Drained) => ok := true;
      case Ended(Crashed) => ok := false;
      case _ =>
        Shut(rule, sockfd, now);
        ok := true;
    }

    /** CONNECT that has been read as far as its client id, or to its end. */
    method Connected(rule: Rule, sockfd: nat, id: Id, login: Login, keepAlive: nat, now: int) returns (ok: bool)
      requires Valid() && sockfd < |connections.timer|
      modifies broker, connections, connections.list, connections.timer
      ensures Reached(ok, if sockfd in old(broker.timed) then None
                          else Server.Apply(WrittenAs(rule), old(broker.State()), old(connections.Clock()),
                                            Some(Server.Connecting(old(broker.State()), Connect(sockfd, id, login),
                                                                   keepAlive, now))))
    {
      connections.ListedTimers();
      ghost var e := Connect(sockfd, id, login);
      Server.ApplyConnecting(WrittenAs(rule), broker.State(), connections.Clock(), e, keepAlive, now);
      var stops := Stopped(id, login);
      hide Session.Step, Server.Apply, Server.Connecting, KeepAlive.Effect, Closes, Stops, Valid, PubSub.Valid;
      Tables();
      if sockfd in connections.expireTime || sockfd == 0 || stops {
        return false;
      }
      HandleConnect(sockfd, id, login, keepAlive, now);
      return true;
    }

    /** The assertions on an empty client id and on a missing password. */
    method Stopped(id: Id, login: Login) returns (stops: bool)
      ensures forall sockfd :: stops == Stops(broker.State(), Connect(sockfd, id, login))
    {
      return |id| <= MAX_ID && id !in broker.ids && ((id == [] && login == Granted) || login == Passwordless);
    }

    /** CONNECT whose client id is missing. */
    method BrokenOff(rule: Rule, sockfd: nat, keepAlive: nat, now: int) returns (ok: bool)
      requires Valid() && sockfd < |connections.timer|
      modifies broker, connections, connections.list, connections.timer
      ensures Reached(ok, if sockfd in old(broker.timed) then None
                          else Server.Apply(WrittenAs(rule), old(broker.State()), old(connections.Clock()),
                                            Some(Server.Deeds([Close(sockfd)], [KeepAlive.Open(sockfd, keepAlive, now),
                                                                                KeepAlive.Shut(sockfd, now)]))))
    {
      connections.ListedTimers();
      Server.ApplyTwo(WrittenAs(rule), broker.State(), connections.Clock(), Close(sockfd),
                      KeepAlive.Open(sockfd, keepAlive, now), KeepAlive.Shut(sockfd, now));
      if sockfd in connections.expireTime {
        return false;
      }
      hide Session.Step, Server.Apply, KeepAlive.Effect, Stops, Valid;
      OpenAndShut(sockfd, keepAlive, now);
      return true;
    }

    method OpenAndShut(sockfd: nat, keepAlive: nat, now: int)
      requires Valid() && sockfd < |connections.timer| && sockfd !in connections.expireTime
      modifies broker, connections, connections.list, connections.timer
      ensures Valid()
      ensures !Stops(old(broker.State()), Close(sockfd))
      ensures Some(broker.State()) == Session.Step(old(broker.State()), Close(sockfd), broker.repaired)
      ensures connections.Clock() ==
              KeepAlive.Effect(KeepAlive.Effect(old(connections.Clock()), KeepAlive.Open(sockfd, keepAlive, now), false),
                               KeepAlive.Shut(sockfd, now), false)
    {
      hide Session.Step, KeepAlive.Effect, Stops, Short, PubSub.Valid, Connections.Connections.Valid;
      ghost var s := broker.State();
      broker.ShutDeadConn(sockfd);
      StepNames(s, Close(sockfd), broker.repaired);
      connections.OpenAndShut(sockfd, keepAlive, now);
    }

    /** `mqtt_handler_connect`, from the bytes after the first one. */
    method ConnectTurn(rule: Rule, sockfd: nat, socket: Stream.Socket, packet: Packet.Packet, accept: bool, now: int)
      returns (ok: bool)
      requires Valid() && sockfd < |connections.timer|
      modifies broker, connections, connections.list, connections.timer, socket, packet
      ensures Reached(ok, Server.Apply(WrittenAs(rule), old(broker.State()), old(connections.Clock()),
                                       Server.ConnectDeeds(rule, old(broker.State()), sockfd, old(socket.data),
                                                           accept, now)))
    {
      ghost var s, list := broker.State(), connections.Clock();
      hide Valid, PubSub.Valid, Server.Apply, Server.Closing, Server.ReadDeeds, ConnectSteps, Frames.SplitFrame;
      Tables();
      Server.ApplyNothing(WrittenAs(rule), s, list);
      var split, r := Stream.ReadConnect(rule, socket, packet);
      match split
      case BadLength =>
        Shut(rule, sockfd, now);
        ok := true;
      case Complete(_, _) => ok := ConnectRead(rule, sockfd, r, accept, now);
      case _ => ok := false;
    }

    /** The same once the handler has read as much of the packet as it reads. */
    method ConnectRead(rule: Rule, sockfd: nat, r: ConnectRead, accept: bool, now: int) returns (ok: bool)
      requires Valid() && sockfd < |connections.timer|
      modifies broker, connections, connections.list, connections.timer
      ensures Reached(ok, Server.Apply(WrittenAs(rule), old(broker.State()), old(connections.Clock()),
                                       Server.ReadDeeds(old(broker.State()), sockfd, r, accept, now)))
    {
      ghost var s, list := broker.State(), connections.Clock();
      hide Valid, PubSub.Valid, Server.Apply, Server.Connecting, Server.Closing, Server.LoginOf;
      Tables();
      Server.ApplyNothing(WrittenAs(rule), s, list);
      match r
      case NoHead =>
        Shut(rule, sockfd, now);
        ok := true;
      case NoId(keepAlive) => ok := BrokenOff(rule, sockfd, keepAlive, now);
      case NoRest(keepAlive, id) => ok := Connected(rule, sockfd, id, Truncated, keepAlive, now);
      case Whole(p) => ok := Connected(rule, sockfd, p.identifier, Server.LoginOf(p.flags, accept), p.keepAlive, now);
    }

    /** One turn of `conn_handler`. */
    method Turn(rule: Rule, sockfd: nat, socket: Stream.Socket, accept: bool, now: int) returns (ok: bool)
      requires Valid() && sockfd < |connections.timer|
      modifies broker, connections, connections.list, connections.timer, socket
      ensures Reached(ok, Server.After(WrittenAs(rule), old(broker.State()), old(connections.Clock()),
                                       Server.Arrives(sockfd, old(socket.data), accept, now)))
    {
      ghost var s, list, bytes := broker.State(), connections.Clock(), socket.data;
      hide Valid, PubSub.Valid, Server.Apply, Server.Do, Server.ConnectDeeds, Server.TurnDeeds, Frames.Take;
      Tables();
      Server.DoArrives(WrittenAs(rule), s, list, sockfd, 0, [], accept, now);
      Server.ApplyNothing(WrittenAs(rule), s, list);
      var chunk := socket.Recv(1);
      if |chunk| != 1 {
        return true;
      }
      assert bytes == [chunk[0]] + socket.data;
      var packet := new Packet.Packet(chunk[0]);
      ok := TurnOn(rule, sockfd, socket, packet, accept, now);
    }

    /** The same once the first byte has been read. */
    method TurnOn(rule: Rule, sockfd: nat, socket: Stream.Socket, packet: Packet.Packet, accept: bool, now: int)
      returns (ok: bool)
      requires Valid() && sockfd < |connections.timer|
      modifies broker, connections, connections.list, connections.timer, socket, packet
      ensures Reached(ok, Server.After(WrittenAs(rule), old(broker.State()), old(connections.Clock()),
                                       Server.Arrives(sockfd, [old(packet.command)] + old(socket.data), accept, now)))
    {
      Server.DoArrives(WrittenAs(rule), broker.State(), connections.Clock(), sockfd, packet.command, socket.data,
                       accept, now);
      hide Valid, Server.Apply, Server.Do, Server.Closing, Server.ConnectDeeds, Server.TurnDeeds, Frames.Take;
      if packet.command / 16 == 1 {
        ok := ConnectTurn(rule, sockfd, socket, packet, accept, now);
      } else if packet.command / 16 == 8 && sockfd !in broker.names {
        Shut(rule, sockfd, now);
        ok := true;
      } else {
        ok := DispatchTurn(rule, sockfd, socket, packet, now);
      }
    }

    method DispatchTurn(rule: Rule, sockfd: nat, socket: Stream.Socket, packet: Packet.Packet, now: int) returns (ok: bool)
      requires Valid() && sockfd < |connections.timer| && (packet.command / 16 == 8 ==> sockfd in broker.names)
      modifies broker, connections, connections.list, connections.timer, socket, packet
      ensures var turn := Frames.Take(rule, [old(packet.command)] + old(socket.data));
              Reached(ok, Server.Apply(WrittenAs(rule), old(broker.State()), old(connections.Clock()),
                                       Server.TurnDeeds(old(broker.State()), sockfd, turn, now)))
    {
      ghost var bytes := [packet.command] + socket.data;
      AcceptedStrings(rule, bytes);
      Server.TakeKinds(rule, bytes);
      hide Valid, Server.Apply, Server.TurnDeeds, Frames.Take;
      var h := Stream.Dispatch(rule, socket, packet);
      ok := Conclude(rule, sockfd, h, Frames.Take(rule, bytes), socket.data, now);
    }

    /** One input. The server goes on exactly if it should, and does to sessions and list exactly what
        it should do. */
    method Perform(rule: Rule, x: Server.Input) returns (ok: bool)
      requires Valid() && (!x.Ticks? ==> x.sockfd < |connections.timer|)
      modifies broker, connections, connections.list, connections.timer
      ensures Reached(ok, Server.After(WrittenAs(rule), old(broker.State()), old(connections.Clock()), x))
    {
      hide Valid, Server.Apply, Server.Closing, Server.ConnectDeeds;
      match x
      case Leaves(sockfd, now) =>
        Shut(rule, sockfd, now);
        ok := true;
      case Ticks(now) => ok := Ticked(rule, now);
      case Arrives(sockfd, bytes, accept, now) =>
        var socket := new Stream.Socket(bytes);
        ok := Turn(rule, sockfd, socket, accept, now);
    }

    method Ticked(rule: Rule, now: int) returns (ok: bool)
      requires Valid()
      modifies broker, connections, connections.list, connections.timer
      ensures Reached(ok, Server.After(WrittenAs(rule), old(broker.State()), old(connections.Clock()), Server.Ticks(now)))
    {
      connections.ListedTimers();
      ghost var due := TimerSpec.Slots(TimerSpec.Tick(connections.Clock().timers, now, connections.Written().unlinks).0);
      Server.ApplyTick(WrittenAs(rule), broker.State(), connections.Clock(), due, now);
      hide Valid, Server.Apply, RunFrom, KeepAlive.Step;
      var status, reaped := TimerHandler(now);
      return status == Success;
    }

    /** The server has dealt with these inputs if it should, and then is in the state it should be in. */
    ghost predicate Served(ok: bool, code: Server.Code, inputs: seq<Server.Input>)
      reads this, broker, connections, connections.list, connections.list.timers, connections.timer
    {
      var d := Server.Serve(code, inputs);
      && ok == d.Some?
      && (ok ==>
            && Valid()
            && broker.State() == Server.Sessions(code, d.value)
            && connections.Clock() == Server.Clock(code, d.value))
    }

    lemma ServedNext(ok: bool, code: Server.Code, inputs: seq<Server.Input>, x: Server.Input, s: Session.State,
                     list: KeepAlive.State)
      requires PubSub.Valid(s.engine) && Reached(ok, Server.After(code, s, list, x))
      requires var d := Server.Serve(code, inputs);
               d.Some? && s == Server.Sessions(code, d.value) && list == Server.Clock(code, d.value)
      ensures Served(ok, code, inputs + [x])
    {
      hide Valid, Server.Serve, Server.After, Server.Sessions, Server.Clock;
      Server.ServeAfter(code, inputs, x);
    }

    lemma Going(code: Server.Code, inputs: seq<Server.Input>)
      requires Served(true, code, inputs)
      ensures Valid() && PubSub.Valid(broker.State().engine)
      ensures var d := Server.Serve(code, inputs);
              && d.Some?
              && broker.State() == Server.Sessions(code, d.value)
              && connections.Clock() == Server.Clock(code, d.value)
    {
    }

    lemma NothingServed(code: Server.Code)
      requires Valid() && broker.State() == INIT && connections.Clock() == KeepAlive.State([], map[])
      ensures Served(true, code, [])
    {
      hide Valid;
      Server.NothingServed(code, 0);
    }

    /** The whole server: it performs its inputs one after the other, until one makes it stop. */
    method Run(rule: Rule, inputs: seq<Server.Input>) returns (ok: bool)
      requires Valid() && broker.State() == INIT && connections.Clock() == KeepAlive.State([], map[])
      requires forall i :: 0 <= i < |inputs| && !inputs[i].Ticks? ==> inputs[i].sockfd < |connections.timer|
      modifies broker, connections, connections.list, connections.timer
      ensures Served(ok, WrittenAs(rule), inputs)
    {
      var n := 0;
      ok := true;
      NothingServed(WrittenAs(rule));
      while n < |inputs| && ok
        invariant 0 <= n <= |inputs| && Served(ok, WrittenAs(rule), inputs[..n])
      {
        assert inputs[..n + 1] == inputs[..n] + [inputs[n]];
        ok := ServeNext(rule, inputs[..n], inputs[n]);
        n := n + 1;
      }
      if !ok {
        Server.ServePrefix(WrittenAs(rule), inputs, n);
      } else {
        assert inputs[..|inputs|] == inputs;
      }
    }

    method ServeNext(rule: Rule, ghost before: seq<Server.Input>, x: Server.Input) returns (ok: bool)
      requires Served(true, WrittenAs(rule), before) && (!x.Ticks? ==> x.sockfd < |connections.timer|)
      modifies broker, connections, connections.list, connections.timer
      ensures Served(ok, WrittenAs(rule), before + [x])
    {
      ghost var s, list := broker.State(), connections.Clock();
      hide *;
      Going(WrittenAs(rule), before);
      ok := Perform(rule, x);
      ServedNext(ok, WrittenAs(rule), before, x, s, list);
    }
  }
}
