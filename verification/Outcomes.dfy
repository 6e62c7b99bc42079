/** What each input does to the whole server, after any run, by its bytes and by the flags and lengths
    that they hold (src/server.c and the handlers it calls). */
module Outcomes {
  import opened Strings
  import opened Wrappers
  import opened RemainingLength
  import opened Codec
  import opened PubSub
  import opened Session
  import opened Server
  import Delivery
  import Frames
  import KeepAlive
  import Outgoing
  import SubscriberSpec
  import TimerSpec

  /** The records and queues of all clients are the same but for the sockets of the records. */
  ghost predicate SameQueues(e: Engine, r: Engine) {
    r.clients.Keys == e.clients.Keys && forall c :: c in e.clients ==> r.clients[c].queue == e.clients[c].queue
  }

  /** The server goes on, the connection in slot k has ended, and nothing else has: it has no session
      and no deadline, its id may be used again, and no message and no subscription has come or gone.
      `burned` are ids that the input has put in use. */
  ghost predicate Ended(code: Code, inputs: seq<Input>, x: Input, k: nat, burned: set<Id>)
    requires Serve(code, inputs).Some?
  {
    && Serve(code, inputs + [x]).Some?
    && var s, t := StateAfter(code, inputs), StateAfter(code, inputs + [x]);
    && t.live == s.live - {k} && t.timed == s.timed - {k}
    && t.ids == s.ids + burned - (if k in s.names then {s.names[k]} else {})
    && t.names == (if code.repaired then s.names - {k} else s.names)
    && t.engine.topics == s.engine.topics && t.engine.out == s.engine.out && SameQueues(s.engine, t.engine)
    && (!code.repaired ==> t.engine == s.engine)
    && forall j :: WatchAfter(code, inputs + [x], j) == if j == k then KeepAlive.Closed else WatchAfter(code, inputs, j)
  }

  /** The server goes on, and nothing at all has happened. */
  ghost predicate Ignored(code: Code, inputs: seq<Input>, x: Input) {
    Serve(code, inputs).Some? && Serve(code, inputs + [x]) == Serve(code, inputs)
  }

  // ----- from deeds to states

  /** An input that comes down to one session event: whether the server goes on, and what it does then. */
  lemma OneEvent(code: Code, inputs: seq<Input>, x: Input, e: Session.Event, clock: seq<KeepAlive.Event>)
    requires Serve(code, inputs).Some? && !e.Unsubscribe? && |clock| <= 2
    requires forall i :: 0 <= i < |clock| ==> clock[i].Open? || clock[i].Shut? || (|clock| == 1 && clock[i].Activity?)
    requires Do(code, StateAfter(code, inputs), Clock(code, Serve(code, inputs).value), x) == Some(Deeds([e], clock))
    ensures var s, list := StateAfter(code, inputs), Clock(code, Serve(code, inputs).value);
            && (Serve(code, inputs + [x]).Some? <==>
                && Allowed(s, e) && !Stops(s, e)
                && !(clock != [] && clock[0].Activity? && KeepAlive.Blocks(list, clock[0], code.list)))
            && (Serve(code, inputs + [x]).Some? ==>
                  && Session.Step(s, e, code.repaired) == Some(StateAfter(code, inputs + [x]))
                  && forall j :: WatchAfter(code, inputs + [x], j) ==
                                 KeepAlive.ObserveAll(WatchAfter(code, inputs, j), clock, j))
  {
    hide Do, Allowed, Stops, Serve, RunFrom, KeepAlive.Run, KeepAlive.Blocks, KeepAlive.Watch, KeepAlive.ObserveAll;
    OneEventIff(code, inputs, x, e, clock);
    if Serve(code, inputs + [x]).Some? {
      ServeSnoc(code, inputs, x);
      var d := Serve(code, inputs).value;
      LastEvent(d.session, e, code.repaired);
      forall j
        ensures WatchAfter(code, inputs + [x], j) == KeepAlive.ObserveAll(WatchAfter(code, inputs, j), clock, j)
      {
        KeepAlive.WatchJoin(d.clock, clock, j);
      }
    }
  }

  lemma LastEvent(trace: seq<Session.Event>, e: Session.Event, repaired: bool)
    requires RunFrom(INIT, trace, repaired).Some? && RunFrom(INIT, trace + [e], repaired).Some?
    ensures Session.Step(RunFrom(INIT, trace, repaired).value, e, repaired) == RunFrom(INIT, trace + [e], repaired)
  {
    assert (trace + [e])[..|trace|] == trace;
  }

  lemma ObserveOne(c: KeepAlive.Connection, a: KeepAlive.Event, b: KeepAlive.Event, slot: nat)
    ensures KeepAlive.ObserveAll(c, [], slot) == c
    ensures KeepAlive.ObserveAll(c, [a], slot) == KeepAlive.Observe(c, a, slot)
    ensures KeepAlive.ObserveAll(c, [a, b], slot) == KeepAlive.Observe(KeepAlive.Observe(c, a, slot), b, slot)
  {
    hide KeepAlive.Observe;
    assert [a][..0] == [] && [a, b][..1] == [a];
  }

  /** A step that closes its slot. */
  lemma ClosingStep(s: Session.State, e: Session.Event, repaired: bool)
    requires PubSub.Valid(s.engine) && Closes(s, e) && Session.Step(s, e, repaired).Some?
    ensures var t, k := Session.Step(s, e, repaired).value, e.sockfd;
            && t.live == s.live - {k} && t.timed == s.timed - {k}
            && t.ids == s.ids + (if Registers(s, e) then {e.id} else {}) - (if k in s.names then {s.names[k]} else {})
            && t.names == (if repaired then s.names - {k} else s.names)
            && t.engine.topics == s.engine.topics && t.engine.out == s.engine.out && SameQueues(s.engine, t.engine)
            && (!repaired ==> t.engine == s.engine)
  {
    PerformOne(s.engine, DoDetach(e.sockfd));
  }

  lemma EventEnds(code: Code, inputs: seq<Input>, x: Input, e: Session.Event, clock: seq<KeepAlive.Event>, at: int)
    requires Serve(code, inputs).Some? && (e.Close? || e.Connect?) && Closes(StateAfter(code, inputs), e)
    requires Allowed(StateAfter(code, inputs), e) && !Stops(StateAfter(code, inputs), e)
    requires clock == [KeepAlive.Shut(e.sockfd, at)]
             || exists n :: clock == [KeepAlive.Open(e.sockfd, n, at), KeepAlive.Shut(e.sockfd, at)]
    requires Do(code, StateAfter(code, inputs), Clock(code, Serve(code, inputs).value), x) == Some(Deeds([e], clock))
    ensures Ended(code, inputs, x, e.sockfd, if Registers(StateAfter(code, inputs), e) then {e.id} else {})
  {
    var shut := KeepAlive.Shut(e.sockfd, at);
    hide Do, Serve, RunFrom, Allowed, Stops, Closes, Registers, Session.Step, KeepAlive.Watch, KeepAlive.ObserveAll;
    OneEvent(code, inputs, x, e, clock);
    ClosingStep(StateAfter(code, inputs), e, code.repaired);
    forall j
      ensures WatchAfter(code, inputs + [x], j) == if j == e.sockfd then KeepAlive.Closed else WatchAfter(code, inputs, j)
    {
      ObserveOne(WatchAfter(code, inputs, j), clock[0], shut, j);
    }
  }

  /** Whatever leads to `shut_dead_conn` and nothing else. */
  lemma ClosingEnds(code: Code, inputs: seq<Input>, x: Input, k: nat, at: int)
    requires Serve(code, inputs).Some?
    requires Do(code, StateAfter(code, inputs), Clock(code, Serve(code, inputs).value), x) == Some(Closing(k, at))
    ensures Ended(code, inputs, x, k, {})
  {
    hide Do, Runs, Serve, RunFrom, Session.Step;
    EventEnds(code, inputs, x, Close(k), [KeepAlive.Shut(k, at)], at);
  }

  // ----- the end of a connection

  /** A client that hangs up. */
  lemma LeavesEnds(code: Code, inputs: seq<Input>, k: nat, at: int)
    requires Serve(code, inputs).Some?
    ensures Ended(code, inputs, Leaves(k, at), k, {})
  {
    hide Ended, Serve, Runs, Sessions, Clock;
    ClosingEnds(code, inputs, Leaves(k, at), k, at);
  }

  /** DISCONNECT, whatever its length field says. */
  lemma DisconnectEnds(code: Code, inputs: seq<Input>, k: nat, b: byte, n: nat, rest: seq<byte>, accept: bool, at: int)
    requires Serve(code, inputs).Some? && b / 16 == 14 && n <= MAX_LENGTH
    ensures Ended(code, inputs, Arrives(k, [b] + EncodeLen(n) + rest, accept, at), k, {})
  {
    hide Ended, Serve, Runs, Sessions, Clock, Frames.Take, EncodeLen;
    assert [b] + EncodeLen(n) + rest == [b] + (EncodeLen(n) + rest);
    Frames.BareTaken(code.rule, b, n, rest);
    TurnEnds(code, inputs, k, b, EncodeLen(n) + rest, accept, at);
  }

  /** How a turn that stops is dealt with, but for CONNECT and for a SUBSCRIBE on a slot without an id. */
  lemma TurnEnds(code: Code, inputs: seq<Input>, k: nat, b: byte, bytes: seq<byte>, accept: bool, at: int)
    requires Serve(code, inputs).Some? && b / 16 != 1 && (b / 16 == 8 ==> k in StateAfter(code, inputs).names)
    requires Frames.Take(code.rule, [b] + bytes).Stop?
    ensures var x := Arrives(k, [b] + bytes, accept, at);
            match Frames.Take(code.rule, [b] + bytes).exit
            case Shut => Ended(code, inputs, x, k, {})
            case Crashed => Serve(code, inputs + [x]) == None
            case Drained => Ignored(code, inputs, x)
  {
    hide Ended, Serve, Runs, Sessions, Clock, Frames.Take, Do, Closing, TurnDeeds, Ignored;
    var s, list, x := StateAfter(code, inputs), Clock(code, Serve(code, inputs).value), Arrives(k, [b] + bytes, accept, at);
    DoArrives(code, s, list, k, b, bytes, accept, at);
    StopDeeds(s, k, Frames.Take(code.rule, [b] + bytes), at);
    match Frames.Take(code.rule, [b] + bytes).exit
    case Shut => ClosingEnds(code, inputs, x, k, at);
    case Crashed => ServeNone(code, inputs, x);
    case Drained => NoDeeds(code, inputs, x);
  }

  lemma NoDeeds(code: Code, inputs: seq<Input>, x: Input)
    requires Serve(code, inputs).Some?
    requires Do(code, StateAfter(code, inputs), Clock(code, Serve(code, inputs).value), x) == Some(Deeds([], []))
    ensures Ignored(code, inputs, x)
  {
    hide Do, Sessions, Clock, RunFrom, KeepAlive.Run;
    var d := Serve(code, inputs).value;
    NothingMore(d);
    assert (inputs + [x])[..|inputs|] == inputs;
  }

  /** SUBSCRIBE on a slot without a client id ends the connection, whatever follows the first byte. */
  lemma NamelessSubscribeEnds(code: Code, inputs: seq<Input>, k: nat, b: byte, rest: seq<byte>, accept: bool, at: int)
    requires Serve(code, inputs).Some? && b / 16 == 8 && k !in StateAfter(code, inputs).names
    ensures Ended(code, inputs, Arrives(k, [b] + rest, accept, at), k, {})
  {
    hide Ended, Serve, Runs, Sessions, Clock, Frames.Take, Do, Closing, TurnDeeds;
    DoArrives(code, StateAfter(code, inputs), Clock(code, Serve(code, inputs).value), k, b, rest, accept, at);
    ClosingEnds(code, inputs, Arrives(k, [b] + rest, accept, at), k, at);
  }

  /** A command that the server does not know, and a turn for which no byte is there. */
  lemma UnknownIgnored(code: Code, inputs: seq<Input>, k: nat, b: byte, rest: seq<byte>, accept: bool, at: int)
    requires Serve(code, inputs).Some?
    ensures b / 16 !in {1, 3, 8, 10, 12, 14} ==> Ignored(code, inputs, Arrives(k, [b] + rest, accept, at))
    ensures Ignored(code, inputs, Arrives(k, [], accept, at))
  {
    hide Serve, Runs, Sessions, Clock, Frames.Take, Do, Closing, Ignored;
    var s, list := StateAfter(code, inputs), Clock(code, Serve(code, inputs).value);
    DoArrives(code, s, list, k, b, rest, accept, at);
    NoDeeds(code, inputs, Arrives(k, [], accept, at));
    if b / 16 !in {1, 3, 8, 10, 12, 14} {
      Frames.UnknownTaken(code.rule, b, rest);
      NoDeeds(code, inputs, Arrives(k, [b] + rest, accept, at));
    }
  }

  // ----- CONNECT

  /** A CONNECT whose body is all there comes down to how far its reads get. */
  lemma ConnectIs(code: Code, s: Session.State, list: KeepAlive.State, k: nat, b: byte, body: seq<byte>, rest: seq<byte>,
                  accept: bool, at: int)
    requires b / 16 == 1 && |body| <= MAX_LENGTH
    ensures Do(code, s, list, Arrives(k, Frames.Frame(b, body) + rest, accept, at)) ==
            ReadDeeds(s, k, ConnectSteps(code.rule, body), accept, at)
  {
    hide ReadDeeds, Frames.Frame, Frames.SplitFrame, ConnectSteps, TurnDeeds, Frames.Take;
    Frames.SplitOne(b, body, rest);
  }

  /** A CONNECT that begins with another protocol's name or version is turned away: the connection
      ends, and no deadline has been entered for it. */
  lemma WrongProtocolEnds(code: Code, inputs: seq<Input>, k: nat, b: byte, body: seq<byte>, rest: seq<byte>, accept: bool,
                          at: int)
    requires Serve(code, inputs).Some? && b / 16 == 1 && |body| <= MAX_LENGTH && !BeginsRight(code.rule, body)
    ensures Ended(code, inputs, Arrives(k, Frames.Frame(b, body) + rest, accept, at), k, {})
  {
    hide Ended, Serve, Runs, Sessions, Clock, Do, Closing, BeginsRight, ConnectSteps, ParseConnect, Frames.Frame;
    var x := Arrives(k, Frames.Frame(b, body) + rest, accept, at);
    ConnectIs(code, StateAfter(code, inputs), Clock(code, Serve(code, inputs).value), k, b, body, rest, accept, at);
    ConnectReads(code.rule, body);
    ClosingEnds(code, inputs, x, k, at);
  }

  /** A CONNECT whose strings are not all there: the connection ends, and its client id stays in use if
      it could be read, has at most 23 bytes and was not in use. */
  lemma BrokenConnectEnds(code: Code, inputs: seq<Input>, k: nat, b: byte, body: seq<byte>, rest: seq<byte>, accept: bool,
                          at: int)
    requires Serve(code, inputs).Some? && b / 16 == 1 && |body| <= MAX_LENGTH
    requires ParseConnect(code.rule, body) == Fail && k > 0 && k !in StateAfter(code, inputs).timed
    ensures Ended(code, inputs, Arrives(k, Frames.Frame(b, body) + rest, accept, at), k,
                  match ConnectSteps(code.rule, body)
                  case NoRest(_, id) => if |id| <= 23 && id !in StateAfter(code, inputs).ids then {id} else {}
                  case _ => {})
  {
    var s, steps := StateAfter(code, inputs), ConnectSteps(code.rule, body);
    hide Ended, Serve, Sessions, Clock, Do, ConnectSteps, ParseConnect, Frames.Frame, RunFrom, KeepAlive.Run;
    var x := Arrives(k, Frames.Frame(b, body) + rest, accept, at);
    ConnectIs(code, s, Clock(code, Serve(code, inputs).value), k, b, body, rest, accept, at);
    StepsIs(code.rule, body);
    match steps
    case NoHead => ClosingEnds(code, inputs, x, k, at);
    case NoId(n) => EventEnds(code, inputs, x, Close(k), [KeepAlive.Open(k, n, at), KeepAlive.Shut(k, at)], at);
    case NoRest(n, id) =>
      assert [KeepAlive.Open(k, n, at)] + [KeepAlive.Shut(k, at)] == [KeepAlive.Open(k, n, at), KeepAlive.Shut(k, at)];
      EventEnds(code, inputs, x, Connect(k, id, Truncated), [KeepAlive.Open(k, n, at), KeepAlive.Shut(k, at)], at);
  }

  /** A CONNECT on a connection that has sent one puts in a timer that is in the list. */
  lemma SecondConnectStops(code: Code, inputs: seq<Input>, k: nat, b: byte, body: seq<byte>, rest: seq<byte>, accept: bool,
                           at: int)
    requires Serve(code, inputs).Some? && b / 16 == 1 && |body| <= MAX_LENGTH && BeginsRight(code.rule, body)
    requires k in StateAfter(code, inputs).timed
    ensures Serve(code, inputs + [Arrives(k, Frames.Frame(b, body) + rest, accept, at)]) == None
  {
    hide Serve, Runs, Sessions, Clock, Do, BeginsRight, ConnectSteps, ParseConnect, Frames.Frame;
    var x := Arrives(k, Frames.Frame(b, body) + rest, accept, at);
    ConnectIs(code, StateAfter(code, inputs), Clock(code, Serve(code, inputs).value), k, b, body, rest, accept, at);
    ConnectReads(code.rule, body);
    ServeNone(code, inputs, x);
  }

  /** The connection in slot k has a deadline from now on, and no other one has changed. */
  ghost predicate Opened(code: Code, inputs: seq<Input>, x: Input, k: nat, keepAlive: nat, at: int)
    requires Serve(code, inputs).Some? && Serve(code, inputs + [x]).Some?
  {
    forall j :: WatchAfter(code, inputs + [x], j) ==
                if j == k then KeepAlive.Alive(at, keepAlive) else WatchAfter(code, inputs, j)
  }

  /** Slot k has a session under this id, all that was waiting for it has been sent there, in order, and
      nothing else has happened. A record that was there keeps its socket, unless that is repaired. */
  ghost predicate Granted(s: Session.State, t: Session.State, k: nat, id: Id, repaired: bool) {
    && t.live == s.live + {k} && t.timed == s.timed + {k}
    && t.names == s.names[k := id] && t.ids == s.ids + {id}
    && var queue := QueueOf(s.engine, id);
    && t.engine.out == s.engine.out + seq(|queue|, i requires 0 <= i < |queue| => Sent(k, id, queue[i]))
    && t.engine.topics == s.engine.topics
    && t.engine.clients ==
       s.engine.clients[id := Client(if id in s.engine.clients && !repaired then s.engine.clients[id].sockfd else k, [])]
  }

  lemma {:induction false} EmitIs(k: nat, c: Id, queue: seq<Msg>)
    ensures Emit(k, c, queue) == seq(|queue|, i requires 0 <= i < |queue| => Sent(k, c, queue[i]))
  {
    if queue != [] {
      EmitIs(k, c, queue[..|queue| - 1]);
    }
  }

  lemma GrantedStep(s: Session.State, e: Session.Event, repaired: bool)
    requires PubSub.Valid(s.engine) && Opens(s, e) && Session.Step(s, e, repaired).Some?
    ensures Granted(s, Session.Step(s, e, repaired).value, e.sockfd, e.id, repaired)
  {
    EmitIs(e.sockfd, e.id, QueueOf(s.engine, e.id));
    PerformTwo(s.engine, DoAttach(e.sockfd, e.id, repaired), DoFlush(e.sockfd));
  }

  lemma KeptStep(s: Session.State, e: Session.Event, repaired: bool)
    requires PubSub.Valid(s.engine) && Registers(s, e) && !Opens(s, e) && !Closes(s, e)
    requires Session.Step(s, e, repaired).Some?
    ensures Session.Step(s, e, repaired) == Some(s.(ids := s.ids + {e.id}, timed := s.timed + {e.sockfd}))
  {
    PerformOne(s.engine, DoFlush(0));
  }

  /** What comes of any CONNECT that can be read: whether the server goes on, and then whether the
      client has a session, keeps its connection without one, or loses it. */
  lemma ConnectOutcome(code: Code, inputs: seq<Input>, k: nat, b: byte, body: seq<byte>, rest: seq<byte>, accept: bool,
                       at: int)
    requires Serve(code, inputs).Some? && b / 16 == 1 && |body| <= MAX_LENGTH && ParseConnect(code.rule, body).Ok?
    ensures var s, x := StateAfter(code, inputs), Arrives(k, Frames.Frame(b, body) + rest, accept, at);
            var p := ParseConnect(code.rule, body).value;
            var id, isNew := p.identifier, |p.identifier| <= 23 && p.identifier !in s.ids;
            && (Serve(code, inputs + [x]).Some? <==>
                && k !in s.timed && k > 0
                && !(isNew && p.flags.username && (!p.flags.password || (accept && id == []))))
            && (Serve(code, inputs + [x]).Some? ==>
                  var t := StateAfter(code, inputs + [x]);
                  if isNew && p.flags.username && accept then
                    Granted(s, t, k, id, code.repaired) && Opened(code, inputs, x, k, p.keepAlive, at)
                  else if isNew && (p.flags.username || accept) then
                    t == s.(ids := s.ids + {id}, timed := s.timed + {k}) && Opened(code, inputs, x, k, p.keepAlive, at)
                  else
                    Ended(code, inputs, x, k, if isNew then {id} else {}))
  {
    var p := ParseConnect(code.rule, body).value;
    var e := Connect(k, p.identifier, LoginOf(p.flags, accept));
    hide *;
    ConnectEvent(StateAfter(code, inputs), k, p, accept);
    ConnectDoes(code, inputs, e, b, body, rest, accept, at);
  }

  /** The outcome of CONNECT by its flags and lengths. */
  lemma ConnectEvent(s: Session.State, k: nat, p: ConnectPacket, accept: bool)
    ensures var e := Connect(k, p.identifier, LoginOf(p.flags, accept));
            var isNew := |p.identifier| <= 23 && p.identifier !in s.ids;
            && (Registers(s, e) <==> isNew)
            && (Opens(s, e) <==> isNew && p.flags.username && p.flags.password && accept)
            && (Closes(s, e) <==> !isNew || (!p.flags.username && !accept))
            && (Stops(s, e) <==> isNew && p.flags.username && (!p.flags.password || (accept && p.identifier == [])))
            && (Allowed(s, e) <==> k !in s.timed && k > 0)
            && e.sockfd == k && e.id == p.identifier
  {
  }

  lemma ConnectDoes(code: Code, inputs: seq<Input>, e: Session.Event, b: byte, body: seq<byte>, rest: seq<byte>,
                    accept: bool, at: int)
    requires Serve(code, inputs).Some? && b / 16 == 1 && |body| <= MAX_LENGTH && ParseConnect(code.rule, body).Ok?
    requires var p := ParseConnect(code.rule, body).value;
             e.Connect? && e.id == p.identifier && e.login == LoginOf(p.flags, accept)
    ensures var s, x := StateAfter(code, inputs), Arrives(e.sockfd, Frames.Frame(b, body) + rest, accept, at);
            && (Serve(code, inputs + [x]).Some? <==> Allowed(s, e) && !Stops(s, e))
            && (Serve(code, inputs + [x]).Some? ==>
                  var t := StateAfter(code, inputs + [x]);
                  if Closes(s, e) then Ended(code, inputs, x, e.sockfd, if Registers(s, e) then {e.id} else {})
                  else
                    && Opened(code, inputs, x, e.sockfd, ParseConnect(code.rule, body).value.keepAlive, at)
                    && if Opens(s, e) then Granted(s, t, e.sockfd, e.id, code.repaired)
                       else t == s.(ids := s.ids + {e.id}, timed := s.timed + {e.sockfd}))
  {
    var s, x := StateAfter(code, inputs), Arrives(e.sockfd, Frames.Frame(b, body) + rest, accept, at);
    var keepAlive := ParseConnect(code.rule, body).value.keepAlive;
    var open, shut := KeepAlive.Open(e.sockfd, keepAlive, at), KeepAlive.Shut(e.sockfd, at);
    hide Ended, Granted, Opened, Serve, Sessions, Clock, Do, ConnectSteps, ParseConnect, Frames.Frame, LoginOf, RunFrom;
    hide KeepAlive.Run, Session.Step, Closes, Stops, Opens;
    assert [open] + [shut] == [open, shut];
    ConnectIs(code, s, Clock(code, Serve(code, inputs).value), e.sockfd, b, body, rest, accept, at);
    StepsIs(code.rule, body);
    if e.sockfd in s.timed {
      ServeNone(code, inputs, x);
    } else if Closes(s, e) {
      ConnectCloses(code, inputs, x, e, open, shut);
    } else {
      ConnectOpens(code, inputs, x, e, open, shut);
    }
  }

  lemma ConnectCloses(code: Code, inputs: seq<Input>, x: Input, e: Session.Event, open: KeepAlive.Event,
                      shut: KeepAlive.Event)
    requires Serve(code, inputs).Some? && e.Connect? && Closes(StateAfter(code, inputs), e)
    requires open.Open? && shut == KeepAlive.Shut(e.sockfd, open.at) && open.slot == e.sockfd
    requires Do(code, StateAfter(code, inputs), Clock(code, Serve(code, inputs).value), x) == Some(Deeds([e], [open, shut]))
    ensures var s := StateAfter(code, inputs);
            && (Serve(code, inputs + [x]).Some? <==> Allowed(s, e) && !Stops(s, e))
            && (Serve(code, inputs + [x]).Some? ==>
                  Ended(code, inputs, x, e.sockfd, if Registers(s, e) then {e.id} else {}))
  {
    hide Ended, Serve, Sessions, Clock, Do, RunFrom, KeepAlive.Run, Session.Step, Closes, Stops, Allowed, Registers;
    OneEvent(code, inputs, x, e, [open, shut]);
    if Serve(code, inputs + [x]).Some? {
      EventEnds(code, inputs, x, e, [open, shut], open.at);
    }
  }

  lemma ConnectOpens(code: Code, inputs: seq<Input>, x: Input, e: Session.Event, open: KeepAlive.Event,
                     shut: KeepAlive.Event)
    requires Serve(code, inputs).Some? && e.Connect? && !Closes(StateAfter(code, inputs), e)
    requires open.Open? && open.slot == e.sockfd
    requires Do(code, StateAfter(code, inputs), Clock(code, Serve(code, inputs).value), x) == Some(Deeds([e], [open]))
    ensures var s := StateAfter(code, inputs);
            && (Serve(code, inputs + [x]).Some? <==> Allowed(s, e) && !Stops(s, e))
            && (Serve(code, inputs + [x]).Some? ==>
                  var t := StateAfter(code, inputs + [x]);
                  && Opened(code, inputs, x, e.sockfd, open.keepAlive, open.at)
                  && if Opens(s, e) then Granted(s, t, e.sockfd, e.id, code.repaired)
                     else t == s.(ids := s.ids + {e.id}, timed := s.timed + {e.sockfd}))
  {
    hide Granted, Opened, Serve, Do, RunFrom, KeepAlive.Run, Session.Step, Closes, Stops, Allowed, Opens;
    hide KeepAlive.Watch, KeepAlive.ObserveAll;
    OneEvent(code, inputs, x, e, [open]);
    if Serve(code, inputs + [x]).Some? {
      OpenedBy(code, inputs, x, open, shut);
      NotClosedStep(StateAfter(code, inputs), e, code.repaired);
    }
  }

  lemma NotClosedStep(s: Session.State, e: Session.Event, repaired: bool)
    requires PubSub.Valid(s.engine) && e.Connect? && !Closes(s, e) && Session.Step(s, e, repaired).Some?
    ensures var t := Session.Step(s, e, repaired).value;
            if Opens(s, e) then Granted(s, t, e.sockfd, e.id, repaired)
            else t == s.(ids := s.ids + {e.id}, timed := s.timed + {e.sockfd})
  {
    hide Granted, Session.Step, Opens;
    if Opens(s, e) {
      GrantedStep(s, e, repaired);
    } else {
      KeptStep(s, e, repaired);
    }
  }

  lemma OpenedBy(code: Code, inputs: seq<Input>, x: Input, open: KeepAlive.Event, shut: KeepAlive.Event)
    requires Serve(code, inputs).Some? && Serve(code, inputs + [x]).Some? && open.Open?
    requires forall j :: WatchAfter(code, inputs + [x], j) ==
                         KeepAlive.ObserveAll(WatchAfter(code, inputs, j), [open], j)
    ensures Opened(code, inputs, x, open.slot, open.keepAlive, open.at)
  {
    hide Serve, KeepAlive.Watch, KeepAlive.ObserveAll;
    forall j
      ensures WatchAfter(code, inputs + [x], j) ==
              if j == open.slot then KeepAlive.Alive(open.at, open.keepAlive) else WatchAfter(code, inputs, j)
    {
      ObserveOne(WatchAfter(code, inputs, j), open, shut, j);
    }
  }

  /** A well-formed CONNECT that comes first, under an id that is not in use: it gets a session exactly if
      it has user name and password and these are accepted. Without acceptance the connection stays, with
      its deadline and without a session; without a user name there is no session either. */
  lemma ConnectGrantedIff(code: Code, inputs: seq<Input>, k: nat, p: ConnectPacket, rest: seq<byte>, accept: bool, at: int)
    requires Frames.SentOk(Frames.SendConnect(p)) && (code.rule == Standard || Frames.SentShort(Frames.SendConnect(p)))
    requires var x := Arrives(k, Frames.Encode(Frames.SendConnect(p)) + rest, accept, at);
             Serve(code, inputs).Some? && Serve(code, inputs + [x]).Some?
    requires k !in StateAfter(code, inputs).timed && p.identifier !in StateAfter(code, inputs).ids
    ensures var x := Arrives(k, Frames.Encode(Frames.SendConnect(p)) + rest, accept, at);
            var s, t := StateAfter(code, inputs), StateAfter(code, inputs + [x]);
            && (k in t.live <==> p.flags.username && p.flags.password && accept)
            && (k in t.live ==>
                  && k in t.names && t.names[k] == p.identifier && p.identifier in t.ids
                  && var queue := QueueOf(s.engine, p.identifier);
                  && t.engine.out ==
                     s.engine.out + seq(|queue|, i requires 0 <= i < |queue| => Sent(k, p.identifier, queue[i]))
                  && QueueOf(t.engine, p.identifier) == []
                  && WatchAfter(code, inputs + [x], k) == KeepAlive.Alive(at, p.keepAlive))
            && (p.flags.username && !accept ==> k in t.timed && k !in t.live && t.engine.out == s.engine.out)
            && (!p.flags.username ==> k !in t.live && (k in t.timed <==> accept))
  {
    var body, trace := ConnectBody(p), Serve(code, inputs).value.session;
    var x := Arrives(k, Frames.Encode(Frames.SendConnect(p)) + rest, accept, at);
    assert |body| <= MAX_LENGTH && |p.identifier| <= 23 && Frames.Encode(Frames.SendConnect(p)) == Frames.Frame(0x10, body);
    hide ConnectBody, ParseConnect, Frames.Frame, Frames.Encode, StringsShort;
    hide Serve, RunFrom, KeepAlive.Run, KeepAlive.Watch;
    ConnectIff(code.rule, p);
    LiveTimed(trace, code.repaired);
    ConnectOutcome(code, inputs, k, 0x10, body, rest, accept, at);
  }

  // ----- SUBSCRIBE, PUBLISH and PINGREQ

  lemma TurnIs(code: Code, s: Session.State, list: KeepAlive.State, k: nat, b: byte, body: seq<byte>, rest: seq<byte>,
               accept: bool, at: int)
    requires |body| <= MAX_LENGTH
    ensures var deeds := Do(code, s, list, Arrives(k, Frames.Frame(b, body) + rest, accept, at));
            && (b / 16 == 8 && b / 2 % 4 != 3 && k in s.names && ParseSubscribe(code.rule, b / 2 % 4, body).Topics? ==>
                  var topics := ParseSubscribe(code.rule, b / 2 % 4, body).topics;
                  deeds == Some(Deeds([Event.Subscribe(k, topics, b / 2 % 4)], [])))
            && (b / 16 == 3 && b / 2 % 4 != 3 && ParsePublish(code.rule, b / 2 % 4, body).Message? ==>
                  var m := ParsePublish(code.rule, b / 2 % 4, body);
                  deeds == Some(Deeds([Publish(k, m.topic, m.content)], [KeepAlive.Activity(k, at)])))
            && (b / 16 == 12 ==>
                  Frames.Take(code.rule, Frames.Frame(b, body) + rest) == Frames.Go(Frames.GotPing, body + rest)
                  && deeds == if k in s.timed then Some(Deeds([], [KeepAlive.Activity(k, at)])) else None)
  {
    hide Frames.Frame, Frames.SplitFrame, ParseSubscribe, ParsePublish, ConnectDeeds;
    Frames.SplitOne(b, body, rest);
    if b / 16 == 12 {
      FrameSplit(b, body, rest);
      Frames.BareTaken(code.rule, b, |body|, body + rest);
    }
  }

  lemma FrameSplit(b: byte, body: seq<byte>, rest: seq<byte>)
    ensures Frames.Frame(b, body) + rest == [b] + EncodeLen(|body|) + (body + rest)
  {
  }

  /** Nothing has changed but the topics. */
  ghost predicate OnlyTopics(s: Session.State, t: Session.State) {
    t == s.(engine := s.engine.(topics := t.engine.topics))
  }

  /** A SUBSCRIBE on a slot with a client id whose topics can be read: every topic gets one subscription of
      this client for each time that it occurs, after those that were there. */
  lemma SubscribeAdds(code: Code, inputs: seq<Input>, k: nat, b: byte, body: seq<byte>, rest: seq<byte>, accept: bool,
                      at: int, name: Name)
    requires Serve(code, inputs).Some? && b / 16 == 8 && b / 2 % 4 != 3 && |body| <= MAX_LENGTH
    requires k in StateAfter(code, inputs).names && ParseSubscribe(code.rule, b / 2 % 4, body).Topics?
    ensures var x := Arrives(k, Frames.Frame(b, body) + rest, accept, at);
            && Serve(code, inputs + [x]).Some?
            && var s, t := StateAfter(code, inputs), StateAfter(code, inputs + [x]);
            var topics := ParseSubscribe(code.rule, b / 2 % 4, body).topics;
            && OnlyTopics(s, t)
            && TopicOf(t.engine, name).log == TopicOf(s.engine, name).log
            && TopicOf(t.engine, name).subs.nodes ==
               TopicOf(s.engine, name).subs.nodes +
               seq(multiset(topics)[name], i => SubscriberSpec.Subscription(s.names[k], b / 2 % 4))
            && forall j :: WatchAfter(code, inputs + [x], j) == WatchAfter(code, inputs, j)
  {
    var x, trace := Arrives(k, Frames.Frame(b, body) + rest, accept, at), Serve(code, inputs).value.session;
    var s, topics := StateAfter(code, inputs), ParseSubscribe(code.rule, b / 2 % 4, body).topics;
    var e := Event.Subscribe(k, topics, b / 2 % 4);
    hide Do, Serve, Frames.Frame, RunFrom, KeepAlive.Run, KeepAlive.Watch, KeepAlive.ObserveAll, Session.Step, Asked;
    TurnIs(code, s, Clock(code, Serve(code, inputs).value), k, b, body, rest, accept, at);
    TopicsThereAlways(code.rule, b / 2 % 4, body);
    hide ParseSubscribe;
    OneEvent(code, inputs, x, e, []);
    SubscribeStep(s, e, code.repaired, name);
    forall j
      ensures WatchAfter(code, inputs + [x], j) == WatchAfter(code, inputs, j)
    {
      ObserveOne(WatchAfter(code, inputs, j), KeepAlive.Shut(k, at), KeepAlive.Shut(k, at), j);
    }
    NodesAfter(code, inputs, name);
    NodesAfter(code, inputs + [x], name);
    ServeSnoc(code, inputs, x);
    AskedNext(trace, e, code.repaired, name);
    IntendedMore(Asked(trace, code.repaired, name), SubscriberSpec.Subscription(s.names[k], b / 2 % 4), topics, name);
  }

  lemma TopicsThereAlways(rule: Rule, qos: nat, body: seq<byte>)
    ensures ParseSubscribe(rule, qos, body).Topics? ==> [] !in ParseSubscribe(rule, qos, body).topics
  {
    Outgoing.TopicsThere(rule, body, 0);
    Outgoing.TopicsThere(rule, body, 2);
  }

  lemma {:induction false} SubscribesKeep(e: Engine, actions: seq<Action>, name: Name)
    requires PubSub.Valid(e) && forall a :: a in actions ==> a.DoSubscribe?
    ensures Perform(e, actions).Some? && TopicOf(Perform(e, actions).value, name).log == TopicOf(e, name).log
  {
    PerformGoesOn(e, actions);
    if actions != [] {
      hide PubSub.Step, TopicOf, PubSub.Valid;
      var init, last := actions[..|actions| - 1], actions[|actions| - 1];
      SubscribesKeep(e, init, name);
      StepTables(Perform(e, init).value, last, name);
    }
  }

  lemma SubscribeStep(s: Session.State, e: Session.Event, repaired: bool, name: Name)
    requires PubSub.Valid(s.engine) && e.Subscribe? && e.sockfd in s.names && Session.Step(s, e, repaired).Some?
    ensures var t := Session.Step(s, e, repaired).value;
            OnlyTopics(s, t) && TopicOf(t.engine, name).log == TopicOf(s.engine, name).log
  {
    hide PubSub.Valid, TopicOf, Perform;
    ListsOnly(s.engine, Effects(s, e, repaired));
    SubscribesKeep(s.engine, Effects(s, e, repaired), name);
  }

  /** On every run of the server a topic has the subscribers that the clients have asked for. */
  lemma NodesAfter(code: Code, inputs: seq<Input>, name: Name)
    requires Serve(code, inputs).Some?
    ensures TopicOf(StateAfter(code, inputs).engine, name).subs.nodes ==
            SubscriberSpec.IntendedRun(Asked(Serve(code, inputs).value.session, code.repaired, name))
  {
    hide Serve, Asked, TopicOf;
    var trace := Serve(code, inputs).value.session;
    Delivery.ServeFromBytes(code, inputs);
    Delivery.NoneUnsubscribes(trace);
    IntendedHolders(trace, code.repaired, name);
  }

  lemma AskedNext(trace: seq<Session.Event>, e: Session.Event, repaired: bool, name: Name)
    requires RunFrom(INIT, trace, repaired).Some? && e.Subscribe? && e.sockfd in RunFrom(INIT, trace, repaired).value.names
    ensures var x := SubscriberSpec.Subscription(RunFrom(INIT, trace, repaired).value.names[e.sockfd], e.qos);
            Asked(trace + [e], repaired, name) ==
            Asked(trace, repaired, name) + Each(e.topics, name, SubscriberSpec.Sub(x))
  {
    hide RunFrom, BookOf, Each;
    BookIs(trace, repaired);
    assert (trace + [e])[..|trace|] == trace;
  }

  lemma {:induction false} IntendedMore(ops: seq<SubscriberSpec.Op>, x: SubscriberSpec.Subscription, topics: seq<Name>,
                                        name: Name)
    ensures SubscriberSpec.IntendedRun(ops + Each(topics, name, SubscriberSpec.Sub(x))) ==
            SubscriberSpec.IntendedRun(ops) + seq(multiset(topics)[name], i => x)
  {
    hide SubscriberSpec.IntendedRun;
    if topics == [] {
      assert ops + [] == ops;
    } else {
      var init, last := topics[..|topics| - 1], topics[|topics| - 1];
      var more := Each(init, name, SubscriberSpec.Sub(x));
      IntendedMore(ops, x, init, name);
      assert topics == init + [last];
      if last == name {
        SubscriberSpec.RunSnoc(ops + more, SubscriberSpec.Sub(x));
        assert ops + (more + [SubscriberSpec.Sub(x)]) == ops + more + [SubscriberSpec.Sub(x)];
      } else {
        assert more + [] == more;
      }
    }
  }

  /** The deadline of slot k is counted from now on, and no other one has changed. */
  ghost predicate Refreshed(code: Code, inputs: seq<Input>, x: Input, k: nat, at: int)
    requires Serve(code, inputs).Some? && Serve(code, inputs + [x]).Some?
  {
    forall j :: WatchAfter(code, inputs + [x], j) ==
                var c := WatchAfter(code, inputs, j); if j == k && c.Alive? then KeepAlive.Alive(at, c.keepAlive) else c
  }

  lemma RefreshedBy(code: Code, inputs: seq<Input>, x: Input, k: nat, at: int)
    requires Serve(code, inputs).Some? && Serve(code, inputs + [x]).Some?
    requires forall j :: WatchAfter(code, inputs + [x], j) ==
                         KeepAlive.ObserveAll(WatchAfter(code, inputs, j), [KeepAlive.Activity(k, at)], j)
    ensures Refreshed(code, inputs, x, k, at)
  {
    hide Serve, KeepAlive.Watch, KeepAlive.ObserveAll;
    forall j
      ensures var c := WatchAfter(code, inputs, j);
              WatchAfter(code, inputs + [x], j) == if j == k && c.Alive? then KeepAlive.Alive(at, c.keepAlive) else c
    {
      ObserveOne(WatchAfter(code, inputs, j), KeepAlive.Activity(k, at), KeepAlive.Shut(k, at), j);
    }
  }

  /** A PUBLISH that can be read: the server goes on if the connection has a deadline and the list does not
      hang on it; then the message is in its topic's log, every client is sent or will be sent one copy
      for each of its subscriptions, the publisher's deadline moves, and nothing else happens. */
  lemma PublishOutcome(code: Code, inputs: seq<Input>, k: nat, b: byte, body: seq<byte>, rest: seq<byte>, accept: bool,
                       at: int, name: Name, c: Id)
    requires Serve(code, inputs).Some? && b / 16 == 3 && b / 2 % 4 != 3 && |body| <= MAX_LENGTH
    requires ParsePublish(code.rule, b / 2 % 4, body).Message?
    ensures var x := Arrives(k, Frames.Frame(b, body) + rest, accept, at);
            var s, list := StateAfter(code, inputs), Clock(code, Serve(code, inputs).value);
            && (Serve(code, inputs + [x]).Some? <==>
                k in s.timed && !KeepAlive.Blocks(list, KeepAlive.Activity(k, at), code.list))
            && (Serve(code, inputs + [x]).Some? ==>
                  var t, m := StateAfter(code, inputs + [x]), ParsePublish(code.rule, b / 2 % 4, body);
                  && t == s.(engine := t.engine) && t.engine.nodes == s.engine.nodes
                  && TopicOf(t.engine, name).subs == TopicOf(s.engine, name).subs
                  && TopicOf(t.engine, name).log ==
                     TopicOf(s.engine, name).log + (if name == m.topic then [m.content] else [])
                  && Total(t.engine, c) ==
                     Total(s.engine, c) + Copies(TopicOf(s.engine, m.topic).subs.nodes, c, Msg(m.topic, m.content))
                  && Refreshed(code, inputs, x, k, at))
  {
    var x, d := Arrives(k, Frames.Frame(b, body) + rest, accept, at), Serve(code, inputs).value;
    var s, m := StateAfter(code, inputs), ParsePublish(code.rule, b / 2 % 4, body);
    var e := Publish(k, m.topic, m.content);
    hide Do, Serve, Frames.Frame, RunFrom, KeepAlive.Run, KeepAlive.Watch, KeepAlive.ObserveAll, KeepAlive.Blocks;
    hide Session.Step, Refreshed, Total, Copies, TopicOf;
    TurnIs(code, s, Clock(code, d), k, b, body, rest, accept, at);
    MessageThere(code.rule, b / 2 % 4, body);
    hide ParsePublish;
    OneEvent(code, inputs, x, e, [KeepAlive.Activity(k, at)]);
    if Serve(code, inputs + [x]).Some? {
      RefreshedBy(code, inputs, x, k, at);
      PublishDoes(s, e, code.repaired, name, c);
    }
  }

  lemma MessageThere(rule: Rule, qos: nat, body: seq<byte>)
    ensures var m := ParsePublish(rule, qos, body); m.Message? ==> m.topic != [] && m.content != []
  {
  }

  lemma PublishDoes(s: Session.State, e: Session.Event, repaired: bool, name: Name, c: Id)
    requires PubSub.Valid(s.engine) && e.Publish? && Session.Step(s, e, repaired).Some?
    ensures var t := Session.Step(s, e, repaired).value;
            && t == s.(engine := t.engine) && t.engine.nodes == s.engine.nodes
            && TopicOf(t.engine, name).subs == TopicOf(s.engine, name).subs
            && TopicOf(t.engine, name).log == TopicOf(s.engine, name).log + (if name == e.name then [e.content] else [])
            && Total(t.engine, c) ==
               Total(s.engine, c) + Copies(TopicOf(s.engine, e.name).subs.nodes, c, Msg(e.name, e.content))
  {
    hide Total, Copies, PubSub.Publish;
    PerformOne(s.engine, DoPublish(e.name, e.content));
    StepTables(s.engine, DoPublish(e.name, e.content), name);
    PublishAddsCopies(s.engine, e.name, e.content, c);
    PublishKeepsNodes(s.engine, e.name, e.content);
  }

  /** PINGREQ, whatever its length field says: the connection's deadline moves, and nothing else happens. */
  lemma PingOutcome(code: Code, inputs: seq<Input>, k: nat, b: byte, body: seq<byte>, accept: bool, at: int)
    requires Serve(code, inputs).Some? && b / 16 == 12 && |body| <= MAX_LENGTH
    ensures var x := Arrives(k, Frames.Frame(b, body), accept, at);
            var s, list := StateAfter(code, inputs), Clock(code, Serve(code, inputs).value);
            && (Serve(code, inputs + [x]).Some? <==>
                k in s.timed && !KeepAlive.Blocks(list, KeepAlive.Activity(k, at), code.list))
            && (Serve(code, inputs + [x]).Some? ==>
                  StateAfter(code, inputs + [x]) == s && Refreshed(code, inputs, x, k, at))
  {
    var x, d, move := Arrives(k, Frames.Frame(b, body), accept, at), Serve(code, inputs).value, KeepAlive.Activity(k, at);
    var s := StateAfter(code, inputs);
    hide Do, Serve, Frames.Frame, RunFrom, KeepAlive.Run, KeepAlive.Watch, KeepAlive.ObserveAll, KeepAlive.Blocks, Refreshed;
    assert Frames.Frame(b, body) + [] == Frames.Frame(b, body);
    TurnIs(code, s, Clock(code, d), k, b, body, [], accept, at);
    if k in s.timed {
      ServeOneIff(code, inputs, x, Deeds([], [move]));
      assert d.session + [] == d.session;
      ListGoesOnIff(d.clock, [move], code.list);
      if Serve(code, inputs + [x]).Some? {
        ServeSnoc(code, inputs, x);
        forall j
          ensures WatchAfter(code, inputs + [x], j) == KeepAlive.ObserveAll(WatchAfter(code, inputs, j), [move], j)
        {
          KeepAlive.WatchJoin(d.clock, [move], j);
        }
        RefreshedBy(code, inputs, x, k, at);
      }
    } else {
      ServeNone(code, inputs, x);
    }
  }

  // ----- frames that are not as they should be

  /** A length field that breaks off ends the connection, one that goes on for too long stops the server,
      and so does a body that is not all there, but for PINGREQ and DISCONNECT, which have none. */
  lemma BrokenFrame(code: Code, inputs: seq<Input>, k: nat, b: byte, bytes: seq<byte>, accept: bool, at: int)
    requires Serve(code, inputs).Some? && b / 16 in {1, 3, 8, 12, 14}
    requires (b / 16 in {3, 8} ==> b / 2 % 4 != 3) && (b / 16 == 8 ==> k in StateAfter(code, inputs).names)
    ensures var x := Arrives(k, [b] + bytes, accept, at);
            && (|bytes| <= 4 && (forall i :: 0 <= i < |bytes| ==> bytes[i] >= 128) ==> Ended(code, inputs, x, k, {}))
            && (|bytes| >= 5 && (forall i :: 0 <= i < 4 ==> bytes[i] >= 128) ==> Serve(code, inputs + [x]) == None)
            && (b / 16 in {1, 3, 8} && DecodeLen(bytes).Length?
                && |bytes| < DecodeLen(bytes).used + DecodeLen(bytes).value ==>
                  Serve(code, inputs + [x]) == None)
  {
    hide Ended, Serve, Runs, Sessions, Clock, Frames.Take, DecodeLen;
    var x := Arrives(k, [b] + bytes, accept, at);
    Frames.BrokenTaken(code.rule, b, bytes);
    if b / 16 == 1 {
      BrokenConnectIs(code, StateAfter(code, inputs), Clock(code, Serve(code, inputs).value), k, b, bytes, accept, at);
      hide Do, Closing;
      if |bytes| <= 4 && forall i :: 0 <= i < |bytes| ==> bytes[i] >= 128 {
        ClosingEnds(code, inputs, x, k, at);
      } else if Do(code, StateAfter(code, inputs), Clock(code, Serve(code, inputs).value), x) == None {
        ServeNone(code, inputs, x);
      }
    } else if Frames.Take(code.rule, [b] + bytes).Stop? {
      TurnEnds(code, inputs, k, b, bytes, accept, at);
    }
  }

  lemma BrokenConnectIs(code: Code, s: Session.State, list: KeepAlive.State, k: nat, b: byte, bytes: seq<byte>, accept: bool,
                        at: int)
    requires b / 16 == 1
    ensures var deeds := Do(code, s, list, Arrives(k, [b] + bytes, accept, at));
            && (|bytes| <= 4 && (forall i :: 0 <= i < |bytes| ==> bytes[i] >= 128) ==> deeds == Some(Closing(k, at)))
            && (|bytes| >= 5 && (forall i :: 0 <= i < 4 ==> bytes[i] >= 128) ==> deeds == None)
            && (DecodeLen(bytes).Length? && |bytes| < DecodeLen(bytes).used + DecodeLen(bytes).value ==> deeds == None)
  {
    hide DecodeLen, ReadDeeds, Closing;
    assert ([b] + bytes)[1..] == bytes;
    OverflowIff(bytes);
    ShortIff(bytes);
  }

  /** A PUBLISH or SUBSCRIBE that is all there and cannot be read: too few bytes end the connection, an
      empty topic or content stops the server, and so does a topic that is cut short. */
  lemma MalformedBody(code: Code, inputs: seq<Input>, k: nat, b: byte, body: seq<byte>, rest: seq<byte>, accept: bool,
                      at: int)
    requires Serve(code, inputs).Some? && |body| <= MAX_LENGTH && b / 16 in {3, 8}
    requires b / 16 == 8 ==> k in StateAfter(code, inputs).names
    ensures var x, qos := Arrives(k, Frames.Frame(b, body) + rest, accept, at), b / 2 % 4;
            && (qos == 3 ==> Ended(code, inputs, x, k, {}))
            && (b / 16 == 3 && qos != 3 ==>
                  && (ParsePublish(code.rule, qos, body) == Malformed ==> Ended(code, inputs, x, k, {}))
                  && (ParsePublish(code.rule, qos, body) == Aborted ==> Serve(code, inputs + [x]) == None))
            && (b / 16 == 8 && qos != 3 ==>
                  && (ParseSubscribe(code.rule, qos, body) == BadSubscribe ==> Ended(code, inputs, x, k, {}))
                  && (ParseSubscribe(code.rule, qos, body) in {EmptyTopic, Undefined} ==> Serve(code, inputs + [x]) == None))
  {
    var bytes := EncodeLen(|body|) + body + rest;
    assert Frames.Frame(b, body) + rest == [b] + bytes;
    MalformedTaken(code.rule, b, body, rest);
    hide *;
    if Frames.Take(code.rule, [b] + bytes).Stop? {
      TurnEnds(code, inputs, k, b, bytes, accept, at);
    }
  }

  lemma MalformedTaken(rule: Rule, b: byte, body: seq<byte>, rest: seq<byte>)
    requires |body| <= MAX_LENGTH && b / 16 in {3, 8}
    ensures var turn, qos := Frames.Take(rule, Frames.Frame(b, body) + rest), b / 2 % 4;
            && (qos == 3 ==> turn == Frames.Stop([], Frames.Shut))
            && (b / 16 == 3 && qos != 3 ==>
                  && (ParsePublish(rule, qos, body) == Malformed ==> turn == Frames.Stop([], Frames.Shut))
                  && (ParsePublish(rule, qos, body) == Aborted ==> turn == Frames.Stop([], Frames.Crashed)))
            && (b / 16 == 8 && qos != 3 ==>
                  && (ParseSubscribe(rule, qos, body) == BadSubscribe ==> turn == Frames.Stop([], Frames.Shut))
                  && (ParseSubscribe(rule, qos, body) in {EmptyTopic, Undefined} ==>
                        turn == Frames.Stop([], Frames.Crashed)))
  {
    hide Frames.Frame, Frames.SplitFrame, ParseSubscribe, ParsePublish;
    Frames.SplitOne(b, body, rest);
  }

  /** UNSUBSCRIBE never takes anybody out of a list: with a payload it stops the server, without one it
      ends the connection or, at quality of service 0, does nothing. */
  lemma UnsubscribeOutcome(code: Code, inputs: seq<Input>, k: nat, b: byte, n: nat, rest: seq<byte>, accept: bool, at: int)
    requires Serve(code, inputs).Some? && b / 16 == 10 && n <= MAX_LENGTH
    ensures var x, qos := Arrives(k, [b] + (EncodeLen(n) + rest), accept, at), b / 2 % 4;
            if qos != 3 && n > 0 then Serve(code, inputs + [x]) == None
            else if qos != 0 then Ended(code, inputs, x, k, {})
            else Ignored(code, inputs, x)
  {
    hide Ended, Serve, Runs, Sessions, Clock, Frames.Take, EncodeLen, Do, Ignored, ConnectDeeds;
    var x, bytes := Arrives(k, [b] + (EncodeLen(n) + rest), accept, at), EncodeLen(n) + rest;
    assert [b] + EncodeLen(n) + rest == [b] + bytes;
    Frames.BareTaken(code.rule, b, n, rest);
    if Frames.Take(code.rule, [b] + bytes).Stop? {
      TurnEnds(code, inputs, k, b, bytes, accept, at);
    } else {
      DoArrives(code, StateAfter(code, inputs), Clock(code, Serve(code, inputs).value), k, b, bytes, accept, at);
      NoDeeds(code, inputs, x);
    }
  }

  // ----- the clock

  /** The slots whose connection has been silent for its span. */
  ghost predicate Silent(code: Code, inputs: seq<Input>, k: nat, at: int)
    requires Serve(code, inputs).Some?
  {
    var c := WatchAfter(code, inputs, k);
    c.Alive? && c.last + KeepAlive.Span(c.keepAlive) <= at
  }

  /** A tick that comes back ends exactly the silent connections: these have neither session nor deadline
      any more, exactly their ids may be used again, and no message and no subscription has come or gone. */
  lemma TickOutcome(code: Code, inputs: seq<Input>, at: int)
    requires KeepAlive.KeepsOrHangs(code.list) && Serve(code, inputs + [Ticks(at)]).Some?
    requires ClockForward(inputs + [Ticks(at)])
    ensures Serve(code, inputs).Some?
    ensures var s, t := StateAfter(code, inputs), StateAfter(code, inputs + [Ticks(at)]);
            && (forall k :: k in t.live <==> k in s.live && !Silent(code, inputs, k, at))
            && (forall k :: k in t.timed <==> k in s.timed && !Silent(code, inputs, k, at))
            && t.ids <= s.ids
            && (forall k :: k in s.names && Silent(code, inputs, k, at) ==> s.names[k] !in t.ids)
            && (forall id :: id in s.ids - t.ids ==>
                  exists k :: Silent(code, inputs, k, at) && k in s.names && s.names[k] == id)
            && t.engine.topics == s.engine.topics && t.engine.out == s.engine.out
            && forall j :: WatchAfter(code, inputs + [Ticks(at)], j) ==
                           if Silent(code, inputs, j, at) then KeepAlive.Closed else WatchAfter(code, inputs, j)
  {
    ServeSnoc(code, inputs, Ticks(at));
    var d := Serve(code, inputs).value;
    var due := TimerSpec.Slots(TimerSpec.Tick(Clock(code, d).timers, at, code.list.unlinks).0);
    ForwardBefore(inputs, at);
    TimersMatch(code, inputs, at);
    hide Serve, RunFrom, KeepAlive.Run, KeepAlive.Step, KeepAlive.WellFormed, KeepAlive.Watch, KeepAlive.Span;
    hide TimerSpec.Tick, TimerSpec.Slots, CloseAll;
    CloseAllDoes(d.session, due, code.repaired);
    KeepAlive.RunSnoc(d.clock, KeepAlive.Expiry(at));
    KeepAlive.StepSame(Clock(code, d), KeepAlive.Expiry(at), code.list);
    KeepAlive.SameUntilItHangs(d.clock, code.list);
    forall k
      ensures k in due <==> Silent(code, inputs, k, at)
    {
      KeepAlive.TickReapsExactlyTheSilent(d.clock, at, k);
    }
  }
}
