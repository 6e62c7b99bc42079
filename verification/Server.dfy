/** The whole server on values: what the bytes, the closed connections and the ticks that come in do
    to the sessions and to the deadline list (src/server.c and the handlers it calls). */
module Server {
  import opened Strings
  import opened Wrappers
  import opened Codec
  import opened Session
  import opened PubSub
  import Arrivals
  import Frames
  import KeepAlive
  import TimerSpec

  /** One turn of a connection's packet loop on the bytes that are there, where `accept` says how the
      rest of a CONNECT goes; the end of a connection; or a tick. */
  datatype Input =
    | Arrives(sockfd: nat, bytes: seq<byte>, accept: bool, at: int)
    | Leaves(sockfd: nat, at: int)
    | Ticks(at: int)

  /** How the server's two-byte integers, its sessions and its deadline list are written. */
  datatype Code = Code(rule: Rule, repaired: bool, list: KeepAlive.Server)

  /** What an input does to the sessions, and to the list. */
  datatype Deeds = Deeds(session: seq<Session.Event>, clock: seq<KeepAlive.Event>)

  function LoginOf(flags: ConnectFlags, accept: bool): Login {
    if !flags.username then Anonymous(!accept)
    else if !flags.password then Passwordless
    else if accept then Granted
    else Refused
  }

  /** `shut_dead_conn`. */
  function Closing(sockfd: nat, at: int): Deeds {
    Deeds([Close(sockfd)], [KeepAlive.Shut(sockfd, at)])
  }

  /** CONNECT puts the timer in before it looks at the client id. */
  function Connecting(s: Session.State, e: Session.Event, keepAlive: nat, at: int): Deeds
    requires e.Connect?
  {
    var open := [KeepAlive.Open(e.sockfd, keepAlive, at)];
    Deeds([e], if Closes(s, e) then open + [KeepAlive.Shut(e.sockfd, at)] else open)
  }

  /** CONNECT, from the bytes after its first one: the client id is looked at as soon as it has been
      read, and registered before the strings after it are. None: an assertion fails, or a second
      CONNECT puts in a timer that is in the list already. */
  function ConnectDeeds(rule: Rule, s: Session.State, sockfd: nat, bytes: seq<byte>, accept: bool, at: int): Option<Deeds>
  {
    match Frames.SplitFrame(bytes)
    case BadLength => Some(Closing(sockfd, at))
    case Complete(body, _) => ReadDeeds(s, sockfd, ConnectSteps(rule, body), accept, at)
    case _ => None
  }

  /** The same once the handler has read as much of the packet as it reads. */
  function ReadDeeds(s: Session.State, sockfd: nat, r: ConnectRead, accept: bool, at: int): Option<Deeds> {
    if r.NoHead? then Some(Closing(sockfd, at))
    else if sockfd in s.timed then None
    else match r
      case NoId(keepAlive) =>
        Some(Deeds([Close(sockfd)], [KeepAlive.Open(sockfd, keepAlive, at), KeepAlive.Shut(sockfd, at)]))
      case NoRest(keepAlive, id) => Some(Connecting(s, Connect(sockfd, id, Truncated), keepAlive, at))
      case Whole(packet) =>
        Some(Connecting(s, Connect(sockfd, packet.identifier, LoginOf(packet.flags, accept)), packet.keepAlive, at))
  }

  /** What one turn of the packet loop does, but for CONNECT. */
  function TurnDeeds(s: Session.State, sockfd: nat, turn: Frames.Turn, at: int): Option<Deeds> {
    match turn
    case Go(GotPublish(topic, content), _) =>
      Some(Deeds([Publish(sockfd, topic, content)], [KeepAlive.Activity(sockfd, at)]))
    case Go(GotSubscribe(qos, topics), _) => Some(Deeds([Event.Subscribe(sockfd, topics, qos)], []))
    case Go(GotPing, _) => if sockfd in s.timed then Some(Deeds([], [KeepAlive.Activity(sockfd, at)])) else None
    case Go(_, _) => Some(Deeds([], []))
    case Stop(_, Drained) => Some(Deeds([], []))
    case Stop(_, Shut) => Some(Closing(sockfd, at))
    case Stop(_, Crashed) => None
  }

  /** None: the server stops or leaves what C defines. A SUBSCRIBE on a slot without a client id is
      not even read. */
  function Do(code: Code, s: Session.State, list: KeepAlive.State, x: Input): Option<Deeds> {
    match x
    case Leaves(sockfd, at) => Some(Closing(sockfd, at))
    case Ticks(at) =>
      Some(Deeds(CloseAll(TimerSpec.Slots(TimerSpec.Tick(list.timers, at, code.list.unlinks).0)), [KeepAlive.Expiry(at)]))
    case Arrives(sockfd, bytes, accept, at) =>
      if bytes != [] && bytes[0] / 16 == 1 then ConnectDeeds(code.rule, s, sockfd, bytes[1..], accept, at)
      else if bytes != [] && bytes[0] / 16 == 8 && sockfd !in s.names then Some(Closing(sockfd, at))
      else TurnDeeds(s, sockfd, Frames.Take(code.rule, bytes), at)
  }

  /** What has been done to sessions and list. */
  function Apply(code: Code, s: Session.State, list: KeepAlive.State, d: Option<Deeds>)
    : Option<(Session.State, KeepAlive.State)>
    requires PubSub.Valid(s.engine)
  {
    match d
    case None => None
    case Some(d) =>
      match (RunFrom(s, d.session, code.repaired), KeepAlive.Steps(list, d.clock, code.list))
      case (Some(t), Some(l)) => Some((t, l))
      case _ => None
  }

  /** Sessions and list after one input. */
  function After(code: Code, s: Session.State, list: KeepAlive.State, x: Input): Option<(Session.State, KeepAlive.State)>
    requires PubSub.Valid(s.engine)
  {
    Apply(code, s, list, Do(code, s, list, x))
  }

  /** Do the deeds take sessions and list to a next state? */
  predicate Runs(code: Code, d: Deeds) {
    RunFrom(INIT, d.session, code.repaired).Some? && KeepAlive.Run(d.clock, code.list).Some?
  }

  /** Everything that a run of inputs, on any connections and in any order, does. */
  function Serve(code: Code, inputs: seq<Input>): (d: Option<Deeds>)
    ensures d.Some? ==> Runs(code, d.value)
  {
    if inputs == [] then Some(Deeds([], []))
    else match Serve(code, inputs[..|inputs| - 1])
      case None => None
      case Some(d) =>
        match Do(code, Sessions(code, d), Clock(code, d), inputs[|inputs| - 1])
        case None => None
        case Some(more) =>
          var all := Then(d, more);
          if Runs(code, all) then Some(all) else None
  }

  function Sessions(code: Code, d: Deeds): Session.State
    requires Runs(code, d)
  {
    RunFrom(INIT, d.session, code.repaired).value
  }

  function Clock(code: Code, d: Deeds): KeepAlive.State
    requires Runs(code, d)
  {
    KeepAlive.Run(d.clock, code.list).value
  }

  function StateAfter(code: Code, inputs: seq<Input>): Session.State
    requires Serve(code, inputs).Some?
  {
    Sessions(code, Serve(code, inputs).value)
  }

  /** The connection in one slot after these inputs, watched on its own. */
  function WatchAfter(code: Code, inputs: seq<Input>, k: nat): KeepAlive.Connection
    requires Serve(code, inputs).Some?
  {
    KeepAlive.Watch(Serve(code, inputs).value.clock, k)
  }

  lemma ServeSnoc(code: Code, inputs: seq<Input>, x: Input)
    requires Serve(code, inputs + [x]).Some?
    ensures Serve(code, inputs).Some?
    ensures var d := Serve(code, inputs).value;
            && Do(code, Sessions(code, d), Clock(code, d), x).Some?
            && var more := Do(code, Sessions(code, d), Clock(code, d), x).value;
            Serve(code, inputs + [x]).value == Then(d, more)
  {
    assert (inputs + [x])[..|inputs|] == inputs;
  }

  /** A run goes on as `After` says. */
  lemma ServeAfter(code: Code, inputs: seq<Input>, x: Input)
    requires Serve(code, inputs).Some?
    ensures var d, all := Serve(code, inputs).value, Serve(code, inputs + [x]);
            After(code, Sessions(code, d), Clock(code, d), x) ==
            if all.Some? then Some((Sessions(code, all.value), Clock(code, all.value))) else None
  {
    hide Do, RunFrom, KeepAlive.Run, KeepAlive.Steps;
    assert (inputs + [x])[..|inputs|] == inputs;
    var d := Serve(code, inputs).value;
    var more := Do(code, Sessions(code, d), Clock(code, d), x);
    if more.Some? {
      RunFromJoin(INIT, d.session, more.value.session, code.repaired);
      KeepAlive.RunSteps(d.clock, more.value.clock, code.list);
    }
  }

  /** The deeds of one input consist of at most one session event, or of closings. */
  lemma ApplyOne(code: Code, s: Session.State, list: KeepAlive.State, e: Session.Event, a: KeepAlive.Event)
    requires PubSub.Valid(s.engine)
    ensures var t := if Allowed(s, e) then Session.Step(s, e, code.repaired) else None;
            var l := KeepAlive.Step(list, a, code.list);
            && Apply(code, s, list, Some(Deeds([], []))) == Some((s, list))
            && Apply(code, s, list, Some(Deeds([e], []))) == (if t.Some? then Some((t.value, list)) else None)
            && Apply(code, s, list, Some(Deeds([], [a]))) == (if l.Some? then Some((s, l.value)) else None)
            && Apply(code, s, list, Some(Deeds([e], [a]))) == if t.Some? && l.Some? then Some((t.value, l.value)) else None
  {
    hide Session.Step, KeepAlive.Step, Allowed, PubSub.Valid;
    assert [e][..0] == [] && [a][..0] == [];
  }

  lemma ApplyNothing(code: Code, s: Session.State, list: KeepAlive.State)
    requires PubSub.Valid(s.engine)
    ensures Apply(code, s, list, None) == None
    ensures Apply(code, s, list, Some(Deeds([], []))) == Some((s, list))
  {
  }

  lemma StopDeeds(s: Session.State, sockfd: nat, turn: Frames.Turn, at: int)
    requires turn.Stop?
    ensures TurnDeeds(s, sockfd, turn, at) ==
            match turn.exit
            case Drained => Some(Deeds([], []))
            case Shut => Some(Closing(sockfd, at))
            case Crashed => None
  {
  }

  lemma ApplyTwo(code: Code, s: Session.State, list: KeepAlive.State, e: Session.Event, a: KeepAlive.Event,
                 b: KeepAlive.Event)
    requires PubSub.Valid(s.engine) && KeepAlive.Step(list, a, code.list).Some?
    ensures var t := if Allowed(s, e) then Session.Step(s, e, code.repaired) else None;
            var l := KeepAlive.Step(KeepAlive.Step(list, a, code.list).value, b, code.list);
            Apply(code, s, list, Some(Deeds([e], [a, b]))) == if t.Some? && l.Some? then Some((t.value, l.value)) else None
  {
    hide Session.Step, KeepAlive.Step, Allowed, PubSub.Valid;
    assert [e][..0] == [] && [a][..0] == [] && [a, b][..1] == [a];
    assert KeepAlive.Steps(list, [a], code.list) == KeepAlive.Step(list, a, code.list);
    assert KeepAlive.Steps(list, [a, b], code.list) ==
           KeepAlive.Step(KeepAlive.Step(list, a, code.list).value, b, code.list);
    ApplyOne(code, s, list, e, a);
  }

  /** What CONNECT does to sessions and list: the list has the timer before the client id is looked at. */
  lemma ApplyConnecting(code: Code, s: Session.State, list: KeepAlive.State, e: Session.Event, keepAlive: nat, at: int)
    requires PubSub.Valid(s.engine) && e.Connect?
    ensures Session.Step(s, e, code.repaired).Some? <==> !Stops(s, e)
    ensures var open := KeepAlive.Effect(list, KeepAlive.Open(e.sockfd, keepAlive, at), false);
            Apply(code, s, list, Some(Connecting(s, e, keepAlive, at))) ==
            if !Allowed(s, e) || Stops(s, e) then None
            else Some((Session.Step(s, e, code.repaired).value,
                       if Closes(s, e) then KeepAlive.Effect(open, KeepAlive.Shut(e.sockfd, at), false) else open))
  {
    var open, shut := KeepAlive.Open(e.sockfd, keepAlive, at), KeepAlive.Shut(e.sockfd, at);
    KeepAlive.OpenStep(list, open, code.list);
    KeepAlive.OpenStep(KeepAlive.Effect(list, open, false), shut, code.list);
    hide Apply, Closes, Session.Step, Stops, Allowed, KeepAlive.Step, KeepAlive.Effect;
    StepGoesOnIff(s, e, code.repaired);
    ApplyOne(code, s, list, e, open);
    ApplyTwo(code, s, list, e, open, shut);
    assert [open] + [shut] == [open, shut];
  }

  /** What a turn does, by the first byte and what follows it. */
  lemma DoArrives(code: Code, s: Session.State, list: KeepAlive.State, k: nat, b: byte, bytes: seq<byte>, accept: bool,
                  at: int)
    ensures Do(code, s, list, Arrives(k, [b] + bytes, accept, at)) ==
            if b / 16 == 1 then ConnectDeeds(code.rule, s, k, bytes, accept, at)
            else if b / 16 == 8 && k !in s.names then Some(Closing(k, at))
            else TurnDeeds(s, k, Frames.Take(code.rule, [b] + bytes), at)
    ensures Do(code, s, list, Arrives(k, [], accept, at)) == Some(Deeds([], []))
  {
    hide ConnectDeeds, TurnDeeds, Closing, Frames.Take;
    assert ([b] + bytes)[1..] == bytes;
    NothingTaken(code.rule);
    assert TurnDeeds(s, k, Frames.Stop([], Frames.Drained), at) == Some(Deeds([], [])) by {
      DrainedDeeds(s, k, at);
    }
  }

  lemma NothingTaken(rule: Rule)
    ensures Frames.Take(rule, []) == Frames.Stop([], Frames.Drained)
  {
  }

  lemma DrainedDeeds(s: Session.State, k: nat, at: int)
    ensures TurnDeeds(s, k, Frames.Stop([], Frames.Drained), at) == Some(Deeds([], []))
  {
  }

  lemma ApplyTick(code: Code, s: Session.State, list: KeepAlive.State, due: seq<nat>, at: int)
    requires PubSub.Valid(s.engine)
    ensures var t, l := RunFrom(s, CloseAll(due), code.repaired), KeepAlive.Step(list, KeepAlive.Expiry(at), code.list);
            && t.Some?
            && Apply(code, s, list, Some(Deeds(CloseAll(due), [KeepAlive.Expiry(at)]))) ==
               if l.Some? then Some((t.value, l.value)) else None
  {
    hide Session.Step, KeepAlive.Step, PubSub.Valid, CloseAll;
    ClosingsGoOn(s, due, code.repaired);
    var tick := KeepAlive.Expiry(at);
    assert [tick][..0] == [];
    assert KeepAlive.Steps(list, [tick], code.list) == KeepAlive.Step(list, tick, code.list);
  }

  /** Once the server has stopped, it stays stopped. */
  lemma {:induction false} ServePrefix(code: Code, inputs: seq<Input>, n: nat)
    requires n <= |inputs| && Serve(code, inputs[..n]) == None
    ensures Serve(code, inputs) == None
  {
    if n < |inputs| {
      assert inputs[..|inputs| - 1][..n] == inputs[..n];
      ServePrefix(code, inputs[..|inputs| - 1], n);
    } else {
      assert inputs[..n] == inputs;
    }
  }

  // ----- sessions and deadlines

  ghost predicate ClockForward(inputs: seq<Input>) {
    forall i, j :: 0 <= i < j < |inputs| ==> inputs[i].at <= inputs[j].at
  }

  /** The slots with a timer are those that the list keeps watch over, on a run that respects what
      the list's operations ask of their callers. */
  ghost predicate Matches(code: Code, d: Deeds, at: int) {
    && Runs(code, d)
    && KeepAlive.WellFormed(d.clock)
    && (d.clock != [] ==> d.clock[|d.clock| - 1].at <= at)
    && forall k :: k in Sessions(code, d).timed <==> KeepAlive.Watch(d.clock, k).Alive?
  }

  function Then(d: Deeds, more: Deeds): Deeds {
    Deeds(d.session + more.session, d.clock + more.clock)
  }

  lemma SessionSnoc(trace: seq<Session.Event>, e: Session.Event, repaired: bool)
    requires RunFrom(INIT, trace + [e], repaired).Some?
    ensures RunFrom(INIT, trace, repaired).Some?
    ensures var s, t := RunFrom(INIT, trace, repaired).value, RunFrom(INIT, trace + [e], repaired).value;
            && Allowed(s, e)
            && t.timed == if Closes(s, e) then s.timed - {e.sockfd}
                          else if e.Connect? then s.timed + {e.sockfd} else s.timed
  {
    assert (trace + [e])[..|trace|] == trace;
  }

  lemma ClosingMatches(code: Code, d: Deeds, k: nat, at: int)
    requires Matches(code, d, at) && Runs(code, Then(d, Closing(k, at)))
    ensures Matches(code, Then(d, Closing(k, at)), at)
  {
    hide RunFrom, KeepAlive.Run, KeepAlive.WellFormed, KeepAlive.Watch;
    CloseDoes(d.session, k, code.repaired);
    KeepAlive.RunSnoc(d.clock, KeepAlive.Shut(k, at));
  }

  lemma ConnectingMatches(code: Code, d: Deeds, e: Session.Event, keepAlive: nat, at: int)
    requires Matches(code, d, at) && e.Connect?
    requires Runs(code, Then(d, Connecting(Sessions(code, d), e, keepAlive, at)))
    ensures Matches(code, Then(d, Connecting(Sessions(code, d), e, keepAlive, at)), at)
  {
    var open, shut := KeepAlive.Open(e.sockfd, keepAlive, at), KeepAlive.Shut(e.sockfd, at);
    var closes := Closes(Sessions(code, d), e);
    hide RunFrom, KeepAlive.Run, KeepAlive.WellFormed, KeepAlive.Watch, Closes, Allowed;
    if closes {
      assert [open] + [shut] == [open, shut];
      OpenShutMatches(code, d, e, keepAlive, at);
    } else {
      OpenMatches(code, d, e, keepAlive, at);
    }
  }

  lemma OpenMatches(code: Code, d: Deeds, e: Session.Event, keepAlive: nat, at: int)
    requires Matches(code, d, at) && e.Connect? && !Closes(Sessions(code, d), e)
    requires Runs(code, Then(d, Deeds([e], [KeepAlive.Open(e.sockfd, keepAlive, at)])))
    ensures Matches(code, Then(d, Deeds([e], [KeepAlive.Open(e.sockfd, keepAlive, at)])), at)
  {
    hide RunFrom, KeepAlive.Run, KeepAlive.WellFormed, KeepAlive.Watch, Closes;
    SessionSnoc(d.session, e, code.repaired);
    KeepAlive.RunSnoc(d.clock, KeepAlive.Open(e.sockfd, keepAlive, at));
  }

  /** A connection that is shut in the course of its CONNECT. */
  lemma OpenShutMatches(code: Code, d: Deeds, e: Session.Event, keepAlive: nat, at: int)
    requires Matches(code, d, at) && (e.Connect? || e.Close?) && Closes(Sessions(code, d), e)
    requires e.Close? ==> e.sockfd !in Sessions(code, d).timed
    requires Runs(code, Then(d, Deeds([e], [KeepAlive.Open(e.sockfd, keepAlive, at), KeepAlive.Shut(e.sockfd, at)])))
    ensures Matches(code, Then(d, Deeds([e], [KeepAlive.Open(e.sockfd, keepAlive, at), KeepAlive.Shut(e.sockfd, at)])), at)
  {
    hide RunFrom, KeepAlive.Run, KeepAlive.WellFormed, KeepAlive.Watch, Closes;
    SessionSnoc(d.session, e, code.repaired);
    var open, shut := KeepAlive.Open(e.sockfd, keepAlive, at), KeepAlive.Shut(e.sockfd, at);
    KeepAlive.RunSnoc(d.clock, open);
    KeepAlive.RunSnoc(d.clock + [open], shut);
    assert d.clock + [open, shut] == d.clock + [open] + [shut];
  }

  /** PUBLISH and PINGREQ. */
  lemma ActivityMatches(code: Code, d: Deeds, more: Deeds, k: nat, at: int)
    requires Matches(code, d, at) && Runs(code, Then(d, more)) && more.clock == [KeepAlive.Activity(k, at)]
    requires if more.session == [] then k in Sessions(code, d).timed
             else |more.session| == 1 && more.session[0].Publish? && more.session[0].sockfd == k
    ensures Matches(code, Then(d, more), at)
  {
    hide RunFrom, KeepAlive.Run, KeepAlive.WellFormed, KeepAlive.Watch;
    if more.session == [] {
      assert d.session + more.session == d.session;
    } else {
      assert more.session == [more.session[0]];
      SessionSnoc(d.session, more.session[0], code.repaired);
    }
    KeepAlive.RunSnoc(d.clock, KeepAlive.Activity(k, at));
  }

  lemma SubscribeMatches(code: Code, d: Deeds, e: Session.Event, at: int)
    requires Matches(code, d, at) && e.Subscribe? && e.sockfd in Sessions(code, d).names
    requires Runs(code, Then(d, Deeds([e], [])))
    ensures Matches(code, Then(d, Deeds([e], [])), at)
  {
    hide RunFrom, KeepAlive.Run, KeepAlive.WellFormed, KeepAlive.Watch;
    SessionSnoc(d.session, e, code.repaired);
    assert d.clock + [] == d.clock;
  }

  lemma TickMatches(code: Code, d: Deeds, at: int)
    requires Matches(code, d, at) && KeepAlive.KeepsOrHangs(code.list)
    requires var due := TimerSpec.Slots(TimerSpec.Tick(Clock(code, d).timers, at, code.list.unlinks).0);
             Runs(code, Then(d, Deeds(CloseAll(due), [KeepAlive.Expiry(at)])))
    ensures var due := TimerSpec.Slots(TimerSpec.Tick(Clock(code, d).timers, at, code.list.unlinks).0);
            Matches(code, Then(d, Deeds(CloseAll(due), [KeepAlive.Expiry(at)])), at)
  {
    hide RunFrom, KeepAlive.Run, KeepAlive.Step, KeepAlive.WellFormed, KeepAlive.Watch, KeepAlive.Span;
    hide TimerSpec.Tick, CloseAll;
    var due := TimerSpec.Slots(TimerSpec.Tick(Clock(code, d).timers, at, code.list.unlinks).0);
    CloseAllDoes(d.session, due, code.repaired);
    KeepAlive.RunSnoc(d.clock, KeepAlive.Expiry(at));
    KeepAlive.StepSame(Clock(code, d), KeepAlive.Expiry(at), code.list);
    KeepAlive.SameUntilItHangs(d.clock, code.list);
    forall k
      ensures k in due <==> KeepAlive.Watch(d.clock, k).Alive? && KeepAlive.Watch(d.clock, k).Deadline() <= at
    {
      KeepAlive.TickReapsExactlyTheSilent(d.clock, at, k);
    }
  }

  lemma TakeKinds(rule: Rule, s: seq<byte>)
    ensures Frames.Take(rule, s).Go? && Frames.Take(rule, s).item.GotSubscribe? ==> s != [] && s[0] / 16 == 8
  {
  }

  lemma NothingMore(d: Deeds)
    ensures Then(d, Deeds([], [])) == d
  {
  }

  lemma GoMatches(code: Code, d: Deeds, x: Input)
    requires Matches(code, d, x.at) && x.Arrives? && Frames.Take(code.rule, x.bytes).Go?
    requires x.bytes == [] || (x.bytes[0] / 16 != 1 && (x.bytes[0] / 16 != 8 || x.sockfd in Sessions(code, d).names))
    requires Do(code, Sessions(code, d), Clock(code, d), x).Some?
    requires Runs(code, Then(d, Do(code, Sessions(code, d), Clock(code, d), x).value))
    ensures Matches(code, Then(d, Do(code, Sessions(code, d), Clock(code, d), x).value), x.at)
  {
    hide Frames.Take, Matches, Runs, Sessions, Clock, Then, CloseAll, ConnectDeeds;
    TakeKinds(code.rule, x.bytes);
    NothingMore(d);
    var k, at := x.sockfd, x.at;
    match Frames.Take(code.rule, x.bytes).item
    case GotPublish(topic, content) =>
      ActivityMatches(code, d, Deeds([Publish(k, topic, content)], [KeepAlive.Activity(k, at)]), k, at);
    case GotSubscribe(qos, topics) => SubscribeMatches(code, d, Event.Subscribe(k, topics, qos), at);
    case GotPing => ActivityMatches(code, d, Deeds([], [KeepAlive.Activity(k, at)]), k, at);
    case _ =>
  }

  lemma ArrivesMatches(code: Code, d: Deeds, x: Input)
    requires Matches(code, d, x.at) && x.Arrives? && Do(code, Sessions(code, d), Clock(code, d), x).Some?
    requires Runs(code, Then(d, Do(code, Sessions(code, d), Clock(code, d), x).value))
    ensures Matches(code, Then(d, Do(code, Sessions(code, d), Clock(code, d), x).value), x.at)
  {
    var s := Sessions(code, d);
    hide Frames.Take, Matches, Runs, Closing, ConnectDeeds, Sessions, Clock, Then, CloseAll;
    if x.bytes != [] && x.bytes[0] / 16 == 1 {
      ConnectMatches(code, d, x.sockfd, x.bytes[1..], x.accept, x.at);
    } else if x.bytes != [] && x.bytes[0] / 16 == 8 && x.sockfd !in s.names {
      ClosingMatches(code, d, x.sockfd, x.at);
    } else if Frames.Take(code.rule, x.bytes).Go? {
      GoMatches(code, d, x);
    } else if Frames.Take(code.rule, x.bytes).exit == Frames.Drained {
      NothingMore(d);
    } else {
      ClosingMatches(code, d, x.sockfd, x.at);
    }
  }

  lemma DoMatches(code: Code, d: Deeds, x: Input)
    requires Matches(code, d, x.at) && KeepAlive.KeepsOrHangs(code.list)
    requires Do(code, Sessions(code, d), Clock(code, d), x).Some?
    requires Runs(code, Then(d, Do(code, Sessions(code, d), Clock(code, d), x).value))
    ensures Matches(code, Then(d, Do(code, Sessions(code, d), Clock(code, d), x).value), x.at)
  {
    hide Matches, Runs, Closing, TimerSpec.Tick, CloseAll, TimerSpec.Slots, Frames.Take, ConnectDeeds;
    match x
    case Leaves(k, at) => ClosingMatches(code, d, k, at);
    case Ticks(at) => TickMatches(code, d, at);
    case Arrives(_, _, _, _) => ArrivesMatches(code, d, x);
  }

  lemma ConnectMatches(code: Code, d: Deeds, k: nat, bytes: seq<byte>, accept: bool, at: int)
    requires Matches(code, d, at) && ConnectDeeds(code.rule, Sessions(code, d), k, bytes, accept, at).Some?
    requires Runs(code, Then(d, ConnectDeeds(code.rule, Sessions(code, d), k, bytes, accept, at).value))
    ensures Matches(code, Then(d, ConnectDeeds(code.rule, Sessions(code, d), k, bytes, accept, at).value), at)
  {
    hide Frames.SplitFrame, ConnectSteps, Matches, Runs, Connecting, Closing, Sessions, LoginOf;
    match Frames.SplitFrame(bytes)
    case BadLength => ClosingMatches(code, d, k, at);
    case Complete(body, _) =>
      match ConnectSteps(code.rule, body) {
        case NoHead => ClosingMatches(code, d, k, at);
        case NoId(keepAlive) => OpenShutMatches(code, d, Close(k), keepAlive, at);
        case NoRest(keepAlive, id) => ConnectingMatches(code, d, Connect(k, id, Truncated), keepAlive, at);
        case Whole(packet) =>
          ConnectingMatches(code, d, Connect(k, packet.identifier, LoginOf(packet.flags, accept)), packet.keepAlive, at);
      }
  }

  /** On every run of the list as written or repaired, until it hangs, the calls respect what its
      operations ask for, and the connections with a timer are those that it keeps watch over. */
  lemma {:induction false} TimersMatch(code: Code, inputs: seq<Input>, at: int)
    requires KeepAlive.KeepsOrHangs(code.list) && Serve(code, inputs).Some?
    requires ClockForward(inputs) && (inputs != [] ==> inputs[|inputs| - 1].at <= at)
    ensures Matches(code, Serve(code, inputs).value, at)
  {
    if inputs == [] {
      NothingServed(code, at);
    } else {
      hide *;
      var before, x := inputs[..|inputs| - 1], inputs[|inputs| - 1];
      ClockBefore(inputs);
      ServeSnoc(code, before, x);
      TimersMatch(code, before, x.at);
      DoMatches(code, Serve(code, before).value, x);
      Later(code, Serve(code, inputs).value, x.at, at);
    }
  }

  lemma ClockBefore(inputs: seq<Input>)
    requires ClockForward(inputs) && inputs != []
    ensures var before, x := inputs[..|inputs| - 1], inputs[|inputs| - 1];
            inputs == before + [x] && ClockForward(before) && (before != [] ==> before[|before| - 1].at <= x.at)
  {
  }

  lemma NothingServed(code: Code, at: int)
    ensures Serve(code, []) == Some(Deeds([], [])) && Matches(code, Deeds([], []), at)
  {
  }

  lemma Later(code: Code, d: Deeds, at: int, when: int)
    requires Matches(code, d, at) && at <= when
    ensures Matches(code, d, when)
  {
  }

  /** After any run of the list as written or repaired, a tick that comes back ends exactly the sessions
      whose connection has been silent for the span that its CONNECT was granted, and their client ids
      may be used again. */
  lemma TickEndsSilentSessions(code: Code, inputs: seq<Input>, at: int, k: nat)
    requires KeepAlive.KeepsOrHangs(code.list) && Serve(code, inputs + [Ticks(at)]).Some?
    requires ClockForward(inputs + [Ticks(at)])
    ensures Serve(code, inputs).Some?
    ensures var s, t := Sessions(code, Serve(code, inputs).value), Sessions(code, Serve(code, inputs + [Ticks(at)]).value);
            var connection := KeepAlive.Watch(Serve(code, inputs).value.clock, k);
            && (k in s.live ==> connection.Alive?)
            && (k in t.live <==> k in s.live && at < connection.last + KeepAlive.Span(connection.keepAlive))
            && (k in s.live && k in s.names && k !in t.live ==> s.names[k] !in t.ids)
  {
    ServeSnoc(code, inputs, Ticks(at));
    var d := Serve(code, inputs).value;
    var due := TimerSpec.Slots(TimerSpec.Tick(Clock(code, d).timers, at, code.list.unlinks).0);
    var more := Deeds(CloseAll(due), [KeepAlive.Expiry(at)]);
    ForwardBefore(inputs, at);
    TimersMatch(code, inputs, at);
    hide Serve, RunFrom, KeepAlive.Run, KeepAlive.Step, KeepAlive.WellFormed, KeepAlive.Watch, KeepAlive.Span;
    hide TimerSpec.Tick, TimerSpec.Slots, CloseAll;
    LiveTimed(d.session, code.repaired);
    CloseAllDoes(d.session, due, code.repaired);
    KeepAlive.RunSnoc(d.clock, KeepAlive.Expiry(at));
    KeepAlive.StepSame(Clock(code, d), KeepAlive.Expiry(at), code.list);
    KeepAlive.SameUntilItHangs(d.clock, code.list);
    KeepAlive.TickReapsExactlyTheSilent(d.clock, at, k);
  }

  lemma ForwardBefore(inputs: seq<Input>, at: int)
    requires ClockForward(inputs + [Ticks(at)])
    ensures ClockForward(inputs) && (inputs != [] ==> inputs[|inputs| - 1].at <= at)
  {
    var all := inputs + [Ticks(at)];
    assert all[|inputs|] == Ticks(at) && forall i :: 0 <= i < |inputs| ==> all[i] == inputs[i];
  }

  /** A tick of the repaired list always comes back. */
  lemma ServeTick(code: Code, inputs: seq<Input>, at: int)
    requires code.list == KeepAlive.REPAIRED && Serve(code, inputs).Some?
    ensures var d := Serve(code, inputs).value;
            var due := TimerSpec.Slots(TimerSpec.Tick(Clock(code, d).timers, at, false).0);
            Serve(code, inputs + [Ticks(at)]) == Some(Then(d, Deeds(CloseAll(due), [KeepAlive.Expiry(at)])))
  {
    var d := Serve(code, inputs).value;
    var due := TimerSpec.Slots(TimerSpec.Tick(Clock(code, d).timers, at, false).0);
    hide Serve, Sessions, RunFrom, KeepAlive.Run, TimerSpec.Tick, CloseAll, TimerSpec.Slots;
    CloseAllDoes(d.session, due, code.repaired);
    KeepAlive.RunSnoc(d.clock, KeepAlive.Expiry(at));
    ServeOneIff(code, inputs, Ticks(at), Deeds(CloseAll(due), [KeepAlive.Expiry(at)]));
    ServeSnoc(code, inputs, Ticks(at));
  }

  // ----- when the server goes on

  /** What a client's message asks for beyond being well formed: CONNECT comes first and once, with a
      password if it has a user name and its id can be registered, PUBLISH and PINGREQ come after it,
      and SUBSCRIBE may come at any time. */
  predicate InOrder(s: Session.State, k: nat, m: Frames.Sent, accept: bool) {
    match m
    case SendConnect(p) =>
      k !in s.timed && k > 0 && !(p.identifier !in s.ids && |p.identifier| <= 23 && p.flags.username && !p.flags.password)
    case SendSubscribe(_, _, _) => true
    case _ => k in s.timed
  }

  /** The message moves a deadline, and the list hangs on that. */
  predicate Hangs(code: Code, list: KeepAlive.State, k: nat, m: Frames.Sent, at: int) {
    (m.SendPublish? || m.SendPing?) && KeepAlive.Blocks(list, KeepAlive.Activity(k, at), code.list)
  }

  lemma SessionGoesOnIff(trace: seq<Session.Event>, e: Session.Event, repaired: bool)
    requires RunFrom(INIT, trace, repaired).Some? && !e.Unsubscribe?
    ensures var s := RunFrom(INIT, trace, repaired).value;
            RunFrom(INIT, trace + [e], repaired).Some? <==> Allowed(s, e) && !Stops(s, e)
  {
    assert (trace + [e])[..|trace|] == trace;
    StepGoesOnIff(RunFrom(INIT, trace, repaired).value, e, repaired);
  }

  /** The deadline list comes back from everything but activity and a tick. */
  lemma ListGoesOnIff(clock: seq<KeepAlive.Event>, more: seq<KeepAlive.Event>, list: KeepAlive.Server)
    requires KeepAlive.Run(clock, list).Some? && |more| <= 2
    requires forall i :: 0 <= i < |more| ==> more[i].Open? || more[i].Shut? || (|more| == 1 && more[i].Activity?)
    ensures KeepAlive.Run(clock + more, list).Some? <==>
            !(more != [] && more[0].Activity? && KeepAlive.Blocks(KeepAlive.Run(clock, list).value, more[0], list))
  {
    hide KeepAlive.Run, KeepAlive.Effect;
    if |more| == 0 {
      assert clock + more == clock;
    } else if |more| == 1 {
      assert more == [more[0]];
      KeepAlive.RunSnoc(clock, more[0]);
    } else {
      KeepAlive.RunSnoc(clock, more[0]);
      KeepAlive.RunSnoc(clock + [more[0]], more[1]);
      assert clock + more == clock + [more[0]] + [more[1]];
    }
  }

  /** An input whose deeds are these is dealt with if and only if sessions and list go on. */
  lemma ServeOneIff(code: Code, inputs: seq<Input>, x: Input, more: Deeds)
    requires Serve(code, inputs).Some?
    requires Do(code, Sessions(code, Serve(code, inputs).value), Clock(code, Serve(code, inputs).value), x) == Some(more)
    ensures Serve(code, inputs + [x]).Some? <==> Runs(code, Then(Serve(code, inputs).value, more))
  {
    hide Do, Runs, Sessions, Clock;
    assert (inputs + [x])[..|inputs|] == inputs;
  }

  lemma ServeNone(code: Code, inputs: seq<Input>, x: Input)
    requires Serve(code, inputs).Some?
    requires Do(code, Sessions(code, Serve(code, inputs).value), Clock(code, Serve(code, inputs).value), x) == None
    ensures Serve(code, inputs + [x]) == None
  {
    hide Do, Runs, Sessions, Clock;
    assert (inputs + [x])[..|inputs|] == inputs;
  }

  /** The same for the deeds of a client's message: one session event, and what it means to the list. */
  lemma OneEventIff(code: Code, inputs: seq<Input>, x: Input, e: Session.Event, clock: seq<KeepAlive.Event>)
    requires Serve(code, inputs).Some? && !e.Unsubscribe? && |clock| <= 2
    requires forall i :: 0 <= i < |clock| ==> clock[i].Open? || clock[i].Shut? || (|clock| == 1 && clock[i].Activity?)
    requires Do(code, Sessions(code, Serve(code, inputs).value), Clock(code, Serve(code, inputs).value), x) ==
             Some(Deeds([e], clock))
    ensures var s, list := Sessions(code, Serve(code, inputs).value), Clock(code, Serve(code, inputs).value);
            Serve(code, inputs + [x]).Some? <==>
            && Allowed(s, e) && !Stops(s, e)
            && !(clock != [] && clock[0].Activity? && KeepAlive.Blocks(list, clock[0], code.list))
  {
    hide Serve, Do, Allowed, Stops, RunFrom, KeepAlive.Run, KeepAlive.Blocks;
    var d := Serve(code, inputs).value;
    ServeOneIff(code, inputs, x, Deeds([e], clock));
    SessionGoesOnIff(d.session, e, code.repaired);
    ListGoesOnIff(d.clock, clock, code.list);
  }

  lemma {:induction false} NamesOk(fs: seq<Filter>)
    requires FiltersOk(fs)
    ensures [] !in Names(fs)
  {
    if fs != [] {
      assert Text(fs[0].topic);
      NamesOk(fs[1..]);
    }
  }

  lemma FirstByte(m: Frames.Sent, rest: seq<byte>)
    requires Frames.SentOk(m)
    ensures var s := Frames.Encode(m) + rest;
            s != [] && (s[0] / 16 == 8 <==> m.SendSubscribe?) && (s[0] / 16 == 1 <==> m.SendConnect?)
  {
    Arrivals.HeaderIs(m);
    hide Frames.Header, Frames.Body, Frames.SentOk;
    Frames.SplitOne(Frames.Header(m), Frames.Body(m), rest);
  }

  /** What a turn on a well-formed message does. */
  lemma DoIs(code: Code, s: Session.State, list: KeepAlive.State, k: nat, m: Frames.Sent, rest: seq<byte>, accept: bool,
             at: int)
    requires (code.rule == Standard || Frames.SentShort(m)) && Frames.SentOk(m)
    ensures Do(code, s, list, Arrives(k, Frames.Encode(m) + rest, accept, at)) ==
            match m
            case SendConnect(packet) =>
              if k in s.timed then None
              else Some(Connecting(s, Connect(k, packet.identifier, LoginOf(packet.flags, accept)), packet.keepAlive, at))
            case SendPublish(p) => Some(Deeds([Publish(k, p.topic, p.content)], [KeepAlive.Activity(k, at)]))
            case SendSubscribe(_, _, filters) =>
              Some(if k in s.names then Deeds([Event.Subscribe(k, Names(filters), 1)], []) else Closing(k, at))
            case SendPing => if k in s.timed then Some(Deeds([], [KeepAlive.Activity(k, at)])) else None
  {
    hide Connecting, Closing, ConnectDeeds, LoginOf, Names, CloseAll;
    hide Frames.Take, Frames.Encode, Frames.SentOk, Frames.SentShort;
    FirstByte(m, rest);
    Frames.TakeIff(code.rule, m, rest);
    if m.SendConnect? {
      ConnectDeedsIs(code.rule, s, k, Frames.Encode(m) + rest, accept, at);
    }
  }

  /** A CONNECT that is understood. */
  lemma ConnectDeedsIs(rule: Rule, s: Session.State, k: nat, bytes: seq<byte>, accept: bool, at: int)
    requires bytes != [] && bytes[0] / 16 == 1
    requires Frames.Take(rule, bytes).Go? && Frames.Take(rule, bytes).item.GotConnect?
    ensures var packet := Frames.Take(rule, bytes).item.packet;
            ConnectDeeds(rule, s, k, bytes[1..], accept, at) ==
            if k in s.timed then None
            else Some(Connecting(s, Connect(k, packet.identifier, LoginOf(packet.flags, accept)), packet.keepAlive, at))
  {
    hide Frames.SplitFrame, ParseConnect, ConnectSteps, Connecting, LoginOf;
    var split := Frames.SplitFrame(bytes[1..]);
    if split.Complete? {
      StepsIs(rule, split.body);
    }
  }

  lemma ConnectGoesOnIff(code: Code, inputs: seq<Input>, k: nat, m: Frames.Sent, rest: seq<byte>, accept: bool, at: int)
    requires (code.rule == Standard || Frames.SentShort(m)) && Serve(code, inputs).Some?
    requires m.SendConnect? && Frames.SentOk(m)
    ensures Serve(code, inputs + [Arrives(k, Frames.Encode(m) + rest, accept, at)]).Some?
       <==> InOrder(Sessions(code, Serve(code, inputs).value), k, m, accept)
  {
    var d := Serve(code, inputs).value;
    var s, list, x := Sessions(code, d), Clock(code, d), Arrives(k, Frames.Encode(m) + rest, accept, at);
    var e := Connect(k, m.packet.identifier, LoginOf(m.packet.flags, accept));
    assert m.packet.identifier != [];
    hide Serve, Do, Runs, Sessions, Clock, Closes, Frames.Encode, Frames.SentOk, Frames.SentShort;
    DoIs(code, s, list, k, m, rest, accept, at);
    if k in s.timed {
      ServeNone(code, inputs, x);
    } else {
      OneEventIff(code, inputs, x, e, Connecting(s, e, m.packet.keepAlive, at).clock);
    }
  }

  lemma PublishGoesOnIff(code: Code, inputs: seq<Input>, k: nat, m: Frames.Sent, rest: seq<byte>, accept: bool, at: int)
    requires (code.rule == Standard || Frames.SentShort(m)) && Serve(code, inputs).Some?
    requires m.SendPublish? && Frames.SentOk(m)
    ensures Serve(code, inputs + [Arrives(k, Frames.Encode(m) + rest, accept, at)]).Some?
       <==> k in Sessions(code, Serve(code, inputs).value).timed
            && !Hangs(code, Clock(code, Serve(code, inputs).value), k, m, at)
  {
    var d := Serve(code, inputs).value;
    var s, list := Sessions(code, d), Clock(code, d);
    var e := Publish(k, m.publish.topic, m.publish.content);
    assert e.name != [] && e.content != [];
    hide Serve, Do, Runs, Sessions, Clock, Frames.Encode, Frames.SentOk, Frames.SentShort, KeepAlive.Blocks;
    DoIs(code, s, list, k, m, rest, accept, at);
    OneEventIff(code, inputs, Arrives(k, Frames.Encode(m) + rest, accept, at), e, [KeepAlive.Activity(k, at)]);
  }

  lemma SubscribeGoesOn(code: Code, inputs: seq<Input>, k: nat, m: Frames.Sent, rest: seq<byte>, accept: bool, at: int)
    requires (code.rule == Standard || Frames.SentShort(m)) && Serve(code, inputs).Some?
    requires m.SendSubscribe? && Frames.SentOk(m)
    ensures Serve(code, inputs + [Arrives(k, Frames.Encode(m) + rest, accept, at)]).Some?
  {
    var d := Serve(code, inputs).value;
    var s, list := Sessions(code, d), Clock(code, d);
    var x := Arrives(k, Frames.Encode(m) + rest, accept, at);
    NamesOk(m.filters);
    hide Serve, Do, Runs, Sessions, Clock, Names, Frames.Encode, Frames.SentOk, Frames.SentShort, KeepAlive.Blocks;
    DoIs(code, s, list, k, m, rest, accept, at);
    if k in s.names {
      OneEventIff(code, inputs, x, Event.Subscribe(k, Names(m.filters), 1), []);
    } else {
      OneEventIff(code, inputs, x, Close(k), [KeepAlive.Shut(k, at)]);
    }
  }

  lemma PingGoesOnIff(code: Code, inputs: seq<Input>, k: nat, rest: seq<byte>, accept: bool, at: int)
    requires Serve(code, inputs).Some?
    ensures Serve(code, inputs + [Arrives(k, Frames.Encode(Frames.SendPing) + rest, accept, at)]).Some?
       <==> && k in Sessions(code, Serve(code, inputs).value).timed
            && !Hangs(code, Clock(code, Serve(code, inputs).value), k, Frames.SendPing, at)
  {
    var d := Serve(code, inputs).value;
    var s, list, m := Sessions(code, d), Clock(code, d), Frames.SendPing;
    var x := Arrives(k, Frames.Encode(m) + rest, accept, at);
    DoIs(code, s, list, k, m, rest, accept, at);
    hide Do, Serve, RunFrom, Frames.Encode, KeepAlive.Run, KeepAlive.Blocks;
    if k in s.timed {
      ServeOneIff(code, inputs, x, Deeds([], [KeepAlive.Activity(k, at)]));
      assert d.session + [] == d.session;
      ListGoesOnIff(d.clock, [KeepAlive.Activity(k, at)], code.list);
    } else {
      ServeNone(code, inputs, x);
    }
  }

  /** After any run, a well-formed message whose integers the server reads right is dealt with, and the
      server goes on, if and only if the message comes in order and the list does not hang on it. */
  lemma GoesOnIff(code: Code, inputs: seq<Input>, k: nat, m: Frames.Sent, rest: seq<byte>, accept: bool, at: int)
    requires (code.rule == Standard || Frames.SentShort(m)) && Serve(code, inputs).Some? && Frames.SentOk(m)
    ensures Serve(code, inputs + [Arrives(k, Frames.Encode(m) + rest, accept, at)]).Some?
       <==> && InOrder(Sessions(code, Serve(code, inputs).value), k, m, accept)
            && !Hangs(code, Clock(code, Serve(code, inputs).value), k, m, at)
  {
    hide Serve, Runs, Sessions, Clock, LoginOf, Registers, KeepAlive.Blocks;
    hide Frames.Encode, Frames.SentOk, Frames.SentShort;
    match m
    case SendConnect(_) => ConnectGoesOnIff(code, inputs, k, m, rest, accept, at);
    case SendPublish(_) => PublishGoesOnIff(code, inputs, k, m, rest, accept, at);
    case SendSubscribe(_, _, _) => SubscribeGoesOn(code, inputs, k, m, rest, accept, at);
    case SendPing => PingGoesOnIff(code, inputs, k, rest, accept, at);
  }
}
