/** From the bytes that clients send to the bytes that clients receive: the packet loop's turns, the
    sessions and the frames that are sent, taken together. */
module Delivery {
  import opened Strings
  import opened Codec
  import opened PubSub
  import opened SubscriberSpec
  import opened Outgoing
  import opened Server
  import Frames
  import KeepAlive
  import Session

  /** What the bytes that come in can make happen: only messages that can be sent are published, and
      nobody unsubscribes, because the handler of UNSUBSCRIBE fails before it gets that far. */
  ghost predicate FromBytes(e: Session.Event) {
    (e.Publish? ==> Sendable(Msg(e.name, e.content))) && !e.Unsubscribe?
  }

  ghost predicate AllFromBytes(trace: seq<Session.Event>) {
    forall e :: e in trace ==> FromBytes(e)
  }

  lemma DoFromBytes(code: Code, s: Session.State, list: KeepAlive.State, x: Input)
    ensures Do(code, s, list, x).Some? ==> AllFromBytes(Do(code, s, list, x).value.session)
  {
    hide Frames.Take, Sendable, ConnectDeeds;
    if x.Arrives? {
      AcceptedSendable(code.rule, x.bytes);
      ConnectEvents(code.rule, s, x.sockfd, if x.bytes == [] then [] else x.bytes[1..], x.accept, x.at);
    }
  }

  lemma ConnectEvents(rule: Rule, s: Session.State, sockfd: nat, bytes: seq<byte>, accept: bool, at: int)
    ensures var r := ConnectDeeds(rule, s, sockfd, bytes, accept, at);
            r.Some? ==> forall e :: e in r.value.session ==> e.Connect? || e.Close?
  {
    hide Frames.SplitFrame, ConnectSteps, LoginOf, Session.Closes;
  }

  lemma {:induction false} ServeFromBytes(code: Code, inputs: seq<Input>)
    requires Serve(code, inputs).Some?
    ensures AllFromBytes(Serve(code, inputs).value.session)
  {
    if inputs != [] {
      hide Serve, Do, Runs, Sessions, Clock, Then, AllFromBytes;
      var before, x := inputs[..|inputs| - 1], inputs[|inputs| - 1];
      assert inputs == before + [x];
      ServeSnoc(code, before, x);
      ServeFromBytes(code, before);
      var d := Serve(code, before).value;
      DoFromBytes(code, Sessions(code, d), Clock(code, d), x);
      BothFromBytes(d, Do(code, Sessions(code, d), Clock(code, d), x).value);
    } else {
      NothingServed(code, 0);
      assert AllFromBytes([]);
    }
  }

  lemma BothFromBytes(d: Deeds, more: Deeds)
    requires AllFromBytes(d.session) && AllFromBytes(more.session)
    ensures AllFromBytes(Then(d, more).session)
  {
  }

  lemma {:induction false} DueSendable(trace: seq<Session.Event>, repaired: bool, c: Id)
    requires AllFromBytes(trace)
    ensures AllSendable(Session.Due(trace, repaired, c))
  {
    if trace != [] {
      hide Sendable, IntendedRun, Session.Asked;
      var before, e := trace[..|trace| - 1], trace[|trace| - 1];
      DueSendable(before, repaired, c);
      assert FromBytes(e);
      if e.Publish? {
        CopiesCount(IntendedRun(Session.Asked(before, repaired, e.name)), c, Msg(e.name, e.content));
      }
    }
  }

  // ----- the whole way, over all runs

  /** The bytes are exactly these messages, to the last byte. */
  predicate ReadsAs(reader: Rule, bytes: seq<byte>, items: seq<Frames.Item>) {
    Frames.ReadStream(reader, bytes) == (items, Frames.Drained)
  }

  /** Whatever bytes the clients send, on every run of the server, as written or repaired: each client
      is sent, or will be sent, exactly what the subscriptions it asked for owe it. */
  lemma ServedAsOwed(code: Code, inputs: seq<Input>, c: Id)
    requires Serve(code, inputs).Some?
    ensures var engine := StateAfter(code, inputs).engine;
            SentOf(engine.out, c) + QueueOf(engine, c) ==
            Session.Due(Serve(code, inputs).value.session, code.repaired, c)
  {
    hide Serve, Session.Due, SentOf, FromBytes;
    var trace := Serve(code, inputs).value.session;
    ServeFromBytes(code, inputs);
    assert forall e :: e in trace ==> FromBytes(e) && !e.Unsubscribe? by {
      NoneUnsubscribes(trace);
    }
    Session.SessionDelivery(trace, code.repaired, c);
  }

  lemma NoneUnsubscribes(trace: seq<Session.Event>)
    requires AllFromBytes(trace)
    ensures forall e :: e in trace ==> FromBytes(e) && !e.Unsubscribe?
  {
  }

  /** What a client has been sent reads back as the messages that were handed out for it exactly when
      their topics fit what the two ends make of a length. */
  lemma HandedOutIff(code: Code, reader: Rule, inputs: seq<Input>, c: Id)
    requires Serve(code, inputs).Some?
    ensures var ms := SentOf(StateAfter(code, inputs).engine.out, c);
            && ms <= Session.Due(Serve(code, inputs).value.session, code.repaired, c)
            && (ReadsAs(reader, Wire(code.rule, ms), Received(ms))
                <==> forall m :: m in ms ==> Frames.Fits(code.rule, reader, m.topic))
  {
    hide Serve, Wire, Received, Session.Due, SentOf, Sendable;
    var trace := Serve(code, inputs).value.session;
    var ms := SentOf(StateAfter(code, inputs).engine.out, c);
    var owed := Session.Due(trace, code.repaired, c);
    ServeFromBytes(code, inputs);
    DueSendable(trace, code.repaired, c);
    ServedAsOwed(code, inputs, c);
    assert forall m :: m in ms ==> m in owed;
    WireIff(code.rule, reader, ms);
  }

  /** Whatever bytes the clients send, on every run of the repaired sessions: what a connected client
      has been sent reads back, by the standard, as exactly the messages that its subscriptions owe
      it, if and only if the length fields are the standard's or no topic has 16 bytes or more. */
  lemma ConnectedReadsAll(code: Code, inputs: seq<Input>, k: nat)
    requires code.repaired && Serve(code, inputs).Some?
    ensures var s, trace := StateAfter(code, inputs), Serve(code, inputs).value.session;
            k in s.live ==>
              && k in s.names
              && var owed := Session.Due(trace, true, s.names[k]);
              && SentOf(s.engine.out, s.names[k]) == owed
              && (ReadsAs(Standard, Wire(code.rule, owed), Received(owed))
                  <==> code.rule == Standard || forall m :: m in owed ==> |m.topic| < 16)
  {
    hide Serve, Wire, Received, Session.Due, SentOf;
    var s, trace := StateAfter(code, inputs), Serve(code, inputs).value.session;
    if k in s.live {
      Session.SessionsConsistent(trace, k, k);
      ServedAsOwed(code, inputs, s.names[k]);
      assert SentOf(s.engine.out, s.names[k]) + [] == SentOf(s.engine.out, s.names[k]);
      HandedOutIff(code, Standard, inputs, s.names[k]);
    }
  }

  /** A publication as it goes over the wire to each connected client: one frame for each subscription
      that the client means to have to the topic, and nothing else. */
  lemma PublicationArrivesIff(code: Code, reader: Rule, inputs: seq<Input>, x: Input, k: nat)
    requires code.repaired && Serve(code, inputs + [x]).Some?
    requires x.Arrives? && Frames.Take(code.rule, x.bytes).Go? && Frames.Take(code.rule, x.bytes).item.GotPublish?
    ensures Serve(code, inputs).Some?
    ensures var s, t := StateAfter(code, inputs), StateAfter(code, inputs + [x]);
            var item := Frames.Take(code.rule, x.bytes).item;
            && s.engine.out <= t.engine.out
            && (k in t.live ==>
                  && k in t.names
                  && var ops := Session.Asked(Serve(code, inputs).value.session, true, item.topic);
                  var n := Count(IntendedRun(ops), t.names[k]);
                  var bytes := Wire(code.rule, SlotMsgs(t.engine.out[|s.engine.out|..], k));
                  ReadsAs(reader, bytes, seq(n, i => item)) <==> n == 0 || Frames.Fits(code.rule, reader, item.topic))
  {
    hide Frames.Take, Frames.Fits, Wire, Received, Sendable, Count;
    hide Session.Asked, Session.RunFrom, SlotMsgs;
    var item := Frames.Take(code.rule, x.bytes).item;
    var e := Session.Publish(x.sockfd, item.topic, item.content);
    ServePublish(code, inputs, x);
    var trace := Serve(code, inputs).value.session;
    Session.PublicationReaches(trace, e, k);
    var t := StateAfter(code, inputs + [x]);
    if k in t.live {
      var nodes := IntendedRun(Session.Asked(trace, true, item.topic));
      var m := Msg(item.topic, item.content);
      var ms := Copies(nodes, t.names[k], m);
      CopiesCount(nodes, t.names[k], m);
      AcceptedSendable(code.rule, x.bytes);
      WireIff(code.rule, reader, ms);
      ReceivedSame(ms, m);
      assert ms != [] ==> ms[0] == m;
    }
  }

  lemma {:induction false} ReceivedSame(ms: seq<Msg>, m: Msg)
    requires forall i :: 0 <= i < |ms| ==> ms[i] == m
    ensures Received(ms) == seq(|ms|, i => Frames.GotPublish(m.topic, m.content))
  {
    if ms != [] {
      ReceivedSame(ms[1..], m);
    }
  }

  lemma ServePublish(code: Code, inputs: seq<Input>, x: Input)
    requires Serve(code, inputs + [x]).Some?
    requires x.Arrives? && Frames.Take(code.rule, x.bytes).Go? && Frames.Take(code.rule, x.bytes).item.GotPublish?
    ensures var item := Frames.Take(code.rule, x.bytes).item;
            && Serve(code, inputs).Some?
            && Serve(code, inputs + [x]).value.session ==
               Serve(code, inputs).value.session + [Session.Publish(x.sockfd, item.topic, item.content)]
  {
    hide Runs, Sessions, Clock, Serve, Frames.Take;
    ServeSnoc(code, inputs, x);
    HeaderOfPublish(code.rule, x.bytes);
  }

  lemma HeaderOfPublish(rule: Rule, s: seq<byte>)
    ensures Frames.Take(rule, s).Go? && Frames.Take(rule, s).item.GotPublish? ==> s != [] && s[0] / 16 == 3
  {
  }

  /** From one client to another, by the standard at both ends: a PUBLISH with any flags reaches every
      connected client once for each subscription that it means to have, and is understood, if and
      only if the server's length fields are the standard's or the topic has fewer than 16 bytes. */
  lemma EndToEnd(code: Code, inputs: seq<Input>, p: PublishPacket, sockfd: nat, rest: seq<byte>, accept: bool, at: int,
                 k: nat)
    requires Frames.SentOk(Frames.SendPublish(p)) && (code.rule == Standard || |p.topic| < 256)
    requires var x := Arrives(sockfd, Frames.Encode(Frames.SendPublish(p)) + rest, accept, at);
             code.repaired && Serve(code, inputs + [x]).Some?
    ensures var x := Arrives(sockfd, Frames.Encode(Frames.SendPublish(p)) + rest, accept, at);
            && Serve(code, inputs).Some?
            && var s, t := StateAfter(code, inputs), StateAfter(code, inputs + [x]);
            && s.engine.out <= t.engine.out
            && (k in t.live ==>
                  && k in t.names
                  && var ops := Session.Asked(Serve(code, inputs).value.session, true, p.topic);
                  var n := Count(IntendedRun(ops), t.names[k]);
                  var bytes := Wire(code.rule, SlotMsgs(t.engine.out[|s.engine.out|..], k));
                  ReadsAs(Standard, bytes, seq(n, i => Frames.GotPublish(p.topic, p.content)))
                  <==> n == 0 || code.rule == Standard || |p.topic| < 16)
  {
    hide Frames.Take, Wire, Count, Session.Asked, Serve, SlotMsgs, Frames.SentOk, Frames.Encode;
    var m := Frames.SendPublish(p);
    var x := Arrives(sockfd, Frames.Encode(m) + rest, accept, at);
    Frames.TakeIff(code.rule, m, rest);
    PublicationArrivesIff(code, Standard, inputs, x, k);
  }
}
