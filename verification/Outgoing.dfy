/** Messages as the bytes that are sent for them, and the messages that can be sent. */
module Outgoing {
  import opened RemainingLength
  import opened Strings
  import opened Codec
  import opened PubSub
  import Frames

  /** A message that the server can send: its strings end where they should, and it fits a frame. */
  predicate Sendable(m: Msg) {
    Text(m.topic) && Text(m.content) && |m.topic| <= 65535 && |m.topic| + 2 + |m.content| <= MAX_LENGTH
  }

  ghost predicate AllSendable(ms: seq<Msg>) {
    forall m :: m in ms ==> Sendable(m)
  }

  /** What goes into a socket for messages that are handed to it. */
  function Wire(rule: Rule, ms: seq<Msg>): seq<byte> {
    if ms == [] then [] else Frames.PublishFrame(rule, ms[0].topic, ms[0].content) + Wire(rule, ms[1..])
  }

  function Received(ms: seq<Msg>): (items: seq<Frames.Item>)
    ensures |items| == |ms|
  {
    if ms == [] then [] else [Frames.GotPublish(ms[0].topic, ms[0].content)] + Received(ms[1..])
  }

  /** What the server sends is read back, message by message and to the last byte, exactly when every
      topic fits what the two ends make of its length. */
  lemma {:induction false} WireIff(writer: Rule, reader: Rule, ms: seq<Msg>)
    requires AllSendable(ms)
    ensures Frames.ReadStream(reader, Wire(writer, ms)) == (Received(ms), Frames.Drained)
       <==> forall m :: m in ms ==> Frames.Fits(writer, reader, m.topic)
  {
    if ms != [] {
      hide Frames.Take, Frames.PublishFrame, Frames.Fits, Sendable;
      var m, rest := ms[0], Wire(writer, ms[1..]);
      assert Sendable(m);
      SendableIs(m);
      WireIff(writer, reader, ms[1..]);
      Frames.OwnFrameIff(writer, reader, m.topic, m.content, rest);
      Frames.ReadStreamStep(reader, Wire(writer, ms));
      var turn := Frames.Take(reader, Wire(writer, ms));
      if turn.Go? {
        var items := Frames.ReadStream(reader, rest).0;
        assert ([turn.item] + items)[0] == turn.item && ([turn.item] + items)[1..] == items;
        assert Received(ms)[0] == Frames.GotPublish(m.topic, m.content) && Received(ms)[1..] == Received(ms[1..]);
      }
      assert (forall x :: x in ms ==> Frames.Fits(writer, reader, x.topic)) <==>
             Frames.Fits(writer, reader, m.topic) && forall x :: x in ms[1..] ==> Frames.Fits(writer, reader, x.topic);
    }
  }

  lemma SendableIs(m: Msg)
    ensures Sendable(m) ==>
              Text(m.topic) && Text(m.content) && |m.topic| <= 65535 && |m.topic| + 2 + |m.content| <= MAX_LENGTH
  {
  }

  /** Whatever bytes come in: a message that the server accepts is one that it can send. */
  lemma AcceptedSendable(rule: Rule, s: seq<byte>)
    ensures var turn := Frames.Take(rule, s);
            turn.Go? && turn.item.GotPublish? ==> Sendable(Msg(turn.item.topic, turn.item.content))
  {
    if s != [] && s[0] / 16 == 3 {
      hide Frames.SplitFrame, Sendable, ParsePublish;
      BodyFits(s[1..]);
      var split := Frames.SplitFrame(s[1..]);
      if split.Complete? {
        BodySendable(rule, s[0] / 2 % 4, split.body);
      }
    }
  }

  lemma BodySendable(rule: Rule, qos: nat, body: seq<byte>)
    requires |body| <= MAX_LENGTH
    ensures var r := ParsePublish(rule, qos, body); r.Message? ==> Sendable(Msg(r.topic, r.content))
  {
    hide CStr;
  }

  /** A turn yields only strings that are there. */
  lemma AcceptedStrings(rule: Rule, s: seq<byte>)
    ensures var turn := Frames.Take(rule, s);
            && (turn.Go? && turn.item.GotPublish? ==>
                  turn.item.topic != [] && turn.item.content != [] && |turn.item.topic| <= 65535)
            && (turn.Go? && turn.item.GotSubscribe? ==> [] !in turn.item.topics)
  {
    AcceptedSendable(rule, s);
    if s != [] && s[0] / 16 == 8 {
      hide ReadStr, CStr, Frames.SplitFrame, ParseTopics, Sendable;
      var split := Frames.SplitFrame(s[1..]);
      if split.Complete? {
        TopicsThere(rule, split.body, 0);
        TopicsThere(rule, split.body, 2);
      }
    }
  }

  lemma {:induction false} TopicsThere(rule: Rule, s: seq<byte>, pos: nat)
    ensures ParseTopics(rule, s, pos).Topics? ==> [] !in ParseTopics(rule, s, pos).topics
    decreases |s| - pos
  {
    if pos < |s| && ReadStr(rule, s, pos).Ok? {
      TopicsThere(rule, s, SkipByte(s, ReadStr(rule, s, pos).pos));
    }
  }

  lemma BodyFits(s: seq<byte>)
    ensures Frames.SplitFrame(s).Complete? ==> |Frames.SplitFrame(s).body| <= MAX_LENGTH
  {
    Shortest(s);
  }
}
