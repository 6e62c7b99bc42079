/** A client's queue of unsent messages as linked nodes, and the loop that sends it as bytes
    (src/mqtt_message.c, src/mqtt_handler.c). */
module MessageQueue {
  import opened Strings
  import opened Codec
  import opened PubSub
  import opened Outgoing
  import Frames
  import Packet

  /** `struct msg_node`. */
  class MsgNode {
    const msg: Msg
    var next: MsgNode?

    constructor (msg: Msg)
      ensures this.msg == msg && next == null
    {
      this.msg, this.next := msg, null;
    }
  }

  ghost function Msgs(ns: seq<MsgNode>): (ms: seq<Msg>)
    ensures |ms| == |ns|
    ensures forall i {:trigger ms[i]} :: 0 <= i < |ns| ==> ms[i] == ns[i].msg
  {
    seq(|ns|, i requires 0 <= i < |ns| => ns[i].msg)
  }

  /** `head_nsend` and `tail_nsend` of `struct client_in_hash`. */
  class MessageQueue {
    var head: MsgNode?
    var tail: MsgNode?
    ghost var nodes: seq<MsgNode>

    ghost predicate Valid()
      reads this, nodes
    {
      && (if nodes == [] then head == null && tail == null else head == nodes[0] && tail == nodes[|nodes| - 1])
      && (forall i {:trigger nodes[i].next} :: 0 <= i < |nodes| ==>
            nodes[i].next == if i + 1 < |nodes| then nodes[i + 1] else null)
      && (forall i, j :: 0 <= i < j < |nodes| ==> nodes[i] != nodes[j])
    }

    constructor ()
      ensures Valid() && Msgs(nodes) == []
    {
      head, tail, nodes := null, null, [];
    }

    /** The queue's part of `mqtt_distribute_msg`. */
    method Enqueue(msg: Msg)
      requires Valid()
      modifies this, nodes
      ensures Valid() && Msgs(nodes) == old(Msgs(nodes)) + [msg]
      ensures forall n :: n in nodes ==> n in old(nodes) || fresh(n)
    {
      var node := new MsgNode(msg);
      if head == null {
        head := node;
      } else {
        tail.next := node;
      }
      tail := node;
      nodes := nodes + [node];
    }

    /** The loop of `mqtt_send_client_msg`: the frames of all messages, in order, and an empty queue. */
    method SendAll(rule: Rule) returns (bytes: seq<byte>)
      requires Valid() && AllSendable(Msgs(nodes))
      modifies this
      ensures Valid() && Msgs(nodes) == [] && bytes == Wire(rule, old(Msgs(nodes)))
    {
      hide Wire, Sendable, Frames.PublishFrame;
      bytes := [];
      var n := head;
      ghost var i := 0;
      ghost var ms := Msgs(nodes);
      assert ms[0..] == ms && [] + Wire(rule, ms) == Wire(rule, ms);
      while n != null
        invariant 0 <= i <= |nodes| && n == (if i < |nodes| then nodes[i] else null)
        invariant bytes + Wire(rule, ms[i..]) == Wire(rule, ms)
        decreases |nodes| - i
        modifies {}
      {
        assert Sendable(ms[i]);
        WireStep(rule, ms, i, bytes);
        var frame := SendOne(rule, n.msg);
        bytes := bytes + frame;
        n := n.next;
        i := i + 1;
      }
      assert ms[i..] == [];
      WireStep(rule, ms, i, bytes);
      head, tail, nodes := null, null, [];
    }
  }

  /** The body of the loop. */
  method SendOne(rule: Rule, msg: Msg) returns (frame: seq<byte>)
    requires Sendable(msg)
    ensures frame == Frames.PublishFrame(rule, msg.topic, msg.content)
  {
    var packet := new Packet.Packet(0x30);
    assert Frames.FixedHeader(0x30, 0, 0, 0) == 0x30;
    hide Frames.FixedHeader, Frames.Frame;
    var ok := packet.BuildPublish(rule, 0, msg.topic, msg.content);
    return packet.payload[..];
  }

  lemma WireStep(rule: Rule, ms: seq<Msg>, i: nat, bytes: seq<byte>)
    requires i <= |ms|
    ensures i < |ms| ==>
              bytes + Wire(rule, ms[i..]) ==
              bytes + Frames.PublishFrame(rule, ms[i].topic, ms[i].content) + Wire(rule, ms[i + 1..])
    ensures i == |ms| ==> bytes + Wire(rule, ms[i..]) == bytes
  {
    if i < |ms| {
      assert ms[i..][1..] == ms[i + 1..];
    }
  }
}
