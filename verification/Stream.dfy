/** A connection's receiving loop and sending loop (src/server.c, src/net.c). */
module Stream {
  import opened Strings
  import opened RemainingLength
  import opened Codec
  import opened Frames
  import opened Arrivals
  import opened Packet

  /** A socket, by the bytes that have arrived and have not been read. */
  class Socket {
    var data: seq<byte>

    constructor (data: seq<byte>)
      ensures this.data == data
    {
      this.data := data;
    }

    /** `recv`: some of what is there, but no more than was asked for. */
    method Recv(count: nat) returns (chunk: seq<byte>)
      modifies this
      ensures |chunk| <= count && old(data) == chunk + data
      ensures count > 0 && old(data) != [] ==> chunk != []
    {
      if count == 0 || data == [] {
        return [];
      }
      var k :| 1 <= k <= |data| && k <= count by {
        assert 1 <= |data| && 1 <= count;
      }
      chunk := data[..k];
      data := data[k..];
    }

    /** More bytes come in. */
    method Arrive(bytes: seq<byte>)
      modifies this
      ensures data == old(data) + bytes
    {
      data := data + bytes;
    }
  }

  /** `mqtt_remain_length`. */
  method ReadLength(socket: Socket) returns (d: Decoded)
    modifies socket
    ensures d == DecodeLen(old(socket.data))
    ensures d.Length? ==> socket.data == old(socket.data)[d.used..]
  {
    var multiplier, value, byteNum := 1, 0, 0;
    ghost var s := socket.data;
    while true
      invariant 0 <= byteNum <= 4 && byteNum <= |s| && multiplier == Place(byteNum)
      invariant socket.data == s[byteNum..]
      invariant 0 <= value && DecodeLen(s) == DecodeFrom(s, byteNum, value, multiplier)
      decreases 4 - byteNum
    {
      var chunk := socket.Recv(1);
      if |chunk| != 1 {
        return Short;
      }
      var digit := chunk[0];
      assert digit == s[byteNum] && socket.data == s[byteNum + 1..];
      if digit % 128 * multiplier > INT_MAX || multiplier * 128 > INT_MAX {
        return Overflow;
      }
      value := value + digit % 128 * multiplier;
      multiplier := multiplier * 128;
      byteNum := byteNum + 1;
      if !(digit >= 128 && byteNum <= 4) {
        return Length(value, byteNum);
      }
    }
  }

  /** `mqtt_read_payload`: reads in as many pieces as it takes. It asserts that nothing is missing. */
  method ReadPayload(socket: Socket, packet: Packet, n: nat) returns (complete: bool)
    modifies socket, packet
    ensures complete <==> n <= |old(socket.data)|
    ensures complete ==>
              && packet.pos == 0 && packet.Readable() && fresh(packet.payload) && packet.payload.Length == n
              && packet.Body() == old(socket.data)[..n] && socket.data == old(socket.data)[n..]
    ensures packet.command == old(packet.command)
  {
    packet.remainLength, packet.pos := n, 0;
    packet.payload := new byte[n](_ => 0);
    ghost var s := socket.data;
    var recvLen, left := 0, n;
    var chunk := socket.Recv(left);
    while chunk != []
      invariant recvLen + left == n && |chunk| <= left
      invariant fresh(packet.payload) && packet.payload.Length == n
      invariant s == packet.payload[..recvLen] + chunk + socket.data
      invariant chunk == [] ==> left == 0 || socket.data == []
      invariant packet.command == old(packet.command) && packet.remainLength == n && packet.pos == 0
      decreases left
      modifies socket, packet.payload
    {
      Store(packet.payload, recvLen, chunk);
      recvLen := recvLen + |chunk|;
      left := left - |chunk|;
      ghost var had := socket.data;
      ghost var done := packet.payload[..recvLen];
      chunk := socket.Recv(left);
      assert done + had == done + chunk + socket.data;
    }
    complete := left == 0;
    if complete {
      assert packet.payload[..n] == s[..n] && socket.data == s[n..];
    }
  }

  method Store(buffer: array<byte>, at: nat, chunk: seq<byte>)
    requires at + |chunk| <= buffer.Length
    modifies buffer
    ensures buffer[..at + |chunk|] == old(buffer[..at]) + chunk
  {
    forall i | 0 <= i < |chunk| {
      buffer[at + i] := chunk[i];
    }
  }

  /** Length field and payload of a packet whose first byte has been read. */
  method ReadFrame(socket: Socket, packet: Packet) returns (split: Split)
    modifies socket, packet
    ensures split == SplitFrame(old(socket.data))
    ensures split.Complete? ==>
              && packet.pos == 0 && packet.Readable() && packet.Body() == split.body
              && fresh(packet.payload) && socket.data == split.rest
    ensures packet.command == old(packet.command)
  {
    ghost var s := socket.data;
    var d := ReadLength(socket);
    match d {
      case Short => return BadLength;
      case Overflow => return LengthOverflow;
      case Length(n, used) =>
        var complete := ReadPayload(socket, packet, n);
        if !complete {
          return Missing;
        }
        ghost var body := packet.Body();
        assert body == s[used..][..n] == s[used..used + n] && s[used..][n..] == s[used + n..];
        split := Complete(packet.payload[..], socket.data);
        assert packet.payload[..] == body;
    }
  }

  /** What a handler tells the packet loop. Last: it did its work, and the client has left. */
  datatype Handled = Got(item: Item) | Last(item: Item) | Ended(exit: Exit)

  /** The handler did what the turn says, and left the bytes that the turn leaves. */
  ghost predicate Follows(h: Handled, turn: Turn, left: seq<byte>) {
    match turn
    case Go(item, rest) => h == Got(item) && left == rest
    case Stop(items, exit) =>
      if items == [] then h == Ended(exit) else items == [items[0]] && h == Last(items[0]) && exit == Shut
  }

  /** The reads of a CONNECT whose first byte has been read. */
  method ReadConnect(rule: Rule, socket: Socket, packet: Packet) returns (split: Split, r: ConnectRead)
    modifies socket, packet
    ensures split == SplitFrame(old(socket.data))
    ensures split.Complete? ==> r == ConnectSteps(rule, split.body) && socket.data == split.rest
  {
    split := ReadFrame(socket, packet);
    r := NoHead;
    if split.Complete? {
      r := packet.ReadSteps(rule);
    }
  }

  method HandleConnect(rule: Rule, socket: Socket, packet: Packet) returns (h: Handled)
    modifies socket, packet
    ensures Follows(h, TakeConnect(rule, old(socket.data)), socket.data)
  {
    var split, r := ReadConnect(rule, socket, packet);
    match split {
      case BadLength => return Ended(Shut);
      case Complete(_, _) =>
        StepsIs(rule, split.body);
        return if r.Whole? then Got(GotConnect(r.packet)) else Ended(Shut);
      case _ => return Ended(Crashed);
    }
  }

  method HandlePublish(rule: Rule, socket: Socket, packet: Packet) returns (h: Handled)
    modifies socket, packet
    ensures Follows(h, TakePublish(rule, old(packet.command), old(socket.data)), socket.data)
  {
    var qos := Qos(packet.command);
    if qos == 3 {
      return Ended(Shut);
    }
    var split := ReadFrame(socket, packet);
    match split {
      case BadLength => return Ended(Shut);
      case Complete(_, _) =>
        var r := packet.ReadPublish(rule, qos);
        match r {
          case Message(topic, content) => return Got(GotPublish(topic, content));
          case Malformed => return Ended(Shut);
          case Aborted => return Ended(Crashed);
        }
      case _ => return Ended(Crashed);
    }
  }

  method HandleSubscribe(rule: Rule, socket: Socket, packet: Packet) returns (h: Handled)
    modifies socket, packet
    ensures Follows(h, TakeSubscribe(rule, old(packet.command), old(socket.data)), socket.data)
  {
    var qos := Qos(packet.command);
    if qos == 3 {
      return Ended(Shut);
    }
    var split := ReadFrame(socket, packet);
    match split {
      case BadLength => return Ended(Shut);
      case Complete(_, _) =>
        if qos == 1 {
          var ok, id := packet.PayloadBytes(2);
          if !ok {
            return Ended(Shut);
          }
        }
        var r := packet.ReadTopics(rule);
        match r {
          case Topics(topics) => return Got(GotSubscribe(qos, topics));
          case _ => return Ended(Crashed);
        }
      case _ => return Ended(Crashed);
    }
  }

  /** PINGREQ and DISCONNECT. */
  method HandleBare(item: Item, socket: Socket) returns (h: Handled)
    modifies socket
    ensures Follows(h, TakeBare(item, old(socket.data)), socket.data)
  {
    var d := ReadLength(socket);
    match d {
      case Short => return Ended(Shut);
      case Overflow => return Ended(Crashed);
      case Length(_, _) => return Got(item);
    }
  }

  method HandleUnsubscribe(socket: Socket, packet: Packet) returns (h: Handled)
    modifies socket
    ensures Follows(h, TakeUnsubscribe(packet.command, old(socket.data)), socket.data)
  {
    var qos := Qos(packet.command);
    if qos == 3 {
      return Ended(Shut);
    }
    var d := ReadLength(socket);
    match d {
      case Short => return Ended(Shut);
      case Overflow => return Ended(Crashed);
      case Length(n, _) =>
        return if n > 0 then Ended(Crashed) else if qos != 0 then Ended(Shut) else Got(GotUnsubscribe);
    }
  }

  /** The switch in `conn_handler`, once the first byte has been read. */
  method Dispatch(rule: Rule, socket: Socket, packet: Packet) returns (h: Handled)
    modifies socket, packet
    ensures Follows(h, Take(rule, [old(packet.command)] + old(socket.data)), socket.data)
    ensures h != Ended(Drained)
  {
    hide TakeConnect, TakePublish, TakeSubscribe, TakeUnsubscribe, TakeBare;
    ghost var s := [packet.command] + socket.data;
    assert s[0] == packet.command && s[1..] == socket.data;
    StopsLoud(rule, s);
    match packet.command / 16 {
      case 1 => h := HandleConnect(rule, socket, packet);
      case 3 => h := HandlePublish(rule, socket, packet);
      case 8 => h := HandleSubscribe(rule, socket, packet);
      case 10 => h := HandleUnsubscribe(socket, packet);
      case 12 => h := HandleBare(GotPing, socket);
      case 14 =>
        h := HandleBare(GotDisconnect, socket);
        if h.Got? {
          h := Last(h.item);
        }
      case _ => h := Got(GotUnknown(packet.command));
    }
  }

  /** `conn_handler`: however the bytes are cut into pieces, it takes from them the items of the
      stream. */
  method ConnHandler(rule: Rule, socket: Socket) returns (items: seq<Item>, exit: Exit)
    modifies socket
    ensures (items, exit) == ReadStream(rule, old(socket.data))
    ensures exit == Drained ==> socket.data == []
  {
    hide Take, ReadStream;
    items := [];
    ghost var s := socket.data;
    while true
      invariant ReadStream(rule, s).0 == items + ReadStream(rule, socket.data).0
      invariant ReadStream(rule, s).1 == ReadStream(rule, socket.data).1
      decreases |socket.data|
    {
      ghost var before := socket.data;
      TakeShortens(rule, before);
      ReadStreamStep(rule, before);
      assert items + [] == items;
      var chunk := socket.Recv(1);
      if |chunk| != 1 {
        NothingRead(rule);
        return items, Drained;
      }
      assert before == [chunk[0]] + socket.data;
      var packet := new Packet(chunk[0]);
      var h := Dispatch(rule, socket, packet);
      match h {
        case Got(item) => items := items + [item];
        case Last(item) => return items + [item], Shut;
        case Ended(exit) => return items, exit;
      }
    }
  }

  /** The main loop starts `conn_handler` for a connection each time bytes have come in. */
  method ServeArrivals(rule: Rule, socket: Socket, arrivals: seq<seq<byte>>) returns (items: seq<Item>, exit: Exit)
    requires socket.data == []
    modifies socket
    ensures (items, exit) == ReadArrivals(rule, arrivals)
  {
    hide ReadStream;
    items, exit := [], Drained;
    var n := 0;
    while n < |arrivals| && exit == Drained
      invariant 0 <= n <= |arrivals| && (exit == Drained ==> socket.data == [])
      invariant (items, exit) == ReadArrivals(rule, arrivals[..n])
      invariant exit != Drained ==> (items, exit) == ReadArrivals(rule, arrivals)
    {
      socket.Arrive(arrivals[n]);
      assert socket.data == arrivals[n] && arrivals[..n + 1][..n] == arrivals[..n];
      var more;
      more, exit := ConnHandler(rule, socket);
      items := items + more;
      n := n + 1;
      EndsThere(rule, arrivals, n);
    }
    assert arrivals[..|arrivals|] == arrivals;
  }

  // ----- sending

  /** A peer, by the bytes it has been sent; `budget` is what it will still take. */
  class Peer {
    var received: seq<byte>
    var budget: nat

    constructor (budget: nat)
      ensures received == [] && this.budget == budget
    {
      received, this.budget := [], budget;
    }

    /** `send`: takes some of the buffer, or reports that nothing can be sent. */
    method Send(buffer: array<byte>, start: nat, count: nat) returns (r: int)
      requires start + count <= buffer.Length && count > 0
      modifies this
      ensures r <= count && (r <= 0 <==> old(budget) == 0)
      ensures received == old(received) + if r > 0 then buffer[start..start + r] else []
      ensures r > 0 ==> budget + r == old(budget)
      ensures r <= 0 ==> budget == old(budget)
    {
      if budget == 0 {
        return -1;
      }
      var k :| 1 <= k <= budget && k <= count by {
        assert 1 <= budget && 1 <= count;
      }
      received := received + buffer[start..start + k];
      budget := budget - k;
      return k;
    }
  }

  /** The loop of `et` that sends a buffer: what has gone out is always a prefix of the buffer, and
      it is the whole buffer unless the peer stopped taking bytes. */
  method SendBuffer(peer: Peer, buffer: array<byte>) returns (sendedLen: nat)
    modifies peer
    ensures sendedLen <= buffer.Length && peer.received == old(peer.received) + buffer[..sendedLen]
    ensures sendedLen == if old(peer.budget) < buffer.Length then old(peer.budget) else buffer.Length
  {
    var toProcess := buffer.Length;
    sendedLen := 0;
    while toProcess > 0
      invariant 0 <= toProcess && sendedLen + toProcess == buffer.Length
      invariant peer.received == old(peer.received) + buffer[..sendedLen]
      invariant peer.budget + sendedLen == old(peer.budget)
      decreases toProcess
    {
      var r := peer.Send(buffer, sendedLen, toProcess);
      if r <= 0 {
        break;
      }
      assert buffer[..sendedLen] + buffer[sendedLen..sendedLen + r] == buffer[..sendedLen + r];
      toProcess := toProcess - r;
      sendedLen := sendedLen + r;
    }
  }
}
