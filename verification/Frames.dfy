/** Whole frames and the stream of frames a connection delivers, on values (src/server.c,
    src/mqtt_packet.c and the PUBLISH builder of src/mqtt_handler.c). */
module Frames {
  import opened Bits
  import opened Strings
  import opened RemainingLength
  import opened Codec

  // ----- the fixed header (MQTT V3.1 section 2.1)

  /** `mqtt_fix_header`: shifts bind tighter than masks. */
  function FixHeader(command: bv8, dup: bv8, qos: bv8, retain: bv8): bv8 {
    (command & 0xf0) | (dup & (1 << 3)) | (qos & (3 << 1)) | (retain & 1)
  }

  /** `mqtt_parse_flags`: duplicate flag, quality of service and retain flag. */
  function ParseFlags(header: bv8): (bv8, bv8, bv8) {
    ((header & 0x08) >> 3, (header & 0x06) >> 1, header & 0x01)
  }

  /** The flags survive exactly when the message is no duplicate and of quality of service 0. */
  lemma FixHeaderIff(command: bv8, dup: bv8, qos: bv8, retain: bv8)
    requires dup <= 1 && qos <= 2 && retain <= 1
    ensures FixHeader(command, dup, qos, retain) & 0xf0 == command & 0xf0
    ensures ParseFlags(FixHeader(command, dup, qos, retain)) == (dup, qos, retain) <==> dup == 0 && qos == 0
  {
  }

  function Qos(header: byte): nat {
    header / 2 % 4
  }

  lemma FlagBits(header: bv8)
    ensures ((header & 0x06) >> 1) as int == Qos(header as int) && ((header & 0xf0) >> 4) as int == header as int / 16
  {
    Shr1(header);
    Shr4(header);
    Low2(header >> 1);
    assert (header & 0x06) >> 1 == (header >> 1) & 0x03 && (header & 0xf0) >> 4 == header >> 4;
  }

  /** What `mqtt_fix_header` makes of its command and flags, as arithmetic. */
  function FixedHeader(command: byte, dup: byte, qos: byte, retain: byte): byte {
    command / 16 * 16 + dup / 8 % 2 * 8 + qos / 2 % 4 * 2 + retain % 2
  }

  lemma FixHeaderBits(command: bv8, dup: bv8, qos: bv8, retain: bv8)
    ensures FixHeader(command, dup, qos, retain) as int ==
            FixedHeader(command as int, dup as int, qos as int, retain as int)
  {
    var high, flags := (command & 0xf0) | (dup & 0x08), (qos & 0x06) | (retain & 0x01);
    HighBits(command);
    DupBit(dup);
    QosBits(qos);
    Low1(retain);
    OrIsSum(command & 0xf0, dup & 0x08);
    OrIsSum(qos & 0x06, retain & 0x01);
    OrIsSum(high, flags);
    assert FixHeader(command, dup, qos, retain) == high | flags;
  }

  lemma HighBits(b: bv8)
    ensures (b & 0xf0) as int == b as int / 16 * 16
  {
    Shr4(b);
    Shl4(b >> 4);
    assert (b >> 4) << 4 == b & 0xf0;
  }

  lemma DupBit(b: bv8)
    ensures (b & 0x08) as int == b as int / 8 % 2 * 8
  {
    Shr3(b);
    Low1(b >> 3);
    Shl3((b >> 3) & 0x01);
    assert ((b >> 3) & 0x01) << 3 == b & 0x08;
  }

  lemma QosBits(b: bv8)
    ensures (b & 0x06) as int == b as int / 2 % 4 * 2
  {
    Shr1(b);
    Low2(b >> 1);
    Shl1((b >> 1) & 0x03);
    assert ((b >> 1) & 0x03) << 1 == b & 0x06;
  }

  /** Without flags the header is the command, whatever it is. */
  lemma PlainHeader(command: byte)
    requires command % 16 == 0
    ensures FixedHeader(command, 0, 0, 0) == command
  {
  }

  /** The first byte of a PUBLISH with these flags (MQTT V3.1 section 2.1). */
  function PublishHeader(p: PublishPacket): byte
    requires p.qos <= 2
  {
    0x30 + 8 * Bit(p.dup) + 2 * p.qos + Bit(p.retain)
  }

  lemma PublishHeaderIs(p: PublishPacket)
    requires p.qos <= 2
    ensures var b := PublishHeader(p);
            b / 16 == 3 && b / 8 % 2 == Bit(p.dup) && Qos(b) == p.qos && b % 2 == Bit(p.retain)
  {
  }

  // ----- frames

  function Frame(header: byte, body: seq<byte>): seq<byte> {
    [header] + EncodeLen(|body|) + body
  }

  /** What the sender puts into a socket for one message. */
  function PublishFrame(rule: Rule, topic: seq<byte>, content: seq<byte>): seq<byte> {
    Frame(0x30, PublishBody(rule, topic, [], content))
  }

  datatype Split = Complete(body: seq<byte>, rest: seq<byte>) | BadLength | LengthOverflow | Missing

  /** What follows the first byte of a frame: its body and the bytes after it. */
  function SplitFrame(s: seq<byte>): Split {
    match DecodeLen(s)
    case Short => BadLength
    case Overflow => LengthOverflow
    case Length(n, used) =>
      if n <= |s| - used then Complete(s[used..used + n], s[used + n..]) else Missing
  }

  lemma FirstOfFrame(header: byte, body: seq<byte>)
    ensures Frame(header, body) != [] && Frame(header, body)[0] == header
  {
  }

  lemma SplitOne(header: byte, body: seq<byte>, rest: seq<byte>)
    requires |body| <= MAX_LENGTH
    ensures var s := Frame(header, body) + rest;
            s != [] && s[0] == header && SplitFrame(s[1..]) == Complete(body, rest)
  {
    var s, len := Frame(header, body) + rest, EncodeLen(|body|);
    assert s[1..] == len + (body + rest);
    LengthRoundTrip(|body|, body + rest);
    assert s[1..][|len|..|len| + |body|] == body && s[1..][|len| + |body|..] == rest;
  }

  // ----- the stream

  datatype Item =
    | GotConnect(packet: ConnectPacket)
    | GotPublish(topic: seq<byte>, content: seq<byte>)
    | GotSubscribe(qos: nat, topics: seq<seq<byte>>)
    | GotUnsubscribe
    | GotPing
    | GotDisconnect
    | GotUnknown(command: byte)

  /** Drained: no byte has arrived, wait for more. Shut: the handler failed or the client left.
      Crashed: an assertion failed, or the code left what C defines. */
  datatype Exit = Drained | Shut | Crashed

  /** One turn of the packet loop: what was received and the bytes left, or why it ends. */
  datatype Turn = Go(item: Item, rest: seq<byte>) | Stop(items: seq<Item>, exit: Exit)

  function TakeConnect(rule: Rule, s: seq<byte>): (t: Turn)
    ensures t.Stop? ==> t.items == []
  {
    match SplitFrame(s)
    case BadLength => Stop([], Shut)
    case Complete(body, rest) =>
      (match ParseConnect(rule, body)
       case Ok(packet, _) => Go(GotConnect(packet), rest)
       case Fail => Stop([], Shut))
    case _ => Stop([], Crashed)
  }

  function TakePublish(rule: Rule, header: byte, s: seq<byte>): (t: Turn)
    ensures t.Stop? ==> t.items == []
  {
    if Qos(header) == 3 then Stop([], Shut)
    else match SplitFrame(s)
      case BadLength => Stop([], Shut)
      case Complete(body, rest) =>
        (match ParsePublish(rule, Qos(header), body)
         case Message(topic, content) => Go(GotPublish(topic, content), rest)
         case Malformed => Stop([], Shut)
         case Aborted => Stop([], Crashed))
      case _ => Stop([], Crashed)
  }

  function TakeSubscribe(rule: Rule, header: byte, s: seq<byte>): (t: Turn)
    ensures t.Stop? ==> t.items == []
  {
    if Qos(header) == 3 then Stop([], Shut)
    else match SplitFrame(s)
      case BadLength => Stop([], Shut)
      case Complete(body, rest) =>
        (match ParseSubscribe(rule, Qos(header), body)
         case Topics(topics) => Go(GotSubscribe(Qos(header), topics), rest)
         case BadSubscribe => Stop([], Shut)
         case _ => Stop([], Crashed))
      case _ => Stop([], Crashed)
  }

  /** PINGREQ and DISCONNECT read their length field and no body. */
  function TakeBare(item: Item, s: seq<byte>): (t: Turn)
    ensures t.Stop? ==> t.items == []
  {
    match DecodeLen(s)
    case Short => Stop([], Shut)
    case Overflow => Stop([], Crashed)
    case Length(_, used) => Go(item, s[used..])
  }

  /** UNSUBSCRIBE never reads its payload, which it then takes topics from. */
  function TakeUnsubscribe(header: byte, s: seq<byte>): (t: Turn)
    ensures t.Stop? ==> t.items == []
  {
    if Qos(header) == 3 then Stop([], Shut)
    else match DecodeLen(s)
      case Short => Stop([], Shut)
      case Overflow => Stop([], Crashed)
      case Length(n, used) =>
        if n > 0 then Stop([], Crashed)
        else if Qos(header) != 0 then Stop([], Shut)
        else Go(GotUnsubscribe, s[used..])
  }

  /** One turn of the loop in `conn_handler`. */
  function Take(rule: Rule, s: seq<byte>): Turn {
    if s == [] then Stop([], Drained)
    else match s[0] / 16
      case 1 => TakeConnect(rule, s[1..])
      case 3 => TakePublish(rule, s[0], s[1..])
      case 8 => TakeSubscribe(rule, s[0], s[1..])
      case 10 => TakeUnsubscribe(s[0], s[1..])
      case 12 => TakeBare(GotPing, s[1..])
      case 14 => (match TakeBare(GotDisconnect, s[1..]) case Go(item, _) => Stop([item], Shut) case stop => stop)
      case _ => Go(GotUnknown(s[0]), s[1..])
  }

  // ----- turns that client's well-formed messages do not make

  /** PINGREQ, DISCONNECT and UNSUBSCRIBE with any length: the loop goes on after the first, and ends
      with the connection on the second; the third fails an assertion if it has a payload, because
      that is never read. */
  lemma BareTaken(rule: Rule, b: byte, n: nat, rest: seq<byte>)
    requires n <= MAX_LENGTH
    ensures var turn := Take(rule, [b] + EncodeLen(n) + rest);
            && (b / 16 == 12 ==> turn == Go(GotPing, rest))
            && (b / 16 == 14 ==> turn == Stop([GotDisconnect], Shut))
            && (b / 16 == 10 ==>
                  turn == if b / 2 % 4 == 3 then Stop([], Shut)
                          else if n > 0 then Stop([], Crashed)
                          else if b / 2 % 4 != 0 then Stop([], Shut)
                          else Go(GotUnsubscribe, rest))
  {
    LengthRoundTrip(n, rest);
    var s := [b] + EncodeLen(n) + rest;
    assert s[1..] == EncodeLen(n) + rest && s[1..][|EncodeLen(n)|..] == rest;
  }

  /** Any other command uses up its first byte, and nothing is done. */
  lemma UnknownTaken(rule: Rule, b: byte, rest: seq<byte>)
    requires b / 16 !in {1, 3, 8, 10, 12, 14}
    ensures Take(rule, [b] + rest) == Go(GotUnknown(b), rest)
  {
    assert ([b] + rest)[1..] == rest;
  }

  /** Quality of service 3 shuts the connection, whatever follows. */
  lemma BadQosTaken(rule: Rule, b: byte, rest: seq<byte>)
    requires b / 16 in {3, 8, 10} && b / 2 % 4 == 3
    ensures Take(rule, [b] + rest) == Stop([], Shut)
  {
    assert ([b] + rest)[1..] == rest;
  }

  /** A length field that breaks off shuts the connection, one that goes on for too long leaves what C
      defines, and a body that is not all there fails an assertion. */
  lemma BrokenTaken(rule: Rule, b: byte, s: seq<byte>)
    requires b / 16 in {1, 3, 8, 12, 14} && (b / 16 in {3, 8} ==> b / 2 % 4 != 3)
    ensures |s| <= 4 && (forall i :: 0 <= i < |s| ==> s[i] >= 128) ==> Take(rule, [b] + s) == Stop([], Shut)
    ensures |s| >= 5 && s[0] >= 128 && s[1] >= 128 && s[2] >= 128 && s[3] >= 128 ==>
              Take(rule, [b] + s) == Stop([], Crashed)
    ensures DecodeLen(s).Length? && |s| < DecodeLen(s).used + DecodeLen(s).value && b / 16 in {1, 3, 8} ==>
              Take(rule, [b] + s) == Stop([], Crashed)
  {
    hide DecodeLen;
    assert ([b] + s)[1..] == s;
    OverflowIff(s);
    ShortIff(s);
  }

  lemma TakeShortens(rule: Rule, s: seq<byte>)
    ensures Take(rule, s).Go? ==> |Take(rule, s).rest| < |s|
  {
  }

  function ReadStream(rule: Rule, s: seq<byte>): (seq<Item>, Exit)
    decreases |s|
  {
    match Take(rule, s)
    case Stop(items, exit) => (items, exit)
    case Go(item, rest) =>
      TakeShortens(rule, s);
      var (items, exit) := ReadStream(rule, rest);
      ([item] + items, exit)
  }

  lemma ReadStreamStep(rule: Rule, s: seq<byte>)
    ensures match Take(rule, s)
            case Stop(items, exit) => ReadStream(rule, s) == (items, exit)
            case Go(item, rest) =>
              ReadStream(rule, s).0 == [item] + ReadStream(rule, rest).0 && ReadStream(rule, s).1 == ReadStream(rule, rest).1
  {
  }

  // ----- streams that clients send

  datatype Sent =
    | SendConnect(packet: ConnectPacket)
    | SendPublish(publish: PublishPacket)
    | SendSubscribe(msb: byte, lsb: byte, filters: seq<Filter>)
    | SendPing

  ghost predicate SentOk(m: Sent) {
    match m
    case SendConnect(packet) => ConnectOk(packet) && |ConnectBody(packet)| <= MAX_LENGTH
    case SendPublish(p) => PublishOk(p) && |PublishBody(Standard, p.topic, p.id, p.content)| <= MAX_LENGTH
    case SendSubscribe(msb, lsb, filters) => FiltersOk(filters) && |SubscribeBody(msb, lsb, filters)| <= MAX_LENGTH
    case SendPing => true
  }

  /** No two-byte integer of the message needs its high byte. */
  ghost predicate SentShort(m: Sent) {
    match m
    case SendConnect(packet) => packet.keepAlive < 256 && StringsShort(Fields(packet))
    case SendPublish(p) => |p.topic| < 256
    case SendSubscribe(_, _, filters) => AllShort(filters)
    case SendPing => true
  }

  function Header(m: Sent): byte
    requires SentOk(m)
  {
    match m
    case SendConnect(_) => 0x10
    case SendPublish(p) => PublishHeader(p)
    case SendSubscribe(_, _, _) => 0x82
    case SendPing => 0xc0
  }

  function Body(m: Sent): seq<byte>
    requires SentOk(m)
  {
    match m
    case SendConnect(packet) => ConnectBody(packet)
    case SendPublish(p) => PublishBody(Standard, p.topic, p.id, p.content)
    case SendSubscribe(msb, lsb, filters) => SubscribeBody(msb, lsb, filters)
    case SendPing => []
  }

  function Encode(m: Sent): (s: seq<byte>)
    requires SentOk(m)
    ensures s != []
  {
    Frame(Header(m), Body(m))
  }

  // ----- examples of what MQTT V3.1 lays down (sections 3.1, 3.3, 3.8 and 3.12)

  const EXAMPLE := ConnectPacket(ConnectFlags(true, true, false, 1, true, true), 258, [97], [98], [99], [100], [101])

  /** The strings a, b, c, d and e are client id, will topic, will message, user name and password. */
  lemma ConnectExample()
    ensures ConnectOk(EXAMPLE)
    ensures ConnectBody(EXAMPLE) == [0, 6, 0x4d, 0x51, 0x49, 0x73, 0x64, 0x70] + [3, 0xce, 1, 2] +
                                    ([0, 1, 97] + ([0, 1, 98] + ([0, 1, 99] + ([0, 1, 100] + [0, 1, 101]))))
    ensures Frame(0x10, ConnectBody(EXAMPLE)) == [0x10, 27] + ConnectBody(EXAMPLE)
  {
    AllStrings([97], [98], [99], [100], [101]);
    ExampleParts();
    SmallFrame(0x10, ConnectBody(EXAMPLE));
  }

  lemma ExampleParts()
    ensures Announced(EXAMPLE.flags) == [true, true, true, true, true]
    ensures Str(Standard, MQISDP) == [0, 6, 0x4d, 0x51, 0x49, 0x73, 0x64, 0x70] && FlagByte(EXAMPLE.flags) == 0xce
    ensures Str(Standard, [97]) == [0, 1, 97] && Str(Standard, [98]) == [0, 1, 98] && Str(Standard, [99]) == [0, 1, 99]
    ensures Str(Standard, [100]) == [0, 1, 100] && Str(Standard, [101]) == [0, 1, 101]
  {
  }

  lemma AllStrings(a: seq<byte>, b: seq<byte>, c: seq<byte>, d: seq<byte>, e: seq<byte>)
    ensures StringBytes([true, true, true, true, true], [a, b, c, d, e]) ==
            Str(Standard, a) + (Str(Standard, b) + (Str(Standard, c) + (Str(Standard, d) + Str(Standard, e))))
  {
    hide StringBytes, Str;
    assert [true, true, true, true, true] == [true] + [true, true, true, true] && [a, b, c, d, e] == [a] + [b, c, d, e];
    assert [true, true, true, true] == [true] + [true, true, true] && [b, c, d, e] == [b] + [c, d, e];
    assert [true, true, true] == [true] + [true, true] && [c, d, e] == [c] + [d, e];
    assert [true, true] == [true] + [true] && [d, e] == [d] + [e] && [true] == [true] + [] && [e] == [e] + [];
    OneString(a, [true, true, true, true], [b, c, d, e]);
    OneString(b, [true, true, true], [c, d, e]);
    OneString(c, [true, true], [d, e]);
    OneString(d, [true], [e]);
    OneString(e, [], []);
  }

  lemma OneString(a: seq<byte>, announced: seq<bool>, more: seq<seq<byte>>)
    requires |announced| == |more|
    ensures StringBytes([true] + announced, [a] + more) == Str(Standard, a) + StringBytes(announced, more)
    ensures more == [] ==> StringBytes([true] + announced, [a] + more) == Str(Standard, a)
  {
    assert ([true] + announced)[1..] == announced && ([a] + more)[1..] == more;
  }

  lemma SmallFrame(header: byte, body: seq<byte>)
    requires |body| < 128
    ensures Frame(header, body) == [header, |body|] + body
  {
  }

  lemma PublishExample()
    ensures var m := SendPublish(PublishPacket(true, 1, true, [1, 2], [97, 98], [99]));
            SentOk(m) && Encode(m) == [0x3b, 7, 0, 2, 97, 98, 1, 2, 99]
  {
    var p := PublishPacket(true, 1, true, [1, 2], [97, 98], [99]);
    assert PublishBody(Standard, p.topic, p.id, p.content) == [0, 2, 97, 98, 1, 2, 99];
    SmallFrame(0x3b, PublishBody(Standard, p.topic, p.id, p.content));
  }

  lemma SubscribeExample()
    ensures var m := SendSubscribe(1, 2, [Filter([97], 0), Filter([98], 1)]);
            SentOk(m) && Encode(m) == [0x82, 10, 1, 2, 0, 1, 97, 0, 0, 1, 98, 1]
  {
    var a, b := Filter([97], 0), Filter([98], 1);
    assert [a, b][1..] == [b] && FilterBytes([b]) == [0, 1, 98] + [1] + [];
    assert FilterBytes([a, b]) == [0, 1, 97] + [0] + FilterBytes([b]);
    hide FilterBytes;
    SmallFrame(0x82, SubscribeBody(1, 2, [a, b]));
  }

  lemma PingExample()
    ensures Encode(SendPing) == [0xc0, 0]
  {
    SmallFrame(0xc0, []);
  }

  function Meaning(m: Sent): Item {
    match m
    case SendConnect(packet) => GotConnect(packet)
    case SendPublish(p) => GotPublish(p.topic, p.content)
    case SendSubscribe(_, _, filters) => GotSubscribe(1, Names(filters))
    case SendPing => GotPing
  }

  function EncodeAll(ms: seq<Sent>): seq<byte>
    requires forall m :: m in ms ==> SentOk(m)
  {
    if ms == [] then [] else Encode(ms[0]) + EncodeAll(ms[1..])
  }

  function Meanings(ms: seq<Sent>): (items: seq<Item>)
    ensures |items| == |ms|
  {
    if ms == [] then [] else [Meaning(ms[0])] + Meanings(ms[1..])
  }

  ghost predicate TakenIff(rule: Rule, m: Sent, rest: seq<byte>)
    requires SentOk(m)
  {
    var turn := Take(rule, Encode(m) + rest);
    && (turn.Go? && turn.item == Meaning(m) <==> rule == Standard || SentShort(m))
    && (turn.Go? ==> turn.rest == rest)
    && (turn.Stop? ==> turn.items == [])
  }

  lemma TakeConnectIff(rule: Rule, m: Sent, rest: seq<byte>)
    requires SentOk(m) && m.SendConnect?
    ensures TakenIff(rule, m, rest)
  {
    hide ConnectBody, ParseConnect, SplitFrame, Frame, StringsShort;
    SplitOne(0x10, ConnectBody(m.packet), rest);
    ConnectIff(rule, m.packet);
  }

  lemma TakePublishIff(rule: Rule, m: Sent, rest: seq<byte>)
    requires SentOk(m) && m.SendPublish?
    ensures TakenIff(rule, m, rest)
  {
    hide PublishBody, ParsePublish, SplitFrame, Frame, Text, PublishHeader;
    var p := m.publish;
    PublishHeaderIs(p);
    SplitOne(PublishHeader(p), PublishBody(Standard, p.topic, p.id, p.content), rest);
    PublishIff(rule, p);
  }

  lemma TakeSubscribeIff(rule: Rule, m: Sent, rest: seq<byte>)
    requires SentOk(m) && m.SendSubscribe?
    ensures TakenIff(rule, m, rest)
  {
    hide SubscribeBody, ParseSubscribe, SplitFrame, Frame, AllShort;
    SplitOne(0x82, SubscribeBody(m.msb, m.lsb, m.filters), rest);
    SubscribeIff(rule, m.msb, m.lsb, m.filters);
  }

  lemma TakePing(rule: Rule, rest: seq<byte>)
    ensures TakenIff(rule, SendPing, rest)
  {
    var s := Encode(SendPing) + rest;
    assert EncodeLen(0) == [0];
    LengthRoundTrip(0, rest);
    assert s[1..] == [0] + rest && s[1..][1..] == rest;
  }

  /** One frame: its bytes and nothing more are consumed, and it is understood exactly when the
      code's two-byte integers are the standard's or none of them matters. */
  lemma TakeIff(rule: Rule, m: Sent, rest: seq<byte>)
    requires SentOk(m)
    ensures TakenIff(rule, m, rest)
  {
    match m
    case SendConnect(_) => TakeConnectIff(rule, m, rest);
    case SendPublish(_) => TakePublishIff(rule, m, rest);
    case SendSubscribe(_, _, _) => TakeSubscribeIff(rule, m, rest);
    case SendPing => TakePing(rule, rest);
  }

  /** Does the reader find the topic's end in what the writer sends? */
  predicate Fits(writer: Rule, reader: Rule, topic: seq<byte>) {
    if writer == AsWritten then |topic| < 16 else reader == Standard || |topic| < 256
  }

  /** The frame that the server sends for a message: with both ends as written, or one of them by the
      standard, it is understood exactly when the topic fits what the two make of its length. */
  lemma OwnFrameIff(writer: Rule, reader: Rule, topic: seq<byte>, content: seq<byte>, rest: seq<byte>)
    requires Text(topic) && Text(content) && |topic| <= 65535 && |topic| + 2 + |content| <= MAX_LENGTH
    ensures var turn := Take(reader, PublishFrame(writer, topic, content) + rest);
            && (turn.Go? && turn.item == GotPublish(topic, content) <==> Fits(writer, reader, topic))
            && (turn.Go? ==> turn.rest == rest)
            && (turn.Stop? ==> turn.items == [])
    ensures PublishFrame(writer, topic, content)[0] == 0x30
  {
    hide ParsePublish, SplitFrame, Frame, Text;
    assert Frame(0x30, PublishBody(writer, topic, [], content))[0] == 0x30 by {
      FirstOfFrame(0x30, PublishBody(writer, topic, [], content));
    }
    var body := PublishBody(writer, topic, [], content);
    SplitOne(0x30, body, rest);
    if writer == AsWritten {
      PublishAsWritten(reader, topic, content);
    } else {
      PublishIff(reader, PublishPacket(false, 0, false, [], topic, content));
    }
  }
}
