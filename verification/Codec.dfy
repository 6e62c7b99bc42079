/** Message bodies on values: how the server reads them and how they are built
    (MQTT V3.1 sections 2.5, 3.1, 3.3 and 3.8; src/mqtt_packet.c and src/mqtt_handler.c). */
module Codec {
  import opened Bits
  import opened Strings

  /** Two-byte integers as this server writes and reads them, or as MQTT V3.1 defines them. */
  datatype Rule = AsWritten | Standard

  function Msb(rule: Rule, n: nat): byte {
    if rule == AsWritten then 0 else n / 256 % 256
  }

  function Lsb(rule: Rule, n: nat): byte {
    if rule == AsWritten then n % 16 else n % 256
  }

  function Join(rule: Rule, msb: byte, lsb: byte): (n: nat)
    ensures n <= 65535
  {
    (msb as int) * (if rule == AsWritten then 16 else 256) + lsb
  }

  /** What the sender's masks leave of a length. */
  lemma MaskBits(n: bv32)
    ensures (n & 0xf0) >> 8 == 0
    ensures n & 0x0f == n % 16
  {
  }

  /** The low mask takes from the low byte what the sender writes. */
  lemma MaskIs(n: nat, low: bv8)
    requires low as int == n % 256
    ensures Lsb(AsWritten, n) == (low & 0x0f) as int && Msb(AsWritten, n) == 0
  {
    Low4(low);
    assert n % 256 % 16 == n % 16;
  }

  /** A length written by the standard is read right exactly when it fits its low byte. */
  lemma JoinIff(n: nat)
    requires n <= 65535
    ensures Join(Standard, Msb(Standard, n), Lsb(Standard, n)) == n
    ensures Join(AsWritten, Msb(Standard, n), Lsb(Standard, n)) <= n
    ensures Join(AsWritten, Msb(Standard, n), Lsb(Standard, n)) == n <==> n < 256
    ensures Join(AsWritten, Msb(AsWritten, n), Lsb(AsWritten, n)) == n % 16
  {
  }

  function Pair(rule: Rule, n: nat): (s: seq<byte>)
    ensures |s| == 2
  {
    [Msb(rule, n), Lsb(rule, n)]
  }

  function Str(rule: Rule, s: seq<byte>): seq<byte> {
    Pair(rule, |s|) + s
  }

  /** A C string: the bytes before the first zero. */
  function CStr(s: seq<byte>): (r: seq<byte>)
    ensures |r| <= |s| && 0 !in r
    ensures 0 !in s ==> r == s
  {
    if s == [] || s[0] == 0 then [] else [s[0]] + CStr(s[1..])
  }

  /** It ends before the first zero, wherever that is. */
  lemma {:induction false} CStrIs(s: seq<byte>, n: nat)
    requires n < |s| && s[n] == 0 && 0 !in s[..n]
    ensures CStr(s) == s[..n]
  {
    if n > 0 {
      assert s[0] == s[..n][0] && s[1..][..n - 1] == s[..n][1..];
      CStrIs(s[1..], n - 1);
      assert s[..n] == [s[0]] + s[1..][..n - 1];
    }
  }

  // ----- reading

  /** A value and the position after it, or too few bytes. */
  datatype Read<+T> = Ok(value: T, pos: nat) | Fail {
    predicate IsFailure() {
      Fail?
    }

    function PropagateFailure<U>(): Read<U>
      requires Fail?
    {
      Fail
    }

    function Extract(): (T, nat)
      requires Ok?
    {
      (value, pos)
    }
  }

  function ReadByte(s: seq<byte>, pos: nat): Read<byte> {
    if pos < |s| then Ok(s[pos], pos + 1) else Fail
  }

  function ReadBytes(s: seq<byte>, pos: nat, len: nat): Read<seq<byte>> {
    if pos + len <= |s| then Ok(s[pos..pos + len], pos + len) else Fail
  }

  function ReadPair(rule: Rule, s: seq<byte>, pos: nat): Read<nat> {
    if pos + 2 <= |s| then Ok(Join(rule, s[pos], s[pos + 1]), pos + 2) else Fail
  }

  function ReadStr(rule: Rule, s: seq<byte>, pos: nat): (r: Read<seq<byte>>)
    ensures r.Ok? ==> pos + 2 <= r.pos <= |s|
  {
    var (len, p) :- ReadPair(rule, s, pos);
    ReadBytes(s, p, len)
  }

  /** A string written by the standard, with anything after it: reading it gives it back, and as
      written the code gives back something shorter, or nothing, unless it is below 256 bytes. */
  lemma ReadStrIff(rule: Rule, s: seq<byte>, pos: nat, t: seq<byte>, rest: seq<byte>)
    requires |t| <= 65535 && pos <= |s| && s[pos..] == Str(Standard, t) + rest
    ensures rule == Standard || |t| < 256 ==> ReadStr(rule, s, pos) == Ok(t, pos + 2 + |t|)
    ensures rule == AsWritten && |t| >= 256 ==> ReadStr(rule, s, pos).Ok? && |ReadStr(rule, s, pos).value| < |t|
    ensures pos + 2 + |t| <= |s| && s[pos + 2 + |t|..] == rest
  {
    var all := Str(Standard, t) + rest;
    assert s[pos] == all[0] && s[pos + 1] == all[1];
    JoinIff(|t|);
    assert s[pos + 2 + |t|..] == s[pos..][2 + |t|..] == rest;
    assert s[pos + 2..pos + 2 + |t|] == s[pos..][2..2 + |t|] == t;
  }

  // ----- PUBLISH

  datatype PublishRead = Message(topic: seq<byte>, content: seq<byte>) | Malformed | Aborted

  /** `mqtt_handler_publish` on the bytes after the fixed header. Aborted: an assertion fails,
      because the content is missing or a string is empty. */
  function ParsePublish(rule: Rule, qos: nat, s: seq<byte>): PublishRead {
    match ReadStr(rule, s, 0)
    case Fail => Malformed
    case Ok(topic, p) =>
      var q := if qos == 1 || qos == 2 then p + 2 else p;
      if q > |s| then Malformed
      else if q == |s| || CStr(s[q..]) == [] || CStr(topic) == [] then Aborted
      else Message(CStr(topic), CStr(s[q..]))
  }

  /** The integer that the reader makes of two bytes. */
  function Two(rule: Rule, s: seq<byte>, pos: nat): nat
    requires pos + 2 <= |s|
  {
    (if rule == Standard then 256 else 16) * (s[pos] as nat) + s[pos + 1]
  }

  lemma PairIsTwo(rule: Rule, s: seq<byte>, pos: nat)
    ensures ReadPair(rule, s, pos) == if pos + 2 <= |s| then Ok(Two(rule, s, pos), pos + 2) else Fail
  {
  }

  lemma ReadStrTwo(rule: Rule, s: seq<byte>, pos: nat)
    ensures |s| < pos + 2 ==> ReadStr(rule, s, pos) == Fail
    ensures pos + 2 <= |s| ==>
              var end := pos + 2 + Two(rule, s, pos);
              ReadStr(rule, s, pos) == if end <= |s| then Ok(s[pos + 2..end], end) else Fail
  {
  }

  lemma FirstStr(rule: Rule, s: seq<byte>)
    ensures ReadStr(rule, s, 0) ==
            if |s| < 2 || |s| < 2 + Two(rule, s, 0) then Fail
            else Ok(s[2..2 + Two(rule, s, 0)], 2 + Two(rule, s, 0))
  {
    hide Two;
    ReadStrTwo(rule, s, 0);
  }

  lemma CStrEmpty(s: seq<byte>)
    ensures CStr(s) == [] <==> s == [] || s[0] == 0
  {
  }

  lemma EmptyTexts(s: seq<byte>, n: nat, q: nat)
    requires 2 + n <= q <= |s|
    ensures CStr(s[2..2 + n]) == [] <==> n == 0 || s[2] == 0
    ensures CStr(s[q..]) == [] <==> |s| == q || s[q] == 0
  {
    CStrEmpty(s[2..2 + n]);
    CStrEmpty(s[q..]);
  }

  /** What becomes of any body of a PUBLISH, by its bytes: it must hold the topic and the message id
      that its quality of service calls for, and a byte more; neither topic nor content may be empty. */
  lemma PublishReads(rule: Rule, qos: nat, s: seq<byte>)
    ensures |s| < 2 ==> ParsePublish(rule, qos, s) == Malformed
    ensures 2 <= |s| ==>
              var n := Two(rule, s, 0);
              var q := n + if qos == 1 || qos == 2 then 4 else 2;
              ParsePublish(rule, qos, s) ==
              if |s| < q then Malformed
              else if |s| == q || s[q] == 0 || n == 0 || s[2] == 0 then Aborted
              else Message(CStr(s[2..2 + n]), CStr(s[q..]))
  {
    hide CStr, ReadStr, Two;
    FirstStr(rule, s);
    if 2 <= |s| {
      var n := Two(rule, s, 0);
      var q := n + if qos == 1 || qos == 2 then 4 else 2;
      if q <= |s| {
        EmptyTexts(s, n, q);
      }
    }
  }

  /** A PUBLISH. The message id is there for quality of service 1 and 2 only. */
  datatype PublishPacket =
    PublishPacket(dup: bool, qos: nat, retain: bool, id: seq<byte>, topic: seq<byte>, content: seq<byte>)

  function PublishBody(rule: Rule, topic: seq<byte>, id: seq<byte>, content: seq<byte>): seq<byte> {
    Str(rule, topic) + (id + content)
  }

  predicate Text(s: seq<byte>) {
    s != [] && 0 !in s
  }

  ghost predicate PublishOk(p: PublishPacket) {
    && p.qos <= 2
    && |p.id| == (if p.qos == 0 then 0 else 2)
    && Text(p.topic) && |p.topic| <= 65535
    && Text(p.content)
  }

  lemma PublishIff(rule: Rule, p: PublishPacket)
    requires PublishOk(p)
    ensures ParsePublish(rule, p.qos, PublishBody(Standard, p.topic, p.id, p.content)) == Message(p.topic, p.content)
       <==> rule == Standard || |p.topic| < 256
  {
    hide ReadStr, Str, CStr;
    var s := PublishBody(Standard, p.topic, p.id, p.content);
    assert s[0..] == s;
    ReadStrIff(rule, s, 0, p.topic, p.id + p.content);
    var q := 2 + |p.topic| + |p.id|;
    assert s[q..] == s[2 + |p.topic|..][|p.id|..] == p.content;
  }

  /** What the server sends, read by either rule: the low four bits of the topic's length decide where
      the topic ends and the content begins. */
  lemma PublishAsWritten(reader: Rule, topic: seq<byte>, content: seq<byte>)
    requires Text(topic) && Text(content)
    ensures var k, r := |topic| % 16, ParsePublish(reader, 0, PublishBody(AsWritten, topic, [], content));
            && r == (if k == 0 then Aborted else Message(topic[..k], topic[k..] + content))
            && (r == Message(topic, content) <==> |topic| < 16)
  {
    hide ReadStr, PublishBody, CStr;
    var k := |topic| % 16;
    OwnTopic(reader, topic, content);
    assert 0 !in topic[..k] && 0 !in topic[k..] + content;
    if |topic| < 16 {
      assert topic[..k] == topic && topic[k..] + content == content;
    }
  }

  lemma OwnTopic(reader: Rule, topic: seq<byte>, content: seq<byte>)
    ensures var s, k := PublishBody(AsWritten, topic, [], content), |topic| % 16;
            ReadStr(reader, s, 0) == Ok(topic[..k], 2 + k) && 2 + k <= |s| && s[2 + k..] == topic[k..] + content
  {
    var s, k := PublishBody(AsWritten, topic, [], content), |topic| % 16;
    assert s[0] == 0 && s[1] == k && Join(reader, 0, k) == k;
    assert s[2..2 + k] == topic[..k];
  }

  // ----- SUBSCRIBE

  datatype Filter = Filter(topic: seq<byte>, qos: byte)

  /** Undefined: a topic cannot be read, and the code goes on with what the variable held before. */
  datatype SubscribeRead = Topics(topics: seq<seq<byte>>) | BadSubscribe | EmptyTopic | Undefined

  /** The requested QoS is read into a variable nobody uses; that it may be missing goes unnoticed. */
  function SkipByte(s: seq<byte>, p: nat): (q: nat)
    ensures p <= q
  {
    match ReadByte(s, p)
    case Ok(_, q) => q
    case Fail => p
  }

  function ParseTopics(rule: Rule, s: seq<byte>, pos: nat): (r: SubscribeRead)
    ensures r != BadSubscribe
    decreases |s| - pos
  {
    if pos >= |s| then Topics([])
    else
      var read := ReadStr(rule, s, pos);
      if read.Fail? then Undefined
      else if CStr(read.value) == [] then EmptyTopic
      else
        var more := ParseTopics(rule, s, SkipByte(s, read.pos));
        if more.Topics? then Topics([CStr(read.value)] + more.topics) else more
  }

  function ParseSubscribe(rule: Rule, qos: nat, s: seq<byte>): SubscribeRead {
    if qos != 1 then ParseTopics(rule, s, 0)
    else if 2 <= |s| then ParseTopics(rule, s, 2)
    else BadSubscribe
  }

  function FilterBytes(fs: seq<Filter>): seq<byte> {
    if fs == [] then [] else Str(Standard, fs[0].topic) + [fs[0].qos] + FilterBytes(fs[1..])
  }

  function Names(fs: seq<Filter>): (names: seq<seq<byte>>)
    ensures |names| == |fs|
    ensures forall i {:trigger names[i]} :: 0 <= i < |fs| ==> names[i] == fs[i].topic
  {
    if fs == [] then [] else [fs[0].topic] + Names(fs[1..])
  }

  ghost predicate FiltersOk(fs: seq<Filter>) {
    forall i :: 0 <= i < |fs| ==> Text(fs[i].topic) && |fs[i].topic| <= 65535
  }

  ghost predicate AllShort(fs: seq<Filter>) {
    forall i :: 0 <= i < |fs| ==> |fs[i].topic| < 256
  }

  /** The topics of a SUBSCRIBE are read back in order exactly when the code's two-byte integers
      are the standard's, or all of them are below 256 bytes. */
  lemma {:induction false} TopicsIff(rule: Rule, s: seq<byte>, pos: nat, fs: seq<Filter>)
    requires FiltersOk(fs) && pos <= |s| && s[pos..] == FilterBytes(fs)
    ensures ParseTopics(rule, s, pos) == Topics(Names(fs)) <==> rule == Standard || AllShort(fs)
    decreases |fs|
  {
    hide *;
    if fs == [] {
      NoTopics(rule, s, pos);
    } else {
      var f, rest := fs[0], FilterBytes(fs[1..]);
      var next := pos + 2 + |f.topic|;
      FilterBytesStep(fs);
      FiltersStep(fs);
      ReadStrIff(rule, s, pos, f.topic, [f.qos] + rest);
      assert s[next] == s[next..][0] == f.qos;
      assert s[next + 1..] == s[next..][1..] == rest;
      TopicsIff(rule, s, next + 1, fs[1..]);
      ParseTopicsStep(rule, s, pos);
      if rule == Standard || |f.topic| < 256 {
        SkipPresent(s, next);
      }
    }
  }

  lemma NoTopics(rule: Rule, s: seq<byte>, pos: nat)
    ensures FilterBytes([]) == [] && Names([]) == [] && AllShort([])
    ensures pos >= |s| ==> ParseTopics(rule, s, pos) == Topics([])
  {
  }

  lemma FiltersStep(fs: seq<Filter>)
    requires fs != []
    ensures FiltersOk(fs) ==> 0 !in fs[0].topic && fs[0].topic != [] && |fs[0].topic| <= 65535
    ensures FiltersOk(fs) ==> FiltersOk(fs[1..])
    ensures AllShort(fs) <==> |fs[0].topic| < 256 && AllShort(fs[1..])
    ensures Names(fs) == [fs[0].topic] + Names(fs[1..])
    ensures forall x, xs :: [x] + xs == Names(fs) <==> x == fs[0].topic && xs == Names(fs[1..])
  {
    forall x, xs | [x] + xs == Names(fs)
      ensures x == fs[0].topic && xs == Names(fs[1..])
    {
      assert ([x] + xs)[0] == Names(fs)[0] && ([x] + xs)[1..] == Names(fs)[1..];
    }
  }

  lemma SkipPresent(s: seq<byte>, p: nat)
    requires p < |s|
    ensures SkipByte(s, p) == p + 1
  {
  }

  lemma FilterBytesStep(fs: seq<Filter>)
    requires fs != []
    ensures FilterBytes(fs) == Str(Standard, fs[0].topic) + ([fs[0].qos] + FilterBytes(fs[1..]))
    ensures |FilterBytes(fs)| >= 2
  {
  }

  lemma ParseTopicsStep(rule: Rule, s: seq<byte>, pos: nat)
    requires pos < |s| && ReadStr(rule, s, pos).Ok?
    ensures var (t, p) := (ReadStr(rule, s, pos).value, ReadStr(rule, s, pos).pos);
            ParseTopics(rule, s, pos) ==
            if CStr(t) == [] then EmptyTopic
            else
              var more := ParseTopics(rule, s, SkipByte(s, p));
              if more.Topics? then Topics([CStr(t)] + more.topics) else more
  {
  }

  function SubscribeBody(msb: byte, lsb: byte, fs: seq<Filter>): seq<byte> {
    [msb, lsb] + FilterBytes(fs)
  }

  lemma SubscribeIff(rule: Rule, msb: byte, lsb: byte, fs: seq<Filter>)
    requires FiltersOk(fs)
    ensures ParseSubscribe(rule, 1, SubscribeBody(msb, lsb, fs)) == Topics(Names(fs)) <==> rule == Standard || AllShort(fs)
  {
    TopicsIff(rule, SubscribeBody(msb, lsb, fs), 2, fs);
  }

  /** Any quality of service but 1 comes without the message id. */
  lemma SubscribeOtherIff(rule: Rule, qos: nat, fs: seq<Filter>)
    requires FiltersOk(fs) && qos != 1
    ensures ParseSubscribe(rule, qos, FilterBytes(fs)) == Topics(Names(fs)) <==> rule == Standard || AllShort(fs)
  {
    assert FilterBytes(fs)[0..] == FilterBytes(fs);
    TopicsIff(rule, FilterBytes(fs), 0, fs);
  }

  lemma BadSubscribeIff(rule: Rule, qos: nat, s: seq<byte>)
    ensures ParseSubscribe(rule, qos, s) == BadSubscribe <==> qos == 1 && |s| < 2
  {
  }

  /** The bytes cannot begin with a string: there are too few for its length or for what it announces. */
  predicate TooShort(rule: Rule, s: seq<byte>) {
    |s| < 2 || |s| < 2 + Two(rule, s, 0)
  }

  /** A topic after any number of good ones that is cut short leaves what C defines, and one that is
      empty or begins with a zero fails an assertion; a missing quality of service goes unnoticed. */
  lemma {:induction false} TopicsThen(rule: Rule, s: seq<byte>, pos: nat, fs: seq<Filter>, tail: seq<byte>)
    requires FiltersOk(fs) && (rule == Standard || AllShort(fs))
    requires pos <= |s| && s[pos..] == FilterBytes(fs) + tail && tail != []
    ensures TooShort(rule, tail) ==> ParseTopics(rule, s, pos) == Undefined
    ensures !TooShort(rule, tail) && (Two(rule, tail, 0) == 0 || tail[2] == 0) ==>
              ParseTopics(rule, s, pos) == EmptyTopic
    ensures !TooShort(rule, tail) && |tail| == 2 + Two(rule, tail, 0) && Two(rule, tail, 0) > 0 && tail[2] != 0 ==>
              ParseTopics(rule, s, pos) == Topics(Names(fs) + [CStr(tail[2..])])
    decreases |fs|
  {
    hide *;
    if fs == [] {
      LastTopic(rule, s, pos, tail);
    } else {
      var f, rest := fs[0], FilterBytes(fs[1..]) + tail;
      var next := pos + 2 + |f.topic|;
      FilterBytesStep(fs);
      FiltersStep(fs);
      assert s[pos..] == Str(Standard, f.topic) + ([f.qos] + rest);
      ReadStrIff(rule, s, pos, f.topic, [f.qos] + rest);
      assert s[next] == s[next..][0] == f.qos;
      assert s[next + 1..] == s[next..][1..] == rest;
      TopicsThen(rule, s, next + 1, fs[1..], tail);
      ParseTopicsStep(rule, s, pos);
      SkipPresent(s, next);
      if 2 <= |tail| {
        assert [f.topic] + (Names(fs[1..]) + [CStr(tail[2..])]) == [f.topic] + Names(fs[1..]) + [CStr(tail[2..])];
      }
    }
  }

  lemma LastTopic(rule: Rule, s: seq<byte>, pos: nat, tail: seq<byte>)
    requires pos <= |s| && s[pos..] == FilterBytes([]) + tail && tail != []
    ensures TooShort(rule, tail) ==> ParseTopics(rule, s, pos) == Undefined
    ensures !TooShort(rule, tail) && (Two(rule, tail, 0) == 0 || tail[2] == 0) ==>
              ParseTopics(rule, s, pos) == EmptyTopic
    ensures !TooShort(rule, tail) && |tail| == 2 + Two(rule, tail, 0) && Two(rule, tail, 0) > 0 && tail[2] != 0 ==>
              ParseTopics(rule, s, pos) == Topics(Names([]) + [CStr(tail[2..])])
  {
    hide CStr, ReadStr;
    assert s[pos..] == tail;
    ReadStrTwo(rule, s, pos);
    if 2 <= |tail| {
      assert s[pos] == tail[0] && s[pos + 1] == tail[1];
      var n := Two(rule, tail, 0);
      if !TooShort(rule, tail) {
        var text := s[pos + 2..pos + 2 + n];
        assert text == tail[2..2 + n];
        CStrEmpty(text);
        if |tail| == 2 + n && n > 0 && tail[2] != 0 {
          ParseTopicsStep(rule, s, pos);
          assert text == tail[2..] && SkipByte(s, |s|) == |s| && ParseTopics(rule, s, |s|) == Topics([]);
          assert [CStr(text)] + [] == Names([]) + [CStr(text)];
        }
      }
    }
  }

  // ----- CONNECT

  datatype ConnectFlags =
    ConnectFlags(username: bool, password: bool, willRetain: bool, willQos: nat, will: bool, clean: bool)

  datatype ConnectPacket =
    ConnectPacket(flags: ConnectFlags, keepAlive: nat, identifier: seq<byte>, willTopic: seq<byte>,
                  willMessage: seq<byte>, username: seq<byte>, password: seq<byte>)

  const MQISDP: seq<byte> := [77, 81, 73, 115, 100, 112]
  const MQTT: seq<byte> := [77, 81, 84, 84]

  /** `mqtt_read_connect_flags`, whose masks and shifts pick out bits (see ConnectFlagBits). */
  function ReadFlags(b: byte): ConnectFlags {
    ConnectFlags(b / 128 == 1, b / 64 % 2 == 1, b / 32 % 2 == 1, b / 8 % 4, b / 4 % 2 == 1, b / 2 % 2 == 1)
  }

  lemma ConnectFlagBits(b: bv8)
    ensures var f := ReadFlags(b as int);
            && f.username == ((b & 0x80) >> 7 == 1) && f.password == ((b & 0x40) >> 6 == 1)
            && f.willRetain == ((b & 0x20) >> 5 == 1) && f.willQos == ((b & 0x18) >> 3) as int
            && f.will == ((b & 0x04) >> 2 == 1) && f.clean == ((b & 0x02) >> 1 == 1)
  {
    Shr7(b);
    Shr6(b);
    Shr5(b);
    Shr3(b);
    Shr2(b);
    Shr1(b);
    Low1(b >> 6);
    Low1(b >> 5);
    Low2(b >> 3);
    Low1(b >> 2);
    Low1(b >> 1);
    assert (b & 0x80) >> 7 == b >> 7 && (b & 0x40) >> 6 == (b >> 6) & 1 && (b & 0x20) >> 5 == (b >> 5) & 1;
    assert (b & 0x18) >> 3 == (b >> 3) & 3 && (b & 0x04) >> 2 == (b >> 2) & 1 && (b & 0x02) >> 1 == (b >> 1) & 1;
  }

  /** The strings that the flags announce, in the order of the payload. */
  function Announced(f: ConnectFlags): (announced: seq<bool>)
    ensures |announced| == 5
  {
    [true, f.will, f.will, f.username, f.username && f.password]
  }

  function ReadStrings(rule: Rule, announced: seq<bool>, s: seq<byte>, pos: nat): (r: Read<seq<seq<byte>>>)
    ensures r.Ok? ==> |r.value| == |announced|
  {
    if announced == [] then Ok([], pos)
    else
      var (t, p) :- if announced[0] then ReadStr(rule, s, pos) else Ok([], pos);
      var (ts, q) :- ReadStrings(rule, announced[1..], s, p);
      Ok([CStr(t)] + ts, q)
  }

  /** `mqtt_read_protocol_name`. */
  function ParseName(rule: Rule, s: seq<byte>): Read<seq<byte>> {
    var (name, p) :- ReadStr(rule, s, 0);
    if MQTT <= CStr(name) || !(MQISDP <= CStr(name)) then Fail else Ok(name, p)
  }

  /** The reads of `mqtt_handler_connect` up to the client id: flag byte and keep-alive time. */
  function ParseHead(rule: Rule, s: seq<byte>): Read<(byte, nat)> {
    var (name, p) :- ParseName(rule, s);
    var (version, q) :- ReadByte(s, p);
    if version != 3 then Fail
    else
      var (b, t) :- ReadByte(s, q);
      var (keepAlive, u) :- ReadPair(rule, s, t);
      Ok((b, keepAlive), u)
  }

  /** The reads of `mqtt_handler_connect`. */
  function ParseConnect(rule: Rule, s: seq<byte>): Read<ConnectPacket> {
    var (head, p) :- ParseHead(rule, s);
    var flags := ReadFlags(head.0);
    var (f, end) :- ReadStrings(rule, Announced(flags), s, p);
    Ok(ConnectPacket(flags, head.1, f[0], f[1], f[2], f[3], f[4]), end)
  }

  /** How far the reads of `mqtt_handler_connect` get: not to the client id's string, to it, past it,
      or to the end. */
  datatype ConnectRead =
    | NoHead
    | NoId(keepAlive: nat)
    | NoRest(keepAlive: nat, id: seq<byte>)
    | Whole(packet: ConnectPacket)

  function ConnectSteps(rule: Rule, s: seq<byte>): ConnectRead {
    match ParseHead(rule, s)
    case Fail => NoHead
    case Ok(head, p) =>
      match ReadStr(rule, s, p)
      case Fail => NoId(head.1)
      case Ok(id, q) =>
        var flags := ReadFlags(head.0);
        match ReadStrings(rule, Announced(flags)[1..], s, q)
        case Fail => NoRest(head.1, CStr(id))
        case Ok(r, _) => Whole(ConnectPacket(flags, head.1, CStr(id), r[0], r[1], r[2], r[3]))
  }

  lemma StepsIs(rule: Rule, s: seq<byte>)
    ensures var steps, parsed := ConnectSteps(rule, s), ParseConnect(rule, s);
            if steps.Whole? then parsed.Ok? && parsed.value == steps.packet else parsed == Fail
  {
    hide ParseHead, ReadStr, ReadFlags, CStr;
  }

  /** What a CONNECT must begin with, by its bytes: a string that begins with MQIsdp, version 3, the
      flags and the keep-alive time. */
  predicate BeginsRight(rule: Rule, s: seq<byte>) {
    && 2 <= |s|
    && var n := Two(rule, s, 0);
    && 6 <= n && n + 6 <= |s|
    && s[2..8] == [0x4d, 0x51, 0x49, 0x73, 0x64, 0x70]
    && s[2 + n] == 3
  }

  /** Another name, another version, or too few bytes: nothing after them is read. */
  lemma HeadIff(rule: Rule, s: seq<byte>)
    ensures ParseHead(rule, s).Ok? <==> BeginsRight(rule, s)
    ensures BeginsRight(rule, s) ==>
              var n := Two(rule, s, 0); ParseHead(rule, s) == Ok((s[3 + n], Two(rule, s, 4 + n)), n + 6)
  {
    hide CStr, ReadStr, Two, ReadPair;
    ReadStrTwo(rule, s, 0);
    if 2 <= |s| {
      var n := Two(rule, s, 0);
      if 2 + n <= |s| {
        NameIff(s[2..2 + n]);
        StartsAt(MQISDP, s, 2, n);
        PairIsTwo(rule, s, n + 4);
      }
    }
  }

  /** A name that begins with MQIsdp does not begin with MQTT. */
  lemma NameIff(name: seq<byte>)
    ensures !(MQTT <= CStr(name)) && MQISDP <= CStr(name) <==> MQISDP <= name
  {
    hide CStr;
    StartsIff(MQISDP, name);
    if MQISDP <= name {
      CStrPrefix(name);
      assert name[2] == MQISDP[2] != MQTT[2];
    }
  }

  lemma StartsAt(p: seq<byte>, s: seq<byte>, pos: nat, n: nat)
    requires pos + n <= |s|
    ensures p <= s[pos..pos + n] <==> |p| <= n && s[pos..pos + |p|] == p
  {
    if |p| <= n {
      assert s[pos..pos + n][..|p|] == s[pos..pos + |p|];
    }
  }

  /** Does a C string begin with these bytes, none of which is zero? */
  lemma StartsIff(p: seq<byte>, s: seq<byte>)
    requires 0 !in p
    ensures p <= CStr(s) <==> p <= s
  {
    hide CStr;
    CStrPrefix(s);
    var text := CStr(s);
    if p <= s && |text| < |p| {
      assert false;
    }
  }

  lemma {:induction false} CStrPrefix(s: seq<byte>)
    ensures CStr(s) <= s && (|CStr(s)| < |s| ==> s[|CStr(s)|] == 0)
  {
    if s != [] && s[0] != 0 {
      CStrPrefix(s[1..]);
    }
  }

  /** Whatever the body of a CONNECT: it is read only if it begins right, flags and keep-alive time are
      where they should be, and strings that are not announced are empty. */
  lemma ConnectReads(rule: Rule, s: seq<byte>)
    ensures !BeginsRight(rule, s) ==> ConnectSteps(rule, s) == NoHead && ParseConnect(rule, s) == Fail
    ensures BeginsRight(rule, s) ==>
              var n, steps := Two(rule, s, 0), ConnectSteps(rule, s);
              && !steps.NoHead?
              && (steps.NoId? <==> |s| < n + 8 || |s| < n + 8 + Two(rule, s, n + 6))
              && (steps.NoId? ==> steps.keepAlive == Two(rule, s, 4 + n))
              && (steps.NoRest? ==>
                    && steps.keepAlive == Two(rule, s, 4 + n)
                    && steps.id == CStr(s[n + 8..n + 8 + Two(rule, s, n + 6)]))
              && (steps.Whole? ==>
                    && steps.packet.identifier == CStr(s[n + 8..n + 8 + Two(rule, s, n + 6)])
                    && var p, b := steps.packet, s[3 + n];
                    && ParseConnect(rule, s).Ok? && ParseConnect(rule, s).value == p
                    && p.keepAlive == Two(rule, s, 4 + n)
                    && p.flags.username == (b / 128 == 1) && p.flags.password == (b / 64 % 2 == 1)
                    && p.flags.will == (b / 4 % 2 == 1) && p.flags.clean == (b / 2 % 2 == 1)
                    && (!p.flags.will ==> p.willTopic == [] && p.willMessage == [])
                    && (!p.flags.username ==> p.username == [] && p.password == [])
                    && (!p.flags.password ==> p.password == []))
  {
    HeadIff(rule, s);
    StepsIs(rule, s);
    hide ParseHead, CStr, ReadStr, Two;
    if ParseHead(rule, s).Ok? {
      ReadStrTwo(rule, s, Two(rule, s, 0) + 6);
      var (head, p) := (ParseHead(rule, s).value, ParseHead(rule, s).pos);
      if ReadStr(rule, s, p).Ok? {
        var f := ReadFlags(head.0);
        assert Announced(f)[1..] == [f.will, f.will, f.username, f.username && f.password];
        NotAnnounced(rule, Announced(f)[1..], s, ReadStr(rule, s, p).pos);
        var r := ReadStrings(rule, Announced(f)[1..], s, ReadStr(rule, s, p).pos);
        if r.Ok? {
          assert !Announced(f)[1..][2] ==> r.value[2] == [];
          assert !Announced(f)[1..][3] ==> r.value[3] == [];
        }
      }
    }
  }

  lemma {:induction false} NotAnnounced(rule: Rule, announced: seq<bool>, s: seq<byte>, pos: nat)
    ensures var r := ReadStrings(rule, announced, s, pos);
            r.Ok? ==> forall i :: 0 <= i < |announced| && !announced[i] ==> r.value[i] == []
    decreases |announced|
  {
    hide ReadStr, CStr;
    if announced != [] {
      var read := if announced[0] then ReadStr(rule, s, pos) else Ok([], pos);
      if read.Ok? {
        NotAnnounced(rule, announced[1..], s, read.pos);
      }
      assert CStr([]) == [];
    }
  }

  /** Reading strings does not look past the last one. */
  lemma {:induction false} StringsPrefix(rule: Rule, announced: seq<bool>, s: seq<byte>, t: seq<byte>, pos: nat)
    requires s <= t && pos <= |s| && ReadStrings(rule, announced, s, pos).Ok?
    ensures ReadStrings(rule, announced, t, pos) == ReadStrings(rule, announced, s, pos)
    ensures ReadStrings(rule, announced, s, pos).pos <= |s|
    decreases |announced|
  {
    hide CStr;
    if announced != [] {
      var read := if announced[0] then ReadStr(rule, s, pos) else Ok([], pos);
      if announced[0] {
        StringPrefix(rule, s, t, pos);
      }
      hide ReadStr;
      StringsPrefix(rule, announced[1..], s, t, read.pos);
    }
  }

  lemma StringPrefix(rule: Rule, s: seq<byte>, t: seq<byte>, pos: nat)
    requires s <= t && ReadStr(rule, s, pos).Ok?
    ensures ReadStr(rule, t, pos) == ReadStr(rule, s, pos)
  {
    var end := ReadStr(rule, s, pos).pos;
    assert s[pos] == t[pos] && s[pos + 1] == t[pos + 1];
    assert s[pos + 2..end] == t[pos + 2..end];
  }

  lemma ConnectPrefix(rule: Rule, s: seq<byte>, t: seq<byte>)
    requires s <= t && ParseConnect(rule, s).Ok?
    ensures ParseConnect(rule, t) == ParseConnect(rule, s) && ParseConnect(rule, s).pos <= |s|
  {
    hide ParseHead, ReadStrings, ReadFlags;
    HeadIff(rule, s);
    HeadIff(rule, t);
    var n := Two(rule, s, 0);
    assert s[2..8] == t[2..8] && s[0] == t[0] && s[1] == t[1];
    assert s[2 + n] == t[2 + n] && s[3 + n] == t[3 + n] && s[4 + n] == t[4 + n] && s[5 + n] == t[5 + n];
    StringsPrefix(rule, Announced(ReadFlags(s[3 + n])), s, t, n + 6);
  }

  /** A CONNECT that breaks off anywhere is turned away. */
  lemma ConnectCut(rule: Rule, c: ConnectPacket, n: nat)
    requires ConnectOk(c) && (rule == Standard || (c.keepAlive < 256 && StringsShort(Fields(c))))
    requires n < |ConnectBody(c)|
    ensures ParseConnect(rule, ConnectBody(c)[..n]) == Fail
  {
    hide ParseConnect, ConnectBody, StringsShort;
    ConnectIff(rule, c);
    if ParseConnect(rule, ConnectBody(c)[..n]).Ok? {
      ConnectPrefix(rule, ConnectBody(c)[..n], ConnectBody(c));
    }
  }

  function Bit(flag: bool): (b: nat)
    ensures b < 2
  {
    if flag then 1 else 0
  }

  function FlagByte(f: ConnectFlags): byte
    requires f.willQos < 4
  {
    128 * Bit(f.username) + 64 * Bit(f.password) + 32 * Bit(f.willRetain) +
    8 * f.willQos + 4 * Bit(f.will) + 2 * Bit(f.clean)
  }

  function Fields(c: ConnectPacket): seq<seq<byte>> {
    [c.identifier, c.willTopic, c.willMessage, c.username, c.password]
  }

  function StringBytes(announced: seq<bool>, ts: seq<seq<byte>>): seq<byte>
    requires |announced| == |ts|
  {
    if ts == [] then []
    else (if announced[0] then Str(Standard, ts[0]) else []) + StringBytes(announced[1..], ts[1..])
  }

  function ConnectBody(c: ConnectPacket): seq<byte>
    requires c.flags.willQos < 4
  {
    Str(Standard, MQISDP) + [3, FlagByte(c.flags), Msb(Standard, c.keepAlive), Lsb(Standard, c.keepAlive)] +
    StringBytes(Announced(c.flags), Fields(c))
  }

  ghost predicate StringsOk(announced: seq<bool>, ts: seq<seq<byte>>) {
    |announced| == |ts| &&
    forall i :: 0 <= i < |ts| ==> 0 !in ts[i] && |ts[i]| <= 65535 && (!announced[i] ==> ts[i] == [])
  }

  ghost predicate StringsShort(ts: seq<seq<byte>>) {
    forall i :: 0 <= i < |ts| ==> |ts[i]| < 256
  }

  ghost predicate ConnectOk(c: ConnectPacket) {
    && c.flags.willQos < 4
    && c.keepAlive <= 65535
    && (c.flags.password ==> c.flags.username)
    && 1 <= |c.identifier| <= 23
    && StringsOk(Announced(c.flags), Fields(c))
  }

  lemma {:induction false} StringsIff(rule: Rule, announced: seq<bool>, s: seq<byte>, pos: nat, ts: seq<seq<byte>>)
    requires StringsOk(announced, ts) && pos <= |s| && s[pos..] == StringBytes(announced, ts)
    ensures var r := ReadStrings(rule, announced, s, pos);
            && (r.Ok? && r.value == ts <==> rule == Standard || StringsShort(ts))
            && (r.Ok? && r.value == ts ==> r.pos == |s|)
    decreases |ts|
  {
    hide *;
    StringsStep(rule, announced, s, pos, ts);
    if ts != [] {
      var t, rest := ts[0], StringBytes(announced[1..], ts[1..]);
      var next := if announced[0] then pos + 2 + |t| else pos;
      if announced[0] {
        ReadStrIff(rule, s, pos, t, rest);
      }
      StringsIff(rule, announced[1..], s, next, ts[1..]);
      assert forall x, xs :: [x] + xs == ts <==> x == t && xs == ts[1..] by {
        forall x, xs | [x] + xs == ts
          ensures x == t && xs == ts[1..]
        {
          assert ([x] + xs)[0] == x && ([x] + xs)[1..] == xs;
        }
        assert [t] + ts[1..] == ts;
      }
    }
  }

  /** What the definitions say about the first string of a list. */
  lemma StringsStep(rule: Rule, announced: seq<bool>, s: seq<byte>, pos: nat, ts: seq<seq<byte>>)
    requires StringsOk(announced, ts)
    ensures |announced| == |ts|
    ensures ts == [] ==> ReadStrings(rule, announced, s, pos) == Ok([], pos)
    ensures ts == [] ==> StringBytes(announced, ts) == [] && StringsShort(ts)
    ensures ts != [] ==>
              && StringsOk(announced[1..], ts[1..])
              && 0 !in ts[0] && |ts[0]| <= 65535 && (!announced[0] ==> |ts[0]| == 0)
              && StringBytes(announced, ts) ==
                 (if announced[0] then Str(Standard, ts[0]) else []) + StringBytes(announced[1..], ts[1..])
              && (StringsShort(ts) <==> |ts[0]| < 256 && StringsShort(ts[1..]))
              && var read := if announced[0] then ReadStr(rule, s, pos) else Ok([], pos);
              ReadStrings(rule, announced, s, pos) ==
              if read.Fail? then Fail
              else
                var more := ReadStrings(rule, announced[1..], s, read.pos);
                if more.Fail? then Fail else Ok([CStr(read.value)] + more.value, more.pos)
  {
  }

  lemma FlagsRoundTrip(f: ConnectFlags)
    requires f.willQos < 4
    ensures ReadFlags(FlagByte(f)) == f
  {
    FlagDigits(Bit(f.username), Bit(f.password), Bit(f.willRetain), f.willQos, Bit(f.will), Bit(f.clean));
  }

  lemma FlagDigits(u: nat, p: nat, r: nat, q: nat, w: nat, c: nat)
    requires u < 2 && p < 2 && r < 2 && q < 4 && w < 2 && c < 2
    ensures var b := 128 * u + 64 * p + 32 * r + 8 * q + 4 * w + 2 * c;
            && b / 128 == u && b / 64 % 2 == p && b / 32 % 2 == r
            && b / 8 % 4 == q && b / 4 % 2 == w && b / 2 % 2 == c
  {
    var b := 128 * u + 64 * p + 32 * r + 8 * q + 4 * w + 2 * c;
    var top := 4 * u + 2 * p + r;
    assert b / 64 == 2 * u + p && b / 32 == top;
    assert b / 8 == 4 * top + q && b / 4 == 2 * (4 * top + q) + w && b / 2 == 2 * (2 * (4 * top + q) + w) + c;
  }

  lemma HeadTail(p: seq<byte>, t: seq<byte>, r: seq<byte>)
    requires |p| == 8 && |t| == 4
    ensures var s := p + t + r;
            s[0..] == p + s[8..] && s[12..] == r && s[8] == t[0] && s[9] == t[1] && s[10] == t[2] && s[11] == t[3]
  {
    var s := p + t + r;
    assert s[8..] == t + r;
  }

  lemma ConnectHead(c: ConnectPacket)
    requires ConnectOk(c)
    ensures var s := ConnectBody(c);
            && 12 <= |s| && s[12..] == StringBytes(Announced(c.flags), Fields(c))
            && s[0..] == Str(Standard, MQISDP) + s[8..]
            && s[8] == 3 && s[9] == FlagByte(c.flags)
            && s[10] == Msb(Standard, c.keepAlive) && s[11] == Lsb(Standard, c.keepAlive)
  {
    hide StringBytes, FlagByte, Msb, Lsb, StringsOk;
    HeadTail(Str(Standard, MQISDP), [3, FlagByte(c.flags), Msb(Standard, c.keepAlive), Lsb(Standard, c.keepAlive)],
             StringBytes(Announced(c.flags), Fields(c)));
  }

  lemma ConnectParts(rule: Rule, s: seq<byte>, f: ConnectFlags)
    requires f.willQos < 4 && 12 <= |s| && s[0..] == Str(Standard, MQISDP) + s[8..] && s[8] == 3 && s[9] == FlagByte(f)
    ensures var r := ReadStrings(rule, Announced(f), s, 12);
            ParseConnect(rule, s) ==
            if r.Fail? then Fail
            else
              Ok(ConnectPacket(f, Join(rule, s[10], s[11]),
                               r.value[0], r.value[1], r.value[2], r.value[3], r.value[4]), r.pos)
  {
    hide ReadFlags, FlagByte, ReadStrings, Str, ReadStr;
    ReadStrIff(rule, s, 0, MQISDP, s[8..]);
    FlagsRoundTrip(f);
  }

  /** A CONNECT is read back, to its end, exactly when the code's two-byte integers are the
      standard's, or the keep-alive time and all strings are below 256. */
  lemma ConnectIff(rule: Rule, c: ConnectPacket)
    requires ConnectOk(c)
    ensures var r := ParseConnect(rule, ConnectBody(c));
            && (r.Ok? && r.value == c <==> rule == Standard || (c.keepAlive < 256 && StringsShort(Fields(c))))
            && (r.Ok? && r.value == c ==> r.pos == |ConnectBody(c)|)
  {
    hide ReadStrings, StringBytes, ConnectBody, ParseConnect, FlagByte, StringsShort, Str;
    var s := ConnectBody(c);
    ConnectHead(c);
    ConnectParts(rule, s, c.flags);
    JoinIff(c.keepAlive);
    StringsIff(rule, Announced(c.flags), s, 12, Fields(c));
    var r := ReadStrings(rule, Announced(c.flags), s, 12);
    if r.Ok? {
      assert r.value == [r.value[0], r.value[1], r.value[2], r.value[3], r.value[4]];
    }
  }
}
