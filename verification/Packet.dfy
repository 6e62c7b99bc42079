/** `struct mqtt_packet`: a buffer filled and read through a moving position. */
module Packet {
  import opened Strings
  import opened RemainingLength
  import opened Codec
  import opened Frames

  class Packet {
    var command: byte
    var dup: byte
    var qos: byte
    var retain: byte
    var payload: array<byte>
    var remainLength: nat
    var remainCount: nat
    var packetLen: nat
    var pos: nat

    constructor (command: byte)
      ensures this.command == command && dup == qos == retain == 0 && remainLength == 0 && pos == 0
      ensures fresh(payload) && payload.Length == 0
    {
      this.command, dup, qos, retain := command, 0, 0, 0;
      remainLength, remainCount, packetLen, pos := 0, 0, 0, 0;
      payload := new byte[0];
    }

    // ----- building

    /** `mqtt_packet_alloc`, with `mqtt_fix_header`. */
    method Alloc() returns (ok: bool)
      requires remainLength < 0x1_0000_0000
      modifies this`payload, this`remainCount, this`packetLen, this`pos
      ensures ok <==> remainLength <= MAX_LENGTH
      ensures ok ==>
                && fresh(payload) && payload.Length == packetLen == pos + remainLength
                && payload[..pos] == [FixedHeader(command, dup, qos, retain)] + EncodeLen(remainLength)
    {
      var bytes := LengthBytes(remainLength);
      if bytes.None? {
        return false;
      }
      var count := |bytes.value|;
      remainCount := count;
      packetLen := remainLength + 1 + count;
      payload := new byte[packetLen](_ => 0);
      payload[0] := FixedHeader(command, dup, qos, retain);
      var i := 0;
      while i < count
        invariant 0 <= i <= count && payload.Length == packetLen && fresh(payload)
        invariant payload[..1 + i] == [FixedHeader(command, dup, qos, retain)] + bytes.value[..i]
        modifies payload
      {
        ghost var was := payload[..1 + i];
        payload[i + 1] := bytes.value[i];
        i := i + 1;
        assert payload[..1 + i] == was + [bytes.value[i - 1]];
      }
      pos := 1 + count;
      return true;
    }

    /** `payload[pos++] = text[i]` for the whole of text. */
    method Put(text: seq<byte>)
      requires pos + |text| <= payload.Length
      modifies this`pos, payload
      ensures pos == old(pos) + |text| && payload[..pos] == old(payload[..pos]) + text
    {
      var i := 0;
      ghost var start := payload[..pos];
      while i < |text|
        invariant 0 <= i <= |text| && pos == old(pos) + i
        invariant payload[..pos] == start + text[..i]
        modifies this`pos, payload
      {
        payload[pos] := text[i];
        pos := pos + 1;
        i := i + 1;
        assert payload[..pos] == payload[..pos - 1] + [text[i - 1]];
      }
    }

    /** What `mqtt_send_client_msg` makes of one message in a queue; `id` is the next message id. The
        position ends where the buffer does, and no write is out of its bounds. */
    method BuildPublish(rule: Rule, id: nat, topic: seq<byte>, content: seq<byte>) returns (ok: bool)
      requires |topic| <= 65535 && |topic| + 4 + |content| < 0x1_0000_0000
      modifies this
      ensures var body := PublishBody(rule, topic, if old(qos) == 0 then [] else Pair(rule, id), content);
              && (ok <==> |body| <= MAX_LENGTH)
              && (ok ==> fresh(payload) && pos == packetLen == payload.Length)
              && (ok ==> payload[..] == Frame(FixedHeader(old(command), old(dup), old(qos), old(retain)), body))
    {
      hide *;
      ghost var optional := if qos == 0 then [] else Pair(rule, id);
      PublishParts(rule, FixedHeader(command, dup, qos, retain), topic, optional, content);
      remainLength := |topic| + 2;
      if qos != 0 {
        remainLength := remainLength + 2;
      }
      remainLength := remainLength + |content|;
      ok := Alloc();
      if !ok {
        return;
      }
      Put(Pair(rule, |topic|));
      Put(topic);
      ghost var start := payload[..pos];
      if qos != 0 {
        Put(Pair(rule, id));
      } else {
        assert start + [] == start;
      }
      Put(content);
      assert payload[..] == payload[..pos];
    }

    // ----- reading

    /** The bytes that were read after the fixed header. */
    ghost function Body(): seq<byte>
      reads this, payload
      requires remainLength <= payload.Length
    {
      payload[..remainLength]
    }

    ghost predicate Readable()
      reads this
    {
      pos <= remainLength <= payload.Length
    }

    /** `mqtt_payload_byte`. */
    method PayloadByte() returns (ok: bool, b: byte)
      requires Readable()
      modifies this`pos
      ensures Readable()
      ensures (if ok then Ok(b, pos) else Fail) == ReadByte(Body(), old(pos))
      ensures !ok ==> pos == old(pos)
    {
      if pos < remainLength {
        b := payload[pos];
        pos := pos + 1;
        return true, b;
      }
      return false, 0;
    }

    /** `mqtt_payload_bytes`. A read that fails has still used up what was there. */
    method PayloadBytes(len: nat) returns (ok: bool, bytes: array<byte>)
      requires Readable() && len <= 65535
      modifies this`pos
      ensures Readable() && fresh(bytes) && bytes.Length == len
      ensures (if ok then Ok(bytes[..], pos) else Fail) == ReadBytes(Body(), old(pos), len)
      ensures !ok ==> pos == remainLength
    {
      bytes := new byte[len](_ => 0);
      var readLen := 0;
      ok := true;
      while readLen < len && ok
        invariant 0 <= readLen <= len && Readable() && pos == old(pos) + readLen
        invariant bytes[..readLen] == Body()[old(pos)..pos]
        invariant !ok ==> readLen < len && pos == remainLength
        decreases len - readLen, ok
        modifies this`pos, bytes
      {
        var b;
        ghost var was, body := bytes[..readLen], Body();
        ok, b := PayloadByte();
        if ok {
          bytes[readLen] := b;
          readLen := readLen + 1;
          assert bytes[..readLen] == was + [b] && body[old(pos)..pos] == body[old(pos)..pos - 1] + [b];
          assert Body() == body;
        }
      }
      assert ok ==> bytes[..] == bytes[..readLen];
    }

    /** `mqtt_str`. */
    method Text(rule: Rule) returns (ok: bool, text: seq<byte>)
      requires Readable()
      modifies this`pos
      ensures Readable()
      ensures (if ok then Ok(text, pos) else Fail) == ReadStr(rule, Body(), old(pos))
    {
      var msb, lsb;
      text := [];
      ok, msb := PayloadByte();
      if !ok {
        return;
      }
      ok, lsb := PayloadByte();
      if !ok {
        return;
      }
      var bytes;
      ok, bytes := PayloadBytes(Join(rule, msb, lsb));
      text := bytes[..];
    }

    /** `mqtt_read_protocol_name`. */
    method ReadName(rule: Rule) returns (ok: bool, name: seq<byte>)
      requires Readable() && pos == 0
      modifies this`pos
      ensures Readable()
      ensures (if ok then Ok(name, pos) else Fail) == ParseName(rule, Body())
    {
      ok, name := Text(rule);
      if ok {
        var text := CString(name);
        ok := !(MQTT <= text) && MQISDP <= text;
      }
    }

    /** `mqtt_read_protocol_name`, `mqtt_read_protocol_version`, the flag byte of
        `mqtt_read_connect_flags` and `mqtt_read_livetimer`. */
    method ReadHead(rule: Rule) returns (ok: bool, flags: byte, keepAlive: nat)
      requires Readable() && pos == 0
      modifies this`pos
      ensures Readable()
      ensures (if ok then Ok((flags, keepAlive), pos) else Fail) == ParseHead(rule, Body())
    {
      flags, keepAlive := 0, 0;
      var name, version;
      hide ParseName, ReadStr, ReadPair;
      ok, name := ReadName(rule);
      if !ok {
        return;
      }
      ok, version := PayloadByte();
      if !ok || version != 3 {
        ok := false;
        return;
      }
      ok, flags := PayloadByte();
      if !ok {
        return;
      }
      ok, keepAlive := LiveTimer(rule);
    }

    /** `mqtt_read_livetimer`. */
    method LiveTimer(rule: Rule) returns (ok: bool, keepAlive: nat)
      requires Readable()
      modifies this`pos
      ensures Readable()
      ensures (if ok then Ok(keepAlive, pos) else Fail) == ReadPair(rule, Body(), old(pos))
    {
      var msb, lsb;
      keepAlive := 0;
      ok, msb := PayloadByte();
      if !ok {
        return;
      }
      ok, lsb := PayloadByte();
      if !ok {
        return;
      }
      keepAlive := Join(rule, msb, lsb);
    }

    /** The reads of `mqtt_handler_connect`, in its order. */
    method ReadSteps(rule: Rule) returns (r: ConnectRead)
      requires Readable() && pos == 0
      modifies this`pos
      ensures Readable() && r == ConnectSteps(rule, Body())
    {
      hide ParseHead, ReadStrings, ReadFlags, ReadStr;
      var ok, b, keepAlive, id, packet;
      ok, b, keepAlive := ReadHead(rule);
      if !ok {
        return NoHead;
      }
      var flags := ReadFlags(b);
      ok, id := StringIf(rule, true, Announced(flags)[1..]);
      if !ok {
        return NoId(keepAlive);
      }
      ok, packet := ReadRest(rule, flags, keepAlive, id);
      return if ok then Whole(packet) else NoRest(keepAlive, id);
    }

    /** The reads after the client id. */
    method ReadRest(rule: Rule, flags: ConnectFlags, keepAlive: nat, id: seq<byte>) returns (ok: bool, packet: ConnectPacket)
      requires Readable()
      modifies this`pos
      ensures Readable()
      ensures var r := ReadStrings(rule, Announced(flags)[1..], Body(), old(pos));
              (if ok then Ok(packet, pos) else Fail) ==
              if r.Fail? then Fail
              else Ok(ConnectPacket(flags, keepAlive, id, r.value[0], r.value[1], r.value[2], r.value[3]), r.pos)
    {
      hide ReadStrings, ReadFlags, ReadStr, Announced;
      packet := ConnectPacket(ReadFlags(0), 0, [], [], [], [], []);
      var willTopic, willMessage, username, password;
      var will, user, pass := flags.will, flags.username, flags.username && flags.password;
      AnnouncedIs(flags);
      assert [will, will, user, pass] == [will] + [will, user, pass] && [will, user, pass] == [will] + [user, pass];
      assert [user, pass] == [user] + [pass] && [pass] == [pass] + [];
      ok, willTopic := StringIf(rule, will, [will, user, pass]);
      if !ok {
        return;
      }
      ok, willMessage := StringIf(rule, will, [user, pass]);
      if !ok {
        return;
      }
      ok, username := StringIf(rule, user, [pass]);
      if !ok {
        return;
      }
      ok, password := StringIf(rule, pass, []);
      if !ok {
        return;
      }
      NoMoreStrings(rule, Body(), pos);
      packet := ConnectPacket(flags, keepAlive, id, willTopic, willMessage, username, password);
    }

    /** `mqtt_str` for a string that is there only if the flags say so. */
    method StringIf(rule: Rule, announced: bool, ghost more: seq<bool>) returns (ok: bool, text: seq<byte>)
      requires Readable()
      modifies this`pos
      ensures Readable()
      ensures ReadStrings(rule, [announced] + more, Body(), old(pos)) ==
              if !ok then Fail else Prefixed([text], ReadStrings(rule, more, Body(), pos))
      ensures announced ==>
                var read := ReadStr(rule, Body(), old(pos));
                ok == read.Ok? && (ok ==> text == CStr(read.value) && pos == read.pos)
    {
      assert ([announced] + more)[1..] == more;
      ok, text := true, [];
      if announced {
        ok, text := Text(rule);
        if !ok {
          return;
        }
        text := CString(text);
      }
    }

    /** The message id, which is there for quality of service 1 and 2 only. */
    method SkipId(qos: nat) returns (ok: bool)
      requires Readable()
      modifies this`pos
      ensures Readable() && ok == (old(pos) + (if qos == 1 || qos == 2 then 2 else 0) <= remainLength)
      ensures ok ==> pos == old(pos) + if qos == 1 || qos == 2 then 2 else 0
    {
      ok := true;
      if qos == 1 || qos == 2 {
        var id;
        ok, id := PayloadBytes(2);
      }
    }

    /** The reads of `mqtt_handler_publish`. */
    method ReadPublish(rule: Rule, qos: nat) returns (r: PublishRead)
      requires Readable() && pos == 0
      modifies this`pos
      ensures Readable() && r == ParsePublish(rule, qos, Body())
    {
      hide ReadStr, CStr;
      var ok, topic := Text(rule);
      if !ok {
        return Malformed;
      }
      ok := SkipId(qos);
      if !ok {
        return Malformed;
      }
      if pos >= remainLength {
        return Aborted;
      }
      var bytes := PublishContent();
      var content := CString(bytes);
      var name := CString(topic);
      if content == [] || name == [] {
        return Aborted;
      }
      return Message(name, content);
    }

    /** `mqtt_publish_content`. */
    method PublishContent() returns (content: seq<byte>)
      requires Readable() && pos < remainLength
      ensures content == Body()[pos..]
    {
      var body := new byte[remainLength - pos + 1](_ => 0);
      var i, j := pos, 0;
      while i < remainLength
        invariant pos <= i <= remainLength && j == i - pos
        invariant body[..j] == Body()[pos..i]
        modifies body
      {
        body[j] := payload[i];
        i, j := i + 1, j + 1;
      }
      return body[..j];
    }

    /** `mqtt_parse_subtopices`, up to what it does with each topic. */
    method ReadTopics(rule: Rule) returns (r: SubscribeRead)
      requires Readable()
      modifies this`pos
      ensures Readable() && r == ParseTopics(rule, Body(), old(pos))
    {
      var topics: seq<seq<byte>> := [];
      while pos < remainLength
        invariant Readable()
        invariant ParseTopics(rule, Body(), old(pos)) == After(topics, ParseTopics(rule, Body(), pos))
        decreases remainLength - pos
        modifies this`pos
      {
        ghost var p := pos;
        var ok, text := Text(rule);
        if !ok {
          return Undefined;
        }
        var present, qos := PayloadByte();
        var c := CString(text);
        if c == [] {
          return EmptyTopic;
        }
        ParseTopicsStep(rule, Body(), p);
        AfterStep(topics, c, ParseTopics(rule, Body(), pos));
        topics := topics + [c];
      }
      assert topics + [] == topics;
      return Topics(topics);
    }
  }

  lemma PublishParts(rule: Rule, header: byte, topic: seq<byte>, id: seq<byte>, content: seq<byte>)
    ensures var body := PublishBody(rule, topic, id, content);
            && |body| == |topic| + 2 + |id| + |content|
            && Frame(header, body) == [header] + EncodeLen(|body|) + Pair(rule, |topic|) + topic + id + content
  {
    hide EncodeLen;
    var start, pair := [header] + EncodeLen(|PublishBody(rule, topic, id, content)|), Pair(rule, |topic|);
    assert start + (pair + topic + (id + content)) == start + pair + topic + id + content;
  }

  /** `strlen` and what it delimits. */
  method CString(s: seq<byte>) returns (r: seq<byte>)
    ensures r == CStr(s)
  {
    hide CStr;
    var n := 0;
    assert s[..0] == [] && s[0..] == s && [] + CStr(s) == CStr(s);
    while n < |s| && s[n] != 0
      invariant 0 <= n <= |s| && CStr(s) == s[..n] + CStr(s[n..])
    {
      CStrStep(s, n);
      n := n + 1;
    }
    CStrEnd(s, n);
    return s[..n];
  }

  lemma CStrStep(s: seq<byte>, n: nat)
    requires n < |s| && s[n] != 0
    ensures s[..n] + CStr(s[n..]) == s[..n + 1] + CStr(s[n + 1..])
  {
    assert s[n..][1..] == s[n + 1..] && s[..n + 1] == s[..n] + [s[n]];
    hide CStr;
    assert s[..n] + ([s[n]] + CStr(s[n + 1..])) == s[..n] + [s[n]] + CStr(s[n + 1..]);
  }

  lemma CStrEnd(s: seq<byte>, n: nat)
    requires n == |s| || (n < |s| && s[n] == 0)
    ensures s[..n] + CStr(s[n..]) == s[..n]
  {
    assert CStr(s[n..]) == [];
  }

  lemma AnnouncedIs(f: ConnectFlags)
    ensures Announced(f)[1..] == [f.will, f.will, f.username, f.username && f.password]
  {
  }

  lemma NoMoreStrings(rule: Rule, s: seq<byte>, pos: nat)
    ensures ReadStrings(rule, [], s, pos) == Ok([], pos)
  {
  }

  ghost function Prefixed(before: seq<seq<byte>>, r: Read<seq<seq<byte>>>): Read<seq<seq<byte>>> {
    match r
    case Ok(texts, p) => Ok(before + texts, p)
    case Fail => Fail
  }

  ghost function After(before: seq<seq<byte>>, r: SubscribeRead): SubscribeRead {
    match r
    case Topics(topics) => Topics(before + topics)
    case other => other
  }

  lemma AfterStep(before: seq<seq<byte>>, c: seq<byte>, r: SubscribeRead)
    ensures After(before, After([c], r)) == After(before + [c], r)
  {
    if r.Topics? {
      assert before + ([c] + r.topics) == before + [c] + r.topics;
    }
  }
}
