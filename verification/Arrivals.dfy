/** Streams that arrive in parts: whenever bytes have come in, the packet loop runs until there are
    none left (src/server.c). */
module Arrivals {
  import opened Strings
  import opened RemainingLength
  import opened Codec
  import opened Frames

  ghost predicate AllOk(ms: seq<Sent>) {
    forall m :: m in ms ==> SentOk(m)
  }

  /** The code's two-byte integers are the standard's, or none of them matters. */
  ghost predicate Understood(rule: Rule, ms: seq<Sent>) {
    rule == Standard || forall m :: m in ms ==> SentShort(m)
  }

  // ----- a stream that breaks off

  /** How the loop ends on the first k bytes of a frame: the handler fails if the length field is
      not complete, and an assertion fails if the body is not. */
  function CutExit(m: Sent, k: nat): Exit
    requires SentOk(m)
  {
    if k == 0 then Drained else if k <= |EncodeLen(|Body(m)|)| then Shut else Crashed
  }

  lemma FrameCut(header: byte, body: seq<byte>, k: nat)
    requires |body| <= MAX_LENGTH && 0 < k < |Frame(header, body)|
    ensures |Frame(header, body)| == 1 + |EncodeLen(|body|)| + |body|
    ensures var s := Frame(header, body)[..k];
            && s[0] == header
            && if k <= |EncodeLen(|body|)| then DecodeLen(s[1..]) == Short else SplitFrame(s[1..]) == Missing
  {
    hide EncodeLen, DecodeLen;
    var s, len := Frame(header, body)[..k], EncodeLen(|body|);
    if k <= |len| {
      assert s[1..] == len[..k - 1];
      CutShort(|body|, k - 1);
    } else {
      assert s[1..] == len + body[..k - 1 - |len|];
      LengthRoundTrip(|body|, body[..k - 1 - |len|]);
    }
  }

  lemma HeaderIs(m: Sent)
    requires SentOk(m)
    ensures Qos(Header(m)) != 3 && |Body(m)| <= MAX_LENGTH
    ensures match m
            case SendConnect(_) => Header(m) / 16 == 1
            case SendPublish(_) => Header(m) / 16 == 3
            case SendSubscribe(_, _, _) => Header(m) / 16 == 8
            case SendPing => Header(m) / 16 == 12 && Body(m) == []
  {
    if m.SendPublish? {
      PublishHeaderIs(m.publish);
    }
  }

  lemma TakeCut(rule: Rule, m: Sent, k: nat)
    requires SentOk(m) && k < |Encode(m)|
    ensures Take(rule, Encode(m)[..k]) == Stop([], CutExit(m, k))
  {
    hide SentOk, Header, Body, Frame, Qos, EncodeLen, DecodeLen;
    HeaderIs(m);
    if k > 0 {
      FrameCut(Header(m), Body(m), k);
      if m.SendPing? {
        EmptyLength();
      }
    }
  }

  lemma EmptyLength()
    ensures |EncodeLen(0)| == 1
  {
  }

  /** The messages whose last byte is among the first n bytes of the stream. */
  function Whole(ms: seq<Sent>, n: nat): seq<Sent>
    requires AllOk(ms)
  {
    if ms == [] || n < |Encode(ms[0])| then [] else [ms[0]] + Whole(ms[1..], n - |Encode(ms[0])|)
  }

  function ExitAt(ms: seq<Sent>, n: nat): Exit
    requires AllOk(ms)
  {
    if ms == [] then Drained
    else if n < |Encode(ms[0])| then CutExit(ms[0], n)
    else ExitAt(ms[1..], n - |Encode(ms[0])|)
  }

  /** The first n bytes of a stream are whole frames. */
  ghost predicate EndsFrame(ms: seq<Sent>, n: nat)
    requires AllOk(ms)
  {
    n == 0 || (ms != [] && n >= |Encode(ms[0])| && EndsFrame(ms[1..], n - |Encode(ms[0])|))
  }

  lemma {:induction false} ExitAtIff(ms: seq<Sent>, n: nat)
    requires AllOk(ms) && n <= |EncodeAll(ms)|
    ensures ExitAt(ms, n) == Drained <==> EndsFrame(ms, n)
  {
    hide SentOk, Encode, CutExit;
    if ms != [] {
      CutExitIs(ms[0], n);
      if n >= |Encode(ms[0])| {
        ExitAtIff(ms[1..], n - |Encode(ms[0])|);
      }
    }
  }

  lemma UnderstoodJoin(rule: Rule, ms: seq<Sent>, more: seq<Sent>)
    ensures Understood(rule, ms + more) <==> Understood(rule, ms) && Understood(rule, more)
  {
    assert forall m :: m in ms + more <==> m in ms || m in more;
  }

  lemma {:induction false} MeaningsJoin(ms: seq<Sent>, more: seq<Sent>)
    ensures Meanings(ms + more) == Meanings(ms) + Meanings(more)
  {
    if ms == [] {
      assert [] + more == more;
    } else {
      assert (ms + more)[1..] == ms[1..] + more;
      MeaningsJoin(ms[1..], more);
    }
  }

  lemma StopsLoud(rule: Rule, s: seq<byte>)
    ensures s != [] && Take(rule, s).Stop? ==> Take(rule, s).exit != Drained
  {
  }

  /** One whole message at the front of what is read. */
  lemma ReadOne(rule: Rule, m: Sent, rest: seq<byte>)
    requires SentOk(m)
    ensures var r, r' := ReadStream(rule, Encode(m) + rest), ReadStream(rule, rest);
            if r.0 != [] && r.0[0] == Meaning(m) then Understood(rule, [m]) && r == ([Meaning(m)] + r'.0, r'.1)
            else !Understood(rule, [m]) && (r.1 == Drained ==> r.1 == r'.1 && |r.0| == 1 + |r'.0|)
  {
    hide Take, SentOk, SentShort, Encode, Meaning, ReadStream;
    var s := Encode(m) + rest;
    TakeIff(rule, m, rest);
    ReadStreamStep(rule, s);
    StopsLoud(rule, s);
    var turn := Take(rule, s);
    if turn.Go? {
      var (items, exit) := ReadStream(rule, rest);
      assert ([turn.item] + items)[0] == turn.item;
    }
  }

  /** The first n bytes of a stream, n anything: the loop reads the messages of which all bytes are
      there, and ends as the broken off frame says, exactly when it understands those messages. It
      finds nothing left to read only at the end of a frame. */
  lemma {:induction false} CutStreamIff(rule: Rule, ms: seq<Sent>, n: nat)
    requires AllOk(ms) && n <= |EncodeAll(ms)|
    ensures var r := ReadStream(rule, EncodeAll(ms)[..n]);
            && (r == (Meanings(Whole(ms, n)), ExitAt(ms, n)) <==> Understood(rule, Whole(ms, n)))
            && (r.1 == Drained ==> EndsFrame(ms, n) && |r.0| == |Whole(ms, n)|)
    decreases |ms|
  {
    hide ReadStream, Take, SentOk, SentShort, Encode, Meaning, CutExit, Understood, Meanings;
    NothingRead(rule);
    if ms == [] {
      assert EncodeAll(ms)[..n] == [];
    } else if n < |Encode(ms[0])| {
      assert EncodeAll(ms)[..n] == Encode(ms[0])[..n];
      TakeCut(rule, ms[0], n);
      ReadStreamStep(rule, Encode(ms[0])[..n]);
      CutExitIs(ms[0], n);
    } else {
      var m, k := ms[0], n - |Encode(ms[0])|;
      var rest, whole := EncodeAll(ms[1..])[..k], Whole(ms[1..], k);
      assert EncodeAll(ms)[..n] == Encode(m) + rest;
      CutStreamIff(rule, ms[1..], k);
      ReadOne(rule, m, rest);
      UnderstoodJoin(rule, [m], whole);
      MeaningsStep(m, whole);
    }
  }

  lemma NothingRead(rule: Rule)
    ensures ReadStream(rule, []) == ([], Drained) && Understood(rule, []) && Meanings([]) == []
  {
  }

  lemma CutExitIs(m: Sent, k: nat)
    requires SentOk(m)
    ensures CutExit(m, k) == Drained <==> k == 0
  {
  }

  lemma MeaningsStep(m: Sent, ms: seq<Sent>)
    ensures Meanings([m] + ms) == [Meaning(m)] + Meanings(ms)
    ensures forall items: seq<Item>, item: Item ::
              [item] + items == Meanings([m] + ms) <==> item == Meaning(m) && items == Meanings(ms)
  {
    assert ([m] + ms)[1..] == ms;
    forall items: seq<Item>, item: Item | [item] + items == Meanings([m] + ms)
      ensures item == Meaning(m) && items == Meanings(ms)
    {
      assert ([item] + items)[0] == item && ([item] + items)[1..] == items;
      assert Meanings([m] + ms)[0] == Meaning(m) && Meanings([m] + ms)[1..] == Meanings(ms);
    }
  }

  lemma {:induction false} WholeAll(ms: seq<Sent>)
    requires AllOk(ms)
    ensures Whole(ms, |EncodeAll(ms)|) == ms && ExitAt(ms, |EncodeAll(ms)|) == Drained
  {
    if ms != [] {
      WholeAll(ms[1..]);
    }
  }

  /** A stream of messages is read back, message by message and to its last byte, exactly when the
      code's two-byte integers are the standard's or none of them matters. */
  lemma StreamIff(rule: Rule, ms: seq<Sent>)
    requires AllOk(ms)
    ensures ReadStream(rule, EncodeAll(ms)) == (Meanings(ms), Drained) <==> Understood(rule, ms)
  {
    WholeAll(ms);
    CutStreamIff(rule, ms, |EncodeAll(ms)|);
    assert EncodeAll(ms)[..|EncodeAll(ms)|] == EncodeAll(ms);
  }

  // ----- a stream that arrives in parts

  /** The loop runs once for each part, until it ends otherwise than by having nothing left. */
  function ReadArrivals(rule: Rule, arrivals: seq<seq<byte>>): (seq<Item>, Exit) {
    if arrivals == [] then ([], Drained)
    else
      var (items, exit) := ReadArrivals(rule, arrivals[..|arrivals| - 1]);
      if exit != Drained then (items, exit)
      else
        var (more, last) := ReadStream(rule, arrivals[|arrivals| - 1]);
        (items + more, last)
  }

  lemma {:induction false} EndsThere(rule: Rule, arrivals: seq<seq<byte>>, n: nat)
    requires n <= |arrivals|
    ensures ReadArrivals(rule, arrivals[..n]).1 != Drained ==>
              ReadArrivals(rule, arrivals) == ReadArrivals(rule, arrivals[..n])
  {
    if n < |arrivals| {
      EndsThere(rule, arrivals[..|arrivals| - 1], n);
      assert arrivals[..|arrivals| - 1][..n] == arrivals[..n];
    } else {
      assert arrivals[..n] == arrivals;
    }
  }

  function Joined(arrivals: seq<seq<byte>>): seq<byte> {
    if arrivals == [] then [] else Joined(arrivals[..|arrivals| - 1]) + arrivals[|arrivals| - 1]
  }

  /** Every part ends where a frame does. */
  ghost predicate EndFrames(ms: seq<Sent>, arrivals: seq<seq<byte>>)
    requires AllOk(ms)
  {
    forall i :: 0 <= i <= |arrivals| ==> EndsFrame(ms, |Joined(arrivals[..i])|)
  }

  lemma FirstWhole(ms: seq<Sent>, n: nat)
    requires AllOk(ms) && ms != [] && n >= |Encode(ms[0])|
    ensures EncodeAll(ms) == Encode(ms[0]) + EncodeAll(ms[1..])
    ensures Whole(ms, n) == [ms[0]] + Whole(ms[1..], n - |Encode(ms[0])|)
    ensures EndsFrame(ms, n) <==> n == 0 || EndsFrame(ms[1..], n - |Encode(ms[0])|)
  {
  }

  lemma NoneWhole(ms: seq<Sent>, n: nat)
    requires AllOk(ms)
    ensures Whole(ms, 0) == [] && EndsFrame(ms, 0)
    ensures n > 0 && EndsFrame(ms, n) ==> ms != [] && n >= |Encode(ms[0])|
  {
  }

  /** What is left of the stream after some whole frames. */
  lemma {:induction false} AfterWhole(ms: seq<Sent>, n: nat, k: nat)
    requires AllOk(ms) && EndsFrame(ms, n) && n + k <= |EncodeAll(ms)|
    ensures var done := Whole(ms, n);
            && done <= ms
            && AllOk(ms[|done|..]) && k <= |EncodeAll(ms[|done|..])|
            && EncodeAll(ms)[n..n + k] == EncodeAll(ms[|done|..])[..k]
            && Whole(ms, n + k) == done + Whole(ms[|done|..], k)
            && (EndsFrame(ms, n + k) <==> EndsFrame(ms[|done|..], k))
    decreases |ms|
  {
    hide SentOk, Encode, EncodeAll, Whole, EndsFrame;
    NoneWhole(ms, n);
    if n == 0 {
      assert ms[0..] == ms && [] + Whole(ms, k) == Whole(ms, k);
    } else {
      var m, size := ms[0], |Encode(ms[0])|;
      FirstWhole(ms, n);
      FirstWhole(ms, n + k);
      AfterWhole(ms[1..], n - size, k);
      var done := Whole(ms[1..], n - size);
      Shifted(ms, [m], done);
      assert EncodeAll(ms)[n..n + k] == EncodeAll(ms[1..])[n - size..n - size + k];
      assert [m] + (done + Whole(ms[1..][|done|..], k)) == [m] + done + Whole(ms[1..][|done|..], k);
    }
  }

  lemma Shifted<T>(s: seq<T>, first: seq<T>, done: seq<T>)
    requires s != [] && first == [s[0]] && done <= s[1..]
    ensures first + done <= s && s[1..][|done|..] == s[|first + done|..]
  {
  }

  lemma EndFramesStep(ms: seq<Sent>, arrivals: seq<seq<byte>>)
    requires AllOk(ms) && arrivals != []
    ensures EndFrames(ms, arrivals) <==> EndFrames(ms, arrivals[..|arrivals| - 1]) && EndsFrame(ms, |Joined(arrivals)|)
  {
    hide Joined, EndsFrame, SentOk;
    var init := arrivals[..|arrivals| - 1];
    assert arrivals[..|arrivals|] == arrivals;
    assert forall i :: 0 <= i <= |init| ==> arrivals[..i] == init[..i];
  }

  lemma SamePrefix<T>(s: seq<T>, t: seq<T>, x: seq<T>, y: seq<T>)
    requires |s| == |t|
    ensures s + x == t + y <==> s == t && x == y
  {
    if s + x == t + y {
      assert s == (s + x)[..|s|] && t == (t + y)[..|t|] && x == (s + x)[|s|..] && y == (t + y)[|t|..];
    }
  }

  lemma {:induction false} ArrivalsPrefix(rule: Rule, ms: seq<Sent>, arrivals: seq<seq<byte>>)
    requires AllOk(ms) && Joined(arrivals) <= EncodeAll(ms)
    ensures var r, n := ReadArrivals(rule, arrivals), |Joined(arrivals)|;
            && (r == (Meanings(Whole(ms, n)), Drained) <==> Understood(rule, Whole(ms, n)) && EndFrames(ms, arrivals))
            && (r.1 == Drained ==> EndsFrame(ms, n) && |r.0| == |Whole(ms, n)|)
  {
    hide ReadStream, SentOk, SentShort, Encode, EncodeAll, Meaning, Meanings;
    hide CutExit, Understood, Whole, EndsFrame, EndFrames;
    if arrivals == [] {
      NoArrivals(rule, ms);
    } else {
      var init, last := arrivals[..|arrivals| - 1], arrivals[|arrivals| - 1];
      var n, k := |Joined(init)|, |last|;
      ArrivalsPrefix(rule, ms, init);
      EndFramesStep(ms, arrivals);
      if ReadArrivals(rule, init).1 == Drained {
        AfterWhole(ms, n, k);
        var done := Whole(ms, n);
        var rest := ms[|done|..];
        assert last == EncodeAll(ms)[n..n + k];
        CutStreamIff(rule, rest, k);
        ExitAtIff(rest, k);
        UnderstoodJoin(rule, done, Whole(rest, k));
        MeaningsJoin(done, Whole(rest, k));
        SamePrefix(ReadArrivals(rule, init).0, Meanings(done), ReadStream(rule, last).0, Meanings(Whole(rest, k)));
      } else {
        WholeGrows(rule, ms, n, k);
      }
    }
  }

  lemma NoArrivals(rule: Rule, ms: seq<Sent>)
    requires AllOk(ms)
    ensures ReadArrivals(rule, []) == ([], Drained) && Joined([]) == []
    ensures Whole(ms, 0) == [] && Meanings([]) == [] && Understood(rule, [])
    ensures EndsFrame(ms, 0) && EndFrames(ms, [])
  {
  }

  lemma {:induction false} WholeGrows(rule: Rule, ms: seq<Sent>, n: nat, k: nat)
    requires AllOk(ms)
    ensures Understood(rule, Whole(ms, n + k)) ==> Understood(rule, Whole(ms, n))
    decreases |ms|
  {
    hide SentOk, SentShort, Encode, Understood;
    if ms != [] && n >= |Encode(ms[0])| {
      var m, size := ms[0], |Encode(ms[0])|;
      WholeGrows(rule, ms[1..], n - size, k);
      UnderstoodJoin(rule, [m], Whole(ms[1..], n - size));
      UnderstoodJoin(rule, [m], Whole(ms[1..], n + k - size));
    } else {
      NothingRead(rule);
    }
  }

  /** A stream that arrives in parts is read back exactly when its messages are understood and every
      part ends where a frame does. */
  lemma ArrivalsIff(rule: Rule, ms: seq<Sent>, arrivals: seq<seq<byte>>)
    requires AllOk(ms) && Joined(arrivals) == EncodeAll(ms)
    ensures ReadArrivals(rule, arrivals) == (Meanings(ms), Drained) <==> Understood(rule, ms) && EndFrames(ms, arrivals)
  {
    WholeAll(ms);
    ArrivalsPrefix(rule, ms, arrivals);
  }

  /** A frame that comes in two parts is never understood, and its end is never read. */
  lemma TwoParts(rule: Rule, m: Sent, k: nat)
    requires SentOk(m) && 0 < k < |Encode(m)|
    ensures ReadArrivals(rule, [Encode(m)[..k], Encode(m)[k..]]) == ([], CutExit(m, k)) && CutExit(m, k) != Drained
  {
    hide Take, SentOk, Encode, ReadStream;
    var first, all := Encode(m)[..k], [Encode(m)[..k], Encode(m)[k..]];
    TakeCut(rule, m, k);
    ReadStreamStep(rule, first);
    EndsThere(rule, all, 1);
    assert all[..1] == [first] && [] + ReadStream(rule, first).0 == ReadStream(rule, first).0;
  }
}
