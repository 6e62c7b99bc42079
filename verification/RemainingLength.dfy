/** The variable-length Remaining Length field (MQTT V3.1 section 2.1; src/mqtt_packet.c). */
module RemainingLength {
  import opened Strings
  import opened Wrappers

  const MAX_LENGTH := 268435455

  /** Groups of seven bits, the least significant first; the top bit says that more follow. */
  function EncodeLen(n: nat): seq<byte> {
    if n < 128 then [n] else [n % 128 + 128] + EncodeLen(n / 128)
  }

  lemma EncodeLenStep(n: nat)
    ensures EncodeLen(n) == if n < 128 then [n] else [n % 128 + 128] + EncodeLen(n / 128)
  {
  }

  /** The loop of `mqtt_packet_alloc` that fills `remain_bytes`. */
  method LengthBytes(remainLength: nat) returns (r: Option<seq<byte>>)
    requires remainLength < 0x1_0000_0000
    ensures r == if remainLength <= MAX_LENGTH then Some(EncodeLen(remainLength)) else None
  {
    hide EncodeLen;
    EncodeLenStep(0);
    var bytes := new byte[5];
    var count := 0;
    var rest := remainLength;
    if rest == 0 {
      count := 1;
      bytes[0] := 0;
      assert bytes[..1] == EncodeLen(0);
    } else {
      while rest > 0 && count < 5
        invariant 0 <= count <= 5 && 0 <= rest
        invariant rest == 0 ==> bytes[..count] == EncodeLen(remainLength)
        invariant rest > 0 ==> bytes[..count] + EncodeLen(rest) == EncodeLen(remainLength)
      {
        var b := rest % 128;
        ghost var before, was := bytes[..count], rest;
        rest := rest / 128;
        if rest > 0 {
          b := b + 128;
        }
        bytes[count] := b;
        count := count + 1;
        assert bytes[..count] == before + [b];
        EncodeLenStep(was);
      }
    }
    EncodeLenSize(remainLength, 4);
    if count == 5 {
      return None;
    }
    return Some(bytes[..count]);
  }

  // ----- decoding

  /** Overflow: the arithmetic leaves the range of `int`. */
  datatype Decoded = Length(value: nat, used: nat) | Short | Overflow

  /** The loop of `mqtt_remain_length`, with i bytes read so far. */
  function DecodeFrom(s: seq<byte>, i: nat, value: nat, multiplier: nat): (d: Decoded)
    ensures d.Length? ==> i < d.used <= |s|
    decreases |s| - i
  {
    if i >= |s| then Short
    else if s[i] % 128 * multiplier > INT_MAX || multiplier * 128 > INT_MAX then Overflow
    else if s[i] >= 128 && i + 1 <= 4 then DecodeFrom(s, i + 1, value + s[i] % 128 * multiplier, multiplier * 128)
    else Length(value + s[i] % 128 * multiplier, i + 1)
  }

  function DecodeLen(s: seq<byte>): (d: Decoded)
    ensures d.Length? ==> 0 < d.used <= |s|
  {
    DecodeFrom(s, 0, 0, 1)
  }

  /** Which place value byte i has. */
  function Place(i: nat): nat
    requires i <= 4
  {
    if i == 0 then 1 else if i == 1 then 128 else if i == 2 then 16384 else if i == 3 then 2097152 else 268435456
  }

  lemma {:induction false} EncodeLenSize(n: nat, k: nat)
    requires 1 <= k <= 4
    ensures |EncodeLen(n)| <= k <==> n < Place(k)
  {
    if n >= 128 {
      if k == 1 {
        assert |EncodeLen(n / 128)| >= 1;
      } else {
        EncodeLenSize(n / 128, k - 1);
      }
    }
  }

  lemma Digits(n: nat, i: nat)
    requires i < 4
    ensures n % 128 * Place(i) + n / 128 * Place(i + 1) == n * Place(i)
  {
    assert n == n % 128 + 128 * (n / 128);
  }

  lemma {:induction false} DecodeEncoded(s: seq<byte>, i: nat, value: nat, n: nat, suffix: seq<byte>)
    requires i + |EncodeLen(n)| <= 4 && i <= |s| && s[i..] == EncodeLen(n) + suffix
    ensures DecodeFrom(s, i, value, Place(i)) == Length(value + n * Place(i), i + |EncodeLen(n)|)
    decreases n
  {
    assert s[i] == EncodeLen(n)[0];
    if n >= 128 {
      var more := EncodeLen(n / 128);
      assert s[i + 1..] == more + suffix by {
        assert s[i..][1..] == s[i + 1..];
        assert (EncodeLen(n) + suffix)[1..] == more + suffix;
      }
      assert |more| >= 1;
      DecodeEncoded(s, i + 1, value + n % 128 * Place(i), n / 128, suffix);
      Digits(n, i);
    }
  }

  /** Decoding what was encoded gives the length back and leaves what follows it. */
  lemma LengthRoundTrip(n: nat, suffix: seq<byte>)
    requires n <= MAX_LENGTH
    ensures DecodeLen(EncodeLen(n) + suffix) == Length(n, |EncodeLen(n)|)
    ensures 1 <= |EncodeLen(n)| <= 4
  {
    EncodeLenSize(n, 4);
    var s := EncodeLen(n) + suffix;
    assert s[0..] == s;
    DecodeEncoded(s, 0, 0, n, suffix);
  }

  lemma {:induction false} Continues(n: nat, i: nat)
    requires i + 1 < |EncodeLen(n)|
    ensures EncodeLen(n)[i] >= 128
  {
    if i > 0 {
      Continues(n / 128, i - 1);
    }
  }

  lemma {:induction false} DecodeContinues(s: seq<byte>, i: nat, value: nat)
    requires i <= |s| <= 4 && forall j :: i <= j < |s| ==> s[j] >= 128
    ensures DecodeFrom(s, i, value, Place(i)) == Short
    decreases |s| - i
  {
    if i < |s| {
      DecodeContinues(s, i + 1, value + s[i] % 128 * Place(i));
    }
  }

  /** While bytes of a length field are missing, the decoder finds it too short. */
  lemma CutShort(n: nat, k: nat)
    requires n <= MAX_LENGTH && k < |EncodeLen(n)|
    ensures DecodeLen(EncodeLen(n)[..k]) == Short
  {
    LengthRoundTrip(n, []);
    var s := EncodeLen(n)[..k];
    forall j | 0 <= j < |s|
      ensures s[j] >= 128
    {
      Continues(n, j);
    }
    DecodeContinues(s, 0, 0);
  }

  /** No encoding is a prefix of another one. */
  lemma PrefixFree(m: nat, n: nat, t: seq<byte>, u: seq<byte>)
    requires m <= MAX_LENGTH && n <= MAX_LENGTH && EncodeLen(m) + t == EncodeLen(n) + u
    ensures m == n && t == u
  {
    LengthRoundTrip(m, t);
    LengthRoundTrip(n, u);
    assert t == (EncodeLen(m) + t)[|EncodeLen(m)|..];
    assert u == (EncodeLen(n) + u)[|EncodeLen(n)|..];
  }

  /** The decoder does not stop at four bytes: it runs out of `int` exactly when the first four
      bytes all announce another one and a fifth is there to be read. */
  lemma OverflowIff(s: seq<byte>)
    ensures DecodeLen(s) == Overflow <==> |s| >= 5 && s[0] >= 128 && s[1] >= 128 && s[2] >= 128 && s[3] >= 128
  {
    if |s| >= 1 && s[0] >= 128 {
      assert DecodeLen(s) == DecodeFrom(s, 1, s[0] % 128, 128);
      if |s| >= 2 && s[1] >= 128 {
        var v1 := s[0] % 128 + (s[1] as int) % 128 * 128;
        assert DecodeFrom(s, 1, s[0] % 128, 128) == DecodeFrom(s, 2, v1, 16384);
        if |s| >= 3 && s[2] >= 128 {
          var v2 := v1 + (s[2] as int) % 128 * 16384;
          assert DecodeFrom(s, 2, v1, 16384) == DecodeFrom(s, 3, v2, 2097152);
          if |s| >= 4 && s[3] >= 128 {
            assert DecodeFrom(s, 3, v2, 2097152) == DecodeFrom(s, 4, v2 + (s[3] as int) % 128 * 2097152, 268435456);
          }
        }
      }
    }
  }

  /** What any four bytes decode to: the digits of base 128 up to the first byte without the top bit. */
  lemma DigitsDecode(s: seq<byte>)
    requires |s| >= 4
    ensures s[0] < 128 ==> DecodeLen(s) == Length(s[0], 1)
    ensures var a: int, b: int, c: int, d: int := s[0], s[1], s[2], s[3];
            && (a >= 128 > b ==> DecodeLen(s) == Length(a - 128 + 128 * b, 2))
            && (a >= 128 && b >= 128 > c ==> DecodeLen(s) == Length(a - 128 + 128 * (b - 128) + 16384 * c, 3))
            && (a >= 128 && b >= 128 && c >= 128 > d ==>
                  DecodeLen(s) == Length(a - 128 + 128 * (b - 128) + 16384 * (c - 128) + 2097152 * d, 4))
  {
    var v0, v1 := s[0] % 128, s[0] % 128 + (s[1] as int) % 128 * 128;
    var v2 := v1 + (s[2] as int) % 128 * 16384;
    assert s[0] >= 128 ==> DecodeLen(s) == DecodeFrom(s, 1, v0, 128);
    assert s[1] >= 128 ==> DecodeFrom(s, 1, v0, 128) == DecodeFrom(s, 2, v1, 16384);
    assert s[2] >= 128 ==> DecodeFrom(s, 2, v1, 16384) == DecodeFrom(s, 3, v2, 2097152);
  }

  /** The decoder finds the field too short exactly when no byte ends it and there is no fifth one. */
  lemma ShortIff(s: seq<byte>)
    ensures DecodeLen(s) == Short <==> |s| <= 4 && forall i :: 0 <= i < |s| ==> s[i] >= 128
  {
    if |s| <= 4 && forall i :: 0 <= i < |s| ==> s[i] >= 128 {
      DecodeContinues(s, 0, 0);
    } else if DecodeLen(s) == Short {
      NeverEnds(s, 0, 0);
    }
  }

  lemma {:induction false} NeverEnds(s: seq<byte>, i: nat, value: nat)
    requires i <= 4 && i <= |s| && DecodeFrom(s, i, value, Place(i)) == Short
    ensures |s| <= 4 && forall j :: i <= j < |s| ==> s[j] >= 128
    decreases |s| - i
  {
    if i < |s| {
      assert i < 4 && s[i] >= 128;
      NeverEnds(s, i + 1, value + s[i] % 128 * Place(i));
    }
  }

  /** An example of MQTT V3.1 section 2.1: 321 is 65 + 2 * 128. */
  lemma LengthExample()
    ensures EncodeLen(321) == [65 + 128, 2]
  {
  }

  /** Whatever is decoded, no bytes that decode to the same length are fewer than the encoder's. */
  lemma Shortest(s: seq<byte>)
    ensures DecodeLen(s).Length? ==>
              var (n, used) := (DecodeLen(s).value, DecodeLen(s).used); |EncodeLen(n)| <= used <= 4 && n <= MAX_LENGTH
  {
    DecodedBound(s, 0, 0);
    if DecodeLen(s).Length? && DecodeLen(s).used <= 4 {
      EncodeLenSize(DecodeLen(s).value, DecodeLen(s).used);
    }
  }

  lemma {:induction false} DecodedBound(s: seq<byte>, i: nat, value: nat)
    requires i <= 4 && value < Place(i)
    ensures var d := DecodeFrom(s, i, value, Place(i)); d.Length? ==> i < d.used <= 4 && d.value < Place(d.used)
    decreases 4 - i
  {
    if i < 4 && i < |s| && s[i] >= 128 {
      assert value + s[i] % 128 * Place(i) < Place(i + 1);
      DecodedBound(s, i + 1, value + s[i] % 128 * Place(i));
    }
  }
}
