/**
 * Length-prefixed DNS messages over TCP (src/net/tcp.rs; section 8 of RFC 7766, section 4.2.2 of
 * RFC 1035).  The stream is the bytes received before it ends, errs or times out, which the
 * reader does not tell apart.
 */
module TcpFraming {
  import opened Prelude

  const MAX_DNS_MESSAGE: nat := 65535

  type Message = seq<Byte>

  function FromBigEndian(high: Byte, low: Byte): nat {
    high * 256 + low
  }

  /** What the writer sends for one message: the length as a 16-bit number, then the bytes. */
  function Frame(data: Message): seq<Byte> {
    var len := |data| % 65536;
    [len / 256, len % 256] + data
  }

  function Wire(messages: seq<Message>): seq<Byte> {
    if messages == [] then [] else Frame(messages[0]) + Wire(messages[1..])
  }

  /** What the reader hands to the resolver. */
  function Delivered(stream: seq<Byte>): seq<Message>
    decreases |stream|
  {
    if |stream| < 2 then []
    else
      var len := FromBigEndian(stream[0], stream[1]);
      if len == 0 || |stream| < 2 + len then []
      else [stream[2..2 + len]] + Delivered(stream[2 + len..])
  }

  lemma DeliveredStep(stream: seq<Byte>, pos: nat, len: nat)
    requires pos + 2 <= |stream| && len == FromBigEndian(stream[pos], stream[pos + 1])
    requires 0 < len && pos + 2 + len <= |stream|
    ensures Delivered(stream[pos..]) == [stream[pos + 2..pos + 2 + len]] + Delivered(stream[pos + 2 + len..])
  {
    var rest := stream[pos..];
    assert rest[2..2 + len] == stream[pos + 2..pos + 2 + len];
    assert rest[2 + len..] == stream[pos + 2 + len..];
  }

  method ReadLoop(stream: seq<Byte>) returns (messages: seq<Message>)
    ensures messages == Delivered(stream)
  {
    messages := [];
    var pos := 0;
    while true
      invariant pos <= |stream|
      invariant Delivered(stream) == messages + Delivered(stream[pos..])
      decreases |stream| - pos
    {
      if |stream| - pos < 2 {
        return;
      }
      var msgLen := FromBigEndian(stream[pos], stream[pos + 1]);
      if msgLen == 0 || msgLen > MAX_DNS_MESSAGE {
        return;
      }
      if |stream| - pos - 2 < msgLen {
        return;
      }
      DeliveredStep(stream, pos, msgLen);
      ConcatAssociative(messages, [stream[pos + 2..pos + 2 + msgLen]], Delivered(stream[pos + 2 + msgLen..]));
      messages := messages + [stream[pos + 2..pos + 2 + msgLen]];
      pos := pos + 2 + msgLen;
    }
  }

  method WriteLoop(responses: seq<Message>) returns (sent: seq<Byte>)
    ensures sent == Wire(responses)
  {
    sent := [];
    for i := 0 to |responses|
      invariant Wire(responses) == sent + Wire(responses[i..])
    {
      var data := responses[i];
      var len := |data| % 65536;
      assert responses[i..][1..] == responses[i + 1..];
      sent := sent + [len / 256, len % 256];
      sent := sent + data;
    }
  }

  predicate Sendable(m: Message) {
    1 <= |m| <= 65535
  }

  lemma DeliverFirst(m: Message, rest: seq<Byte>)
    requires Sendable(m)
    ensures Delivered(Frame(m) + rest) == [m] + Delivered(rest)
  {
    var stream := Frame(m) + rest;
    assert FromBigEndian(stream[0], stream[1]) == |m|;
    assert stream[2..2 + |m|] == m;
    assert stream[2 + |m|..] == rest;
  }

  /** A frame cut short delivers nothing. */
  lemma DeliverPartial(m: Message, p: nat)
    requires Sendable(m) && p < |Frame(m)|
    ensures Delivered(Frame(m)[..p]) == []
  {
  }

  /**
   * After any number `p` of bytes of a well-formed stream, the reader has delivered exactly the
   * messages whose frames are complete: `k` is the number of frames that fit in `p` bytes.
   */
  lemma {:induction false} PrefixDelivery(messages: seq<Message>, p: nat, k: nat)
    requires forall i :: 0 <= i < |messages| ==> Sendable(messages[i])
    requires k <= |messages| && |Wire(messages[..k])| <= p <= |Wire(messages)|
    requires k < |messages| ==> p < |Wire(messages[..k + 1])|
    ensures Delivered(Wire(messages)[..p]) == messages[..k]
  {
    if messages != [] {
      var m, rest := messages[0], messages[1..];
      assert Wire(messages) == Frame(m) + Wire(rest);
      TakeConcat(Frame(m), Wire(rest), p);
      WireOfPrefix(messages, k);
      if k == 0 {
        WireOfPrefix(messages, 1);
        DeliverPartial(m, p);
      } else {
        if k < |messages| {
          WireOfPrefix(messages, k + 1);
        }
        var q := p - |Frame(m)|;
        PrefixDelivery(rest, q, k - 1);
        DeliverFirst(m, Wire(rest)[..q]);
        TakeCons(messages, k);
      }
    }
  }

  lemma TakeCons(messages: seq<Message>, k: nat)
    requires 0 < k <= |messages|
    ensures messages[..k] == [messages[0]] + messages[1..][..k - 1]
  {
  }

  lemma TakeConcat(a: seq<Byte>, b: seq<Byte>, p: nat)
    requires p <= |a + b|
    ensures p <= |a| ==> (a + b)[..p] == a[..p]
    ensures |a| <= p ==> (a + b)[..p] == a + b[..p - |a|]
  {
  }

  lemma WireOfPrefix(messages: seq<Message>, k: nat)
    requires messages != [] && k <= |messages|
    ensures Wire(messages[..k]) == if k == 0 then [] else Frame(messages[0]) + Wire(messages[1..][..k - 1])
  {
    if k > 0 {
      TakeCons(messages, k);
      assert messages[..k][1..] == messages[1..][..k - 1];
    }
  }

  lemma BadFrameBreaksRoundTrip(m: Message, rest: seq<Byte>, more: seq<Message>)
    requires !Sendable(m)
    ensures Delivered(Frame(m) + rest) != [m] + more
  {
    var stream := Frame(m) + rest;
    var len := |m| % 65536;
    assert FromBigEndian(stream[0], stream[1]) == len;
    if len > 0 {
      assert |Delivered(stream)[0]| == len < |m|;
    }
  }

  /** Writing and reading back gives the same list exactly when every message has 1 to 65535 bytes. */
  lemma {:induction false} RoundTripExactly(messages: seq<Message>)
    ensures Delivered(Wire(messages)) == messages <==> forall i :: 0 <= i < |messages| ==> Sendable(messages[i])
  {
    if messages != [] {
      var m, rest := messages[0], messages[1..];
      RoundTripExactly(rest);
      assert messages == [m] + rest;
      if Sendable(m) {
        DeliverFirst(m, Wire(rest));
        assert Delivered(Wire(messages)) == messages <==> Delivered(Wire(rest)) == rest;
      } else {
        BadFrameBreaksRoundTrip(m, Wire(rest), rest);
      }
    }
  }

  /**
   * On any bytes at all, the stream is the frames of what is delivered followed by a rest in which
   * no frame is complete.
   */
  lemma {:induction false} DeliveredIsPrefix(stream: seq<Byte>) returns (rest: seq<Byte>)
    ensures stream == Wire(Delivered(stream)) + rest
    ensures Delivered(rest) == []
    ensures forall i :: 0 <= i < |Delivered(stream)| ==> Sendable(Delivered(stream)[i])
    decreases |stream|
  {
    var out := Delivered(stream);
    if out == [] {
      rest := stream;
    } else {
      var m := out[0];
      FirstFrame(stream);
      var tail := stream[2 + |m|..];
      rest := DeliveredIsPrefix(tail);
      assert out == [m] + Delivered(tail) by { DeliverFirst(m, tail); }
      assert out[1..] == Delivered(tail);
      ConcatAssociative(Frame(m), Wire(Delivered(tail)), rest);
    }
  }

  lemma FirstFrame(stream: seq<Byte>)
    requires Delivered(stream) != []
    ensures var m := Delivered(stream)[0];
      Sendable(m) && |stream| >= 2 + |m| && stream == Frame(m) + stream[2 + |m|..]
  {
    var len := FromBigEndian(stream[0], stream[1]);
    var m := stream[2..2 + len];
    BigEndianDigits(stream[0], stream[1]);
    assert Frame(m) == [stream[0], stream[1]] + m;
    TwoThenRest(stream, len);
  }

  lemma BigEndianDigits(high: Byte, low: Byte)
    ensures var n := FromBigEndian(high, low); n % 65536 == n && n / 256 == high && n % 256 == low
  {
  }

  lemma TwoThenRest(stream: seq<Byte>, len: nat)
    requires |stream| >= 2 + len
    ensures stream == [stream[0], stream[1]] + stream[2..2 + len] + stream[2 + len..]
  {
  }
}
