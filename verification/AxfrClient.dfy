/**
 * The AXFR client's response loop (src/core/zone/secondary.rs).  Message decoding belongs to the
 * DNS library and is a parameter; the stream is the bytes received, with how it ended.
 */
module AxfrClient {
  import opened Prelude
  import opened TcpFraming

  datatype Record = Soa(owner: string, serial: nat) | Other(owner: string, data: nat)

  datatype Response = Response(noError: bool, truncated: bool, answers: seq<Record>)

  datatype StreamEnd = Eof | Failed

  datatype AxfrError = LengthUnread | BodyUnread | Unparsable | Refused

  predicate HasSoa(rs: seq<Record>) {
    exists i :: 0 <= i < |rs| && rs[i].Soa?
  }

  function NonSoa(rs: seq<Record>): seq<Record> {
    if rs == [] then []
    else if rs[0].Soa? then NonSoa(rs[1..])
    else [rs[0]] + NonSoa(rs[1..])
  }

  function OnlySoa(rs: seq<Record>): seq<Record> {
    if rs == [] then []
    else if rs[0].Soa? then [rs[0]] + OnlySoa(rs[1..])
    else OnlySoa(rs[1..])
  }

  /** The records in order, without any SOA after the first. */
  function KeepFirstSoa(rs: seq<Record>): seq<Record> {
    if rs == [] then []
    else if rs[0].Soa? then [rs[0]] + NonSoa(rs[1..])
    else [rs[0]] + KeepFirstSoa(rs[1..])
  }

  /** All the answers the loop consumes from `stream` starting at `pos`, after the answers `sofar`. */
  function Consumed(decode: Message -> Option<Response>, stream: seq<Byte>, pos: nat, end: StreamEnd, sofar: seq<Record>)
    : Result<seq<Record>, AxfrError>
    requires pos <= |stream|
    decreases |stream| - pos
  {
    if |stream| - pos < 2 then (if end.Eof? then Ok(sofar) else Err(LengthUnread))
    else
      var len := FromBigEndian(stream[pos], stream[pos + 1]);
      if len == 0 then Ok(sofar)
      else if |stream| - pos - 2 < len then Err(BodyUnread)
      else
        match decode(stream[pos + 2..pos + 2 + len])
        case None => Err(Unparsable)
        case Some(response) =>
          if !response.noError then Err(Refused)
          else
            var all := sofar + response.answers;
            if !response.truncated && HasSoa(all) then Ok(all)
            else Consumed(decode, stream, pos + 2 + len, end, all)
  }

  function Transferred(decode: Message -> Option<Response>, stream: seq<Byte>, end: StreamEnd)
    : Result<seq<Record>, AxfrError>
  {
    match Consumed(decode, stream, 0, end, [])
    case Ok(all) => Ok(KeepFirstSoa(all))
    case Err(e) => Err(e)
  }

  // ----- The sequence facts the loop rests on -----

  lemma {:induction false} NonSoaConcat(a: seq<Record>, b: seq<Record>)
    ensures NonSoa(a + b) == NonSoa(a) + NonSoa(b)
  {
    if a == [] {
      assert a + b == b;
    } else {
      NonSoaConcat(a[1..], b);
      assert (a + b)[0] == a[0] && (a + b)[1..] == a[1..] + b;
      ConcatAssociative([a[0]], NonSoa(a[1..]), NonSoa(b));
    }
  }

  lemma HasSoaTail(a: seq<Record>)
    requires a != [] && !a[0].Soa?
    ensures HasSoa(a) <==> HasSoa(a[1..])
  {
  }

  lemma {:induction false} KeepFirstSoaConcat(a: seq<Record>, b: seq<Record>)
    ensures KeepFirstSoa(a + b) == KeepFirstSoa(a) + (if HasSoa(a) then NonSoa(b) else KeepFirstSoa(b))
  {
    if a == [] {
      assert a + b == b;
    } else {
      assert (a + b)[0] == a[0] && (a + b)[1..] == a[1..] + b;
      if a[0].Soa? {
        NonSoaConcat(a[1..], b);
        ConcatAssociative([a[0]], NonSoa(a[1..]), NonSoa(b));
        assert HasSoa(a);
      } else {
        KeepFirstSoaConcat(a[1..], b);
        HasSoaTail(a);
        ConcatAssociative([a[0]], KeepFirstSoa(a[1..]), if HasSoa(a) then NonSoa(b) else KeepFirstSoa(b));
      }
    }
  }

  /** `KeepFirstSoa` keeps every other record in order and exactly the first SOA. */
  lemma {:induction false} KeepFirstSoaMeaning(rs: seq<Record>)
    ensures NonSoa(KeepFirstSoa(rs)) == NonSoa(rs)
    ensures OnlySoa(KeepFirstSoa(rs)) == OnlySoa(rs)[..Min(1, |OnlySoa(rs)|)]
    ensures HasSoa(KeepFirstSoa(rs)) <==> HasSoa(rs)
  {
    if rs != [] {
      var kept := KeepFirstSoa(rs);
      if rs[0].Soa? {
        assert kept[1..] == NonSoa(rs[1..]);
        NonSoaOfNonSoa(rs[1..]);
        assert kept[0].Soa? && rs[0].Soa?;
        assert HasSoa(kept) && HasSoa(rs);
      } else {
        KeepFirstSoaMeaning(rs[1..]);
        assert kept[1..] == KeepFirstSoa(rs[1..]);
        HasSoaTail(rs);
        HasSoaTail(kept);
      }
    }
  }

  lemma {:induction false} NonSoaOfNonSoa(rs: seq<Record>)
    ensures NonSoa(NonSoa(rs)) == NonSoa(rs) && OnlySoa(NonSoa(rs)) == []
  {
    if rs != [] {
      NonSoaOfNonSoa(rs[1..]);
      if !rs[0].Soa? {
        assert NonSoa(rs)[1..] == NonSoa(rs[1..]);
      }
    }
  }

  lemma KeepFirstSoaSnoc(a: seq<Record>, r: Record)
    ensures KeepFirstSoa(a + [r]) == if r.Soa? && HasSoa(a) then KeepFirstSoa(a) else KeepFirstSoa(a) + [r]
    ensures HasSoa(a + [r]) <==> HasSoa(a) || r.Soa?
  {
    KeepFirstSoaConcat(a, [r]);
    assert [r][1..] == [];
    if HasSoa(a) {
      var i :| 0 <= i < |a| && a[i].Soa?;
      assert (a + [r])[i].Soa?;
    }
    assert (a + [r])[|a|] == r;
  }

  // ----- The code -----

  /** The inner loop over one response's answers; `all` is the answers consumed before it. */
  method Absorb(records: seq<Record>, sawSoaStart: bool, answers: seq<Record>, ghost all: seq<Record>)
    returns (records': seq<Record>, sawSoaStart': bool)
    requires records == KeepFirstSoa(all) && sawSoaStart == HasSoa(all)
    ensures records' == KeepFirstSoa(all + answers) && sawSoaStart' == HasSoa(all + answers)
  {
    records', sawSoaStart' := records, sawSoaStart;
    assert all + answers[..0] == all;
    for i := 0 to |answers|
      invariant records' == KeepFirstSoa(all + answers[..i]) && sawSoaStart' == HasSoa(all + answers[..i])
    {
      var rr := answers[i];
      KeepFirstSoaSnoc(all + answers[..i], rr);
      assert all + answers[..i + 1] == all + answers[..i] + [rr];
      if rr.Soa? {
        if !sawSoaStart' {
          sawSoaStart' := true;
        } else {
          continue;
        }
      }
      records' := records' + [rr];
    }
    assert answers[..|answers|] == answers;
  }

  /** What one response leaves behind: the records so far, whether an SOA was seen, and whether to stop. */
  datatype Progress = Progress(records: seq<Record>, sawSoaStart: bool, stop: bool)

  /** The part of the loop after a message body has been read. */
  method TakeResponse(response: Option<Response>, records: seq<Record>, sawSoaStart: bool, ghost all: seq<Record>)
    returns (result: Result<Progress, AxfrError>)
    requires records == KeepFirstSoa(all) && sawSoaStart == HasSoa(all)
    ensures result ==
      match response
      case None => Err(Unparsable)
      case Some(r) =>
        if !r.noError then Err(Refused)
        else Ok(Progress(KeepFirstSoa(all + r.answers), HasSoa(all + r.answers), !r.truncated && HasSoa(all + r.answers)))
  {
    if response.None? {
      return Err(Unparsable);
    }
    if !response.value.noError {
      return Err(Refused);
    }
    var records', sawSoaStart' := Absorb(records, sawSoaStart, response.value.answers, all);
    KeepFirstSoaMeaning(all + response.value.answers);
    var stop := !response.value.truncated && sawSoaStart' && HasSoa(records');
    return Ok(Progress(records', sawSoaStart', stop));
  }

  method AxfrRecords(decode: Message -> Option<Response>, stream: seq<Byte>, end: StreamEnd)
    returns (result: Result<seq<Record>, AxfrError>)
    ensures result == Transferred(decode, stream, end)
  {
    var progress := Progress([], false, false);
    ghost var all: seq<Record> := [];
    var pos := 0;
    while true
      invariant pos <= |stream|
      invariant Consumed(decode, stream, 0, end, []) == Consumed(decode, stream, pos, end, all)
      invariant progress.records == KeepFirstSoa(all) && progress.sawSoaStart == HasSoa(all)
      decreases |stream| - pos
    {
      if |stream| - pos < 2 {
        if end.Eof? {
          break;
        }
        return Err(LengthUnread);
      }
      var msgLen := FromBigEndian(stream[pos], stream[pos + 1]);
      if msgLen == 0 {
        break;
      }
      if |stream| - pos - 2 < msgLen {
        return Err(BodyUnread);
      }
      var response := decode(stream[pos + 2..pos + 2 + msgLen]);
      pos := pos + 2 + msgLen;
      var taken := TakeResponse(response, progress.records, progress.sawSoaStart, all);
      if taken.Err? {
        return Err(taken.error);
      }
      progress := taken.value;
      all := all + response.value.answers;
      if progress.stop {
        break;
      }
    }
    return Ok(progress.records);
  }

  // ----- What a stream of messages yields -----

  function Answers(ms: seq<Response>): seq<Record> {
    if ms == [] then [] else Answers(ms[..|ms| - 1]) + ms[|ms| - 1].answers
  }

  /** The loop stops after message `i`: it has TC clear and an SOA has arrived by then. */
  predicate StopsAt(ms: seq<Response>, i: nat)
    requires i < |ms|
  {
    !ms[i].truncated && HasSoa(Answers(ms[..i + 1]))
  }

  /** `bodies` carry the messages `ms`. */
  ghost predicate Carry(decode: Message -> Option<Response>, bodies: seq<Message>, ms: seq<Response>) {
    && |bodies| == |ms|
    && forall i :: 0 <= i < |ms| ==> Sendable(bodies[i]) && decode(bodies[i]) == Some(ms[i])
  }

  /** What lies before the position does not matter. */
  lemma {:induction false} ConsumedShift(decode: Message -> Option<Response>, gone: seq<Byte>, rest: seq<Byte>, pos: nat,
                                         end: StreamEnd, sofar: seq<Record>)
    requires pos <= |rest|
    ensures Consumed(decode, gone + rest, |gone| + pos, end, sofar) == Consumed(decode, rest, pos, end, sofar)
    decreases |rest| - pos
  {
    var stream, at := gone + rest, |gone| + pos;
    if |rest| - pos >= 2 {
      assert stream[at] == rest[pos] && stream[at + 1] == rest[pos + 1];
      var len := FromBigEndian(rest[pos], rest[pos + 1]);
      if 0 < len <= |rest| - pos - 2 {
        assert stream[at + 2..at + 2 + len] == rest[pos + 2..pos + 2 + len];
        var response := decode(rest[pos + 2..pos + 2 + len]);
        if response.Some? {
          ConsumedShift(decode, gone, rest, pos + 2 + len, end, sofar + response.value.answers);
        }
      }
    }
  }

  lemma ConsumeOne(decode: Message -> Option<Response>, body: Message, m: Response, rest: seq<Byte>, end: StreamEnd, sofar: seq<Record>)
    requires Sendable(body) && decode(body) == Some(m) && m.noError
    ensures Consumed(decode, Frame(body) + rest, 0, end, sofar) ==
      if !m.truncated && HasSoa(sofar + m.answers) then Ok(sofar + m.answers)
      else Consumed(decode, rest, 0, end, sofar + m.answers)
  {
    var stream := Frame(body) + rest;
    assert FromBigEndian(stream[0], stream[1]) == |body|;
    assert stream[2..2 + |body|] == body;
    ConsumedShift(decode, Frame(body), rest, 0, end, sofar + m.answers);
  }

  /** With no stop among the first `k` NoError messages, the loop goes on with their answers collected. */
  lemma {:induction false} ConsumeMany(decode: Message -> Option<Response>, bodies: seq<Message>, ms: seq<Response>, k: nat,
                                       rest: seq<Byte>, end: StreamEnd)
    requires Carry(decode, bodies, ms) && k <= |ms|
    requires forall i :: 0 <= i < k ==> ms[i].noError && !StopsAt(ms, i)
    ensures Consumed(decode, Wire(bodies[..k]) + rest, 0, end, []) == Consumed(decode, rest, 0, end, Answers(ms[..k]))
  {
    if k == 0 {
      assert Wire(bodies[..0]) + rest == rest;
    } else {
      var n := k - 1;
      WireSnoc(bodies[..n], bodies[n]);
      assert bodies[..k] == bodies[..n] + [bodies[n]] && ms[..k][..n] == ms[..n];
      assert Wire(bodies[..k]) + rest == Wire(bodies[..n]) + (Frame(bodies[n]) + rest);
      ConsumeMany(decode, bodies, ms, n, Frame(bodies[n]) + rest, end);
      assert ms[n].noError && !StopsAt(ms, n);
      ConsumeOne(decode, bodies[n], ms[n], rest, end, Answers(ms[..n]));
    }
  }

  lemma {:induction false} WireConcat(a: seq<Message>, b: seq<Message>)
    ensures Wire(a + b) == Wire(a) + Wire(b)
  {
    if a == [] {
      assert a + b == b;
    } else {
      WireConcat(a[1..], b);
      assert (a + b)[0] == a[0] && (a + b)[1..] == a[1..] + b;
      ConcatAssociative(Frame(a[0]), Wire(a[1..]), Wire(b));
    }
  }

  lemma WireSnoc(bodies: seq<Message>, body: Message)
    ensures Wire(bodies + [body]) == Wire(bodies) + Frame(body)
  {
    WireConcat(bodies, [body]);
    assert [body][1..] == [];
  }

  /**
   * The transfer ends at the first message with TC clear by which an SOA has arrived, whatever
   * follows it: the result is everything up to there without any SOA after the first.
   */
  lemma TransferStops(decode: Message -> Option<Response>, bodies: seq<Message>, ms: seq<Response>, c: nat,
                      rest: seq<Byte>, end: StreamEnd)
    requires Carry(decode, bodies, ms) && c < |ms| && StopsAt(ms, c)
    requires forall i :: 0 <= i < c ==> !StopsAt(ms, i)
    requires forall i :: 0 <= i <= c ==> ms[i].noError
    ensures Transferred(decode, Wire(bodies[..c + 1]) + rest, end) == Ok(KeepFirstSoa(Answers(ms[..c + 1])))
  {
    WireSnoc(bodies[..c], bodies[c]);
    assert bodies[..c + 1] == bodies[..c] + [bodies[c]] && ms[..c + 1][..c] == ms[..c];
    assert Wire(bodies[..c + 1]) + rest == Wire(bodies[..c]) + (Frame(bodies[c]) + rest);
    ConsumeMany(decode, bodies, ms, c, Frame(bodies[c]) + rest, end);
    ConsumeOne(decode, bodies[c], ms[c], rest, end, Answers(ms[..c]));
  }

  /**
   * With no such message, the transfer takes everything up to a clean end of stream, a stray byte before it
   * allowed, or a zero-length frame.
   */
  lemma TransferRunsOut(decode: Message -> Option<Response>, bodies: seq<Message>, ms: seq<Response>, rest: seq<Byte>, end: StreamEnd)
    requires Carry(decode, bodies, ms)
    requires forall i :: 0 <= i < |ms| ==> ms[i].noError && !StopsAt(ms, i)
    requires (|rest| < 2 && end.Eof?) || [0, 0] <= rest
    ensures Transferred(decode, Wire(bodies) + rest, end) == Ok(KeepFirstSoa(Answers(ms)))
  {
    ConsumeMany(decode, bodies, ms, |ms|, rest, end);
    assert bodies[..|ms|] == bodies && ms[..|ms|] == ms;
  }

  lemma {:induction false} AnswersConcat(a: seq<Response>, b: seq<Response>)
    ensures Answers(a + b) == Answers(a) + Answers(b)
  {
    if b == [] {
      assert a + b == a;
    } else {
      var n := |b| - 1;
      AnswersConcat(a, b[..n]);
      assert (a + b)[..|a + b| - 1] == a + b[..n];
      ConcatAssociative(Answers(a), Answers(b[..n]), b[n].answers);
    }
  }

  lemma CutAnswers(ms: seq<Response>, c: nat)
    requires c < |ms| && StopsAt(ms, c)
    ensures KeepFirstSoa(Answers(ms)) == KeepFirstSoa(Answers(ms[..c + 1])) + NonSoa(Answers(ms[c + 1..]))
  {
    var a, b := ms[..c + 1], ms[c + 1..];
    assert ms == a + b;
    AnswersConcat(a, b);
    KeepFirstSoaConcat(Answers(a), Answers(b));
  }

  /** `c` is the first message at which the loop stops, or the number of messages if it does not. */
  ghost predicate FirstStop(ms: seq<Response>, c: nat) {
    c <= |ms| && (c < |ms| ==> StopsAt(ms, c)) && forall i :: 0 <= i < c ==> !StopsAt(ms, i)
  }

  /**
   * A transfer brings the whole zone exactly when the messages after the stopping one, if there is one,
   * hold nothing but SOA records: the opening SOA already satisfies the stop test, so a zone sent in several
   * messages with TC clear loses all but the first.
   */
  lemma CompleteExactly(decode: Message -> Option<Response>, bodies: seq<Message>, ms: seq<Response>, c: nat)
    requires Carry(decode, bodies, ms) && FirstStop(ms, c)
    requires forall i :: 0 <= i < |ms| && i <= c ==> ms[i].noError
    ensures Transferred(decode, Wire(bodies), Eof) == Ok(KeepFirstSoa(Answers(ms)))
      <==> c == |ms| || NonSoa(Answers(ms[c + 1..])) == []
  {
    if c == |ms| {
      TransferWhole(decode, bodies, ms);
    } else {
      TransferCut(decode, bodies, ms, c);
      CutAnswers(ms, c);
      NothingAdded(KeepFirstSoa(Answers(ms[..c + 1])), NonSoa(Answers(ms[c + 1..])));
    }
  }

  lemma NothingAdded(a: seq<Record>, b: seq<Record>)
    ensures a == a + b <==> b == []
  {
    assert |a + b| == |a| + |b|;
  }

  lemma TransferWhole(decode: Message -> Option<Response>, bodies: seq<Message>, ms: seq<Response>)
    requires Carry(decode, bodies, ms)
    requires forall i :: 0 <= i < |ms| ==> ms[i].noError && !StopsAt(ms, i)
    ensures Transferred(decode, Wire(bodies), Eof) == Ok(KeepFirstSoa(Answers(ms)))
  {
    TransferRunsOut(decode, bodies, ms, [], Eof);
    assert Wire(bodies) + [] == Wire(bodies);
  }

  lemma TransferCut(decode: Message -> Option<Response>, bodies: seq<Message>, ms: seq<Response>, c: nat)
    requires Carry(decode, bodies, ms) && c < |ms| && FirstStop(ms, c)
    requires forall i :: 0 <= i <= c ==> ms[i].noError
    ensures Transferred(decode, Wire(bodies), Eof) == Ok(KeepFirstSoa(Answers(ms[..c + 1])))
  {
    assert bodies == bodies[..c + 1] + bodies[c + 1..];
    WireConcat(bodies[..c + 1], bodies[c + 1..]);
    TransferStops(decode, bodies, ms, c, Wire(bodies[c + 1..]), Eof);
  }

  /**
   * A zone sent in one message, opened and closed by its SOA (section 2.2 of RFC 5936), comes back with one
   * SOA and every other record.
   */
  lemma SingleMessageZone(decode: Message -> Option<Response>, message: Message, soa: Record, body: seq<Record>, closing: Record,
                          rest: seq<Byte>, end: StreamEnd)
    requires soa.Soa? && closing.Soa? && !HasSoa(body)
    requires Sendable(message) && decode(message) == Some(Response(true, false, [soa] + body + [closing]))
    ensures Transferred(decode, Frame(message) + rest, end) == Ok([soa] + body)
  {
    var all := [soa] + body + [closing];
    assert [] + all == all && all[0].Soa?;
    ConsumeOne(decode, message, Response(true, false, all), rest, end, []);
    assert KeepFirstSoa(all) == [soa] + body by { ZoneRecords(soa, body, closing); }
  }

  lemma ZoneRecords(soa: Record, body: seq<Record>, closing: Record)
    requires soa.Soa? && closing.Soa? && !HasSoa(body)
    ensures KeepFirstSoa([soa] + body + [closing]) == [soa] + body
  {
    NonSoaOfOthers(body);
    assert KeepFirstSoa([soa] + body) == [soa] + body by { assert ([soa] + body)[1..] == body; }
    assert ([soa] + body)[0].Soa?;
    KeepFirstSoaSnoc([soa] + body, closing);
  }

  /** The same zone split over two messages with TC clear comes back with the first one's records only. */
  lemma SplitZoneCutShort(decode: Message -> Option<Response>, first: Message, soa: Record, body: seq<Record>,
                          rest: seq<Byte>, end: StreamEnd)
    requires soa.Soa? && !HasSoa(body)
    requires Sendable(first) && decode(first) == Some(Response(true, false, [soa] + body))
    ensures Transferred(decode, Frame(first) + rest, end) == Ok([soa] + body)
  {
    var all := [soa] + body;
    assert [] + all == all && all[0].Soa? && all[1..] == body;
    assert HasSoa(all);
    ConsumeOne(decode, first, Response(true, false, all), rest, end, []);
    NonSoaOfOthers(body);
  }

  lemma {:induction false} NonSoaOfOthers(rs: seq<Record>)
    requires !HasSoa(rs)
    ensures NonSoa(rs) == rs
  {
    if rs != [] {
      assert !rs[0].Soa?;
      HasSoaTail(rs);
      NonSoaOfOthers(rs[1..]);
    }
  }

  // ----- Exactly when a transfer succeeds, and how it fails -----

  /** The stream starts with the messages `ms`, all NoError and none of them stopping the loop, and goes on with `rest`. */
  ghost predicate Reads(decode: Message -> Option<Response>, stream: seq<Byte>, bodies: seq<Message>, ms: seq<Response>, rest: seq<Byte>) {
    && stream == Wire(bodies) + rest
    && Carry(decode, bodies, ms)
    && forall i :: 0 <= i < |ms| ==> ms[i].noError && !StopsAt(ms, i)
  }

  /** `rest` starts with a whole frame around `body`. */
  ghost predicate FrameNext(rest: seq<Byte>, body: Message) {
    Sendable(body) && Frame(body) <= rest
  }

  /**
   * What follows ends the loop: the stream is over, at most one byte short of a length, or a zero length
   * comes, or a stopping message.
   */
  ghost predicate EndsWell(decode: Message -> Option<Response>, ms: seq<Response>, rest: seq<Byte>, end: StreamEnd) {
    || (|rest| < 2 && end.Eof?)
    || [0, 0] <= rest
    || exists body, m :: FrameNext(rest, body) && decode(body) == Some(m) && m.noError && StopsAt(ms + [m], |ms|)
  }

  /** What follows fails the transfer with `e`. */
  ghost predicate EndsBadly(decode: Message -> Option<Response>, rest: seq<Byte>, end: StreamEnd, e: AxfrError) {
    match e
    case LengthUnread => |rest| < 2 && end.Failed?
    case BodyUnread => exists body :: Sendable(body) && 2 <= |rest| < |Frame(body)| && rest <= Frame(body)
    case Unparsable => exists body :: FrameNext(rest, body) && decode(body) == None
    case Refused => exists body, m :: FrameNext(rest, body) && decode(body) == Some(m) && !m.noError
  }

  lemma FrontOfFrame(rest: seq<Byte>, body: Message)
    requires Sendable(body) && 2 <= |rest| && (rest <= Frame(body) || Frame(body) <= rest)
    ensures FromBigEndian(rest[0], rest[1]) == |body|
  {
    assert rest[0] == Frame(body)[0] && rest[1] == Frame(body)[1];
  }

  /** A transfer that reads `ms` and then fails as said reports exactly that error. */
  lemma TransferFails(decode: Message -> Option<Response>, stream: seq<Byte>, bodies: seq<Message>, ms: seq<Response>,
                      rest: seq<Byte>, end: StreamEnd, e: AxfrError)
    requires Reads(decode, stream, bodies, ms, rest) && EndsBadly(decode, rest, end, e)
    ensures Transferred(decode, stream, end) == Err(e)
  {
    ConsumeMany(decode, bodies, ms, |ms|, rest, end);
    assert bodies[..|ms|] == bodies && ms[..|ms|] == ms;
    RestFails(decode, rest, end, e, Answers(ms));
  }

  lemma RestFails(decode: Message -> Option<Response>, rest: seq<Byte>, end: StreamEnd, e: AxfrError, sofar: seq<Record>)
    requires EndsBadly(decode, rest, end, e)
    ensures Consumed(decode, rest, 0, end, sofar) == Err(e)
  {
    match e
    case LengthUnread =>
    case BodyUnread =>
      var body :| Sendable(body) && 2 <= |rest| < |Frame(body)| && rest <= Frame(body);
      FrontOfFrame(rest, body);
    case Unparsable =>
      var body :| FrameNext(rest, body) && decode(body) == None;
      FrontOfFrame(rest, body);
      assert rest[2..2 + |body|] == body;
    case Refused =>
      var body, m :| FrameNext(rest, body) && decode(body) == Some(m) && !m.noError;
      FrontOfFrame(rest, body);
      assert rest[2..2 + |body|] == body;
  }

  lemma TransferSucceeds(decode: Message -> Option<Response>, stream: seq<Byte>, bodies: seq<Message>, ms: seq<Response>,
                         rest: seq<Byte>, end: StreamEnd)
    requires Reads(decode, stream, bodies, ms, rest) && EndsWell(decode, ms, rest, end)
    ensures Transferred(decode, stream, end).Ok?
  {
    if (|rest| < 2 && end.Eof?) || [0, 0] <= rest {
      TransferRunsOut(decode, bodies, ms, rest, end);
    } else {
      var body, m :| FrameNext(rest, body) && decode(body) == Some(m) && m.noError && StopsAt(ms + [m], |ms|);
      var more := rest[|Frame(body)|..];
      assert rest == Frame(body) + more;
      ReadsThenStops(decode, bodies, ms, body, m, more, end);
    }
  }

  lemma ReadsThenStops(decode: Message -> Option<Response>, bodies: seq<Message>, ms: seq<Response>, body: Message, m: Response,
                       more: seq<Byte>, end: StreamEnd)
    requires Carry(decode, bodies, ms) && forall i :: 0 <= i < |ms| ==> ms[i].noError && !StopsAt(ms, i)
    requires Sendable(body) && decode(body) == Some(m) && m.noError && StopsAt(ms + [m], |ms|)
    ensures Transferred(decode, Wire(bodies) + (Frame(body) + more), end) == Ok(KeepFirstSoa(Answers(ms + [m])))
  {
    ConsumeMany(decode, bodies, ms, |ms|, Frame(body) + more, end);
    assert bodies[..|ms|] == bodies && ms[..|ms|] == ms;
    ConsumeOne(decode, body, m, more, end, Answers(ms));
    assert (ms + [m])[..|ms| + 1] == ms + [m] && (ms + [m])[..|ms|] == ms;
  }

  lemma ReadsSnoc(decode: Message -> Option<Response>, stream: seq<Byte>, bodies: seq<Message>, ms: seq<Response>,
                  body: Message, m: Response, more: seq<Byte>)
    requires Reads(decode, stream, bodies, ms, Frame(body) + more)
    requires Sendable(body) && decode(body) == Some(m) && m.noError && !StopsAt(ms + [m], |ms|)
    ensures Reads(decode, stream, bodies + [body], ms + [m], more)
  {
    WireSnoc(bodies, body);
    ConcatAssociative(Wire(bodies), Frame(body), more);
    forall i | 0 <= i < |ms + [m]| ensures (ms + [m])[i].noError && !StopsAt(ms + [m], i) {
      if i < |ms| {
        assert ms[i].noError && !StopsAt(ms, i);
        assert (ms + [m])[..i + 1] == ms[..i + 1];
      }
    }
  }

  /** A complete frame at the front of any bytes. */
  lemma FrameAtFront(rest: seq<Byte>, len: nat)
    requires 2 <= |rest| && len == FromBigEndian(rest[0], rest[1]) && 0 < len <= |rest| - 2
    ensures var body := rest[2..2 + len]; Sendable(body) && rest == Frame(body) + rest[2 + len..]
  {
    var body := rest[2..2 + len];
    BigEndianDigits(rest[0], rest[1]);
    assert Frame(body) == [rest[0], rest[1]] + body;
    TwoThenRest(rest, len);
  }

  lemma CutFrame(rest: seq<Byte>, len: nat)
    requires 2 <= |rest| && len == FromBigEndian(rest[0], rest[1]) && len > |rest| - 2
    ensures exists body :: Sendable(body) && 2 <= |rest| < |Frame(body)| && rest <= Frame(body)
  {
    var zero: Byte := 0;
    var body := rest[2..] + seq(len - (|rest| - 2), _ => zero);
    BigEndianDigits(rest[0], rest[1]);
    assert |body| == len;
    assert Frame(body) == [rest[0], rest[1]] + body;
    assert rest == [rest[0], rest[1]] + rest[2..];
    assert rest <= Frame(body);
  }

  /** The loop is over at `rest`, well or badly. */
  ghost predicate Settled(decode: Message -> Option<Response>, ms: seq<Response>, rest: seq<Byte>, end: StreamEnd) {
    EndsWell(decode, ms, rest, end) || exists e :: EndsBadly(decode, rest, end, e)
  }

  lemma SettledBeforeBody(decode: Message -> Option<Response>, ms: seq<Response>, rest: seq<Byte>, end: StreamEnd)
    requires |rest| < 2 || FromBigEndian(rest[0], rest[1]) == 0 || FromBigEndian(rest[0], rest[1]) > |rest| - 2
    ensures Settled(decode, ms, rest, end)
  {
    if |rest| < 2 {
      assert end.Failed? ==> EndsBadly(decode, rest, end, LengthUnread);
    } else if FromBigEndian(rest[0], rest[1]) == 0 {
      assert rest[0] == 0 && rest[1] == 0;
      assert [0, 0] <= rest;
    } else {
      CutFrame(rest, FromBigEndian(rest[0], rest[1]));
      assert EndsBadly(decode, rest, end, BodyUnread);
    }
  }

  lemma SettledAtBody(decode: Message -> Option<Response>, ms: seq<Response>, rest: seq<Byte>, end: StreamEnd, body: Message)
    requires FrameNext(rest, body)
    requires decode(body).Some? && decode(body).value.noError ==> StopsAt(ms + [decode(body).value], |ms|)
    ensures Settled(decode, ms, rest, end)
  {
    if decode(body).None? {
      assert EndsBadly(decode, rest, end, Unparsable);
    } else if !decode(body).value.noError {
      assert EndsBadly(decode, rest, end, Refused);
    }
  }

  /** Any stream is read message by message up to a place where the loop is over. */
  lemma {:induction false} ReadOn(decode: Message -> Option<Response>, stream: seq<Byte>, end: StreamEnd,
                                  bodies: seq<Message>, ms: seq<Response>, rest: seq<Byte>)
    returns (bodies': seq<Message>, ms': seq<Response>, rest': seq<Byte>)
    requires Reads(decode, stream, bodies, ms, rest)
    ensures Reads(decode, stream, bodies', ms', rest') && Settled(decode, ms', rest', end)
    decreases |rest|
  {
    bodies', ms', rest' := bodies, ms, rest;
    if |rest| < 2 || FromBigEndian(rest[0], rest[1]) == 0 || FromBigEndian(rest[0], rest[1]) > |rest| - 2 {
      SettledBeforeBody(decode, ms, rest, end);
    } else {
      var len := FromBigEndian(rest[0], rest[1]);
      FrameAtFront(rest, len);
      var body, more := rest[2..2 + len], rest[2 + len..];
      var response := decode(body);
      if response.Some? && response.value.noError && !StopsAt(ms + [response.value], |ms|) {
        ReadsSnoc(decode, stream, bodies, ms, body, response.value, more);
        bodies', ms', rest' := ReadOn(decode, stream, end, bodies + [body], ms + [response.value], more);
      } else {
        SettledAtBody(decode, ms, rest, end, body);
      }
    }
  }

  /**
   * On any bytes and any end of the stream: the transfer succeeds exactly when the messages before some
   * place are NoError and do not stop the loop, and at that place the stream ends cleanly, a zero
   * length stands, or a stopping message does.
   */
  lemma SucceedsExactly(decode: Message -> Option<Response>, stream: seq<Byte>, end: StreamEnd)
    ensures Transferred(decode, stream, end).Ok? <==>
      exists bodies, ms, rest :: Reads(decode, stream, bodies, ms, rest) && EndsWell(decode, ms, rest, end)
  {
    forall bodies, ms, rest | Reads(decode, stream, bodies, ms, rest) && EndsWell(decode, ms, rest, end)
      ensures Transferred(decode, stream, end).Ok?
    {
      TransferSucceeds(decode, stream, bodies, ms, rest, end);
    }
    if Transferred(decode, stream, end).Ok? {
      assert Reads(decode, stream, [], [], stream);
      var bodies, ms, rest := ReadOn(decode, stream, end, [], [], stream);
      if !EndsWell(decode, ms, rest, end) {
        var e :| EndsBadly(decode, rest, end, e);
        TransferFails(decode, stream, bodies, ms, rest, end, e);
      }
    }
  }

  /**
   * And it fails with a given error exactly when, after such messages, the stream fails before a length, ends
   * inside a body, or brings a body that does not decode or a message with an error code.
   */
  lemma FailsExactly(decode: Message -> Option<Response>, stream: seq<Byte>, end: StreamEnd, e: AxfrError)
    ensures Transferred(decode, stream, end) == Err(e) <==>
      exists bodies, ms, rest :: Reads(decode, stream, bodies, ms, rest) && EndsBadly(decode, rest, end, e)
  {
    forall bodies, ms, rest | Reads(decode, stream, bodies, ms, rest) && EndsBadly(decode, rest, end, e)
      ensures Transferred(decode, stream, end) == Err(e)
    {
      TransferFails(decode, stream, bodies, ms, rest, end, e);
    }
    if Transferred(decode, stream, end) == Err(e) {
      assert Reads(decode, stream, [], [], stream);
      var bodies, ms, rest := ReadOn(decode, stream, end, [], [], stream);
      if EndsWell(decode, ms, rest, end) {
        TransferSucceeds(decode, stream, bodies, ms, rest, end);
      } else {
        var f :| EndsBadly(decode, rest, end, f);
        TransferFails(decode, stream, bodies, ms, rest, end, f);
      }
    }
  }
}
