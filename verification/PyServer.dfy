/**
 * The Python worker's request loop: a request that cannot be inferred, or whose answer cannot be
 * sent, is answered with an error on the same connection.
 */
module PyServer {
  import opened Bytes
  import opened Doubles
  import opened Protocol
  import opened Decoders
  import opened Optional
  import opened Requests
  import opened Replies
  import opened Channels
  import opened Workers

  // What `infer` did: its result, or the text of the exception it raised.
  datatype Inference = Inferred(text: seq<Byte>, encoding: seq<Byte>, seconds: Double) | Raised(error: seq<Byte>)

  type Engine = Message -> Inference

  function Ascii(s: string): (bs: seq<Byte>)
    ensures |bs| == |s| && forall i :: 0 <= i < |s| && s[i] as int < 256 ==> bs[i] == s[i] as int
  {
    seq(|s|, i requires 0 <= i < |s| => s[i] as int % 256)
  }

  function ErrorReply(error: seq<Byte>): Reply {
    Reply(false, [], error, Ascii("flashrt_cosmos3_error"), false, ZERO)
  }

  /** The reply to a request when no write fails: an answer that is too long becomes an error itself. */
  function PyReply(o: Inference): Reply {
    match o
    case Raised(error) => ErrorReply(error)
    case Inferred(text, encoding, seconds) =>
      var r := Reply(true, text, [], encoding, false, seconds);
      if ReplyFits(r) then r else ErrorReply(Ascii("response exceeds protocol text limit"))
  }

  // ctypes structs start out zeroed, padding included.
  function PyResponse(engine: Engine, m: Message): seq<Byte> {
    if ReplyFits(PyReply(engine(m))) then ReplyThen(m.header.requestId, PyReply(engine(m)), 0, []) else []
  }

  function PyResponses(engine: Engine, ms: seq<Message>): seq<Byte> {
    if ms == [] then [] else PyResponses(engine, ms[..|ms| - 1]) + PyResponse(engine, ms[|ms| - 1])
  }

  lemma PyResponsesSnoc(engine: Engine, ms: seq<Message>, m: Message)
    ensures PyResponses(engine, ms + [m]) == PyResponses(engine, ms) + PyResponse(engine, m)
  {
    assert (ms + [m])[..|ms|] == ms;
  }

  /** `send_response`: false where it raises, which it does before writing when the reply is too long. */
  method SendResponse(ch: Channel, id: U64, r: Reply) returns (ok: bool)
    modifies ch`outbound, ch`schedule
    ensures ok ==> ReplyFits(r) && ch.outbound == old(ch.outbound) + ReplyThen(id, r, 0, [])
    ensures !ReplyFits(r) ==> !ok && ch.outbound == old(ch.outbound)
    ensures old(ch.outbound) <= ch.outbound
    ensures Clean(old(ch.schedule)) ==> Clean(ch.schedule) && (ok <==> ReplyFits(r))
  {
    hide ReplyFits, ReplyThen;
    if !ReplyFits(r) { return false; }
    ok := WriteResponse(ch, id, r, 0);
  }

  // One turn: the connection is given up, the request is answered, answered with an error after
  // part of another response, or the worker dies of an exception in its exception handler.
  datatype PyTurned = Dropped | Served(message: Message) | Garbled(message: Message) | Killed

  /** One turn of the loop; `failure` is the text of the exception a failed write raises. */
  method PyServeOne(ch: Channel, engine: Engine, failure: seq<Byte>) returns (t: PyTurned)
    modifies ch
    ensures t.Served? || t.Garbled? ==> PyDecode(old(ch.inbound)) == Done(t.message, ch.inbound)
    ensures t.Killed? ==> PyDecode(old(ch.inbound)).Done?
    ensures t.Dropped? ==> ch.outbound == old(ch.outbound)
    ensures t.Served? ==>
              ReplyFits(PyReply(engine(t.message))) && ch.outbound == old(ch.outbound) + PyResponse(engine, t.message)
    ensures old(ch.outbound) <= ch.outbound
    ensures Clean(old(ch.schedule)) ==>
              && Clean(ch.schedule) && !t.Garbled?
              && (t.Dropped? <==> !PyDecode(old(ch.inbound)).Done?)
              && (t.Killed? ==> ch.outbound == old(ch.outbound)
                                && !ReplyFits(PyReply(engine(PyDecode(old(ch.inbound)).value))))
  {
    hide PyDecode, ReplyThen, ReplyFits;
    var r := PyReadRequest(ch);
    if r.None? { return Dropped; }
    var m := r.value;
    var outcome := engine(m);
    if outcome.Inferred? {
      var reply := Reply(true, outcome.text, [], outcome.encoding, false, outcome.seconds);
      var ok := SendResponse(ch, m.header.requestId, reply);
      if ok { return Served(m); }
      var tooLong := !ReplyFits(reply);
      ok := SendResponse(ch, m.header.requestId,
                         ErrorReply(if tooLong then Ascii("response exceeds protocol text limit") else failure));
      return if !ok then Killed else if tooLong then Served(m) else Garbled(m);
    }
    var ok := SendResponse(ch, m.header.requestId, ErrorReply(outcome.error));
    if ok { return Served(m); }
    return Killed;
  }

  lemma PyDecodeShrinks()
    ensures Shrinks(PyDecode)
  {
    hide PyDecode, PyAccepts, PayloadThen;
    forall bs: seq<Byte> | PyDecode(bs).Done?
      ensures |PyDecode(bs).rest| < |bs|
    {
      PyDecodeExact(bs, PyDecode(bs).value, PyDecode(bs).rest);
      WireThenIsConcat(PyDecode(bs).value, PyDecode(bs).rest);
    }
  }

  /**
   * Serves one connection. As long as no write fails, the bytes written are the replies to the
   * requests handled, the first ones of the stream, in order, one each. With no failing system
   * call at all the loop goes on until no acceptable request follows, or one whose error text is
   * itself too long to send.
   */
  method PyServe(ch: Channel, engine: Engine, failure: seq<Byte>)
      returns (end: PyTurned, ghost handled: seq<Message>, ghost left: seq<Byte>, ghost intact: bool)
    modifies ch
    ensures end.Dropped? || end.Killed?
    ensures Progress(PyDecode, old(ch.inbound), handled, left)
    ensures end.Killed? ==> PyDecode(left).Done?
    ensures intact ==> forall i :: 0 <= i < |handled| ==> ReplyFits(PyReply(engine(handled[i])))
    ensures intact ==> old(ch.outbound) + PyResponses(engine, handled) <= ch.outbound
    ensures intact && end.Dropped? ==> ch.outbound == old(ch.outbound) + PyResponses(engine, handled)
    ensures Clean(old(ch.schedule)) ==>
              && intact && ch.outbound == old(ch.outbound) + PyResponses(engine, handled)
              && (end.Dropped? <==> !PyDecode(left).Done?)
              && (end.Killed? ==> !ReplyFits(PyReply(engine(PyDecode(left).value))))
  {
    hide PyDecode, PyResponse, PyReply, ReplyFits, Progress, PyAccepts, WireThen;
    handled, left, intact := [], ch.inbound, true;
    PyDecodeShrinks();
    ProgressStart(PyDecode, left);
    while true
      invariant left == ch.inbound && Progress(PyDecode, old(ch.inbound), handled, left)
      invariant intact ==> forall i :: 0 <= i < |handled| ==> ReplyFits(PyReply(engine(handled[i])))
      invariant intact ==> ch.outbound == old(ch.outbound) + PyResponses(engine, handled)
      invariant Clean(old(ch.schedule)) ==> Clean(ch.schedule) && intact
      decreases |left|
    {
      end := PyServeOne(ch, engine, failure);
      if end.Dropped? || end.Killed? { return; }
      PyDecodeExact(left, end.message, ch.inbound);
      ProgressStep(PyDecode, old(ch.inbound), handled, left, end.message, ch.inbound);
      PyResponsesSnoc(engine, handled, end.message);
      handled, left, intact := handled + [end.message], ch.inbound, intact && end.Served?;
    }
  }

  // ---- The stream from end to end ------------------------------------------------------

  // What one call of the Python client sends; it refuses to send no frame at all.
  datatype PyRequest = PyRequest(first: PyFrame, more: seq<PyFrame>, stamps: seq<Double>, prompt: seq<Byte>,
                                 maxTokens: U32, sequenceType: SequenceType, id: U64)
  {
    function Frames(): seq<PyFrame> { [first] + more }
  }

  function PyMessage(r: PyRequest): Message {
    PyMessageOf(r.Frames(), r.stamps, r.prompt, r.maxTokens, r.sequenceType, r.id)
  }

  // A request within the limits: exactly those the worker takes.
  ghost predicate PyAcceptable(r: PyRequest) {
    && |r.Frames()| <= MAX_EXTRA_IMAGES + 1 && |r.stamps| == |r.Frames()|
    && (forall i :: 0 <= i < |r.Frames()| ==> PyFitting(r.Frames()[i]))
    && Increasing(r.stamps) && |r.prompt| <= MAX_TEXT_BYTES
  }

  lemma PyRecovers(r: PyRequest)
    requires PyAcceptable(r)
    ensures Recovers(PyDecode, Wire, PyMessage(r))
  {
    hide PyDecode, Wire, WireThen, PyFitting;
    var m := PyMessage(r);
    assert Transmittable(r.Frames(), r.prompt) by {
      forall i | 0 <= i < |r.Frames()|
        ensures r.Frames()[i].WellFormed() && r.Frames()[i].bgr && |r.Frames()[i].data| < 0x1_0000_0000
      {
        FittingIsTransmittable(r.Frames()[i]);
      }
    }
    forall next
      ensures PyDecode(Wire(m) + next) == Done(m, next)
    {
      WireThenIsConcat(m, next);
      PyAcceptedExactly(r.Frames(), r.stamps, r.prompt, r.maxTokens, r.sequenceType, r.id, next);
      PySentIsConsistent(r.Frames(), r.stamps, r.prompt, r.maxTokens, r.sequenceType, r.id);
      DecodedIsSent(m, next);
    }
  }

  lemma FittingIsTransmittable(f: PyFrame)
    requires PyFitting(f)
    ensures f.WellFormed() && f.bgr && |f.data| < 0x1_0000_0000
  {
  }

  lemma DecodedIsSent(m: Message, next: seq<Byte>)
    requires Consistent(m) && PyDecode(WireThen(m, next)).Done?
    ensures PyDecode(WireThen(m, next)) == Done(m, next)
  {
    hide PyDecode, WireThen, Consistent, PyAccepts;
    var Done(m', rest) := PyDecode(WireThen(m, next));
    PyDecodeExact(WireThen(m, next), m', rest);
    AcceptedIsConsistent(m');
    MessagesPrefixFree(m, next, m', rest);
  }

  /** Several requests on one connection: the bytes of acceptable requests decode to exactly those, with nothing left. */
  lemma PyCodecRoundTrip(rs: seq<PyRequest>)
    requires forall i :: 0 <= i < |rs| ==> PyAcceptable(rs[i])
    ensures Shrinks(PyDecode)
    ensures DecodeAll(PyDecode, EncMany(Wire, Map(PyMessage, rs))) == (Map(PyMessage, rs), [])
  {
    hide PyDecode, Wire, PyFitting;
    PyDecodeShrinks();
    forall i | 0 <= i < |rs| ensures Recovers(PyDecode, Wire, Map(PyMessage, rs)[i]) { PyRecovers(rs[i]); }
    StreamFraming(PyDecode, Wire, Map(PyMessage, rs));
  }

  /** The responses to a list of requests: each carries its id and the reply to it. */
  function PyAnswersTo(engine: Engine, rs: seq<PyRequest>): seq<Byte>
    requires forall i :: 0 <= i < |rs| ==> ReplyFits(PyReply(engine(PyMessage(rs[i]))))
  {
    if rs == [] then [] else
      var n := |rs| - 1;
      PyAnswersTo(engine, rs[..n]) + ReplyThen(rs[n].id, PyReply(engine(PyMessage(rs[n]))), 0, [])
  }

  lemma {:induction false} PyResponsesAreAnswers(engine: Engine, rs: seq<PyRequest>)
    requires forall i :: 0 <= i < |rs| ==> ReplyFits(PyReply(engine(PyMessage(rs[i]))))
    ensures PyResponses(engine, Map(PyMessage, rs)) == PyAnswersTo(engine, rs)
  {
    hide ReplyThen, ReplyFits, PyReply;
    if rs != [] {
      var n := |rs| - 1;
      PyResponsesAreAnswers(engine, rs[..n]);
      assert Map(PyMessage, rs)[..n] == Map(PyMessage, rs[..n]);
    }
  }

  lemma PySentAreFirst(rs: seq<PyRequest>, all: seq<Byte>, handled: seq<Message>, left: seq<Byte>)
    requires forall i :: 0 <= i < |rs| ==> PyAcceptable(rs[i])
    requires all == EncMany(Wire, Map(PyMessage, rs)) && Progress(PyDecode, all, handled, left)
    ensures |handled| <= |rs| && handled == Map(PyMessage, rs[..|handled|])
    ensures PyDecode(left).Done? <==> |handled| < |rs|
    ensures PyDecode(left).Done? ==> PyDecode(left).value == PyMessage(rs[|handled|])
    ensures |handled| == |rs| ==> left == []
  {
    hide PyDecode, PyAcceptable, PyMessageOf, Wire, Progress;
    PyCodecRoundTrip(rs);
    HandledIsPrefix(PyDecode, Map(PyMessage, rs), all, handled, left);
    assert Map(PyMessage, rs)[..|handled|] == Map(PyMessage, rs[..|handled|]);
  }

  // ---- What the client hears -----------------------------------------------------------

  /** Reading the replies to the calls `rs` off `bs`, one after another, gives `answers` and uses up all bytes. */
  ghost predicate Heard(bs: seq<Byte>, rs: seq<PyRequest>, answers: seq<PyAnswer>)
    decreases |rs|
  {
    |rs| == |answers| &&
    if rs == [] then bs == [] else
      && PyReadReply(rs[0].id, bs).Done? && PyReadReply(rs[0].id, bs).value == answers[0]
      && Heard(PyReadReply(rs[0].id, bs).rest, rs[1..], answers[1..])
  }

  lemma {:induction false} HeardOneMore(bs: seq<Byte>, rs: seq<PyRequest>, answers: seq<PyAnswer>,
                                        more: seq<Byte>, r: PyRequest, a: PyAnswer)
    requires Heard(bs, rs, answers) && PyReadReply(r.id, more) == Done(a, [])
    ensures Heard(bs + more, rs + [r], answers + [a])
    decreases |rs|
  {
    hide PyReadReply;
    if rs == [] {
      assert bs + more == more;
      assert ([r] + [])[1..] == [] && ([a] + [])[1..] == [];
    } else {
      PyReplyExtends(rs[0].id, bs, more);
      HeardOneMore(PyReadReply(rs[0].id, bs).rest, rs[1..], answers[1..], more, r, a);
      assert (rs + [r])[1..] == rs[1..] + [r] && (answers + [a])[1..] == answers[1..] + [a];
    }
  }

  /**
   * What one response says to the client, field by field: the engine's own text, encoding and time
   * if they fit; otherwise a failure with the text of what went wrong.
   */
  lemma PyResponseSays(engine: Engine, m: Message, next: seq<Byte>)
    ensures match engine(m)
            case Inferred(text, encoding, seconds) =>
              PyReadReply(m.header.requestId, PyResponse(engine, m) + next)
              == if |text| <= MAX_TEXT_BYTES && |encoding| <= MAX_TEXT_BYTES
                 then Done(PyAnswer(true, text, [], seconds, encoding), next)
                 else Done(PyAnswer(false, [], Ascii("response exceeds protocol text limit"), ZERO, Ascii("flashrt_cosmos3_error")), next)
            case Raised(error) =>
              if |error| <= MAX_TEXT_BYTES
              then PyReadReply(m.header.requestId, PyResponse(engine, m) + next)
                   == Done(PyAnswer(false, [], error, ZERO, Ascii("flashrt_cosmos3_error")), next)
              else PyResponse(engine, m) == []
  {
    hide PyReadReply, ReplyThen;
    var r := PyReply(engine(m));
    if ReplyFits(r) {
      ReplyReadBack(m.header.requestId, m.header.requestId, r, 0, []);
      PyReplyExtends(m.header.requestId, PyResponse(engine, m), next);
      assert [] + next == next;
    }
  }

  // The client hears what the engine did.
  ghost predicate Says(a: PyAnswer, o: Inference) {
    match o
    case Inferred(text, encoding, seconds) =>
      a == if |text| <= MAX_TEXT_BYTES && |encoding| <= MAX_TEXT_BYTES
           then PyAnswer(true, text, [], seconds, encoding)
           else PyAnswer(false, [], Ascii("response exceeds protocol text limit"), ZERO, Ascii("flashrt_cosmos3_error"))
    case Raised(error) => a == PyAnswer(false, [], error, ZERO, Ascii("flashrt_cosmos3_error"))
  }

  function AnswerTo(engine: Engine, r: PyRequest): PyAnswer { PyAnswerOf(PyReply(engine(PyMessage(r)))) }

  function AnswersHeard(engine: Engine, rs: seq<PyRequest>): (answers: seq<PyAnswer>)
    ensures |answers| == |rs| && forall i :: 0 <= i < |rs| ==> answers[i] == AnswerTo(engine, rs[i])
  {
    seq(|rs|, i requires 0 <= i < |rs| => AnswerTo(engine, rs[i]))
  }

  lemma {:induction false} AnswersAreHeard(engine: Engine, rs: seq<PyRequest>)
    requires forall i :: 0 <= i < |rs| ==> ReplyFits(PyReply(engine(PyMessage(rs[i]))))
    ensures Heard(PyAnswersTo(engine, rs), rs, AnswersHeard(engine, rs))
    decreases |rs|
  {
    if rs != [] {
      hide Heard, ReplyFits, PyReply, ReplyThen, PyReadReply, PyMessage, AnswerTo;
      var n := |rs| - 1;
      OneIsHeard(engine, rs[n]);
      AnswersAreHeard(engine, rs[..n]);
      AnswersHeardSnoc(engine, rs, n);
      var before, more := PyAnswersTo(engine, rs[..n]), ReplyThen(rs[n].id, PyReply(engine(PyMessage(rs[n]))), 0, []);
      HeardOneMore(before, rs[..n], AnswersHeard(engine, rs[..n]), more, rs[n], AnswerTo(engine, rs[n]));
    }
  }

  lemma AnswersHeardSnoc(engine: Engine, rs: seq<PyRequest>, n: nat)
    requires |rs| == n + 1
    ensures rs[..n] + [rs[n]] == rs
    ensures AnswersHeard(engine, rs[..n]) + [AnswerTo(engine, rs[n])] == AnswersHeard(engine, rs)
  {
    hide AnswerTo;
  }

  lemma OneIsHeard(engine: Engine, r: PyRequest)
    requires ReplyFits(PyReply(engine(PyMessage(r))))
    ensures PyReadReply(r.id, ReplyThen(r.id, PyReply(engine(PyMessage(r))), 0, [])) == Done(AnswerTo(engine, r), [])
    ensures Says(AnswerTo(engine, r), engine(PyMessage(r)))
  {
    hide PyReadReply, ReplyThen;
    ReplyReadBack(r.id, r.id, PyReply(engine(PyMessage(r))), 0, []);
  }

  lemma DeadlyOnly(o: Inference)
    ensures ReplyFits(PyReply(o)) <==> !(o.Raised? && |o.error| > MAX_TEXT_BYTES)
  {
  }

  /**
   * The whole way. What the Python client writes for a list of acceptable requests, delivered in
   * any pieces, is answered request by request: reading the replies call by call, the client hears
   * the engine's own text, encoding and time for each request, or the text of what went wrong.
   * Nothing is left over, and only an error text that is itself too long ends the worker.
   */
  method PyServeSent(ch: Channel, engine: Engine, failure: seq<Byte>, ghost rs: seq<PyRequest>)
      returns (end: PyTurned, ghost answered: nat, ghost left: seq<Byte>, ghost sent: seq<Byte>, ghost heard: seq<PyAnswer>)
    requires forall i :: 0 <= i < |rs| ==> PyAcceptable(rs[i])
    requires ch.inbound == EncMany(Wire, Map(PyMessage, rs)) && Clean(ch.schedule)
    modifies ch
    ensures answered <= |rs| && ch.outbound == old(ch.outbound) + sent
    ensures Heard(sent, rs[..answered], heard) && |heard| == answered
    ensures forall i :: 0 <= i < answered ==>
              match engine(PyMessage(rs[i]))
              case Inferred(text, encoding, seconds) =>
                heard[i] == if |text| <= MAX_TEXT_BYTES && |encoding| <= MAX_TEXT_BYTES
                            then PyAnswer(true, text, [], seconds, encoding)
                            else PyAnswer(false, [], Ascii("response exceeds protocol text limit"), ZERO,
                                          Ascii("flashrt_cosmos3_error"))
              case Raised(error) => heard[i] == PyAnswer(false, [], error, ZERO, Ascii("flashrt_cosmos3_error"))
    ensures old(ch.inbound) == EncMany(Wire, Map(PyMessage, rs[..answered])) + left
    ensures answered == |rs| ==> end.Dropped? && left == []
    ensures answered < |rs| ==>
              && end.Killed? && engine(PyMessage(rs[answered])).Raised?
              && |engine(PyMessage(rs[answered])).error| > MAX_TEXT_BYTES
  {
    hide PyDecode, Wire, PyAcceptable, PyReply, ReplyFits, PyResponse, PyResponses, Progress, PyMessage, EncMany, PyAnswersTo;
    ghost var handled, intact;
    end, handled, left, intact := PyServe(ch, engine, failure);
    ProgressSplits(PyDecode, old(ch.inbound), handled, left);
    PySentAreFirst(rs, old(ch.inbound), handled, left);
    answered := |handled|;
    forall i | 0 <= i < answered ensures ReplyFits(PyReply(engine(PyMessage(rs[i])))) {
      assert handled[i] == PyMessage(rs[i]);
    }
    PyResponsesAreAnswers(engine, rs[..answered]);
    sent := PyAnswersTo(engine, rs[..answered]);
    heard := AnswersHeard(engine, rs[..answered]);
    AnswersAreHeard(engine, rs[..answered]);
    forall i | 0 <= i < answered ensures Says(heard[i], engine(PyMessage(rs[i]))) { OneIsHeard(engine, rs[i]); }
    if answered < |rs| { DeadlyOnly(engine(PyMessage(rs[answered]))); }
  }
}
