/** The two response readers as functions of the bytes on the stream. */
module Replies {
  import opened Bytes
  import opened Doubles
  import opened Protocol
  import opened Decoders

  datatype Body = Body(text: seq<Byte>, error: seq<Byte>, encoding: seq<Byte>)

  function ReadBody(h: ResponseHeader, bs: seq<Byte>): Read<Body> {
    var (text, r1) :- Take(h.textBytes, bs);
    var (error, r2) :- Take(h.errorBytes, r1);
    var (encoding, r3) :- Take(h.encodingBytes, r2);
    Done(Body(text, error, encoding), r3)
  }

  predicate PyResponseOk(h: ResponseHeader, id: U64) {
    !(h.magic != MAGIC || h.version != VERSION || h.requestId != id)
  }

  predicate CppResponseOk(h: ResponseHeader, id: U64) {
    !(h.magic != MAGIC || h.version != VERSION || h.requestId != id
      || h.textBytes > MAX_TEXT_BYTES || h.errorBytes > MAX_TEXT_BYTES || h.encodingBytes > MAX_TEXT_BYTES)
  }

  function CppReadReply(id: U64, bs: seq<Byte>): Read<Reply> {
    var (b, r0) :- Take(RESPONSE_SIZE, bs);
    var h := ResponseHeaderOf(b);
    if !CppResponseOk(h, id) then Bad else
      var (body, r1) :- ReadBody(h, r0);
      Done(Reply(h.success != 0, body.text, body.error, body.encoding, h.fallbackUsed != 0, h.inferenceSeconds), r1)
  }

  // What the Python client returns; it ignores the fallback field and does not check the sizes.
  datatype PyAnswer = PyAnswer(success: bool, text: seq<Byte>, error: seq<Byte>,
                               inferenceSeconds: Double, encoding: seq<Byte>)

  function PyReadReply(id: U64, bs: seq<Byte>): Read<PyAnswer> {
    var (b, r0) :- Take(RESPONSE_SIZE, bs);
    var h := ResponseHeaderOf(b);
    if !PyResponseOk(h, id) then Bad else
      var (body, r1) :- ReadBody(h, r0);
      Done(PyAnswer(h.success != 0, body.text, body.error, h.inferenceSeconds, body.encoding), r1)
  }

  function PyAnswerOf(r: Reply): PyAnswer {
    PyAnswer(r.success, r.text, r.error, r.inferenceSeconds, r.encoding)
  }

  /** A response is read back by the client that expects its id, and refused by any other. */
  lemma ReplyReadBack(expected: U64, id: U64, r: Reply, padding: U32, next: seq<Byte>)
    requires ReplyFits(r)
    ensures CppReadReply(expected, ReplyThen(id, r, padding, next))
         == if id == expected then Done(r, next) else Bad
    ensures PyReadReply(expected, ReplyThen(id, r, padding, next))
         == if id == expected then Done(PyAnswer(r.success, r.text, r.error, r.inferenceSeconds, r.encoding), next) else Bad
  {
    var h := ResponseHeaderFor(id, r, padding);
    var r2 := r.encoding + next;
    var r1 := r.error + r2;
    var r0 := r.text + r1;
    TakeExact(RESPONSE_SIZE, ReplyThen(id, r, padding, next), ResponseHeaderBytes(h), r0);
    ResponseHeaderBijection(h, ResponseHeaderBytes(h));
    TakeExact(|r.text|, r0, r.text, r1);
    TakeExact(|r.error|, r1, r.error, r2);
    TakeExact(|r.encoding|, r2, r.encoding, next);
  }

  lemma TakeExtends(n: nat, bs: seq<Byte>, more: seq<Byte>)
    requires Take(n, bs).Done?
    ensures Take(n, bs + more) == Done(Take(n, bs).value, Take(n, bs).rest + more)
  {
    assert (bs + more)[..n] == bs[..n] && (bs + more)[n..] == bs[n..] + more;
  }

  lemma BodyExtends(h: ResponseHeader, bs: seq<Byte>, more: seq<Byte>)
    requires ReadBody(h, bs).Done?
    ensures ReadBody(h, bs + more) == Done(ReadBody(h, bs).value, ReadBody(h, bs).rest + more)
  {
    var Done(_, r1) := Take(h.textBytes, bs);
    var Done(_, r2) := Take(h.errorBytes, r1);
    TakeExtends(h.textBytes, bs, more);
    TakeExtends(h.errorBytes, r1, more);
    TakeExtends(h.encodingBytes, r2, more);
  }

  // Bytes that arrive later do not change a response that was already complete.
  lemma ReplyExtends(id: U64, bs: seq<Byte>, more: seq<Byte>)
    requires CppReadReply(id, bs).Done?
    ensures var Done(r, rest) := CppReadReply(id, bs);
            CppReadReply(id, bs + more) == Done(r, rest + more)
  {
    var Done(b, r0) := Take(RESPONSE_SIZE, bs);
    TakeExtends(RESPONSE_SIZE, bs, more);
    BodyExtends(ResponseHeaderOf(b), r0, more);
  }

  lemma PyReplyExtends(id: U64, bs: seq<Byte>, more: seq<Byte>)
    requires PyReadReply(id, bs).Done?
    ensures var Done(r, rest) := PyReadReply(id, bs);
            PyReadReply(id, bs + more) == Done(r, rest + more)
  {
    var Done(b, r0) := Take(RESPONSE_SIZE, bs);
    TakeExtends(RESPONSE_SIZE, bs, more);
    BodyExtends(ResponseHeaderOf(b), r0, more);
  }

  lemma NoEmptyReply(id: U64)
    ensures CppReadReply(id, []) == Short && PyReadReply(id, []) == Short
  {
  }

  // The bytes of a response with this header and these texts, in the order they travel.
  ghost predicate Lays(bs: seq<Byte>, h: ResponseHeader, text: seq<Byte>, error: seq<Byte>, encoding: seq<Byte>, rest: seq<Byte>) {
    && bs == ResponseHeaderBytes(h) + (text + (error + (encoding + rest)))
    && h.textBytes == |text| && h.errorBytes == |error| && h.encodingBytes == |encoding|
  }

  lemma BodyExactly(h: ResponseHeader, bs: seq<Byte>, body: Body, rest: seq<Byte>)
    ensures ReadBody(h, bs) == Done(body, rest) <==>
            && h.textBytes == |body.text| && h.errorBytes == |body.error| && h.encodingBytes == |body.encoding|
            && bs == body.text + (body.error + (body.encoding + rest))
  {
    var r2 := body.encoding + rest;
    var r1 := body.error + r2;
    TakeExact(h.textBytes, bs, body.text, r1);
    TakeExact(h.errorBytes, r1, body.error, r2);
    TakeExact(h.encodingBytes, r2, body.encoding, rest);
    if ReadBody(h, bs) == Done(body, rest) {
      var Done(_, s1) := Take(h.textBytes, bs);
      var Done(_, s2) := Take(h.errorBytes, s1);
      TakeExact(h.textBytes, bs, body.text, s1);
      TakeExact(h.errorBytes, s1, body.error, s2);
      TakeExact(h.encodingBytes, s2, body.encoding, rest);
    }
  }

  /**
   * Exactly which bytes each client takes for the reply to call `id`: a header with the right
   * magic, version and id that announces the sizes of three texts, the texts in this order, and
   * for the C++ client none of them beyond the limit. Nothing else is ever taken.
   */
  lemma ReplyExactly(id: U64, bs: seq<Byte>, text: seq<Byte>, error: seq<Byte>, encoding: seq<Byte>,
                     success: bool, fallback: bool, seconds: Double, rest: seq<Byte>)
    ensures CppReadReply(id, bs) == Done(Reply(success, text, error, encoding, fallback, seconds), rest) <==>
            exists h :: Lays(bs, h, text, error, encoding, rest)
              && h.magic == MAGIC && h.version == VERSION && h.requestId == id
              && |text| <= MAX_TEXT_BYTES && |error| <= MAX_TEXT_BYTES && |encoding| <= MAX_TEXT_BYTES
              && (h.success != 0) == success && (h.fallbackUsed != 0) == fallback && h.inferenceSeconds == seconds
    ensures PyReadReply(id, bs) == Done(PyAnswer(success, text, error, seconds, encoding), rest) <==>
            exists h :: Lays(bs, h, text, error, encoding, rest)
              && h.magic == MAGIC && h.version == VERSION && h.requestId == id
              && (h.success != 0) == success && h.inferenceSeconds == seconds
  {
    if RESPONSE_SIZE <= |bs| {
      var h, r0 := ResponseHeaderOf(bs[..RESPONSE_SIZE]), bs[RESPONSE_SIZE..];
      ResponseHeaderBijection(h, bs[..RESPONSE_SIZE]);
      BodyExactly(h, r0, Body(text, error, encoding), rest);
      hide ResponseHeaderBytes, ResponseHeaderOf, ReadBody;
      assert bs == ResponseHeaderBytes(h) + r0;
      assert ReadBody(h, r0) == Done(Body(text, error, encoding), rest) ==> Lays(bs, h, text, error, encoding, rest);
      forall g | Lays(bs, g, text, error, encoding, rest) ensures g == h { LaysHeader(bs, g, text, error, encoding, rest); }
    } else {
      forall g ensures !Lays(bs, g, text, error, encoding, rest) { }
    }
  }

  lemma LaysHeader(bs: seq<Byte>, h: ResponseHeader, text: seq<Byte>, error: seq<Byte>, encoding: seq<Byte>, rest: seq<Byte>)
    requires Lays(bs, h, text, error, encoding, rest)
    ensures RESPONSE_SIZE <= |bs| && ResponseHeaderOf(bs[..RESPONSE_SIZE]) == h
    ensures bs[RESPONSE_SIZE..] == text + (error + (encoding + rest))
  {
    assert bs[..RESPONSE_SIZE] == ResponseHeaderBytes(h);
    ResponseHeaderBijection(h, bs[..RESPONSE_SIZE]);
  }
}
