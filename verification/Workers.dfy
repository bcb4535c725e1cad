/**
 * The reading side of both workers as loops over a connection, and the C++ serve loop. Under
 * every schedule of system calls a request that comes out is the one the decoder function
 * finds at the front of the stream, and the stream is left right behind it.
 */
module Workers {
  import opened Bytes
  import opened Doubles
  import opened Protocol
  import opened Decoders
  import opened Optional
  import opened Requests
  import opened Channels

  // ---- Sections ------------------------------------------------------------------------

  method CppReadImageHeaders(ch: Channel, n: nat) returns (r: Option<seq<ImageHeader>>)
    modifies ch`inbound, ch`schedule
    ensures r.Some? ==> ReadMany(CppImageItem, n, old(ch.inbound)) == Done(r.value, ch.inbound)
    ensures Clean(old(ch.schedule)) ==>
              Clean(ch.schedule) && r.Some? == ReadMany(CppImageItem, n, old(ch.inbound)).Done?
  {
    var infos: seq<ImageHeader> := [];
    for ei := 0 to n
      invariant |infos| == ei
      invariant ReadMany(CppImageItem, n, old(ch.inbound)) == ReadMany(CppImageItem, n, ch.inbound, infos)
      invariant Clean(old(ch.schedule)) ==> Clean(ch.schedule)
    {
      var b := ch.ReadBytes(IMAGE_SIZE);
      if b.None? { return None; }
      var pih := ImageHeaderOf(b.value);
      if pih.width == 0 || pih.height == 0 || pih.step != pih.width * 3
         || pih.step * pih.height != pih.imageBytes || pih.imageBytes > MAX_IMAGE_BYTES
      {
        return None;
      }
      infos := infos + [pih];
    }
    return Some(infos);
  }

  method PyReadImageHeaders(ch: Channel, n: nat) returns (r: Option<seq<ImageHeader>>)
    modifies ch`inbound, ch`schedule
    ensures r.Some? ==> ReadMany(PyImageItem, n, old(ch.inbound)) == Done(r.value, ch.inbound)
    ensures Clean(old(ch.schedule)) ==>
              Clean(ch.schedule) && r.Some? == ReadMany(PyImageItem, n, old(ch.inbound)).Done?
  {
    var headers: seq<ImageHeader> := [];
    for k := 0 to n
      invariant |headers| == k
      invariant ReadMany(PyImageItem, n, old(ch.inbound)) == ReadMany(PyImageItem, n, ch.inbound, headers)
      invariant Clean(old(ch.schedule)) ==> Clean(ch.schedule)
    {
      var b := ch.RecvExact(IMAGE_SIZE);
      if b.None? { return None; }
      var pih := ImageHeaderOf(b.value);
      if !PyImageOk(pih) { return None; }
      headers := headers + [pih];
    }
    return Some(headers);
  }

  method CppReadImages(ch: Channel, hs: seq<ImageHeader>) returns (r: Option<seq<seq<Byte>>>)
    modifies ch`inbound, ch`schedule
    ensures r.Some? ==> ReadMany(BlobItem(hs), |hs|, old(ch.inbound)) == Done(r.value, ch.inbound)
    ensures Clean(old(ch.schedule)) ==>
              Clean(ch.schedule) && r.Some? == ReadMany(BlobItem(hs), |hs|, old(ch.inbound)).Done?
  {
    var images: seq<seq<Byte>> := [];
    for ei := 0 to |hs|
      invariant |images| == ei
      invariant ReadMany(BlobItem(hs), |hs|, old(ch.inbound)) == ReadMany(BlobItem(hs), |hs|, ch.inbound, images)
      invariant Clean(old(ch.schedule)) ==> Clean(ch.schedule)
    {
      var b := ch.ReadBytes(hs[ei].imageBytes);
      if b.None? { return None; }
      images := images + [b.value];
    }
    return Some(images);
  }

  method PyReadImages(ch: Channel, hs: seq<ImageHeader>) returns (r: Option<seq<seq<Byte>>>)
    modifies ch`inbound, ch`schedule
    ensures r.Some? ==> ReadMany(BlobItem(hs), |hs|, old(ch.inbound)) == Done(r.value, ch.inbound)
    ensures Clean(old(ch.schedule)) ==>
              Clean(ch.schedule) && r.Some? == ReadMany(BlobItem(hs), |hs|, old(ch.inbound)).Done?
  {
    var frames: seq<seq<Byte>> := [];
    for k := 0 to |hs|
      invariant |frames| == k
      invariant ReadMany(BlobItem(hs), |hs|, old(ch.inbound)) == ReadMany(BlobItem(hs), |hs|, ch.inbound, frames)
      invariant Clean(old(ch.schedule)) ==> Clean(ch.schedule)
    {
      var b := ch.RecvExact(hs[k].imageBytes);
      if b.None? { return None; }
      frames := frames + [b.value];
    }
    return Some(frames);
  }

  method CppReadTurns(ch: Channel, n: nat) returns (r: Option<seq<Turn>>)
    modifies ch`inbound, ch`schedule
    ensures r.Some? ==> ReadMany(TurnItem, n, old(ch.inbound)) == Done(r.value, ch.inbound)
    ensures Clean(old(ch.schedule)) ==>
              Clean(ch.schedule) && r.Some? == ReadMany(TurnItem, n, old(ch.inbound)).Done?
  {
    var history: seq<Turn> := [];
    for k := 0 to n
      invariant |history| == k
      invariant ReadMany(TurnItem, n, old(ch.inbound)) == ReadMany(TurnItem, n, ch.inbound, history)
      invariant Clean(old(ch.schedule)) ==> Clean(ch.schedule)
    {
      var b := ch.ReadBytes(TURN_SIZE);
      if b.None? { return None; }
      var h := TurnHeaderOf(b.value);
      if h.userBytes > MAX_TEXT_BYTES || h.asstBytes > MAX_TEXT_BYTES { return None; }
      var user := ch.ReadBytes(h.userBytes);
      if user.None? { return None; }
      var asst := ch.ReadBytes(h.asstBytes);
      if asst.None? { return None; }
      history := history + [Turn(user.value, asst.value)];
    }
    return Some(history);
  }

  method PyReadTurns(ch: Channel, n: nat) returns (r: Option<seq<Turn>>)
    modifies ch`inbound, ch`schedule
    ensures r.Some? ==> ReadMany(TurnItem, n, old(ch.inbound)) == Done(r.value, ch.inbound)
    ensures Clean(old(ch.schedule)) ==>
              Clean(ch.schedule) && r.Some? == ReadMany(TurnItem, n, old(ch.inbound)).Done?
  {
    var history: seq<Turn> := [];
    for k := 0 to n
      invariant |history| == k
      invariant ReadMany(TurnItem, n, old(ch.inbound)) == ReadMany(TurnItem, n, ch.inbound, history)
      invariant Clean(old(ch.schedule)) ==> Clean(ch.schedule)
    {
      var b := ch.RecvExact(TURN_SIZE);
      if b.None? { return None; }
      var eh := TurnHeaderOf(b.value);
      if eh.userBytes > MAX_TEXT_BYTES || eh.asstBytes > MAX_TEXT_BYTES { return None; }
      var user := ch.RecvExact(eh.userBytes);
      if user.None? { return None; }
      var asst := ch.RecvExact(eh.asstBytes);
      if asst.None? { return None; }
      history := history + [Turn(user.value, asst.value)];
    }
    return Some(history);
  }

  // ---- Temporal metadata ---------------------------------------------------------------

  method CheckIncreasing(ts: seq<Double>) returns (ok: bool)
    ensures ok == Increasing(ts)
  {
    for i := 0 to |ts|
      invariant forall j :: 0 <= j < i ==> IsFinite(ts[j])
      invariant forall j :: 0 < j < i ==> Val(ts[j - 1]) < Val(ts[j])
    {
      if !IsFinite(ts[i]) { return false; }
      if i > 0 && !(Val(ts[i]) > Val(ts[i - 1])) { return false; }
    }
    return true;
  }

  method CheckSpacing(fps: Double, ts: seq<Double>) returns (ok: bool)
    requires IsFinite(fps) && Val(fps) > 0.0
    requires ts != [] ==> Increasing(ts)
    ensures ok == SpacingMatches(fps, ts)
  {
    var expected := 1.0 / Val(fps);
    var i := 1;
    while i < |ts|
      invariant 1 <= i
      invariant forall j :: 0 < j < i && j < |ts| ==> -0.001 <= Val(ts[j]) - Val(ts[j - 1]) - expected <= 0.001
    {
      var d := Val(ts[i]) - Val(ts[i - 1]) - expected;
      if (if d < 0.0 then -d else d) > 0.001 { return false; }
      i := i + 1;
    }
    return true;
  }

  /** `validate_temporal_metadata`: false where the source throws. */
  method ValidateTemporalMetadata(sequenceType: nat, fps: Option<Double>, frames: nat, ts: seq<Double>)
      returns (ok: bool)
    ensures ok == TemporalOk(sequenceType, fps, frames, ts)
    ensures ok <==>
              && (fps.Some? ==> IsFinite(fps.value) && Val(fps.value) > 0.0)
              && (ts != [] ==>
                    && |ts| == frames && (forall i :: 0 <= i < |ts| ==> IsFinite(ts[i]))
                    && (forall i :: 0 < i < |ts| ==> Val(ts[i - 1]) < Val(ts[i])))
              && (sequenceType == 0 ==> fps.None? && ts == [])
              && (sequenceType != 0 && fps.Some? ==>
                    forall i :: 0 < i < |ts| ==>
                      Val(ts[i - 1]) + 1.0 / Val(fps.value) - 0.001 <= Val(ts[i]) <= Val(ts[i - 1]) + 1.0 / Val(fps.value) + 0.001)
  {
    if fps.Some? && (!IsFinite(fps.value) || Val(fps.value) <= 0.0) { return false; }
    if ts != [] {
      if |ts| != frames { return false; }
      ok := CheckIncreasing(ts);
      if !ok { return false; }
    }
    if sequenceType == IMAGES {
      return !(fps.Some? || ts != []);
    }
    if fps.Some? && |ts| >= 2 {
      ok := CheckSpacing(fps.value, ts);
      return ok;
    }
    return true;
  }

  /** The two timestamp checks of `read_request`. */
  method PyTimestampsOk(ts: seq<Double>) returns (ok: bool)
    ensures ok == Increasing(ts)
  {
    for i := 0 to |ts|
      invariant forall j :: 0 <= j < i ==> IsFinite(ts[j])
    {
      if !IsFinite(ts[i]) { return false; }
    }
    var i := 1;
    while i < |ts|
      invariant 1 <= i
      invariant forall j :: 0 < j < i && j < |ts| ==> Val(ts[j - 1]) < Val(ts[j])
    {
      if Val(ts[i]) <= Val(ts[i - 1]) { return false; }
      i := i + 1;
    }
    return true;
  }

  // ---- One request ---------------------------------------------------------------------

  method CppReadImageSections(ch: Channel, header: RequestHeader) returns (r: Option<Images>)
    requires FrameCount(header) >= 1
    modifies ch`inbound, ch`schedule
    ensures r.Some? ==> CppImages(header, old(ch.inbound)) == Done(r.value, ch.inbound)
    ensures Clean(old(ch.schedule)) ==>
              Clean(ch.schedule) && r.Some? == CppImages(header, old(ch.inbound)).Done?
  {
    var extraHeaders := CppReadImageHeaders(ch, FrameCount(header) - 1);
    if extraHeaders.None? { return None; }
    var primary := ch.ReadBytes(header.imageBytes);
    if primary.None? { return None; }
    var extras := CppReadImages(ch, extraHeaders.value);
    if extras.None? { return None; }
    return Some(Images(extraHeaders.value, primary.value, extras.value));
  }

  method CppReadTexts(ch: Channel, header: RequestHeader) returns (r: Option<Texts>)
    modifies ch`inbound, ch`schedule
    ensures r.Some? ==> ReadTexts(header, old(ch.inbound)) == Done(r.value, ch.inbound)
    ensures Clean(old(ch.schedule)) ==>
              Clean(ch.schedule) && r.Some? == ReadTexts(header, old(ch.inbound)).Done?
  {
    var system := ch.ReadBytes(SystemSize(header));
    if system.None? { return None; }
    var prompt := ch.ReadBytes(header.promptBytes);
    if prompt.None? { return None; }
    var history := CppReadTurns(ch, TurnCount(header));
    if history.None? { return None; }
    return Some(Texts(system.value, prompt.value, history.value));
  }

  method CppReadTimestamps(ch: Channel, n: nat) returns (r: Option<seq<Double>>)
    modifies ch`inbound, ch`schedule
    ensures r.Some? ==> ReadDoubles(n, old(ch.inbound)) == Done(r.value, ch.inbound)
    ensures Clean(old(ch.schedule)) ==>
              Clean(ch.schedule) && r.Some? == ReadDoubles(n, old(ch.inbound)).Done?
  {
    var stamps := ch.ReadBytes(8 * n);
    if stamps.None? { return None; }
    return Some(DoublesOf(stamps.value, n));
  }

  // Received: a request. PeerClosed: no complete header, so the worker accepts the next client.
  // Died: the C++ worker throws out of its loops and exits.
  datatype Outcome = Received(message: Message) | PeerClosed | Died

  /** The reading half of the C++ request loop. */
  method CppReadRequest(ch: Channel) returns (o: Outcome)
    modifies ch`inbound, ch`schedule
    ensures o.Received? ==> CppDecode(old(ch.inbound)) == Done(o.message, ch.inbound)
    ensures Clean(old(ch.schedule)) ==>
              && Clean(ch.schedule)
              && (o.Received? <==> CppDecode(old(ch.inbound)).Done?)
              && (o.PeerClosed? <==> |old(ch.inbound)| < REQUEST_SIZE)
  {
    var b := ch.ReadBytes(REQUEST_SIZE);
    if b.None? { return PeerClosed; }
    var header := RequestHeaderOf(b.value);
    if !CppHeaderOk(header) { return Died; }
    var images := CppReadImageSections(ch, header);
    if images.None? { return Died; }
    var timestamps := CppReadTimestamps(ch, TimestampCount(header));
    if timestamps.None? { return Died; }
    var texts := CppReadTexts(ch, header);
    if texts.None? { return Died; }
    var ok := ValidateTemporalMetadata(header.sequenceType, FpsOf(header), FrameCount(header), timestamps.value);
    if !ok { return Died; }
    return Received(Assemble(header, images.value, timestamps.value, texts.value));
  }

  method PyReadImageSections(ch: Channel, header: RequestHeader) returns (r: Option<Images>)
    requires FrameCount(header) >= 1
    modifies ch`inbound, ch`schedule
    ensures r.Some? ==> PyImages(header, old(ch.inbound)) == Done(r.value, ch.inbound)
    ensures Clean(old(ch.schedule)) ==>
              Clean(ch.schedule) && r.Some? == PyImages(header, old(ch.inbound)).Done?
  {
    var extraHeaders := PyReadImageHeaders(ch, FrameCount(header) - 1);
    if extraHeaders.None? { return None; }
    var primary := ch.RecvExact(header.imageBytes);
    if primary.None? { return None; }
    var extras := PyReadImages(ch, extraHeaders.value);
    if extras.None? { return None; }
    return Some(Images(extraHeaders.value, primary.value, extras.value));
  }

  method PyReadTexts(ch: Channel, header: RequestHeader) returns (r: Option<Texts>)
    modifies ch`inbound, ch`schedule
    ensures r.Some? ==> ReadTexts(header, old(ch.inbound)) == Done(r.value, ch.inbound)
    ensures Clean(old(ch.schedule)) ==>
              Clean(ch.schedule) && r.Some? == ReadTexts(header, old(ch.inbound)).Done?
  {
    var system := ch.RecvExact(SystemSize(header));
    if system.None? { return None; }
    var prompt := ch.RecvExact(header.promptBytes);
    if prompt.None? { return None; }
    var history := PyReadTurns(ch, TurnCount(header));
    if history.None? { return None; }
    return Some(Texts(system.value, prompt.value, history.value));
  }

  method PyReadTimestamps(ch: Channel, n: nat) returns (r: Option<seq<Double>>)
    modifies ch`inbound, ch`schedule
    ensures r.Some? ==> ReadDoubles(n, old(ch.inbound)) == Done(r.value, ch.inbound) && Increasing(r.value)
    ensures Clean(old(ch.schedule)) ==>
              && Clean(ch.schedule)
              && (r.Some? <==> ReadDoubles(n, old(ch.inbound)).Done?
                               && Increasing(ReadDoubles(n, old(ch.inbound)).value))
  {
    var raw := ch.RecvExact(8 * n);
    if raw.None? { return None; }
    var ok := PyTimestampsOk(DoublesOf(raw.value, n));
    if !ok { return None; }
    return Some(DoublesOf(raw.value, n));
  }

  /** `read_request`; `None` where it raises, and the worker drops the connection. */
  method PyReadRequest(ch: Channel) returns (r: Option<Message>)
    modifies ch`inbound, ch`schedule
    ensures r.Some? ==> PyDecode(old(ch.inbound)) == Done(r.value, ch.inbound)
    ensures Clean(old(ch.schedule)) ==>
              Clean(ch.schedule) && (r.Some? <==> PyDecode(old(ch.inbound)).Done?)
  {
    var b := ch.RecvExact(REQUEST_SIZE);
    if b.None? { return None; }
    var header := RequestHeaderOf(b.value);
    if !PyHeaderOk(header) { return None; }
    var images := PyReadImageSections(ch, header);
    if images.None? { return None; }
    var timestamps := PyReadTimestamps(ch, TimestampCount(header));
    if timestamps.None? { return None; }
    var texts := PyReadTexts(ch, header);
    if texts.None? { return None; }
    return Some(Assemble(header, images.value, timestamps.value, texts.value));
  }

  // ---- The C++ request loop ------------------------------------------------------------

  type Backend = Request -> Reply

  lemma AcceptedIsTyped(m: Message)
    requires CppAccepts(m)
    ensures m.header.sequenceType <= 2 && |m.extras| == |m.extraHeaders|
  {
  }

  ghost function BackendReply(backend: Backend, m: Message): Reply
    requires CppAccepts(m)
  {
    AcceptedIsTyped(m);
    backend(RequestOf(m))
  }

  // What the worker writes for a request it handled: a response carrying the request's own id.
  ghost function ResponseBytes(backend: Backend, padding: U32, m: Message): seq<Byte> {
    if CppAccepts(m) && ReplyFits(BackendReply(backend, m))
    then ReplyThen(m.header.requestId, BackendReply(backend, m), padding, [])
    else []
  }

  // The request at the front of the stream is one whose reply exceeds the protocol's text limit.
  ghost predicate Overlong(backend: Backend, bs: seq<Byte>) {
    CppDecode(bs).Done? && CppAccepts(CppDecode(bs).value) && !ReplyFits(BackendReply(backend, CppDecode(bs).value))
  }

  ghost function Responses(backend: Backend, padding: U32, ms: seq<Message>): seq<Byte> {
    if ms == [] then [] else
      Responses(backend, padding, ms[..|ms| - 1]) + ResponseBytes(backend, padding, ms[|ms| - 1])
  }

  method WriteResponse(ch: Channel, id: U64, r: Reply, padding: U32) returns (ok: bool)
    requires ReplyFits(r)
    modifies ch`outbound, ch`schedule
    ensures old(ch.outbound) <= ch.outbound <= old(ch.outbound) + ReplyThen(id, r, padding, [])
    ensures ok ==> ch.outbound == old(ch.outbound) + ReplyThen(id, r, padding, [])
    ensures Clean(old(ch.schedule)) ==> ok && Clean(ch.schedule)
  {
    var header := ResponseHeaderBytes(ResponseHeaderFor(id, r, padding));
    ghost var whole := old(ch.outbound) + ReplyThen(id, r, padding, []);
    assert whole == old(ch.outbound) + header + r.text + r.error + r.encoding;
    ok := ch.WriteAll(header);
    if !ok { return; }
    ok := ch.WriteAll(r.text);
    if !ok { return; }
    ok := ch.WriteAll(r.error);
    if !ok { return; }
    ok := ch.WriteAll(r.encoding);
  }

  // One turn of the loop: a request answered, or the way the connection ends.
  // Refused, ReplyTooLarge: the worker throws and exits. WriteFailed: so it does, in mid-response.
  datatype Turned = Answered(message: Message) | ClientGone | Refused | ReplyTooLarge | WriteFailed

  method CppServeOne(ch: Channel, backend: Backend, padding: U32) returns (t: Turned)
    modifies ch
    ensures t.Answered? ==>
              && CppDecode(old(ch.inbound)) == Done(t.message, ch.inbound)
              && CppAccepts(t.message) && ReplyFits(BackendReply(backend, t.message))
              && ch.outbound == old(ch.outbound) + ResponseBytes(backend, padding, t.message)
    ensures t.ClientGone? || t.Refused? || t.ReplyTooLarge? ==> ch.outbound == old(ch.outbound)
    ensures t.ReplyTooLarge? ==> Overlong(backend, old(ch.inbound))
    ensures t.WriteFailed? ==>
              && CppDecode(old(ch.inbound)).Done?
              && old(ch.outbound) <= ch.outbound
                 <= old(ch.outbound) + ResponseBytes(backend, padding, CppDecode(old(ch.inbound)).value)
    ensures Clean(old(ch.schedule)) ==>
              && Clean(ch.schedule) && !t.WriteFailed?
              && (t.ClientGone? || t.Refused? <==> !CppDecode(old(ch.inbound)).Done?)
              && (t.ClientGone? <==> |old(ch.inbound)| < REQUEST_SIZE)
  {
    hide CppDecode, CppAccepts, WireThen;
    var o := CppReadRequest(ch);
    if o.PeerClosed? { return ClientGone; }
    if o.Died? { return Refused; }
    var m := o.message;
    CppDecodeExact(old(ch.inbound), m, ch.inbound);
    AcceptedIsTyped(m);
    var reply := backend(RequestOf(m));
    if !ReplyFits(reply) { return ReplyTooLarge; }
    var ok := WriteResponse(ch, m.header.requestId, reply, padding);
    return if ok then Answered(m) else WriteFailed;
  }

  // ---- How far a request loop got ------------------------------------------------------

  // `handled` are the first messages of `all`, and the stream stands right behind them; what is left decodes to the others.
  ghost predicate Progress(decode: seq<Byte> -> Read<Message>, all: seq<Byte>, handled: seq<Message>, left: seq<Byte>) {
    && Shrinks(decode)
    && all == EncMany(Wire, handled) + left
    && DecodeAll(decode, all) == (handled + DecodeAll(decode, left).0, DecodeAll(decode, left).1)
  }

  lemma ProgressStart(decode: seq<Byte> -> Read<Message>, all: seq<Byte>)
    requires Shrinks(decode)
    ensures Progress(decode, all, [], all)
  {
    var ms := DecodeAll(decode, all).0;
    assert [] + ms == ms && EncMany(Wire, []) + all == all;
  }

  lemma ProgressStep(decode: seq<Byte> -> Read<Message>, all: seq<Byte>, handled: seq<Message>, left: seq<Byte>,
                     m: Message, next: seq<Byte>)
    requires Progress(decode, all, handled, left) && decode(left) == Done(m, next) && left == WireThen(m, next)
    ensures Progress(decode, all, handled + [m], next) && |next| < |left|
  {
    hide WireThen, Wire;
    WireThenIsConcat(m, next);
    OneMore(Wire, handled, m, next);
    var ms := DecodeAll(decode, next).0;
    assert handled + ([m] + ms) == handled + [m] + ms;
  }

  lemma OneMore<T>(enc: T -> seq<Byte>, xs: seq<T>, x: T, next: seq<Byte>)
    ensures EncMany(enc, xs) + (enc(x) + next) == EncMany(enc, xs + [x]) + next
  {
    EncManySnoc(enc, xs, x);
  }

  lemma ProgressSplits(decode: seq<Byte> -> Read<Message>, all: seq<Byte>, handled: seq<Message>, left: seq<Byte>)
    requires Progress(decode, all, handled, left)
    ensures all == EncMany(Wire, handled) + left
  {
  }

  lemma ProgressEnd(decode: seq<Byte> -> Read<Message>, all: seq<Byte>, handled: seq<Message>, left: seq<Byte>)
    requires Progress(decode, all, handled, left) && !decode(left).Done?
    ensures Shrinks(decode) && DecodeAll(decode, all) == (handled, left)
  {
    assert handled + [] == handled;
  }

  // When the stream holds exactly `ms`, the messages handled are the first of them, and what is left holds the others.
  lemma HandledIsPrefix(decode: seq<Byte> -> Read<Message>, ms: seq<Message>, all: seq<Byte>, handled: seq<Message>, left: seq<Byte>)
    requires Progress(decode, all, handled, left) && DecodeAll(decode, all) == (ms, [])
    ensures |handled| <= |ms| && handled == ms[..|handled|]
    ensures decode(left).Done? <==> |handled| < |ms|
    ensures decode(left).Done? ==> decode(left).value == ms[|handled|]
    ensures |handled| == |ms| ==> left == []
  {
    var n := |handled|;
    var (more, rest) := DecodeAll(decode, left);
    assert handled + more == ms;
    assert (handled + more)[..n] == handled;
    if more != [] { assert (handled + more)[n] == more[0]; }
  }

  lemma ResponsesSnoc(backend: Backend, padding: U32, ms: seq<Message>, m: Message)
    ensures Responses(backend, padding, ms + [m])
         == Responses(backend, padding, ms) + ResponseBytes(backend, padding, m)
  {
    assert (ms + [m])[..|ms|] == ms;
  }

  /**
   * Serves one connection. The requests handled are the first ones the stream holds, and the
   * bytes written are their responses, in order, one each. With no failing system call the loop
   * goes on until the stream holds no further acceptable request, or one whose reply is too long.
   */
  method CppServe(ch: Channel, backend: Backend, padding: U32)
      returns (end: Turned, ghost handled: seq<Message>, ghost left: seq<Byte>)
    modifies ch
    ensures !end.Answered?
    ensures forall i :: 0 <= i < |handled| ==> CppAccepts(handled[i]) && ReplyFits(BackendReply(backend, handled[i]))
    ensures Progress(CppDecode, old(ch.inbound), handled, left)
    ensures end != WriteFailed ==> ch.outbound == old(ch.outbound) + Responses(backend, padding, handled)
    ensures end.ReplyTooLarge? ==> Overlong(backend, left)
    ensures end.WriteFailed? ==>
              && CppDecode(left).Done?
              && var sent := old(ch.outbound) + Responses(backend, padding, handled);
              && sent <= ch.outbound <= sent + ResponseBytes(backend, padding, CppDecode(left).value)
    ensures Clean(old(ch.schedule)) ==>
              && end != WriteFailed
              && (end.ClientGone? || end.Refused? <==> !CppDecode(left).Done?)
              && (end.ClientGone? <==> |left| < REQUEST_SIZE)
    ensures Clean(old(ch.schedule)) && end != ReplyTooLarge ==>
              Shrinks(CppDecode) && DecodeAll(CppDecode, old(ch.inbound)) == (handled, left)
  {
    hide CppDecode, CppAccepts, ResponseBytes, Progress, Overlong, ReplyFits, BackendReply, WireThen;
    handled, left := [], ch.inbound;
    CppDecodeShrinks();
    ProgressStart(CppDecode, left);
    while true
      invariant left == ch.inbound && Progress(CppDecode, old(ch.inbound), handled, left)
      invariant forall i :: 0 <= i < |handled| ==> CppAccepts(handled[i]) && ReplyFits(BackendReply(backend, handled[i]))
      invariant ch.outbound == old(ch.outbound) + Responses(backend, padding, handled)
      invariant Clean(old(ch.schedule)) ==> Clean(ch.schedule)
      decreases |left|
    {
      end := CppServeOne(ch, backend, padding);
      if !end.Answered? {
        if !CppDecode(left).Done? { ProgressEnd(CppDecode, old(ch.inbound), handled, left); }
        return;
      }
      CppDecodeExact(left, end.message, ch.inbound);
      ProgressStep(CppDecode, old(ch.inbound), handled, left, end.message, ch.inbound);
      ResponsesSnoc(backend, padding, handled, end.message);
      handled, left := handled + [end.message], ch.inbound;
    }
  }

  // ---- The stream from end to end ------------------------------------------------------

  function BackendAnswer(backend: Backend, t: Tagged): Reply { backend(Normalised(t.request)) }

  /** The responses a client gets for its requests: each carries its id and the backend's reply to it. */
  function AnswersTo(backend: Backend, padding: U32, ts: seq<Tagged>): seq<Byte>
    requires forall i :: 0 <= i < |ts| ==> ReplyFits(BackendAnswer(backend, ts[i]))
  {
    if ts == [] then [] else
      var n := |ts| - 1;
      AnswersTo(backend, padding, ts[..n]) + ReplyThen(ts[n].id, BackendAnswer(backend, ts[n]), padding, [])
  }

  ghost predicate AllSendable(ts: seq<Tagged>, limits: Limits) {
    forall i :: 0 <= i < |ts| ==> ts[i].request.WellFormed() && CppSendable(ts[i].request, limits)
  }

  lemma SentMessage(t: Tagged, backend: Backend, limits: Limits)
    requires t.request.WellFormed() && CppSendable(t.request, limits)
    ensures CppAccepts(MessageOf(t)) && BackendReply(backend, MessageOf(t)) == BackendAnswer(backend, t)
    ensures MessageOf(t).header.requestId == t.id
  {
    SentIsAccepted(t.request, limits, t.id, t.padding);
    RequestRoundTrip(t.request, limits, t.id, t.padding);
  }

  lemma {:induction false} ResponsesAreAnswers(backend: Backend, padding: U32, ts: seq<Tagged>, limits: Limits)
    requires AllSendable(ts, limits)
    requires forall i :: 0 <= i < |ts| ==> ReplyFits(BackendAnswer(backend, ts[i]))
    ensures Responses(backend, padding, Map(MessageOf, ts)) == AnswersTo(backend, padding, ts)
  {
    hide CppSendable, CppAccepts, BackendReply, BackendAnswer, ReplyFits, ReplyThen, CppMessageOf;
    if ts != [] {
      var n := |ts| - 1;
      ResponsesAreAnswers(backend, padding, ts[..n], limits);
      assert Map(MessageOf, ts)[..n] == Map(MessageOf, ts[..n]);
      SentMessage(ts[n], backend, limits);
    }
  }

  lemma SentAreFirst(ts: seq<Tagged>, limits: Limits, all: seq<Byte>, handled: seq<Message>, left: seq<Byte>)
    requires AllSendable(ts, limits) && all == EncMany(Wire, Map(MessageOf, ts)) && Progress(CppDecode, all, handled, left)
    ensures |handled| <= |ts| && handled == Map(MessageOf, ts[..|handled|])
    ensures CppDecode(left).Done? <==> |handled| < |ts|
    ensures CppDecode(left).Done? ==> CppDecode(left).value == MessageOf(ts[|handled|])
    ensures |handled| == |ts| ==> left == []
  {
    hide CppDecode, CppSendable, CppMessageOf, Wire, Progress;
    CodecRoundTrip(ts, limits);
    HandledIsPrefix(CppDecode, Map(MessageOf, ts), all, handled, left);
    assert Map(MessageOf, ts)[..|handled|] == Map(MessageOf, ts[..|handled|]);
  }

  /**
   * The whole way. What the C++ client writes for a list of requests, delivered in any pieces
   * with any interrupts, is handled request by request: each is answered with its id and the
   * backend's reply to that request, nothing is skipped or left over, and the worker stops early
   * only at the first reply that is too long.
   */
  method ServeSent(ch: Channel, backend: Backend, padding: U32, ghost ts: seq<Tagged>, ghost limits: Limits)
      returns (end: Turned, ghost answered: nat, ghost left: seq<Byte>)
    requires AllSendable(ts, limits) && ch.inbound == EncMany(Wire, Map(MessageOf, ts)) && Clean(ch.schedule)
    modifies ch
    ensures answered <= |ts| && forall i :: 0 <= i < answered ==> ReplyFits(BackendAnswer(backend, ts[i]))
    ensures ch.outbound == old(ch.outbound) + AnswersTo(backend, padding, ts[..answered])
    ensures old(ch.inbound) == EncMany(Wire, Map(MessageOf, ts[..answered])) + left
    ensures answered == |ts| ==> end.ClientGone? && left == []
    ensures answered < |ts| ==> end.ReplyTooLarge? && !ReplyFits(BackendAnswer(backend, ts[answered]))
  {
    hide CppDecode, CppSendable, CppMessageOf, CppAccepts, BackendReply, BackendAnswer, ReplyFits, Progress, Wire;
    ghost var handled;
    end, handled, left := CppServe(ch, backend, padding);
    ProgressSplits(CppDecode, old(ch.inbound), handled, left);
    SentAreFirst(ts, limits, old(ch.inbound), handled, left);
    answered := |handled|;
    forall i | 0 <= i < answered ensures ReplyFits(BackendAnswer(backend, ts[i])) {
      SentMessage(ts[i], backend, limits);
      assert handled[i] == MessageOf(ts[i]);
    }
    ResponsesAreAnswers(backend, padding, ts[..answered], limits);
    if answered < |ts| { SentMessage(ts[answered], backend, limits); }
  }
}
