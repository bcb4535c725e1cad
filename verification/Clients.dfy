/**
 * The two clients: `IpcInferenceBackend` and the Python `IpcClient`. A call either returns the
 * response that is next on its connection, having written exactly one request, or it leaves no
 * connection behind.
 */
module Clients {
  import opened Bytes
  import opened Doubles
  import opened Protocol
  import opened Decoders
  import opened Optional
  import opened Requests
  import opened Replies
  import opened Channels
  import opened Workers

  // NoConnection: the worker could not be reached. Rejected: thrown before anything is written.
  // Lost: the exchange failed and the connection was closed.
  datatype Answer<+R> = NoConnection | Rejected | Lost | Answered(reply: R)

  method CheckImages(images: seq<Image>, limits: Limits) returns (ok: bool)
    ensures ok == forall i :: 0 <= i < |images| ==> SendableImage(images[i], limits)
  {
    for ei := 0 to |images|
      invariant forall j :: 0 <= j < ei ==> SendableImage(images[j], limits)
    {
      if images[ei].Empty() || !images[ei].bgr8 { return false; }
      if |images[ei].data| > limits.MaxImage() { return false; }
    }
    return true;
  }

  method CheckHistory(history: seq<Turn>, limits: Limits) returns (ok: bool)
    ensures ok == forall i :: 0 <= i < |history| ==> SendableTurn(history[i], limits)
  {
    for k := 0 to |history|
      invariant forall j :: 0 <= j < k ==> SendableTurn(history[j], limits)
    {
      if |history[k].user| > limits.MaxText() || |history[k].asst| > limits.MaxText() { return false; }
    }
    return true;
  }

  /** Every check `infer` makes before it writes. */
  method CheckRequest(r: Request, limits: Limits) returns (ok: bool)
    ensures ok == CppSendable(r, limits)
  {
    if r.image.Empty() || !r.image.bgr8 { return false; }
    if |r.extraImages| > MAX_EXTRA_IMAGES { return false; }
    ok := ValidateTemporalMetadata(r.sequenceType, r.fps, r.Frames(), r.timestamps);
    if !ok { return false; }
    ok := CheckImages(r.extraImages, limits);
    if !ok { return false; }
    if |r.image.data| > limits.MaxImage() || |r.prompt| > limits.MaxText()
       || |r.system| > limits.MaxText() || |r.history| > MAX_HISTORY_ENTRIES
    {
      return false;
    }
    ok := CheckHistory(r.history, limits);
  }

  lemma AppendItem<T>(base: seq<Byte>, enc: T -> seq<Byte>, xs: seq<T>, k: nat)
    requires k < |xs|
    ensures base + EncMany(enc, xs[..k]) + enc(xs[k]) == base + EncMany(enc, xs[..k + 1])
  {
    EncManySnoc(enc, xs[..k], xs[k]);
    assert xs[..k] + [xs[k]] == xs[..k + 1];
    Associate(base, EncMany(enc, xs[..k]), enc(xs[k]));
  }

  /** Writes the items one after another; on success the peer gets their concatenation. */
  method WriteImageHeaders(ch: Channel, hs: seq<ImageHeader>) returns (ok: bool)
    modifies ch`outbound, ch`schedule
    ensures ok ==> ch.outbound == old(ch.outbound) + EncMany(ImageHeaderBytes, hs)
    ensures Clean(old(ch.schedule)) ==> ok && Clean(ch.schedule)
  {
    for k := 0 to |hs|
      invariant ch.outbound == old(ch.outbound) + EncMany(ImageHeaderBytes, hs[..k])
      invariant Clean(old(ch.schedule)) ==> Clean(ch.schedule)
    {
      ok := ch.WriteAll(ImageHeaderBytes(hs[k]));
      if !ok { return; }
      AppendItem(old(ch.outbound), ImageHeaderBytes, hs, k);
    }
    assert hs[..|hs|] == hs;
    ok := true;
  }

  method WriteImages(ch: Channel, images: seq<seq<Byte>>) returns (ok: bool)
    modifies ch`outbound, ch`schedule
    ensures ok ==> ch.outbound == old(ch.outbound) + EncMany(Raw, images)
    ensures Clean(old(ch.schedule)) ==> ok && Clean(ch.schedule)
  {
    for k := 0 to |images|
      invariant ch.outbound == old(ch.outbound) + EncMany(Raw, images[..k])
      invariant Clean(old(ch.schedule)) ==> Clean(ch.schedule)
    {
      ok := ch.WriteAll(images[k]);
      if !ok { return; }
      AppendItem(old(ch.outbound), Raw, images, k);
    }
    assert images[..|images|] == images;
    ok := true;
  }

  method WriteTurn(ch: Channel, t: Turn) returns (ok: bool)
    modifies ch`outbound, ch`schedule
    ensures ok ==> ch.outbound == old(ch.outbound) + TurnBytes(t)
    ensures Clean(old(ch.schedule)) ==> ok && Clean(ch.schedule)
  {
    var header := TurnHeaderBytes(TurnHeader(Size32(|t.user|), Size32(|t.asst|)));
    ok := ch.WriteAll(header);
    if !ok { return; }
    ok := ch.WriteAll(t.user);
    if !ok { return; }
    ok := ch.WriteAll(t.asst);
    Associate(old(ch.outbound) + header, t.user, t.asst);
    Associate(old(ch.outbound), header, t.user + t.asst);
  }

  method WriteHistory(ch: Channel, history: seq<Turn>) returns (ok: bool)
    modifies ch`outbound, ch`schedule
    ensures ok ==> ch.outbound == old(ch.outbound) + EncMany(TurnBytes, history)
    ensures Clean(old(ch.schedule)) ==> ok && Clean(ch.schedule)
  {
    for k := 0 to |history|
      invariant ch.outbound == old(ch.outbound) + EncMany(TurnBytes, history[..k])
      invariant Clean(old(ch.schedule)) ==> Clean(ch.schedule)
    {
      ok := WriteTurn(ch, history[k]);
      if !ok { return; }
      AppendItem(old(ch.outbound), TurnBytes, history, k);
    }
    assert history[..|history|] == history;
    ok := true;
  }

  // Pieces written in a row are the nested concatenation of the layout.
  lemma RightNested(base: seq<Byte>, a: seq<Byte>, b: seq<Byte>, c: seq<Byte>, d: seq<Byte>,
                    e: seq<Byte>, f: seq<Byte>, g: seq<Byte>, h: seq<Byte>)
    ensures base + a + b + c + d + e + f + g + h
         == base + (a + (b + (c + (d + (e + (f + (g + (h + []))))))))
  {
    assert h + [] == h;
    Associate(base + a + b + c + d + e + f, g, h);
    Associate(base + a + b + c + d + e, f, g + h);
    Associate(base + a + b + c + d, e, f + (g + h));
    Associate(base + a + b + c, d, e + (f + (g + h)));
    Associate(base + a + b, c, d + (e + (f + (g + h))));
    Associate(base + a, b, c + (d + (e + (f + (g + h)))));
    Associate(base, a, b + (c + (d + (e + (f + (g + h))))));
  }

  lemma PiecesAreWire(base: seq<Byte>, m: Message)
    ensures base + RequestHeaderBytes(m.header) + EncMany(ImageHeaderBytes, m.extraHeaders) + m.primary
            + EncMany(Raw, m.extras) + DoublesBytes(m.timestamps) + m.system + m.prompt
            + EncMany(TurnBytes, m.history)
         == base + Wire(m)
  {
    RightNested(base, RequestHeaderBytes(m.header), EncMany(ImageHeaderBytes, m.extraHeaders), m.primary,
                EncMany(Raw, m.extras), DoublesBytes(m.timestamps), m.system, m.prompt,
                EncMany(TurnBytes, m.history));
  }

  method SendFrames(ch: Channel, r: Request, header: RequestHeader) returns (ok: bool)
    modifies ch`outbound, ch`schedule
    ensures ok ==>
              (ch.outbound == old(ch.outbound) + RequestHeaderBytes(header)
                              + EncMany(ImageHeaderBytes, Map(ImageHeaderFor, r.extraImages)) + r.image.data
                              + EncMany(Raw, Map(ImageData, r.extraImages)))
    ensures Clean(old(ch.schedule)) ==> ok && Clean(ch.schedule)
  {
    ok := ch.WriteAll(RequestHeaderBytes(header));
    if !ok { return; }
    ok := WriteImageHeaders(ch, Map(ImageHeaderFor, r.extraImages));
    if !ok { return; }
    ok := ch.WriteAll(r.image.data);
    if !ok { return; }
    ok := WriteImages(ch, Map(ImageData, r.extraImages));
  }

  method SendTexts(ch: Channel, r: Request) returns (ok: bool)
    modifies ch`outbound, ch`schedule
    ensures ok ==>
              (ch.outbound == old(ch.outbound) + DoublesBytes(r.timestamps) + r.system + r.prompt
                              + EncMany(TurnBytes, r.history))
    ensures Clean(old(ch.schedule)) ==> ok && Clean(ch.schedule)
  {
    ok := ch.WriteAll(DoublesBytes(r.timestamps));
    if !ok { return; }
    if r.system != [] {
      ok := ch.WriteAll(r.system);
      if !ok { return; }
    }
    ok := ch.WriteAll(r.prompt);
    if !ok { return; }
    ok := WriteHistory(ch, r.history);
  }

  /** The writing half of `infer`: on success the peer gets the message, no more and no less. */
  method SendRequest(ch: Channel, r: Request, id: U64, padding: U32) returns (ok: bool)
    modifies ch`outbound, ch`schedule
    ensures ok ==> ch.outbound == old(ch.outbound) + Wire(CppMessageOf(r, id, padding))
    ensures Clean(old(ch.schedule)) ==> ok && Clean(ch.schedule)
  {
    ok := SendFrames(ch, r, CppHeaderFor(r, id, padding));
    if !ok { return; }
    ok := SendTexts(ch, r);
    PiecesAreWire(old(ch.outbound), CppMessageOf(r, id, padding));
  }

  method ReceiveBody(ch: Channel, h: ResponseHeader) returns (r: Option<Body>)
    modifies ch`inbound, ch`schedule
    ensures r.Some? ==> ReadBody(h, old(ch.inbound)) == Done(r.value, ch.inbound)
    ensures Clean(old(ch.schedule)) ==>
              Clean(ch.schedule) && r.Some? == ReadBody(h, old(ch.inbound)).Done?
  {
    var text := ch.ReadBytes(h.textBytes);
    if text.None? { return None; }
    var error := ch.ReadBytes(h.errorBytes);
    if error.None? { return None; }
    var encoding := ch.ReadBytes(h.encodingBytes);
    if encoding.None? { return None; }
    return Some(Body(text.value, error.value, encoding.value));
  }

  /** The response header, its checks, and the three texts. */
  method CppReceiveReply(ch: Channel, id: U64) returns (r: Option<Reply>)
    modifies ch`inbound, ch`schedule
    ensures r.Some? ==> CppReadReply(id, old(ch.inbound)) == Done(r.value, ch.inbound)
    ensures Clean(old(ch.schedule)) ==>
              Clean(ch.schedule) && r.Some? == CppReadReply(id, old(ch.inbound)).Done?
  {
    var b := ch.ReadBytes(RESPONSE_SIZE);
    if b.None? { return None; }
    var h := ResponseHeaderOf(b.value);
    if !CppResponseOk(h, id) { return None; }
    var body := ReceiveBody(ch, h);
    if body.None? { return None; }
    return Some(Reply(h.success != 0, body.value.text, body.value.error, body.value.encoding,
                      h.fallbackUsed != 0, h.inferenceSeconds));
  }

  class CppClient {
    var socket: Channel?
    var nextRequestId: U64
    const limits: Limits

    constructor (limits: Limits)
      ensures socket == null && this.limits == limits && nextRequestId == 1
    {
      this.limits, socket, nextRequestId := limits, null, 1;
    }

    /**
     * `infer`. `reachable` is the connection `connect_worker` would open, if any; `padding` the
     * uninitialised bytes of the header struct.
     */
    method Infer(r: Request, reachable: Option<Channel>, padding: U32) returns (a: Answer<Reply>)
      modifies this, socket, if reachable.Some? then {reachable.value} else {}
      ensures var ch := if old(socket) != null then old(socket) else
                          if reachable.Some? then reachable.value else null;
              && (a.NoConnection? <==> ch == null)
              && (ch == null ==> socket == null && nextRequestId == old(nextRequestId))
              && (ch != null && !CppSendable(r, limits) ==>
                    a == Rejected && socket == ch && nextRequestId == old(nextRequestId)
                    && ch.inbound == old(ch.inbound) && ch.outbound == old(ch.outbound))
              && (ch != null && CppSendable(r, limits) ==>
                    var id := old(nextRequestId);
                    && nextRequestId == (id + 1) % 0x1_0000_0000_0000_0000
                    && (a.Lost? || a.Answered?)
                    && (a.Lost? ==> socket == null)
                    && (a.Answered? ==>
                          && socket == ch
                          && ch.outbound == old(ch.outbound) + Wire(CppMessageOf(r, id, padding))
                          && CppReadReply(id, old(ch.inbound)) == Done(a.reply, ch.inbound))
                    && (Clean(old(ch.schedule)) ==>
                          Clean(ch.schedule) && (a.Answered? <==> CppReadReply(id, old(ch.inbound)).Done?)))
    {
      hide CppReadReply, CppSendable, Wire, CppMessageOf;
      if socket == null {
        if reachable.None? { return NoConnection; }
        socket := reachable.value;
      }
      var ok := CheckRequest(r, limits);
      if !ok { return Rejected; }
      var id := nextRequestId;
      nextRequestId := (nextRequestId + 1) % 0x1_0000_0000_0000_0000;
      ok := SendRequest(socket, r, id, padding);
      if !ok {
        socket := null;
        return Lost;
      }
      var reply := CppReceiveReply(socket, id);
      if reply.None? {
        socket := null;
        return Lost;
      }
      return Answer.Answered(reply.value);
    }
  }

  // ---- The Python client ---------------------------------------------------------------

  method PySendFrames(ch: Channel, frames: seq<PyFrame>, header: RequestHeader) returns (ok: bool)
    requires frames != []
    modifies ch`outbound, ch`schedule
    ensures ok ==>
              (ch.outbound == old(ch.outbound) + RequestHeaderBytes(header)
                              + EncMany(ImageHeaderBytes, Map(PyImageHeaderFor, frames[1..])) + frames[0].data
                              + EncMany(Raw, Map(PyFrameData, frames[1..])))
    ensures Clean(old(ch.schedule)) ==> ok && Clean(ch.schedule)
  {
    ok := ch.WriteAll(RequestHeaderBytes(header));
    if !ok { return; }
    ok := WriteImageHeaders(ch, Map(PyImageHeaderFor, frames[1..]));
    if !ok { return; }
    ok := ch.WriteAll(frames[0].data);
    if !ok { return; }
    ok := WriteImages(ch, Map(PyFrameData, frames[1..]));
  }

  method PySendRequest(ch: Channel, frames: seq<PyFrame>, stamps: seq<Double>, prompt: seq<Byte>,
                       maxTokens: U32, sequenceType: SequenceType, id: U64) returns (ok: bool)
    requires frames != []
    modifies ch`outbound, ch`schedule
    ensures ok ==> ch.outbound == old(ch.outbound) + Wire(PyMessageOf(frames, stamps, prompt, maxTokens, sequenceType, id))
    ensures Clean(old(ch.schedule)) ==> ok && Clean(ch.schedule)
  {
    ok := PySendFrames(ch, frames, PyHeaderFor(frames, stamps, prompt, maxTokens, sequenceType, id));
    if !ok { return; }
    ok := ch.WriteAll(DoublesBytes(stamps));
    if !ok { return; }
    ok := ch.WriteAll(prompt);
    PyPiecesAreWire(old(ch.outbound), frames, stamps, prompt, maxTokens, sequenceType, id);
  }

  lemma PyPiecesAreWire(base: seq<Byte>, frames: seq<PyFrame>, stamps: seq<Double>, prompt: seq<Byte>,
                        maxTokens: U32, sequenceType: SequenceType, id: U64)
    requires frames != []
    ensures var m := PyMessageOf(frames, stamps, prompt, maxTokens, sequenceType, id);
            base + Wire(m)
            == base + RequestHeaderBytes(m.header) + EncMany(ImageHeaderBytes, m.extraHeaders) + m.primary
               + EncMany(Raw, m.extras) + DoublesBytes(stamps) + prompt
  {
    var m := PyMessageOf(frames, stamps, prompt, maxTokens, sequenceType, id);
    PiecesAreWire(base, m);
    var front := base + RequestHeaderBytes(m.header) + EncMany(ImageHeaderBytes, m.extraHeaders) + m.primary
                 + EncMany(Raw, m.extras) + DoublesBytes(stamps);
    assert front + [] == front && front + prompt + [] == front + prompt;
  }

  method PyReceiveReply(ch: Channel, id: U64) returns (r: Option<PyAnswer>)
    modifies ch`inbound, ch`schedule
    ensures r.Some? ==> PyReadReply(id, old(ch.inbound)) == Done(r.value, ch.inbound)
    ensures Clean(old(ch.schedule)) ==>
              Clean(ch.schedule) && r.Some? == PyReadReply(id, old(ch.inbound)).Done?
  {
    var b := ch.RecvExact(RESPONSE_SIZE);
    if b.None? { return None; }
    var h := ResponseHeaderOf(b.value);
    if !PyResponseOk(h, id) { return None; }
    var text := ch.RecvExact(h.textBytes);
    if text.None? { return None; }
    var error := ch.RecvExact(h.errorBytes);
    if error.None? { return None; }
    var encoding := ch.RecvExact(h.encodingBytes);
    if encoding.None? { return None; }
    return Some(PyAnswer(h.success != 0, text.value, error.value, h.inferenceSeconds, encoding.value));
  }

  // The argument checks `IpcClient.infer` makes before it connects, and the one after.
  predicate PyArgumentsOk(frames: seq<PyFrame>, stamps: seq<Double>, sequenceType: SequenceType) {
    frames != [] && |frames| == |stamps| && (sequenceType == IMAGES || sequenceType == VIDEO)
  }

  predicate PyShapesOk(frames: seq<PyFrame>) {
    forall i :: 0 <= i < |frames| ==> frames[i].bgr
  }

  class PyClient {
    var sock: Channel?
    var nextRequestId: U64

    constructor ()
      ensures sock == null && nextRequestId == 1
    {
      sock, nextRequestId := null, 1;
    }

    /** `IpcClient.infer`; unlike the C++ client it uses up an id before it checks the shapes. */
    method Infer(frames: seq<PyFrame>, stamps: seq<Double>, prompt: seq<Byte>, maxTokens: U32,
                 sequenceType: SequenceType, reachable: Option<Channel>) returns (a: Answer<PyAnswer>)
      modifies this, sock, if reachable.Some? then {reachable.value} else {}
      ensures !PyArgumentsOk(frames, stamps, sequenceType) ==>
                a == Rejected && sock == old(sock) && nextRequestId == old(nextRequestId)
                && (sock != null ==> sock.outbound == old(sock.outbound) && sock.inbound == old(sock.inbound))
      ensures PyArgumentsOk(frames, stamps, sequenceType) ==>
              var ch := if old(sock) != null then old(sock) else
                          if reachable.Some? then reachable.value else null;
              && (a.NoConnection? <==> ch == null)
              && (ch == null ==> sock == null && nextRequestId == old(nextRequestId))
              && (ch != null && !PyShapesOk(frames) ==>
                    a == Rejected && sock == ch && nextRequestId == (old(nextRequestId) + 1) % 0x1_0000_0000_0000_0000
                    && ch.inbound == old(ch.inbound) && ch.outbound == old(ch.outbound))
              && (ch != null && PyShapesOk(frames) ==>
                    var id := old(nextRequestId);
                    && nextRequestId == (id + 1) % 0x1_0000_0000_0000_0000
                    && (a.Lost? || a.Answered?)
                    && (a.Lost? ==> sock == null)
                    && (a.Answered? ==>
                          && sock == ch
                          && ch.outbound == old(ch.outbound) + Wire(PyMessageOf(frames, stamps, prompt, maxTokens, sequenceType, id))
                          && PyReadReply(id, old(ch.inbound)) == Done(a.reply, ch.inbound))
                    && (Clean(old(ch.schedule)) ==>
                          Clean(ch.schedule) && (a.Answered? <==> PyReadReply(id, old(ch.inbound)).Done?)))
    {
      hide PyReadReply, Wire, PyMessageOf;
      if frames == [] || |frames| != |stamps| || !(sequenceType == IMAGES || sequenceType == VIDEO) {
        return Rejected;
      }
      if sock == null {
        if reachable.None? { return NoConnection; }
        sock := reachable.value;
      }
      var id := nextRequestId;
      nextRequestId := (nextRequestId + 1) % 0x1_0000_0000_0000_0000;
      for k := 0 to |frames|
        invariant forall j :: 0 <= j < k ==> frames[j].bgr
      {
        if !frames[k].bgr { return Rejected; }
      }
      var ok := PySendRequest(sock, frames, stamps, prompt, maxTokens, sequenceType, id);
      if !ok {
        sock := null;
        return Lost;
      }
      var reply := PyReceiveReply(sock, id);
      if reply.None? {
        sock := null;
        return Lost;
      }
      return Answer.Answered(reply.value);
    }
  }
}
