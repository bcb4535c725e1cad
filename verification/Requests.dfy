/**
 * Inference requests, the message each client builds from them, and the request the worker
 * rebuilds. The central results: what the C++ client accepts survives the trip unchanged, one
 * request or a whole stream of them.
 */
module Requests {
  import opened Bytes
  import opened Doubles
  import opened Protocol
  import opened Decoders
  import opened Optional

  type SequenceType = t: U32 | t <= 2

  // A packed image. `bgr8` is false for every other pixel type.
  datatype Image = Image(cols: nat, rows: nat, bgr8: bool, data: seq<Byte>) {
    predicate Empty() { cols == 0 || rows == 0 }

    // What an image matrix guarantees: int dimensions, three bytes a pixel when BGR8.
    ghost predicate WellFormed() {
      && cols <= INT_MAX && rows <= INT_MAX
      && (bgr8 ==> |data| == rows * (cols * 3))
    }
  }

  datatype Request = Request(
    image: Image, extraImages: seq<Image>, sequenceType: SequenceType, fps: Option<Double>,
    timestamps: seq<Double>, prompt: seq<Byte>,
    maxGenerateLength: U32, temperature: U32, topP: U32, topK: U32,
    system: seq<Byte>, history: seq<Turn>, useSystemPromptCache: bool)
  {
    function Frames(): nat { 1 + |extraImages| }

    ghost predicate WellFormed() {
      image.WellFormed() && forall i :: 0 <= i < |extraImages| ==> extraImages[i].WellFormed()
    }

    predicate Structured() { system != [] || history != [] }
  }

  // The sizes `infer` compares against: the configured limit or the protocol's, if smaller.
  datatype Limits = Limits(configuredImageBytes: nat, configuredTextBytes: nat) {
    function MaxImage(): nat {
      if configuredImageBytes < MAX_IMAGE_BYTES then configuredImageBytes else MAX_IMAGE_BYTES
    }

    function MaxText(): nat {
      if configuredTextBytes < MAX_TEXT_BYTES then configuredTextBytes else MAX_TEXT_BYTES
    }
  }

  predicate SendableImage(im: Image, limits: Limits) {
    !im.Empty() && im.bgr8 && |im.data| <= limits.MaxImage()
  }

  predicate SendableTurn(t: Turn, limits: Limits) {
    |t.user| <= limits.MaxText() && |t.asst| <= limits.MaxText()
  }

  // The requests `IpcInferenceBackend::infer` sends instead of throwing.
  ghost predicate CppSendable(r: Request, limits: Limits) {
    && SendableImage(r.image, limits)
    && |r.extraImages| <= MAX_EXTRA_IMAGES
    && TemporalOk(r.sequenceType, r.fps, r.Frames(), r.timestamps)
    && (forall i :: 0 <= i < |r.extraImages| ==> SendableImage(r.extraImages[i], limits))
    && |r.prompt| <= limits.MaxText()
    && |r.system| <= limits.MaxText()
    && |r.history| <= MAX_HISTORY_ENTRIES
    && (forall i :: 0 <= i < |r.history| ==> SendableTurn(r.history[i], limits))
  }

  function SchemaFlags(r: Request): Flags {
    Flags(r.Structured(), r.system != [] && r.useSystemPromptCache, r.extraImages != [],
          r.fps.Some?, r.timestamps != [], 0)
  }

  function ImageHeaderFor(im: Image): ImageHeader {
    ImageHeader(Size32(im.cols), Size32(im.rows), Size32(im.cols * 3), Size32(|im.data|))
  }

  function ImageData(im: Image): seq<Byte> { im.data }

  function Map<A, B>(f: A -> B, xs: seq<A>): (ys: seq<B>)
    ensures |ys| == |xs| && forall i :: 0 <= i < |xs| ==> ys[i] == f(xs[i])
  {
    seq(|xs|, i requires 0 <= i < |xs| => f(xs[i]))
  }

  function CppHeaderFor(r: Request, id: U64, padding: U32): RequestHeader {
    RequestHeader(
      MAGIC, VERSION, id,
      Size32(r.image.cols), Size32(r.image.rows), Size32(r.image.cols * 3), ENCODING_BGR8,
      Size32(|r.image.data|), Size32(|r.prompt|),
      r.maxGenerateLength, r.temperature, r.topP, r.topK,
      SchemaFlags(r), Size32(|r.system|), Size32(|r.history|),
      if r.extraImages == [] then 0 else Size32(1 + |r.extraImages|),
      r.sequenceType, padding,
      if r.fps.Some? then r.fps.value else ZERO,
      Size32(|r.timestamps|), 0)
  }

  /** What the C++ client puts on the stream; a system message or history makes it structured. */
  function CppMessageOf(r: Request, id: U64, padding: U32): Message {
    Message(CppHeaderFor(r, id, padding), Map(ImageHeaderFor, r.extraImages), r.image.data,
            Map(ImageData, r.extraImages), r.timestamps, r.system, r.prompt, r.history)
  }

  /** Every field the client fills in, by the place it is read from. */
  lemma CppSentFields(r: Request, id: U64, padding: U32)
    ensures var m := CppMessageOf(r, id, padding);
            var h := m.header;
            && h.magic == 0x4556_4C4D && h.version == 3 && h.requestId == id && h.encoding == 1
            && (h.maxGenerateLength, h.temperature, h.topP, h.topK) == (r.maxGenerateLength, r.temperature, r.topP, r.topK)
            && h.sequenceType == r.sequenceType && (r.fps.Some? ==> h.fps == r.fps.value) && h.reserved == 0
            && (h.schemaFlags.structured <==> r.system != [] || r.history != [])
            && (h.schemaFlags.sysCache <==> r.system != [] && r.useSystemPromptCache)
            && (h.schemaFlags.multiImage <==> r.extraImages != [])
            && (h.schemaFlags.hasFps <==> r.fps.Some?) && (h.schemaFlags.hasTimestamps <==> r.timestamps != [])
            && (r.image.WellFormed() ==> h.width == r.image.cols && h.height == r.image.rows)
            && (m.primary, m.timestamps, m.system, m.prompt, m.history)
               == (r.image.data, r.timestamps, r.system, r.prompt, r.history)
            && |m.extras| == |m.extraHeaders| == |r.extraImages|
            && (forall i :: 0 <= i < |r.extraImages| && r.extraImages[i].WellFormed() ==>
                  && m.extras[i] == r.extraImages[i].data
                  && m.extraHeaders[i].width == r.extraImages[i].cols && m.extraHeaders[i].height == r.extraImages[i].rows)
  {
  }

  // The request the worker hands to its backend.
  function RequestOf(m: Message): Request
    requires m.header.sequenceType <= 2 && |m.extras| == |m.extraHeaders|
  {
    var h := m.header;
    Request(
      Image(h.width, h.height, true, m.primary),
      seq(|m.extras|, i requires 0 <= i < |m.extras| =>
        Image(m.extraHeaders[i].width, m.extraHeaders[i].height, true, m.extras[i])),
      h.sequenceType, FpsOf(h), m.timestamps, m.prompt,
      h.maxGenerateLength, h.temperature, h.topP, h.topK,
      m.system, m.history, h.schemaFlags.sysCache)
  }

  // The one thing the trip may change: the cache flag is dropped when there is no system message.
  function Normalised(r: Request): Request {
    r.(useSystemPromptCache := r.useSystemPromptCache && r.system != [])
  }

  lemma ProductBounds(a: nat, b: nat)
    requires a > 0 && b > 0
    ensures a <= a * b && b <= a * b
  {
  }

  lemma ImageHeaderFits(cols: nat, rows: nat, bytes: nat)
    requires cols > 0 && rows > 0 && bytes == rows * (cols * 3) && bytes <= MAX_IMAGE_BYTES
    ensures CppImageOk(ImageHeader(Size32(cols), Size32(rows), Size32(cols * 3), Size32(bytes)))
    ensures Size32(cols) == cols && Size32(rows) == rows && Size32(cols * 3) == cols * 3
    ensures Size32(bytes) == bytes
  {
    ProductBounds(rows, cols * 3);
  }

  lemma SendableImageHeader(im: Image, limits: Limits)
    requires im.WellFormed() && SendableImage(im, limits)
    ensures CppImageOk(ImageHeaderFor(im))
    ensures ImageHeaderFor(im) == ImageHeader(im.cols, im.rows, im.cols * 3, |im.data|)
  {
    ImageHeaderFits(im.cols, im.rows, |im.data|);
  }

  lemma SentSizes(r: Request, id: U64, padding: U32)
    requires |r.extraImages| <= MAX_EXTRA_IMAGES && |r.timestamps| <= MAX_EXTRA_IMAGES + 1
    requires |r.prompt| <= MAX_TEXT_BYTES && |r.system| <= MAX_TEXT_BYTES
    requires |r.history| <= MAX_HISTORY_ENTRIES
    ensures var h := CppHeaderFor(r, id, padding);
            && FrameCount(h) == r.Frames() && TimestampCount(h) == |r.timestamps|
            && SystemSize(h) == |r.system| && TurnCount(h) == |r.history| && FpsOf(h) == r.fps
            && h.promptBytes == |r.prompt| && h.systemBytes == |r.system|
            && h.historyCount == |r.history| && h.timestampCount == |r.timestamps|
  {
  }

  lemma SentHeaderOk(r: Request, limits: Limits, id: U64, padding: U32)
    requires r.WellFormed() && CppSendable(r, limits)
    ensures CppHeaderOk(CppHeaderFor(r, id, padding))
  {
    var h := CppHeaderFor(r, id, padding);
    SentSizes(r, id, padding);
    SendableImageHeader(r.image, limits);
    assert CppImageOk(ImageHeader(h.width, h.height, h.step, h.imageBytes));
    assert IsFinite(ZERO) && Val(ZERO) == 0.0 by { ZeroIsZero(); }
  }

  /** Every request the C++ client sends is one the C++ worker accepts. */
  lemma SentIsAccepted(r: Request, limits: Limits, id: U64, padding: U32)
    requires r.WellFormed() && CppSendable(r, limits)
    ensures CppAccepts(CppMessageOf(r, id, padding))
  {
    var m := CppMessageOf(r, id, padding);
    SentHeaderOk(r, limits, id, padding);
    SentSizes(r, id, padding);
    SendableImageHeader(r.image, limits);
    forall i | 0 <= i < |r.extraImages|
      ensures CppImageOk(m.extraHeaders[i]) && |m.extras[i]| == m.extraHeaders[i].imageBytes
    {
      SendableImageHeader(r.extraImages[i], limits);
    }
    forall i | 0 <= i < |r.history|
      ensures TurnOk(m.history[i])
    {
      assert SendableTurn(r.history[i], limits);
    }
  }

  /**
   * The other way round: whatever the worker accepts rebuilds to a request the client would send
   * under the protocol's own limits. So the two sides check the same things.
   */
  lemma AcceptedIsSendable(m: Message)
    requires CppAccepts(m)
    ensures m.header.sequenceType <= 2 && |m.extras| == |m.extraHeaders|
    ensures RequestOf(m).WellFormed()
    ensures CppSendable(RequestOf(m), Limits(256 * 1024 * 1024, 1024 * 1024))
  {
    var r, limits := RequestOf(m), Limits(256 * 1024 * 1024, 1024 * 1024);
    var h := m.header;
    assert r.image.WellFormed() && SendableImage(r.image, limits) by {
      AcceptedImage(h.width, h.height, h.step, m.primary);
    }
    forall i | 0 <= i < |r.extraImages| ensures r.extraImages[i].WellFormed() && SendableImage(r.extraImages[i], limits) {
      var e := m.extraHeaders[i];
      assert CppImageOk(e);
      AcceptedImage(e.width, e.height, e.step, m.extras[i]);
    }
    forall i | 0 <= i < |r.history| ensures SendableTurn(r.history[i], limits) { assert TurnOk(m.history[i]); }
  }

  /**
   * Exactly what the worker accepts: the right magic, version and pixel format, packed images,
   * counts and values that go with the flags, sections of the announced sizes, and a request
   * the client would send. Nothing about unknown flags, padding or reserved words.
   */
  lemma AcceptedExactly(m: Message)
    ensures CppAccepts(m) <==>
            var h := m.header;
            && h.magic == 0x4556_4C4D && h.version == 3 && h.encoding == 1 && h.sequenceType <= 2
            && h.step == h.width * 3 && h.step * h.height == h.imageBytes
            && (forall i :: 0 <= i < |m.extraHeaders| ==>
                  var e := m.extraHeaders[i]; e.step == e.width * 3 && e.step * e.height == e.imageBytes)
            && (h.schemaFlags.multiImage ==> h.imageCount >= 2)
            && (!h.schemaFlags.hasFps ==> IsFinite(h.fps) && Val(h.fps) == 0.0)
            && h.timestampCount == (if !h.schemaFlags.hasTimestamps then 0 else if h.schemaFlags.multiImage then h.imageCount else 1)
            && h.systemBytes <= 1024 * 1024 && h.historyCount <= 256
            && Consistent(m) && CppSendable(RequestOf(m), Limits(256 * 1024 * 1024, 1024 * 1024))
  {
    hide Val;
    if CppAccepts(m) {
      AcceptedIsSendable(m);
      AcceptedIsConsistent(m);
      forall i | 0 <= i < |m.extraHeaders|
        ensures m.extraHeaders[i].step == m.extraHeaders[i].width * 3
        ensures m.extraHeaders[i].step * m.extraHeaders[i].height == m.extraHeaders[i].imageBytes
      {
        assert CppImageOk(m.extraHeaders[i]);
      }
    } else if Consistent(m) && m.header.sequenceType <= 2 && CppSendable(RequestOf(m), Limits(256 * 1024 * 1024, 1024 * 1024)) {
      SendableIsAccepted(m);
    }
  }

  lemma SendableIsAccepted(m: Message)
    requires Consistent(m) && m.header.sequenceType <= 2
    requires CppSendable(RequestOf(m), Limits(256 * 1024 * 1024, 1024 * 1024))
    ensures var h := m.header;
            && h.magic == 0x4556_4C4D && h.version == 3 && h.encoding == 1
            && h.step == h.width * 3 && h.step * h.height == h.imageBytes
            && (forall i :: 0 <= i < |m.extraHeaders| ==>
                  var e := m.extraHeaders[i]; e.step == e.width * 3 && e.step * e.height == e.imageBytes)
            && (h.schemaFlags.multiImage ==> h.imageCount >= 2)
            && (!h.schemaFlags.hasFps ==> IsFinite(h.fps) && Val(h.fps) == 0.0)
            && h.timestampCount == (if !h.schemaFlags.hasTimestamps then 0 else if h.schemaFlags.multiImage then h.imageCount else 1)
            && h.systemBytes <= 1024 * 1024 && h.historyCount <= 256
            ==> CppAccepts(m)
  {
    hide Val;
    var r, limits := RequestOf(m), Limits(256 * 1024 * 1024, 1024 * 1024);
    var h := m.header;
    forall i | 0 <= i < |m.history| ensures TurnOk(m.history[i]) { assert SendableTurn(r.history[i], limits); }
    forall i | 0 <= i < |m.extraHeaders|
      ensures m.extraHeaders[i].width != 0 && m.extraHeaders[i].height != 0 && m.extraHeaders[i].imageBytes <= MAX_IMAGE_BYTES
    {
      assert SendableImage(r.extraImages[i], limits);
    }
    if h.step == h.width * 3 && h.step * h.height == h.imageBytes {
      DimensionsBounded(h.width, h.height, h.step, h.imageBytes);
    }
  }

  lemma AcceptedImage(width: nat, height: nat, step: nat, data: seq<Byte>)
    requires width != 0 && height != 0 && step == width * 3 && |data| == step * height && |data| <= MAX_IMAGE_BYTES
    ensures Image(width, height, true, data).WellFormed()
    ensures SendableImage(Image(width, height, true, data), Limits(256 * 1024 * 1024, 1024 * 1024))
  {
    DimensionsBounded(width, height, step, |data|);
  }

  /** The configured limits only ever narrow the protocol's. */
  lemma SendableExactly(r: Request, limits: Limits)
    ensures CppSendable(r, limits) <==>
            && CppSendable(r, Limits(256 * 1024 * 1024, 1024 * 1024))
            && |r.image.data| <= limits.configuredImageBytes
            && (forall i :: 0 <= i < |r.extraImages| ==> |r.extraImages[i].data| <= limits.configuredImageBytes)
            && |r.prompt| <= limits.configuredTextBytes && |r.system| <= limits.configuredTextBytes
            && (forall i :: 0 <= i < |r.history| ==>
                  |r.history[i].user| <= limits.configuredTextBytes && |r.history[i].asst| <= limits.configuredTextBytes)
  {
    hide TemporalOk;
    var full := Limits(256 * 1024 * 1024, 1024 * 1024);
    assert forall i :: 0 <= i < |r.extraImages| ==>
      (SendableImage(r.extraImages[i], limits) <==>
       SendableImage(r.extraImages[i], full) && |r.extraImages[i].data| <= limits.configuredImageBytes);
    assert forall i :: 0 <= i < |r.history| ==>
      (SendableTurn(r.history[i], limits) <==>
       && SendableTurn(r.history[i], full)
       && |r.history[i].user| <= limits.configuredTextBytes && |r.history[i].asst| <= limits.configuredTextBytes);
  }

  /** ... and the backend gets back the very request that was sent. */
  lemma RequestRoundTrip(r: Request, limits: Limits, id: U64, padding: U32)
    requires r.WellFormed() && CppSendable(r, limits)
    ensures RequestOf(CppMessageOf(r, id, padding)) == Normalised(r)
    ensures Normalised(r) == r.(useSystemPromptCache := r.useSystemPromptCache && r.system != [])
  {
    var m := CppMessageOf(r, id, padding);
    SendableImageHeader(r.image, limits);
    forall i | 0 <= i < |r.extraImages|
      ensures RequestOf(m).extraImages[i] == r.extraImages[i]
    {
      SendableImageHeader(r.extraImages[i], limits);
    }
    assert RequestOf(m).extraImages == r.extraImages;
  }

  // ---- Streams of requests -------------------------------------------------------------

  ghost predicate Shrinks<T>(decode: seq<Byte> -> Read<T>) {
    forall bs :: decode(bs).Done? ==> |decode(bs).rest| < |bs|
  }

  /** A worker's loop: decode until the stream holds no further acceptable item. */
  ghost function DecodeAll<T>(decode: seq<Byte> -> Read<T>, bs: seq<Byte>): (seq<T>, seq<Byte>)
    requires Shrinks(decode)
    decreases |bs|
  {
    match decode(bs)
    case Done(x, rest) =>
      var (xs, left) := DecodeAll(decode, rest);
      ([x] + xs, left)
    case _ => ([], bs)
  }

  // `decode` recovers `x` from the front of a stream, whatever follows it.
  ghost predicate Recovers<T>(decode: seq<Byte> -> Read<T>, enc: T -> seq<Byte>, x: T) {
    forall next :: decode(enc(x) + next) == Done(x, next)
  }

  /** Framing of a persistent stream: items written back to back come out one by one. */
  lemma {:induction false} StreamFraming<T>(decode: seq<Byte> -> Read<T>, enc: T -> seq<Byte>, xs: seq<T>)
    requires Shrinks(decode)
    requires forall i :: 0 <= i < |xs| ==> Recovers(decode, enc, xs[i])
    ensures DecodeAll(decode, EncMany(enc, xs)) == (xs, [])
  {
    if xs == [] {
      assert !decode([]).Done?;
    } else {
      StreamFraming(decode, enc, xs[1..]);
      var next := EncMany(enc, xs[1..]);
      assert Recovers(decode, enc, xs[0]);
      assert decode(enc(xs[0]) + next) == Done(xs[0], next);
      assert [xs[0]] + xs[1..] == xs;
    }
  }

  lemma CppDecodeShrinks()
    ensures Shrinks(CppDecode)
  {
    hide CppDecode, CppAccepts, PayloadThen;
    forall bs: seq<Byte> | CppDecode(bs).Done?
      ensures |CppDecode(bs).rest| < |bs|
    {
      CppDecodeExact(bs, CppDecode(bs).value, CppDecode(bs).rest);
      WireThenIsConcat(CppDecode(bs).value, CppDecode(bs).rest);
    }
  }

  lemma CppRecovers(m: Message)
    requires CppAccepts(m)
    ensures Recovers(CppDecode, Wire, m)
  {
    hide CppDecode, CppAccepts, WireThen, Wire;
    forall next
      ensures CppDecode(Wire(m) + next) == Done(m, next)
    {
      WireThenIsConcat(m, next);
      CppDecodeExact(WireThen(m, next), m, next);
    }
  }

  // Requests with the id and the padding bytes their headers happened to carry.
  datatype Tagged = Tagged(request: Request, id: U64, padding: U32)

  function MessageOf(t: Tagged): Message { CppMessageOf(t.request, t.id, t.padding) }

  /** The codec theorem: any list of sendable requests decodes to exactly that list. */
  lemma CodecRoundTrip(ts: seq<Tagged>, limits: Limits)
    requires forall i :: 0 <= i < |ts| ==>
               ts[i].request.WellFormed() && CppSendable(ts[i].request, limits)
    ensures Shrinks(CppDecode)
    ensures DecodeAll(CppDecode, EncMany(Wire, Map(MessageOf, ts))) == (Map(MessageOf, ts), [])
    ensures forall i :: 0 <= i < |ts| ==>
              var m := Map(MessageOf, ts)[i];
              CppAccepts(m) && RequestOf(m) == Normalised(ts[i].request)
  {
    var ms := Map(MessageOf, ts);
    forall i | 0 <= i < |ts|
      ensures CppAccepts(ms[i]) && RequestOf(ms[i]) == Normalised(ts[i].request)
      ensures Recovers(CppDecode, Wire, ms[i])
    {
      SentIsAccepted(ts[i].request, limits, ts[i].id, ts[i].padding);
      RequestRoundTrip(ts[i].request, limits, ts[i].id, ts[i].padding);
      CppRecovers(ms[i]);
    }
    CppDecodeShrinks();
    StreamFraming(CppDecode, Wire, ms);
  }

  // ---- The Python client ---------------------------------------------------------------

  // A camera frame; `bgr` says that its array has shape rows x cols x 3.
  datatype PyFrame = PyFrame(cols: nat, rows: nat, bgr: bool, data: seq<Byte>) {
    ghost predicate WellFormed() { bgr ==> |data| == rows * (cols * 3) }
  }

  function PyImageHeaderFor(f: PyFrame): ImageHeader {
    ImageHeader(Size32(f.cols), Size32(f.rows), Size32(f.cols * 3), Size32(|f.data|))
  }

  function PyFrameData(f: PyFrame): seq<Byte> { f.data }

  // The bit patterns of the float constants 0.0 and 1.0.
  const FLOAT_ZERO: U32 := 0
  const FLOAT_ONE: U32 := 0x3F80_0000

  function PyHeaderFor(frames: seq<PyFrame>, stamps: seq<Double>, prompt: seq<Byte>,
                       maxTokens: U32, sequenceType: SequenceType, id: U64): RequestHeader
    requires frames != []
  {
    RequestHeader(
      MAGIC, VERSION, id,
      Size32(frames[0].cols), Size32(frames[0].rows), Size32(frames[0].cols * 3), ENCODING_BGR8,
      Size32(|frames[0].data|), Size32(|prompt|), maxTokens, FLOAT_ZERO, FLOAT_ONE, 1,
      Flags(false, false, |frames| > 1, false, true, 0), 0, 0,
      if |frames| > 1 then Size32(|frames|) else 0,
      sequenceType, 0, ZERO, Size32(|stamps|), 0)
  }

  function PyMessageOf(frames: seq<PyFrame>, stamps: seq<Double>, prompt: seq<Byte>,
                       maxTokens: U32, sequenceType: SequenceType, id: U64): Message
    requires frames != []
  {
    Message(PyHeaderFor(frames, stamps, prompt, maxTokens, sequenceType, id),
            Map(PyImageHeaderFor, frames[1..]), frames[0].data, Map(PyFrameData, frames[1..]),
            stamps, [], prompt, [])
  }

  // The value of a finite 32-bit float pattern without sign: significand, and the power of two that scales it.
  function SingleVal(w: U32): real
    requires w < 0x7F80_0000
  {
    var exponent, fraction := w / 0x80_0000, w % 0x80_0000;
    if exponent == 0 then Scale(fraction as real, -149) else Scale((0x80_0000 + fraction) as real, exponent - 150)
  }

  /** Every field the Python client fills in; temperature 0, top_p 1, top_k 1, no system message and no history. */
  lemma PySentFields(frames: seq<PyFrame>, stamps: seq<Double>, prompt: seq<Byte>,
                     maxTokens: U32, sequenceType: SequenceType, id: U64)
    requires frames != []
    ensures var m := PyMessageOf(frames, stamps, prompt, maxTokens, sequenceType, id);
            var h := m.header;
            && h.magic == 0x4556_4C4D && h.version == 3 && h.requestId == id && h.encoding == 1
            && h.temperature < 0x7F80_0000 && SingleVal(h.temperature) == 0.0
            && h.topP < 0x7F80_0000 && SingleVal(h.topP) == 1.0 && h.topK == 1
            && h.maxGenerateLength == maxTokens && h.sequenceType == sequenceType && h.reserved == 0
            && h.systemBytes == 0 && h.historyCount == 0 && m.system == [] && m.history == []
            && h.schemaFlags == Flags(false, false, |frames| > 1, false, true, 0)
            && (frames[0].cols < 0x1_0000_0000 && frames[0].rows < 0x1_0000_0000 ==>
                  h.width == frames[0].cols && h.height == frames[0].rows)
            && (m.primary, m.timestamps, m.prompt) == (frames[0].data, stamps, prompt)
            && |m.extras| == |m.extraHeaders| == |frames| - 1
            && (forall i :: 0 < i < |frames| ==>
                  && m.extras[i - 1] == frames[i].data
                  && (frames[i].cols < 0x1_0000_0000 && frames[i].rows < 0x1_0000_0000 ==>
                        m.extraHeaders[i - 1].width == frames[i].cols && m.extraHeaders[i - 1].height == frames[i].rows))
  {
    ScaleZero(-149);
    ScaleExactly(0x80_0000 as real, 23);
    SmallPowers();
    FullScale(Scale(0x80_0000 as real, -23));
  }

  lemma SmallPowers()
    ensures Pow2(23) == 8388608.0
  {
    assert Pow2(8) == 256.0;
    assert Pow2(16) == 65536.0;
  }

  lemma FullScale(x: real)
    requires x * 8388608.0 == 8388608.0
    ensures x == 1.0
  {
  }

  // The frames and prompts that fit the protocol; the Python client itself does not check.
  ghost predicate PyFitting(f: PyFrame) {
    f.WellFormed() && f.bgr && f.cols > 0 && f.rows > 0 && |f.data| <= MAX_IMAGE_BYTES
  }

  /**
   * The Python client's requests reach both workers intact: with at most 32 fitting frames and
   * finite, strictly increasing stamps, a video request is accepted, and nothing is changed.
   */
  lemma PyRequestAccepted(frames: seq<PyFrame>, stamps: seq<Double>, prompt: seq<Byte>,
                          maxTokens: U32, id: U64, next: seq<Byte>)
    requires 1 <= |frames| <= MAX_EXTRA_IMAGES + 1 && |stamps| == |frames|
    requires forall i :: 0 <= i < |frames| ==> PyFitting(frames[i])
    requires Increasing(stamps) && |prompt| <= MAX_TEXT_BYTES
    ensures var m := PyMessageOf(frames, stamps, prompt, maxTokens, VIDEO, id);
            && PyDecode(WireThen(m, next)) == Done(m, next)
            && CppDecode(WireThen(m, next)) == Done(m, next)
  {
    hide CppDecode, PyDecode, WireThen, CppHeaderOk, PyHeaderOk;
    var m := PyMessageOf(frames, stamps, prompt, maxTokens, VIDEO, id);
    PySentHeaderOk(frames, stamps, prompt, maxTokens, id);
    HeaderChecksAgree(m.header);
    forall i | 0 <= i < |m.extras|
      ensures CppImageOk(m.extraHeaders[i]) && |m.extras[i]| == m.extraHeaders[i].imageBytes
    {
      var f := frames[i + 1];
      ImageHeaderFits(f.cols, f.rows, |f.data|);
    }
    CppDecodeExact(WireThen(m, next), m, next);
    PyDecodeExact(WireThen(m, next), m, next);
  }

  lemma PySentHeaderOk(frames: seq<PyFrame>, stamps: seq<Double>, prompt: seq<Byte>,
                       maxTokens: U32, id: U64)
    requires 1 <= |frames| <= MAX_EXTRA_IMAGES + 1 && |stamps| == |frames|
    requires PyFitting(frames[0]) && |prompt| <= MAX_TEXT_BYTES
    ensures var h := PyHeaderFor(frames, stamps, prompt, maxTokens, VIDEO, id);
            && CppHeaderOk(h)
            && FrameCount(h) == |frames| && TimestampCount(h) == |stamps|
            && SystemSize(h) == 0 && TurnCount(h) == 0 && FpsOf(h) == None
            && h.promptBytes == |prompt| && h.imageBytes == |frames[0].data|
  {
    ZeroIsZero();
    var f := frames[0];
    ImageHeaderFits(f.cols, f.rows, |f.data|);
    ProductBounds(f.rows, f.cols * 3);
  }

  // ---- Which of its requests the Python worker takes -----------------------------------

  // Colour frames and texts whose sizes fit the 32-bit fields they are announced in.
  ghost predicate Transmittable(frames: seq<PyFrame>, prompt: seq<Byte>) {
    && 1 <= |frames| < 0x1_0000_0000 && |prompt| < 0x1_0000_0000
    && forall i :: 0 <= i < |frames| ==> frames[i].WellFormed() && frames[i].bgr && |frames[i].data| < 0x1_0000_0000
  }

  /** Whatever else is wrong with a request, its sections have the sizes it announces. */
  lemma PySentIsConsistent(frames: seq<PyFrame>, stamps: seq<Double>, prompt: seq<Byte>,
                           maxTokens: U32, sequenceType: SequenceType, id: U64)
    requires Transmittable(frames, prompt) && |stamps| == |frames|
    ensures Consistent(PyMessageOf(frames, stamps, prompt, maxTokens, sequenceType, id))
  {
    var m := PyMessageOf(frames, stamps, prompt, maxTokens, sequenceType, id);
    assert |frames[0].data| < 0x1_0000_0000;
    AnnouncedSizes(frames, stamps, prompt, maxTokens, sequenceType, id);
    hide PyHeaderFor;
    forall i | 0 <= i < |m.extras|
      ensures |m.extras[i]| == m.extraHeaders[i].imageBytes
    {
      assert |frames[i + 1].data| < 0x1_0000_0000;
    }
  }

  lemma AnnouncedSizes(frames: seq<PyFrame>, stamps: seq<Double>, prompt: seq<Byte>,
                       maxTokens: U32, sequenceType: SequenceType, id: U64)
    requires 1 <= |frames| < 0x1_0000_0000 && |prompt| < 0x1_0000_0000 && |stamps| == |frames|
    requires |frames[0].data| < 0x1_0000_0000
    ensures var h := PyHeaderFor(frames, stamps, prompt, maxTokens, sequenceType, id);
            && FrameCount(h) == |frames| && TimestampCount(h) == |stamps| && SystemSize(h) == 0 && TurnCount(h) == 0
            && h.promptBytes == |prompt| && h.imageBytes == |frames[0].data|
  {
  }

  lemma PyImageOkExactly(f: PyFrame)
    requires f.WellFormed() && f.bgr && |f.data| < 0x1_0000_0000
    ensures CppImageOk(PyImageHeaderFor(f)) <==> PyFitting(f)
  {
    if PyFitting(f) { ImageHeaderFits(f.cols, f.rows, |f.data|); }
  }

  lemma PySentHeaderExactly(frames: seq<PyFrame>, stamps: seq<Double>, prompt: seq<Byte>,
                            maxTokens: U32, sequenceType: SequenceType, id: U64)
    requires Transmittable(frames, prompt) && |stamps| == |frames|
    ensures PyHeaderOk(PyHeaderFor(frames, stamps, prompt, maxTokens, sequenceType, id))
            <==> |frames| <= MAX_EXTRA_IMAGES + 1 && PyFitting(frames[0]) && |prompt| <= MAX_TEXT_BYTES
  {
    ZeroIsZero();
    PyImageOkExactly(frames[0]);
    assert |frames[0].data| < 0x1_0000_0000;
  }

  /**
   * The Python client checks none of this itself: its request is taken by the Python worker if
   * and only if there are at most 32 frames, each of fitting size, the stamps are finite and
   * strictly increasing, and the prompt is no longer than the limit.
   */
  lemma PyAcceptedExactly(frames: seq<PyFrame>, stamps: seq<Double>, prompt: seq<Byte>,
                          maxTokens: U32, sequenceType: SequenceType, id: U64, next: seq<Byte>)
    requires Transmittable(frames, prompt) && |stamps| == |frames|
    ensures var m := PyMessageOf(frames, stamps, prompt, maxTokens, sequenceType, id);
            PyDecode(WireThen(m, next)).Done? <==>
            && |frames| <= MAX_EXTRA_IMAGES + 1 && (forall i :: 0 <= i < |frames| ==> PyFitting(frames[i]))
            && Increasing(stamps) && |prompt| <= MAX_TEXT_BYTES
  {
    hide PyDecode, WireThen, PyHeaderOk, PyHeaderFor, CppImageOk, PyFitting;
    var m := PyMessageOf(frames, stamps, prompt, maxTokens, sequenceType, id);
    PySentIsConsistent(frames, stamps, prompt, maxTokens, sequenceType, id);
    PySentHeaderExactly(frames, stamps, prompt, maxTokens, sequenceType, id);
    forall i | 0 <= i < |m.extras|
      ensures CppImageOk(m.extraHeaders[i]) <==> PyFitting(frames[i + 1])
    {
      PyImageOkExactly(frames[i + 1]);
    }
    assert forall i :: 1 <= i < |frames| ==> (CppImageOk(m.extraHeaders[i - 1]) <==> PyFitting(frames[i]));
    PyDecodeExact(WireThen(m, next), m, next);
    if PyDecode(WireThen(m, next)).Done? {
      var Done(m', rest) := PyDecode(WireThen(m, next));
      PyDecodeExact(WireThen(m, next), m', rest);
      AcceptedIsConsistent(m');
      MessagesPrefixFree(m, next, m', rest);
    }
  }
}
