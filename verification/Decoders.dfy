/**
 * The two request decoders as functions of the bytes still on the stream: the C++ worker loop
 * and the Python `read_request`. Each is proved to accept exactly the byte strings that start
 * with the layout of a well-formed message, and to return that message and the bytes after it.
 */
module Decoders {
  import opened Bytes
  import opened Doubles
  import opened Protocol
  import opened Optional

  // Short: the stream ends inside the item. Bad: the worker refuses what it read.
  datatype Read<+T> = Done(value: T, rest: seq<Byte>) | Short | Bad {
    predicate IsFailure() { !Done? }

    function PropagateFailure<U>(): Read<U>
      requires IsFailure()
    {
      if Short? then Short else Bad
    }

    function Extract(): (T, seq<Byte>)
      requires !IsFailure()
    {
      (value, rest)
    }
  }

  function Take(n: nat, bs: seq<Byte>): Read<seq<Byte>> {
    if n <= |bs| then Done(bs[..n], bs[n..]) else Short
  }

  // ---- Repeated items ------------------------------------------------------------------

  type Item<!T> = (nat, seq<Byte>) -> Read<T>

  /** Items `|acc|` to `n - 1`, each told its own index. */
  function ReadMany<T>(item: Item<T>, n: nat, bs: seq<Byte>, acc: seq<T> := []): Read<seq<T>>
    requires |acc| <= n
    decreases n - |acc|
  {
    if |acc| == n then Done(acc, bs) else
      var (x, rest) :- item(|acc|, bs);
      ReadMany(item, n, rest, acc + [x])
  }

  ghost predicate Sound<T(!new)>(item: Item<T>, enc: T -> seq<Byte>, ok: (nat, T) -> bool) {
    forall i, bs :: var r := item(i, bs); r.Done? ==> ok(i, r.value) && bs == enc(r.value) + r.rest
  }

  ghost predicate Complete<T(!new)>(item: Item<T>, enc: T -> seq<Byte>, ok: (nat, T) -> bool) {
    forall i, x, rest :: ok(i, x) ==> item(i, enc(x) + rest) == Done(x, rest)
  }

  lemma {:induction false} ManySound<T(!new)>(
      item: Item<T>, enc: T -> seq<Byte>, ok: (nat, T) -> bool, n: nat, bs: seq<Byte>, acc: seq<T>)
    requires Sound(item, enc, ok)
    requires |acc| <= n && ReadMany(item, n, bs, acc).Done?
    ensures var Done(xs, rest) := ReadMany(item, n, bs, acc);
            && |xs| == n && acc <= xs
            && (forall i :: |acc| <= i < n ==> ok(i, xs[i]))
            && bs == EncMany(enc, xs[|acc|..]) + rest
    decreases n - |acc|
  {
    var Done(xs, rest) := ReadMany(item, n, bs, acc);
    if |acc| < n {
      var r := item(|acc|, bs);
      ManySound(item, enc, ok, n, r.rest, acc + [r.value]);
      var k := |acc|;
      assert xs[k] == r.value;
      assert xs[k..][1..] == xs[k + 1..];
      assert enc(r.value) + (EncMany(enc, xs[k + 1..]) + rest)
          == enc(r.value) + EncMany(enc, xs[k + 1..]) + rest;
    }
  }

  lemma {:induction false} ManyComplete<T(!new)>(
      item: Item<T>, enc: T -> seq<Byte>, ok: (nat, T) -> bool, xs: seq<T>, k: nat, rest: seq<Byte>)
    requires Complete(item, enc, ok)
    requires k <= |xs| && forall i :: k <= i < |xs| ==> ok(i, xs[i])
    ensures ReadMany(item, |xs|, EncMany(enc, xs[k..]) + rest, xs[..k]) == Done(xs, rest)
    decreases |xs| - k
  {
    if k < |xs| {
      ManyComplete(item, enc, ok, xs, k + 1, rest);
      assert xs[k..][1..] == xs[k + 1..];
      assert enc(xs[k]) + EncMany(enc, xs[k + 1..]) + rest
          == enc(xs[k]) + (EncMany(enc, xs[k + 1..]) + rest);
      assert xs[..k] + [xs[k]] == xs[..k + 1];
    } else {
      assert xs[k..] == [] && xs[..k] == xs;
    }
  }

  // ---- Sections of a request -----------------------------------------------------------

  function ReadRequestHeader(bs: seq<Byte>): Read<RequestHeader> {
    var (b, rest) :- Take(REQUEST_SIZE, bs);
    Done(RequestHeaderOf(b), rest)
  }

  lemma RequestHeaderExact(bs: seq<Byte>, h: RequestHeader, rest: seq<Byte>)
    ensures ReadRequestHeader(bs) == Done(h, rest) <==> bs == RequestHeaderBytes(h) + rest
  {
    if REQUEST_SIZE <= |bs| {
      RequestHeaderBijection(h, bs[..REQUEST_SIZE]);
    }
  }

  // Extra image headers. The C++ products are 64-bit and cannot wrap; Python integers are unbounded.
  predicate CppImageOk(h: ImageHeader) {
    && h.width != 0 && h.height != 0
    && h.step == h.width * 3
    && h.step * h.height == h.imageBytes
    && h.imageBytes <= MAX_IMAGE_BYTES
  }

  predicate PyImageOk(h: ImageHeader) {
    !(h.width == 0 || h.height == 0 || h.step != h.width * 3
      || h.imageBytes != h.step * h.height || h.imageBytes > MAX_IMAGE_BYTES)
  }

  function CppImageItem(i: nat, bs: seq<Byte>): Read<ImageHeader> {
    var (b, rest) :- Take(IMAGE_SIZE, bs);
    if CppImageOk(ImageHeaderOf(b)) then Done(ImageHeaderOf(b), rest) else Bad
  }

  function PyImageItem(i: nat, bs: seq<Byte>): Read<ImageHeader> {
    var (b, rest) :- Take(IMAGE_SIZE, bs);
    if PyImageOk(ImageHeaderOf(b)) then Done(ImageHeaderOf(b), rest) else Bad
  }

  ghost function ImageOkAt(): (nat, ImageHeader) -> bool { (i, h) => CppImageOk(h) }

  lemma ImageItemsExact()
    ensures Sound(CppImageItem, ImageHeaderBytes, ImageOkAt())
    ensures Complete(CppImageItem, ImageHeaderBytes, ImageOkAt())
    ensures forall i, bs :: PyImageItem(i, bs) == CppImageItem(i, bs)
  {
    forall i, bs | CppImageItem(i, bs).Done?
      ensures bs == ImageHeaderBytes(CppImageItem(i, bs).value) + CppImageItem(i, bs).rest
    {
      ImageHeaderBijection(CppImageItem(i, bs).value, bs[..IMAGE_SIZE]);
    }
    forall i, h, rest | CppImageOk(h)
      ensures CppImageItem(i, ImageHeaderBytes(h) + rest) == Done(h, rest)
    {
      var bs := ImageHeaderBytes(h) + rest;
      assert bs[..IMAGE_SIZE] == ImageHeaderBytes(h) && bs[IMAGE_SIZE..] == rest;
      ImageHeaderBijection(h, bs[..IMAGE_SIZE]);
    }
  }

  /** Image payloads: the `i`-th has the size its header announced. */
  function BlobItem(hs: seq<ImageHeader>): Item<seq<Byte>> {
    (i: nat, bs: seq<Byte>) => if i < |hs| then Take(hs[i].imageBytes, bs) else Bad
  }

  ghost function BlobOkAt(hs: seq<ImageHeader>): (nat, seq<Byte>) -> bool {
    (i: nat, b: seq<Byte>) => i < |hs| && |b| == hs[i].imageBytes
  }

  lemma BlobItemExact(hs: seq<ImageHeader>)
    ensures Sound(BlobItem(hs), Raw, BlobOkAt(hs))
    ensures Complete(BlobItem(hs), Raw, BlobOkAt(hs))
  {
    forall i, b, rest | BlobOkAt(hs)(i, b)
      ensures BlobItem(hs)(i, Raw(b) + rest) == Done(b, rest)
    {
      assert (b + rest)[..|b|] == b && (b + rest)[|b|..] == rest;
    }
  }

  function ReadDoubles(n: nat, bs: seq<Byte>): Read<seq<Double>> {
    var (b, rest) :- Take(8 * n, bs);
    Done(DoublesOf(b, n), rest)
  }

  lemma DoublesExact(n: nat, bs: seq<Byte>, ts: seq<Double>, rest: seq<Byte>)
    ensures ReadDoubles(n, bs) == Done(ts, rest) <==> |ts| == n && bs == DoublesBytes(ts) + rest
  {
    if 8 * n <= |bs| && |ts| == n {
      DoublesBijection(ts, bs[..8 * n]);
    }
  }

  lemma TakeExact(n: nat, bs: seq<Byte>, b: seq<Byte>, rest: seq<Byte>)
    ensures Take(n, bs) == Done(b, rest) <==> |b| == n && bs == b + rest
  {
  }

  predicate TurnOk(t: Turn) {
    |t.user| <= MAX_TEXT_BYTES && |t.asst| <= MAX_TEXT_BYTES
  }

  function TurnItem(i: nat, bs: seq<Byte>): Read<Turn> {
    var (b, r0) :- Take(TURN_SIZE, bs);
    var h := TurnHeaderOf(b);
    if h.userBytes > MAX_TEXT_BYTES || h.asstBytes > MAX_TEXT_BYTES then Bad else
      var (user, r1) :- Take(h.userBytes, r0);
      var (asst, r2) :- Take(h.asstBytes, r1);
      Done(Turn(user, asst), r2)
  }

  ghost function TurnOkAt(): (nat, Turn) -> bool { (i, t) => TurnOk(t) }

  lemma TurnItemSound(i: nat, bs: seq<Byte>)
    requires TurnItem(i, bs).Done?
    ensures var r := TurnItem(i, bs); TurnOk(r.value) && bs == TurnBytes(r.value) + r.rest
  {
    var r := TurnItem(i, bs);
    var h := TurnHeaderOf(bs[..TURN_SIZE]);
    TurnHeaderBijection(h, bs[..TURN_SIZE]);
    assert h == TurnHeader(Size32(|r.value.user|), Size32(|r.value.asst|));
    assert bs == bs[..TURN_SIZE] + (r.value.user + r.value.asst) + r.rest;
  }

  lemma TurnItemComplete(i: nat, t: Turn, rest: seq<Byte>)
    requires TurnOk(t)
    ensures TurnItem(i, TurnBytes(t) + rest) == Done(t, rest)
  {
    var h := TurnHeader(|t.user|, |t.asst|);
    var r1 := t.asst + rest;
    var r0 := t.user + r1;
    assert Size32(|t.user|) == |t.user| && Size32(|t.asst|) == |t.asst|;
    assert TurnBytes(t) + rest == TurnHeaderBytes(h) + r0;
    TakeExact(TURN_SIZE, TurnBytes(t) + rest, TurnHeaderBytes(h), r0);
    TurnHeaderBijection(h, TurnHeaderBytes(h));
    TakeExact(|t.user|, r0, t.user, r1);
    TakeExact(|t.asst|, r1, t.asst, rest);
  }

  lemma TurnItemExact()
    ensures Sound(TurnItem, TurnBytes, TurnOkAt())
    ensures Complete(TurnItem, TurnBytes, TurnOkAt())
  {
    forall i, bs | TurnItem(i, bs).Done?
      ensures var r := TurnItem(i, bs); TurnOk(r.value) && bs == TurnBytes(r.value) + r.rest
    {
      TurnItemSound(i, bs);
    }
    forall i, t, rest | TurnOk(t)
      ensures TurnItem(i, TurnBytes(t) + rest) == Done(t, rest)
    {
      TurnItemComplete(i, t, rest);
    }
  }

  // ---- What each decoder accepts -------------------------------------------------------

  function FpsOf(h: RequestHeader): Option<Double> {
    if h.schemaFlags.hasFps then Some(h.fps) else None
  }

  /** `validate_temporal_metadata`, with differences and the quotient taken over the reals. */
  ghost predicate TemporalOk(sequenceType: nat, fps: Option<Double>, frames: nat, ts: seq<Double>) {
    && (fps.Some? ==> IsFinite(fps.value) && Val(fps.value) > 0.0)
    && (ts != [] ==> |ts| == frames && Increasing(ts))
    && (sequenceType == IMAGES ==> fps.None? && ts == [])
    && (sequenceType != IMAGES && fps.Some? ==> SpacingMatches(fps.value, ts))
  }

  ghost predicate SpacingMatches(fps: Double, ts: seq<Double>)
    requires IsFinite(fps) && Val(fps) > 0.0
    requires ts != [] ==> Increasing(ts)
  {
    forall i :: 0 < i < |ts| ==> -0.001 <= Val(ts[i]) - Val(ts[i - 1]) - 1.0 / Val(fps) <= 0.001
  }

  function FrameCount(h: RequestHeader): nat {
    if h.schemaFlags.multiImage then h.imageCount else 1
  }

  function TimestampCount(h: RequestHeader): nat {
    if h.schemaFlags.hasTimestamps then h.timestampCount else 0
  }

  function SystemSize(h: RequestHeader): nat {
    if h.schemaFlags.structured then h.systemBytes else 0
  }

  function TurnCount(h: RequestHeader): nat {
    if h.schemaFlags.structured then h.historyCount else 0
  }

  // The C++ header checks, in the order the worker makes them.
  predicate CppHeaderOk(h: RequestHeader) {
    && !(h.magic != MAGIC || h.version != VERSION || h.encoding != ENCODING_BGR8
         || h.width == 0 || h.height == 0 || h.width > INT_MAX || h.height > INT_MAX
         || h.step != h.width * 3
         || h.promptBytes > MAX_TEXT_BYTES || h.systemBytes > MAX_TEXT_BYTES
         || h.historyCount > MAX_HISTORY_ENTRIES)
    && !(h.sequenceType > VIDEO)
    && var hasFps := h.schemaFlags.hasFps;
    && var hasTimestamps := h.schemaFlags.hasTimestamps;
    && !(hasFps && (!IsFinite(h.fps) || Val(h.fps) <= 0.0))
    && !(!hasFps && !(IsFinite(h.fps) && Val(h.fps) == 0.0))
    && !(!hasTimestamps && h.timestampCount != 0)
    && !(h.step * h.height != h.imageBytes || h.imageBytes > MAX_IMAGE_BYTES)
    && var multi := h.schemaFlags.multiImage;
    && var count := if multi then h.imageCount else 1;
    && !(multi && (count < 2 || count > MAX_EXTRA_IMAGES + 1))
    && !(hasTimestamps && h.timestampCount != count)
  }

  // The Python checks: `_validate_header`, then the counts.
  predicate PyHeaderOk(h: RequestHeader) {
    && !(h.magic != MAGIC || h.version != VERSION)
    && !(h.encoding != ENCODING_BGR8)
    && !(h.width == 0 || h.height == 0)
    && !(h.step != h.width * 3)
    && !(h.imageBytes != h.step * h.height)
    && !(h.imageBytes > MAX_IMAGE_BYTES)
    && !(h.promptBytes > MAX_TEXT_BYTES || h.systemBytes > MAX_TEXT_BYTES)
    && !(h.historyCount > MAX_HISTORY_ENTRIES)
    && h.sequenceType in {IMAGES, TEMPORAL_IMAGES, VIDEO}
    && var hasFps := h.schemaFlags.hasFps;
    && !(hasFps && (!IsFinite(h.fps) || Val(h.fps) <= 0.0))
    && !(!hasFps && !(IsFinite(h.fps) && Val(h.fps) == 0.0))
    && var multi := h.schemaFlags.multiImage;
    && var hasTimestamps := h.schemaFlags.hasTimestamps;
    && var count := if multi then h.imageCount else 1;
    && !(multi && (count < 2 || count > MAX_EXTRA_IMAGES + 1))
    && !(hasTimestamps && h.timestampCount != count)
    && !(!hasTimestamps && h.timestampCount != 0)
  }

  // The size limit already bounds both dimensions, so the C++ INT_MAX checks refuse nothing more.
  lemma DimensionsBounded(width: nat, height: nat, step: nat, bytes: nat)
    requires width > 0 && height > 0 && step == width * 3 && bytes == step * height
    requires bytes <= MAX_IMAGE_BYTES
    ensures width <= INT_MAX && height <= INT_MAX
  {
    assert bytes == 3 * (width * height);
    assert width <= width * height && height <= width * height;
  }

  lemma HeaderChecksAgree(h: RequestHeader)
    ensures CppHeaderOk(h) <==> PyHeaderOk(h)
  {
    if PyHeaderOk(h) {
      DimensionsBounded(h.width, h.height, h.step, h.imageBytes);
    }
  }

  // Every section has the size the headers announce.
  ghost predicate WellShaped(m: Message) {
    var h := m.header;
    && FrameCount(h) >= 1
    && |m.extraHeaders| == FrameCount(h) - 1
    && |m.extras| == |m.extraHeaders|
    && |m.primary| == h.imageBytes
    && (forall i :: 0 <= i < |m.extras| ==> |m.extras[i]| == m.extraHeaders[i].imageBytes)
    && |m.timestamps| == TimestampCount(h)
    && |m.system| == SystemSize(h)
    && |m.prompt| == h.promptBytes
    && |m.history| == TurnCount(h)
    && (forall i :: 0 <= i < |m.extraHeaders| ==> CppImageOk(m.extraHeaders[i]))
    && (forall i :: 0 <= i < |m.history| ==> TurnOk(m.history[i]))
  }

  ghost predicate CppAccepts(m: Message) {
    && CppHeaderOk(m.header) && WellShaped(m)
    && TemporalOk(m.header.sequenceType, FpsOf(m.header), FrameCount(m.header), m.timestamps)
  }

  ghost predicate PyAccepts(m: Message) {
    PyHeaderOk(m.header) && WellShaped(m) && Increasing(m.timestamps)
  }

  // ---- The decoders --------------------------------------------------------------------

  datatype Images = Images(headers: seq<ImageHeader>, primary: seq<Byte>, extras: seq<seq<Byte>>)
  datatype Texts = Texts(system: seq<Byte>, prompt: seq<Byte>, history: seq<Turn>)

  ghost function CppImages(h: RequestHeader, bs: seq<Byte>): Read<Images>
    requires FrameCount(h) >= 1
  {
    var (headers, r1) :- ReadMany(CppImageItem, FrameCount(h) - 1, bs);
    var (primary, r2) :- Take(h.imageBytes, r1);
    var (extras, r3) :- ReadMany(BlobItem(headers), |headers|, r2);
    Done(Images(headers, primary, extras), r3)
  }

  ghost function PyImages(h: RequestHeader, bs: seq<Byte>): Read<Images>
    requires FrameCount(h) >= 1
  {
    var (headers, r1) :- ReadMany(PyImageItem, FrameCount(h) - 1, bs);
    var (primary, r2) :- Take(h.imageBytes, r1);
    var (extras, r3) :- ReadMany(BlobItem(headers), |headers|, r2);
    Done(Images(headers, primary, extras), r3)
  }

  ghost function ReadTexts(h: RequestHeader, bs: seq<Byte>): Read<Texts> {
    var (system, r1) :- Take(SystemSize(h), bs);
    var (prompt, r2) :- Take(h.promptBytes, r1);
    var (history, r3) :- ReadMany(TurnItem, TurnCount(h), r2);
    Done(Texts(system, prompt, history), r3)
  }

  function Assemble(h: RequestHeader, im: Images, timestamps: seq<Double>, tx: Texts): Message {
    Message(h, im.headers, im.primary, im.extras, timestamps, tx.system, tx.prompt, tx.history)
  }

  /** The C++ worker: everything is read, then the temporal metadata is validated. */
  ghost function CppDecode(bs: seq<Byte>): Read<Message> {
    var (h, r0) :- ReadRequestHeader(bs);
    if !CppHeaderOk(h) then Bad else
      var (im, r1) :- CppImages(h, r0);
      var (timestamps, r2) :- ReadDoubles(TimestampCount(h), r1);
      var (tx, r3) :- ReadTexts(h, r2);
      if TemporalOk(h.sequenceType, FpsOf(h), FrameCount(h), timestamps)
      then Done(Assemble(h, im, timestamps, tx), r3)
      else Bad
  }

  /** `read_request`: the timestamps are checked as soon as they arrive. */
  ghost function PyDecode(bs: seq<Byte>): Read<Message> {
    var (h, r0) :- ReadRequestHeader(bs);
    if !PyHeaderOk(h) then Bad else
      var (im, r1) :- PyImages(h, r0);
      var (timestamps, r2) :- ReadDoubles(TimestampCount(h), r1);
      if !Increasing(timestamps) then Bad else
        var (tx, r3) :- ReadTexts(h, r2);
        Done(Assemble(h, im, timestamps, tx), r3)
  }

  // ---- Exactness -----------------------------------------------------------------------

  lemma ImageHeadersExact(n: nat, bs: seq<Byte>, xs: seq<ImageHeader>, rest: seq<Byte>)
    ensures ReadMany(CppImageItem, n, bs) == Done(xs, rest) <==>
            && |xs| == n && (forall i :: 0 <= i < n ==> CppImageOk(xs[i]))
            && bs == EncMany(ImageHeaderBytes, xs) + rest
  {
    ImageItemsExact();
    assert xs[0..] == xs;
    if ReadMany(CppImageItem, n, bs) == Done(xs, rest) {
      ManySound(CppImageItem, ImageHeaderBytes, ImageOkAt(), n, bs, []);
      assert forall i :: 0 <= i < n ==> ImageOkAt()(i, xs[i]) ==> CppImageOk(xs[i]);
    } else if |xs| == n && forall i :: 0 <= i < n ==> CppImageOk(xs[i]) {
      ManyComplete(CppImageItem, ImageHeaderBytes, ImageOkAt(), xs, 0, rest);
    }
  }

  lemma BlobsExact(hs: seq<ImageHeader>, bs: seq<Byte>, xs: seq<seq<Byte>>, rest: seq<Byte>)
    ensures ReadMany(BlobItem(hs), |hs|, bs) == Done(xs, rest) <==>
            && |xs| == |hs| && (forall i :: 0 <= i < |xs| ==> |xs[i]| == hs[i].imageBytes)
            && bs == EncMany(Raw, xs) + rest
  {
    BlobItemExact(hs);
    assert xs[0..] == xs;
    if ReadMany(BlobItem(hs), |hs|, bs) == Done(xs, rest) {
      ManySound(BlobItem(hs), Raw, BlobOkAt(hs), |hs|, bs, []);
      assert forall i :: 0 <= i < |hs| ==> BlobOkAt(hs)(i, xs[i]) ==> |xs[i]| == hs[i].imageBytes;
    } else if |xs| == |hs| && forall i :: 0 <= i < |xs| ==> |xs[i]| == hs[i].imageBytes {
      ManyComplete(BlobItem(hs), Raw, BlobOkAt(hs), xs, 0, rest);
    }
  }

  lemma TurnsExact(n: nat, bs: seq<Byte>, xs: seq<Turn>, rest: seq<Byte>)
    ensures ReadMany(TurnItem, n, bs) == Done(xs, rest) <==>
            && |xs| == n && (forall i :: 0 <= i < n ==> TurnOk(xs[i]))
            && bs == EncMany(TurnBytes, xs) + rest
  {
    TurnItemExact();
    assert xs[0..] == xs;
    if ReadMany(TurnItem, n, bs) == Done(xs, rest) {
      ManySound(TurnItem, TurnBytes, TurnOkAt(), n, bs, []);
      assert forall i :: 0 <= i < n ==> TurnOkAt()(i, xs[i]) ==> TurnOk(xs[i]);
    } else if |xs| == n && forall i :: 0 <= i < n ==> TurnOk(xs[i]) {
      ManyComplete(TurnItem, TurnBytes, TurnOkAt(), xs, 0, rest);
    }
  }

  lemma ImagesExact(h: RequestHeader, bs: seq<Byte>, im: Images, rest: seq<Byte>)
    requires FrameCount(h) >= 1
    ensures CppImages(h, bs) == Done(im, rest) <==>
            && |im.headers| == FrameCount(h) - 1 && |im.extras| == |im.headers|
            && |im.primary| == h.imageBytes
            && (forall i :: 0 <= i < |im.headers| ==> CppImageOk(im.headers[i]))
            && (forall i :: 0 <= i < |im.extras| ==> |im.extras[i]| == im.headers[i].imageBytes)
            && bs == EncMany(ImageHeaderBytes, im.headers) + (im.primary + (EncMany(Raw, im.extras) + rest))
  {
    var n := FrameCount(h) - 1;
    var r2 := EncMany(Raw, im.extras) + rest;
    var r1 := im.primary + r2;
    ImageHeadersExact(n, bs, im.headers, r1);
    TakeExact(h.imageBytes, r1, im.primary, r2);
    BlobsExact(im.headers, r2, im.extras, rest);
    if CppImages(h, bs) == Done(im, rest) {
      var Done(_, s1) := ReadMany(CppImageItem, n, bs);
      var Done(_, s2) := Take(h.imageBytes, s1);
      ImageHeadersExact(n, bs, im.headers, s1);
      TakeExact(h.imageBytes, s1, im.primary, s2);
      BlobsExact(im.headers, s2, im.extras, rest);
    }
  }

  lemma TextsExact(h: RequestHeader, bs: seq<Byte>, tx: Texts, rest: seq<Byte>)
    ensures ReadTexts(h, bs) == Done(tx, rest) <==>
            && |tx.system| == SystemSize(h) && |tx.prompt| == h.promptBytes
            && |tx.history| == TurnCount(h)
            && (forall i :: 0 <= i < |tx.history| ==> TurnOk(tx.history[i]))
            && bs == tx.system + (tx.prompt + (EncMany(TurnBytes, tx.history) + rest))
  {
    var r2 := EncMany(TurnBytes, tx.history) + rest;
    var r1 := tx.prompt + r2;
    TakeExact(SystemSize(h), bs, tx.system, r1);
    TakeExact(h.promptBytes, r1, tx.prompt, r2);
    TurnsExact(TurnCount(h), r2, tx.history, rest);
    if ReadTexts(h, bs) == Done(tx, rest) {
      var Done(_, s1) := Take(SystemSize(h), bs);
      var Done(_, s2) := Take(h.promptBytes, s1);
      TakeExact(SystemSize(h), bs, tx.system, s1);
      TakeExact(h.promptBytes, s1, tx.prompt, s2);
      TurnsExact(TurnCount(h), s2, tx.history, rest);
    }
  }

  function ImagesOf(m: Message): Images { Images(m.extraHeaders, m.primary, m.extras) }
  function TextsOf(m: Message): Texts { Texts(m.system, m.prompt, m.history) }

  // The stream behind the header, cut at the two section boundaries.
  function AfterImages(m: Message, next: seq<Byte>): seq<Byte> {
    DoublesBytes(m.timestamps) + AfterTimestamps(m, next)
  }

  function AfterTimestamps(m: Message, next: seq<Byte>): seq<Byte> {
    m.system + (m.prompt + (EncMany(TurnBytes, m.history) + next))
  }

  // A well-shaped message is read back section by section, by either worker's readers.
  lemma SectionsComplete(m: Message, next: seq<Byte>)
    requires WellShaped(m)
    ensures CppImages(m.header, PayloadThen(m, next)) == Done(ImagesOf(m), AfterImages(m, next))
    ensures ReadDoubles(TimestampCount(m.header), AfterImages(m, next)) == Done(m.timestamps, AfterTimestamps(m, next))
    ensures ReadTexts(m.header, AfterTimestamps(m, next)) == Done(TextsOf(m), next)
  {
    ImagesExact(m.header, PayloadThen(m, next), ImagesOf(m), AfterImages(m, next));
    DoublesExact(TimestampCount(m.header), AfterImages(m, next), m.timestamps, AfterTimestamps(m, next));
    TextsExact(m.header, AfterTimestamps(m, next), TextsOf(m), next);
  }

  // Conversely, sections that were read are the sections of a well-shaped message.
  lemma SectionsSound(h: RequestHeader, bs: seq<Byte>, im: Images, r1: seq<Byte>,
                      timestamps: seq<Double>, r2: seq<Byte>, tx: Texts, rest: seq<Byte>)
    requires FrameCount(h) >= 1
    requires CppImages(h, bs) == Done(im, r1)
    requires ReadDoubles(TimestampCount(h), r1) == Done(timestamps, r2)
    requires ReadTexts(h, r2) == Done(tx, rest)
    ensures var m := Assemble(h, im, timestamps, tx);
            WellShaped(m) && bs == PayloadThen(m, rest)
  {
    ImagesExact(h, bs, im, r1);
    DoublesExact(TimestampCount(h), r1, timestamps, r2);
    TextsExact(h, r2, tx, rest);
  }

  lemma ImageReadersAgree(n: nat, bs: seq<Byte>, acc: seq<ImageHeader>)
    requires |acc| <= n
    ensures ReadMany(PyImageItem, n, bs, acc) == ReadMany(CppImageItem, n, bs, acc)
    decreases n - |acc|
  {
    ImageItemsExact();
    if |acc| < n {
      var r := CppImageItem(|acc|, bs);
      assert PyImageItem(|acc|, bs) == r;
      if r.Done? { ImageReadersAgree(n, r.rest, acc + [r.value]); }
    }
  }

  lemma PyImagesSame(h: RequestHeader, bs: seq<Byte>)
    requires FrameCount(h) >= 1
    ensures PyImages(h, bs) == CppImages(h, bs)
  {
    ImageReadersAgree(FrameCount(h) - 1, bs, []);
  }

  lemma CppDecodeSound(bs: seq<Byte>)
    requires CppDecode(bs).Done?
    ensures var Done(m, rest) := CppDecode(bs); bs == WireThen(m, rest) && CppAccepts(m)
  {
    var Done(h, r0) := ReadRequestHeader(bs);
    var Done(im, r1) := CppImages(h, r0);
    var Done(ts, r2) := ReadDoubles(TimestampCount(h), r1);
    var Done(tx, r3) := ReadTexts(h, r2);
    RequestHeaderExact(bs, h, r0);
    SectionsSound(h, r0, im, r1, ts, r2, tx, r3);
  }

  lemma PyDecodeSound(bs: seq<Byte>)
    requires PyDecode(bs).Done?
    ensures var Done(m, rest) := PyDecode(bs); bs == WireThen(m, rest) && PyAccepts(m)
  {
    var Done(h, r0) := ReadRequestHeader(bs);
    PyImagesSame(h, r0);
    var Done(im, r1) := CppImages(h, r0);
    var Done(ts, r2) := ReadDoubles(TimestampCount(h), r1);
    var Done(tx, r3) := ReadTexts(h, r2);
    RequestHeaderExact(bs, h, r0);
    SectionsSound(h, r0, im, r1, ts, r2, tx, r3);
  }

  /** The C++ worker accepts exactly the byte strings that start with a message it accepts. */
  lemma CppDecodeExact(bs: seq<Byte>, m: Message, rest: seq<Byte>)
    ensures CppDecode(bs) == Done(m, rest) <==> bs == WireThen(m, rest) && CppAccepts(m)
  {
    if CppDecode(bs) == Done(m, rest) {
      CppDecodeSound(bs);
    }
    if bs == WireThen(m, rest) && CppAccepts(m) {
      RequestHeaderExact(bs, m.header, PayloadThen(m, rest));
      SectionsComplete(m, rest);
    }
  }

  /** So does `read_request`, with its own acceptance condition. */
  lemma PyDecodeExact(bs: seq<Byte>, m: Message, rest: seq<Byte>)
    ensures PyDecode(bs) == Done(m, rest) <==> bs == WireThen(m, rest) && PyAccepts(m)
  {
    if PyDecode(bs) == Done(m, rest) {
      PyDecodeSound(bs);
    }
    if bs == WireThen(m, rest) && PyAccepts(m) {
      RequestHeaderExact(bs, m.header, PayloadThen(m, rest));
      SectionsComplete(m, rest);
      PyImagesSame(m.header, PayloadThen(m, rest));
    }
  }

  /**
   * Decoder agreement: on every byte string, the C++ worker accepts exactly when the Python
   * worker accepts and the temporal metadata it decoded is valid; both yield the same message.
   */
  lemma DecodersAgree(bs: seq<Byte>, m: Message, rest: seq<Byte>)
    ensures CppDecode(bs) == Done(m, rest) <==>
            && PyDecode(bs) == Done(m, rest)
            && TemporalOk(m.header.sequenceType, FpsOf(m.header), FrameCount(m.header), m.timestamps)
  {
    hide CppDecode, PyDecode, WireThen, CppHeaderOk, PyHeaderOk, WellShaped;
    CppDecodeExact(bs, m, rest);
    PyDecodeExact(bs, m, rest);
    HeaderChecksAgree(m.header);
  }

  // ---- Messages that are sent, accepted or not -----------------------------------------

  /** Every section has the size its header announces, whatever the worker thinks of its contents. */
  ghost predicate Consistent(m: Message) {
    var h := m.header;
    && FrameCount(h) >= 1
    && |m.extraHeaders| == FrameCount(h) - 1
    && |m.extras| == |m.extraHeaders|
    && |m.primary| == h.imageBytes
    && (forall i :: 0 <= i < |m.extras| ==> |m.extras[i]| == m.extraHeaders[i].imageBytes)
    && |m.timestamps| == TimestampCount(h)
    && |m.system| == SystemSize(h)
    && |m.prompt| == h.promptBytes
    && |m.history| == TurnCount(h)
    && (forall i :: 0 <= i < |m.history| ==> Delimited(m.history[i]))
  }

  predicate Delimited(t: Turn) { |t.user| < 0x1_0000_0000 && |t.asst| < 0x1_0000_0000 }

  lemma AcceptedIsConsistent(m: Message)
    ensures CppAccepts(m) || PyAccepts(m) ==> Consistent(m)
  {
    hide CppHeaderOk, PyHeaderOk, TemporalOk;
  }

  lemma SameFront(a: seq<Byte>, b: seq<Byte>, x: seq<Byte>, y: seq<Byte>)
    requires |a| == |b| && a + x == b + y
    ensures a == b && x == y
  {
    assert (a + x)[..|a|] == a && (b + y)[..|a|] == b;
    assert (a + x)[|a|..] == x && (b + y)[|a|..] == y;
  }

  // What starts with item `x` and with item `y` has them equal.
  ghost predicate Telling<T(!new)>(enc: T -> seq<Byte>, x: T, y: T) {
    forall r, r' :: enc(x) + r == enc(y) + r' ==> x == y && r == r'
  }

  lemma {:induction false} ManyTell<T(!new)>(enc: T -> seq<Byte>, xs: seq<T>, ys: seq<T>, r: seq<Byte>, r': seq<Byte>)
    requires |xs| == |ys| && EncMany(enc, xs) + r == EncMany(enc, ys) + r'
    requires forall i :: 0 <= i < |xs| ==> Telling(enc, xs[i], ys[i])
    ensures xs == ys && r == r'
  {
    if xs != [] {
      var a, b := EncMany(enc, xs[1..]) + r, EncMany(enc, ys[1..]) + r';
      assert EncMany(enc, xs) + r == enc(xs[0]) + a;
      assert EncMany(enc, ys) + r' == enc(ys[0]) + b;
      assert Telling(enc, xs[0], ys[0]);
      ManyTell(enc, xs[1..], ys[1..], r, r');
      assert [xs[0]] + xs[1..] == xs && [ys[0]] + ys[1..] == ys;
    } else {
      assert [] + r == r && [] + r' == r';
    }
  }

  lemma ImageHeadersTell(x: ImageHeader, y: ImageHeader)
    ensures Telling(ImageHeaderBytes, x, y)
  {
    forall r, r' | ImageHeaderBytes(x) + r == ImageHeaderBytes(y) + r'
      ensures x == y && r == r'
    {
      ImageHeaderBijection(x, ImageHeaderBytes(x));
      ImageHeaderBijection(y, ImageHeaderBytes(y));
      SameFront(ImageHeaderBytes(x), ImageHeaderBytes(y), r, r');
    }
  }

  lemma BlobsTell(x: seq<Byte>, y: seq<Byte>)
    requires |x| == |y|
    ensures Telling(Raw, x, y)
  {
    forall r, r' | Raw(x) + r == Raw(y) + r'
      ensures x == y && r == r'
    {
      SameFront(x, y, r, r');
    }
  }

  lemma TurnHeadersDiffer(x: TurnHeader, y: TurnHeader)
    ensures TurnHeaderBytes(x) == TurnHeaderBytes(y) ==> x == y
  {
    TurnHeaderBijection(x, TurnHeaderBytes(x));
    TurnHeaderBijection(y, TurnHeaderBytes(y));
  }

  function HeaderOfTurn(t: Turn): TurnHeader { TurnHeader(Size32(|t.user|), Size32(|t.asst|)) }

  lemma TurnBytesThen(t: Turn, r: seq<Byte>)
    ensures TurnBytes(t) + r == TurnHeaderBytes(HeaderOfTurn(t)) + (t.user + (t.asst + r))
  {
  }

  lemma TurnsTell(x: Turn, y: Turn)
    requires Delimited(x) && Delimited(y)
    ensures Telling(TurnBytes, x, y)
  {
    hide TurnHeaderBytes, TurnBytes;
    var hx, hy := TurnHeaderBytes(HeaderOfTurn(x)), TurnHeaderBytes(HeaderOfTurn(y));
    TurnHeadersDiffer(HeaderOfTurn(x), HeaderOfTurn(y));
    forall r, r' | TurnBytes(x) + r == TurnBytes(y) + r'
      ensures x == y && r == r'
    {
      TurnBytesThen(x, r);
      TurnBytesThen(y, r');
      SameFront(hx, hy, x.user + (x.asst + r), y.user + (y.asst + r'));
      SameFront(x.user, y.user, x.asst + r, y.asst + r');
      SameFront(x.asst, y.asst, r, r');
    }
  }

  lemma ImagesTell(m: Message, m': Message, r: seq<Byte>, r': seq<Byte>)
    requires Consistent(m) && Consistent(m') && m.header == m'.header
    requires EncMany(ImageHeaderBytes, m.extraHeaders) + (m.primary + (EncMany(Raw, m.extras) + r))
          == EncMany(ImageHeaderBytes, m'.extraHeaders) + (m'.primary + (EncMany(Raw, m'.extras) + r'))
    ensures ImagesOf(m) == ImagesOf(m') && r == r'
  {
    forall i | 0 <= i < |m.extraHeaders| ensures Telling(ImageHeaderBytes, m.extraHeaders[i], m'.extraHeaders[i]) {
      ImageHeadersTell(m.extraHeaders[i], m'.extraHeaders[i]);
    }
    ManyTell(ImageHeaderBytes, m.extraHeaders, m'.extraHeaders,
             m.primary + (EncMany(Raw, m.extras) + r), m'.primary + (EncMany(Raw, m'.extras) + r'));
    SameFront(m.primary, m'.primary, EncMany(Raw, m.extras) + r, EncMany(Raw, m'.extras) + r');
    forall i | 0 <= i < |m.extras| ensures Telling(Raw, m.extras[i], m'.extras[i]) {
      BlobsTell(m.extras[i], m'.extras[i]);
    }
    ManyTell(Raw, m.extras, m'.extras, r, r');
  }

  lemma TextsTell(m: Message, m': Message, r: seq<Byte>, r': seq<Byte>)
    requires Consistent(m) && Consistent(m') && m.header == m'.header
    requires m.system + (m.prompt + (EncMany(TurnBytes, m.history) + r))
          == m'.system + (m'.prompt + (EncMany(TurnBytes, m'.history) + r'))
    ensures TextsOf(m) == TextsOf(m') && r == r'
  {
    SameFront(m.system, m'.system, m.prompt + (EncMany(TurnBytes, m.history) + r), m'.prompt + (EncMany(TurnBytes, m'.history) + r'));
    SameFront(m.prompt, m'.prompt, EncMany(TurnBytes, m.history) + r, EncMany(TurnBytes, m'.history) + r');
    forall i | 0 <= i < |m.history| ensures Telling(TurnBytes, m.history[i], m'.history[i]) {
      TurnsTell(m.history[i], m'.history[i]);
    }
    ManyTell(TurnBytes, m.history, m'.history, r, r');
  }

  /**
   * Framing: the layout tells messages apart. No byte string starts with two different
   * consistent messages, so what a worker accepts is never a misread start of another one.
   */
  lemma MessagesPrefixFree(m: Message, next: seq<Byte>, m': Message, next': seq<Byte>)
    requires Consistent(m) && Consistent(m')
    requires WireThen(m, next) == WireThen(m', next')
    ensures m == m' && next == next'
  {
    RequestHeaderBijection(m.header, RequestHeaderBytes(m.header));
    RequestHeaderBijection(m'.header, RequestHeaderBytes(m'.header));
    hide RequestHeaderBytes;
    SameFront(RequestHeaderBytes(m.header), RequestHeaderBytes(m'.header), PayloadThen(m, next), PayloadThen(m', next'));
    hide Consistent;
    ImagesTell(m, m', AfterImages(m, next), AfterImages(m', next'));
    TimestampsTell(m, m', next, next');
    TextsTell(m, m', next, next');
  }

  lemma TimestampsTell(m: Message, m': Message, next: seq<Byte>, next': seq<Byte>)
    requires Consistent(m) && Consistent(m') && m.header == m'.header && AfterImages(m, next) == AfterImages(m', next')
    ensures m.timestamps == m'.timestamps && AfterTimestamps(m, next) == AfterTimestamps(m', next')
  {
    DoublesBijection(m.timestamps, DoublesBytes(m.timestamps));
    DoublesBijection(m'.timestamps, DoublesBytes(m'.timestamps));
    SameFront(DoublesBytes(m.timestamps), DoublesBytes(m'.timestamps), AfterTimestamps(m, next), AfterTimestamps(m', next'));
  }
}
