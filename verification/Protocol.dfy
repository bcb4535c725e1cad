/**
 * IPC protocol v3: the wire structs, the flags and limits, and the layout of one request
 * and one response on the stream. The bytes of a struct are its packed little-endian words,
 * including the four bytes the compilers leave before each double.
 */
module Protocol {
  import opened Bytes
  import opened Doubles

  const MAGIC: U32 := 0x45564C4D
  const VERSION: U32 := 3
  const ENCODING_BGR8: U32 := 1
  const MAX_TEXT_BYTES: nat := 1024 * 1024
  const MAX_IMAGE_BYTES: nat := 256 * 1024 * 1024
  const MAX_HISTORY_ENTRIES: nat := 256
  const MAX_EXTRA_IMAGES: nat := 31
  const INT_MAX: nat := 0x7FFF_FFFF

  // sequence types
  const IMAGES: U32 := 0
  const TEMPORAL_IMAGES: U32 := 1
  const VIDEO: U32 := 2

  // ---- schema_flags --------------------------------------------------------------------

  type Rest27 = n: nat | n < 0x800_0000

  // The five defined bits of `schema_flags`, lowest first, and the bits nobody has defined yet.
  datatype Flags = Flags(structured: bool, sysCache: bool, multiImage: bool, hasFps: bool,
                         hasTimestamps: bool, other: Rest27)

  function BitValue(b: bool): nat { if b then 1 else 0 }

  function FlagsWord(f: Flags): U32 {
    BitValue(f.structured)
    + 2 * (BitValue(f.sysCache)
           + 2 * (BitValue(f.multiImage)
                  + 2 * (BitValue(f.hasFps) + 2 * (BitValue(f.hasTimestamps) + 2 * f.other))))
  }

  function FlagsOfWord(w: U32): Flags {
    Flags(w % 2 == 1, w / 2 % 2 == 1, w / 2 / 2 % 2 == 1, w / 2 / 2 / 2 % 2 == 1,
          w / 2 / 2 / 2 / 2 % 2 == 1, w / 2 / 2 / 2 / 2 / 2)
  }

  lemma LowestBit(w: nat, b: bool, rest: nat)
    ensures w == BitValue(b) + 2 * rest <==> (w % 2 == 1) == b && w / 2 == rest
  {
  }

  lemma FlagsBijection(f: Flags, w: U32)
    ensures FlagsOfWord(w) == f <==> w == FlagsWord(f)
  {
    var r4 := BitValue(f.hasTimestamps) + 2 * f.other;
    var r3 := BitValue(f.hasFps) + 2 * r4;
    var r2 := BitValue(f.multiImage) + 2 * r3;
    var r1 := BitValue(f.sysCache) + 2 * r2;
    LowestBit(w, f.structured, r1);
    LowestBit(w / 2, f.sysCache, r2);
    LowestBit(w / 2 / 2, f.multiImage, r3);
    LowestBit(w / 2 / 2 / 2, f.hasFps, r4);
    LowestBit(w / 2 / 2 / 2 / 2, f.hasTimestamps, f.other);
  }

  /** The defined flags are the bits 1, 2, 4, 8 and 16. */
  lemma FlagBits(f: Flags)
    ensures FlagsWord(f) == (if f.structured then 1 else 0) + (if f.sysCache then 2 else 0) + (if f.multiImage then 4 else 0)
                            + (if f.hasFps then 8 else 0) + (if f.hasTimestamps then 16 else 0) + 32 * f.other
  {
  }

  // ---- Fixed-size structs --------------------------------------------------------------

  // The fields in wire order. `maxGenerateLength`, `temperature`, `topP` and `topK` are the
  // raw 32-bit patterns: both sides copy them without looking inside.
  datatype RequestHeader = RequestHeader(
    magic: U32, version: U32, requestId: U64,
    width: U32, height: U32, step: U32, encoding: U32, imageBytes: U32, promptBytes: U32,
    maxGenerateLength: U32, temperature: U32, topP: U32, topK: U32,
    schemaFlags: Flags, systemBytes: U32, historyCount: U32, imageCount: U32, sequenceType: U32,
    padding: U32, fps: Double, timestampCount: U32, reserved: U32)

  datatype ImageHeader = ImageHeader(width: U32, height: U32, step: U32, imageBytes: U32)

  datatype TurnHeader = TurnHeader(userBytes: U32, asstBytes: U32)

  datatype ResponseHeader = ResponseHeader(
    magic: U32, version: U32, requestId: U64,
    success: U32, textBytes: U32, errorBytes: U32, encodingBytes: U32, fallbackUsed: U32,
    padding: U32, inferenceSeconds: Double)

  const REQUEST_WIDTHS: seq<nat> := [4, 4, 8] + Repeat(4, 16) + [8, 4, 4]
  const IMAGE_WIDTHS: seq<nat> := Repeat(4, 4)
  const TURN_WIDTHS: seq<nat> := Repeat(4, 2)
  const RESPONSE_WIDTHS: seq<nat> := [4, 4, 8] + Repeat(4, 6) + [8]

  const REQUEST_SIZE: nat := 96
  const IMAGE_SIZE: nat := 16
  const TURN_SIZE: nat := 8
  const RESPONSE_SIZE: nat := 48

  lemma TotalOfThree(a: nat, b: nat, c: nat)
    ensures Total([a, b, c]) == a + b + c
  {
    assert [a, b, c][1..] == [b, c] && [b, c][1..] == [c] && Total([c]) == c;
  }

  // The sizes the Python mirror asserts about the C++ structs.
  lemma StructSizes()
    ensures Total(REQUEST_WIDTHS) == REQUEST_SIZE && |REQUEST_WIDTHS| == 22
    ensures Total(IMAGE_WIDTHS) == IMAGE_SIZE && |IMAGE_WIDTHS| == 4
    ensures Total(TURN_WIDTHS) == TURN_SIZE && |TURN_WIDTHS| == 2
    ensures Total(RESPONSE_WIDTHS) == RESPONSE_SIZE && |RESPONSE_WIDTHS| == 10
  {
    var prefix, mid, tail := [4, 4, 8], Repeat(4, 16), [8, 4, 4];
    TotalOfThree(4, 4, 8);
    TotalOfThree(8, 4, 4);
    assert Total([8]) == 8;
    hide Total;
    TotalOfConcat(prefix, mid);
    TotalOfConcat(prefix + mid, tail);
    TotalOfConcat(prefix, Repeat(4, 6));
    TotalOfConcat(prefix + Repeat(4, 6), [8]);
  }

  function MiddleWords(h: RequestHeader): (ws: seq<U32>)
    ensures |ws| == 16
  {
    [h.width, h.height, h.step, h.encoding, h.imageBytes, h.promptBytes, h.maxGenerateLength,
     h.temperature, h.topP, h.topK, FlagsWord(h.schemaFlags), h.systemBytes, h.historyCount,
     h.imageCount, h.sequenceType, h.padding]
  }

  function RequestWords(h: RequestHeader): (ws: seq<nat>)
    ensures |ws| == 22
  {
    [h.magic, h.version, h.requestId] + MiddleWords(h) + [Word(h.fps), h.timestampCount, h.reserved]
  }

  function ResponseWords(h: ResponseHeader): (ws: seq<nat>)
    ensures |ws| == 10
  {
    [h.magic, h.version, h.requestId, h.success, h.textBytes, h.errorBytes, h.encodingBytes,
     h.fallbackUsed, h.padding, Word(h.inferenceSeconds)]
  }

  lemma MiddleWordsFit(ws: seq<U32>)
    ensures Fits(Repeat(4, |ws|), ws)
  {
    WordLimits();
  }

  lemma RequestWordsFit(h: RequestHeader)
    ensures Fits(REQUEST_WIDTHS, RequestWords(h))
  {
    MiddleWordsFit(MiddleWords(h));
    var a, c := [h.magic, h.version, h.requestId], [Word(h.fps), h.timestampCount, h.reserved];
    assert Fits([4, 4, 8], a) && Fits([8, 4, 4], c) by { WordLimits(); }
    FitsConcat([4, 4, 8], a, Repeat(4, 16), MiddleWords(h));
    FitsConcat([4, 4, 8] + Repeat(4, 16), a + MiddleWords(h), [8, 4, 4], c);
  }

  lemma ResponseWordsFit(h: ResponseHeader)
    ensures Fits(RESPONSE_WIDTHS, ResponseWords(h))
  {
    WordLimits();
  }

  function RequestHeaderBytes(h: RequestHeader): (bs: seq<Byte>)
    ensures |bs| == REQUEST_SIZE
  {
    StructSizes();
    Pack(REQUEST_WIDTHS, RequestWords(h))
  }

  ghost predicate WordsInRange(w: seq<nat>) {
    && |w| == 22 && w[2] < 0x1_0000_0000_0000_0000 && w[19] < 0x1_0000_0000_0000_0000
    && forall i :: 0 <= i < 22 && i != 2 && i != 19 ==> w[i] < 0x1_0000_0000
  }

  lemma RequestWordsInRange(w: seq<nat>)
    requires Fits(REQUEST_WIDTHS, w)
    ensures WordsInRange(w)
  {
    WordLimits();
    assert REQUEST_WIDTHS[2] == 8 && REQUEST_WIDTHS[19] == 8;
    assert forall i :: 0 <= i < 22 && i != 2 && i != 19 ==> REQUEST_WIDTHS[i] == 4;
  }

  function RequestHeaderFrom(w: seq<nat>): RequestHeader
    requires WordsInRange(w)
  {
    RequestHeader(w[0], w[1], w[2], w[3], w[4], w[5], w[6], w[7], w[8], w[9], w[10], w[11],
                  w[12], FlagsOfWord(w[13]), w[14], w[15], w[16], w[17], w[18], OfWord(w[19]), w[20], w[21])
  }

  function RequestHeaderOf(bs: seq<Byte>): RequestHeader
    requires |bs| == REQUEST_SIZE
  {
    StructSizes();
    UnpackFits(REQUEST_WIDTHS, bs);
    RequestWordsInRange(Unpack(REQUEST_WIDTHS, bs));
    RequestHeaderFrom(Unpack(REQUEST_WIDTHS, bs))
  }

  function ImageHeaderBytes(h: ImageHeader): (bs: seq<Byte>)
    ensures |bs| == IMAGE_SIZE
  {
    StructSizes();
    Pack(IMAGE_WIDTHS, [h.width, h.height, h.step, h.imageBytes])
  }

  function ImageHeaderOf(bs: seq<Byte>): ImageHeader
    requires |bs| == IMAGE_SIZE
  {
    StructSizes();
    UnpackFits(IMAGE_WIDTHS, bs);
    WordLimits();
    var w := Unpack(IMAGE_WIDTHS, bs);
    ImageHeader(w[0], w[1], w[2], w[3])
  }

  function TurnHeaderBytes(h: TurnHeader): (bs: seq<Byte>)
    ensures |bs| == TURN_SIZE
  {
    StructSizes();
    Pack(TURN_WIDTHS, [h.userBytes, h.asstBytes])
  }

  function TurnHeaderOf(bs: seq<Byte>): TurnHeader
    requires |bs| == TURN_SIZE
  {
    StructSizes();
    UnpackFits(TURN_WIDTHS, bs);
    WordLimits();
    var w := Unpack(TURN_WIDTHS, bs);
    TurnHeader(w[0], w[1])
  }

  function ResponseHeaderBytes(h: ResponseHeader): (bs: seq<Byte>)
    ensures |bs| == RESPONSE_SIZE
  {
    StructSizes();
    Pack(RESPONSE_WIDTHS, ResponseWords(h))
  }

  function ResponseHeaderOf(bs: seq<Byte>): ResponseHeader
    requires |bs| == RESPONSE_SIZE
  {
    StructSizes();
    UnpackFits(RESPONSE_WIDTHS, bs);
    WordLimits();
    var w := Unpack(RESPONSE_WIDTHS, bs);
    ResponseHeader(w[0], w[1], w[2], w[3], w[4], w[5], w[6], w[7], w[8], OfWord(w[9]))
  }

  function Words(ts: seq<Double>): (ws: seq<U64>)
    ensures |ws| == |ts| && forall i :: 0 <= i < |ts| ==> ws[i] == Word(ts[i])
  {
    seq(|ts|, i requires 0 <= i < |ts| => Word(ts[i]))
  }

  function DoublesBytes(ts: seq<Double>): (bs: seq<Byte>)
    ensures |bs| == 8 * |ts|
  {
    Pack(Repeat(8, |ts|), Words(ts))
  }

  function DoublesOf(bs: seq<Byte>, n: nat): (ts: seq<Double>)
    requires |bs| == 8 * n
    ensures |ts| == n
  {
    UnpackFits(Repeat(8, n), bs);
    WordLimits();
    var ws: seq<U64> := Unpack(Repeat(8, n), bs);
    seq(n, i requires 0 <= i < n => OfWord(ws[i]))
  }

  // Each struct and its byte image determine each other.
  lemma MiddleWordsBack(w: seq<nat>)
    requires WordsInRange(w)
    ensures MiddleWords(RequestHeaderFrom(w)) == w[3..19]
  {
    FlagsBijection(FlagsOfWord(w[13]), w[13]);
  }

  lemma RequestWordsBack(w: seq<nat>)
    requires WordsInRange(w)
    ensures RequestWords(RequestHeaderFrom(w)) == w
  {
    var h := RequestHeaderFrom(w);
    MiddleWordsBack(w);
    WordBijection(h.fps, w[19]);
    assert w[..3] == [h.magic, h.version, h.requestId];
    assert w[19..] == [Word(h.fps), h.timestampCount, h.reserved];
    SplitTwice(w, 3, 19);
  }

  lemma SplitTwice(w: seq<nat>, i: nat, j: nat)
    requires i <= j <= |w|
    ensures w == w[..i] + w[i..j] + w[j..]
  {
  }

  lemma RequestHeaderFromWords(h: RequestHeader)
    requires WordsInRange(RequestWords(h))
    ensures RequestHeaderFrom(RequestWords(h)) == h
  {
    FlagsBijection(h.schemaFlags, FlagsWord(h.schemaFlags));
    WordBijection(h.fps, Word(h.fps));
  }

  lemma RequestHeaderReadBack(h: RequestHeader)
    ensures RequestHeaderOf(RequestHeaderBytes(h)) == h
  {
    StructSizes();
    RequestWordsFit(h);
    UnpackOfPack(REQUEST_WIDTHS, RequestWords(h));
    RequestWordsInRange(RequestWords(h));
    RequestHeaderFromWords(h);
  }

  lemma RequestHeaderRewritten(bs: seq<Byte>)
    requires |bs| == REQUEST_SIZE
    ensures RequestHeaderBytes(RequestHeaderOf(bs)) == bs
  {
    StructSizes();
    UnpackFits(REQUEST_WIDTHS, bs);
    RequestWordsInRange(Unpack(REQUEST_WIDTHS, bs));
    PackOfUnpack(REQUEST_WIDTHS, bs);
    RequestWordsBack(Unpack(REQUEST_WIDTHS, bs));
  }

  lemma RequestHeaderBijection(h: RequestHeader, bs: seq<Byte>)
    requires |bs| == REQUEST_SIZE
    ensures RequestHeaderOf(bs) == h <==> bs == RequestHeaderBytes(h)
  {
    RequestHeaderReadBack(h);
    RequestHeaderRewritten(bs);
  }

  lemma ImageHeaderBijection(h: ImageHeader, bs: seq<Byte>)
    requires |bs| == IMAGE_SIZE
    ensures ImageHeaderOf(bs) == h <==> bs == ImageHeaderBytes(h)
  {
    StructSizes();
    WordLimits();
    UnpackOfPack(IMAGE_WIDTHS, [h.width, h.height, h.step, h.imageBytes]);
    PackOfUnpack(IMAGE_WIDTHS, bs);
    var g := ImageHeaderOf(bs);
    assert [g.width, g.height, g.step, g.imageBytes] == Unpack(IMAGE_WIDTHS, bs);
  }

  lemma TurnHeaderBijection(h: TurnHeader, bs: seq<Byte>)
    requires |bs| == TURN_SIZE
    ensures TurnHeaderOf(bs) == h <==> bs == TurnHeaderBytes(h)
  {
    StructSizes();
    WordLimits();
    UnpackOfPack(TURN_WIDTHS, [h.userBytes, h.asstBytes]);
    PackOfUnpack(TURN_WIDTHS, bs);
    var g := TurnHeaderOf(bs);
    assert [g.userBytes, g.asstBytes] == Unpack(TURN_WIDTHS, bs);
  }

  lemma ResponseHeaderBijection(h: ResponseHeader, bs: seq<Byte>)
    requires |bs| == RESPONSE_SIZE
    ensures ResponseHeaderOf(bs) == h <==> bs == ResponseHeaderBytes(h)
  {
    StructSizes();
    ResponseWordsFit(h);
    UnpackOfPack(RESPONSE_WIDTHS, ResponseWords(h));
    PackOfUnpack(RESPONSE_WIDTHS, bs);
    UnpackFits(RESPONSE_WIDTHS, bs);
    WordLimits();
    var w := Unpack(RESPONSE_WIDTHS, bs);
    WordBijection(h.inferenceSeconds, Word(h.inferenceSeconds));
    WordBijection(OfWord(w[9]), w[9]);
    assert ResponseWords(ResponseHeaderOf(bs)) == w;
  }

  lemma DoublesBijection(ts: seq<Double>, bs: seq<Byte>)
    requires |bs| == 8 * |ts|
    ensures DoublesOf(bs, |ts|) == ts <==> bs == DoublesBytes(ts)
  {
    var n := |ts|;
    WordLimits();
    UnpackFits(Repeat(8, n), bs);
    var ws: seq<U64> := Unpack(Repeat(8, n), bs);
    UnpackOfPack(Repeat(8, n), Words(ts));
    PackOfUnpack(Repeat(8, n), bs);
    forall i | 0 <= i < n
      ensures OfWord(ws[i]) == ts[i] <==> ws[i] == Word(ts[i])
    {
      WordBijection(ts[i], ws[i]);
    }
    if DoublesOf(bs, n) == ts {
      forall i | 0 <= i < n ensures ws[i] == Words(ts)[i] { assert DoublesOf(bs, n)[i] == ts[i]; }
      assert ws == Words(ts);
    }
  }

  // ---- Field by field ------------------------------------------------------------------

  lemma {:induction false} PackConcat(ws: seq<nat>, vs: seq<nat>, ws': seq<nat>, vs': seq<nat>)
    requires |ws| == |vs| && |ws'| == |vs'|
    ensures Pack(ws + ws', vs + vs') == Pack(ws, vs) + Pack(ws', vs')
  {
    if ws == [] {
      assert ws + ws' == ws' && vs + vs' == vs';
    } else {
      assert (ws + ws')[1..] == ws[1..] + ws' && (vs + vs')[1..] == vs[1..] + vs';
      PackConcat(ws[1..], vs[1..], ws', vs');
    }
  }

  lemma PackFirst(w: nat, v: nat, ws: seq<nat>, vs: seq<nat>)
    requires |ws| == |vs|
    ensures Pack([w] + ws, [v] + vs) == LE(w, v) + Pack(ws, vs)
  {
    assert ([w] + ws)[1..] == ws && ([v] + vs)[1..] == vs;
  }

  lemma PackTwo(u: nat, v: nat, a: nat, b: nat)
    ensures Pack([u, v], [a, b]) == LE(u, a) + LE(v, b)
  {
    hide LE, Pack;
    PackFirst(u, a, [v], [b]);
    PackFirst(v, b, [], []);
    assert [u] + [v] == [u, v] && [a] + [b] == [a, b] && [v] + [] == [v] && [b] + [] == [b];
    assert Pack([], []) == [];
  }

  lemma Associate(a: seq<Byte>, b: seq<Byte>, c: seq<Byte>)
    ensures a + (b + c) == a + b + c
  {
  }

  lemma PackThree(u: nat, v: nat, w: nat, a: nat, b: nat, c: nat)
    ensures Pack([u, v, w], [a, b, c]) == LE(u, a) + LE(v, b) + LE(w, c)
  {
    hide LE, Pack, Total;
    PackFirst(u, a, [v, w], [b, c]);
    PackTwo(v, w, b, c);
    Associate(LE(u, a), LE(v, b), LE(w, c));
    assert [u] + [v, w] == [u, v, w];
    assert [a] + [b, c] == [a, b, c];
  }

  lemma PackFour(a: U32, b: U32, c: U32, d: U32)
    ensures Pack(Repeat(4, 4), [a, b, c, d]) == LE(4, a) + LE(4, b) + LE(4, c) + LE(4, d)
  {
    hide LE, Pack;
    PackFirst(4, a, [4, 4, 4], [b, c, d]);
    PackThree(4, 4, 4, b, c, d);
    assert Repeat(4, 4) == [4] + [4, 4, 4] && [a] + [b, c, d] == [a, b, c, d];
  }

  /** An image header is four little-endian words: width, height, step, image_bytes. */
  lemma ImageHeaderFields(h: ImageHeader)
    ensures ImageHeaderBytes(h) == LE(4, h.width) + LE(4, h.height) + LE(4, h.step) + LE(4, h.imageBytes)
  {
    PackFour(h.width, h.height, h.step, h.imageBytes);
  }

  /** A history entry header: user_bytes, asst_bytes. */
  lemma TurnHeaderFields(h: TurnHeader)
    ensures TurnHeaderBytes(h) == LE(4, h.userBytes) + LE(4, h.asstBytes)
  {
    hide LE, Pack;
    assert Repeat(4, 2) == [4, 4];
    PackTwo(4, 4, h.userBytes, h.asstBytes);
  }

  // Sixteen words in four groups.
  lemma PackSixteen(a: seq<nat>, b: seq<nat>, c: seq<nat>, d: seq<nat>)
    requires |a| == |b| == |c| == |d| == 4
    ensures Pack(Repeat(4, 16), a + b + c + d)
            == Pack(Repeat(4, 4), a) + Pack(Repeat(4, 4), b) + Pack(Repeat(4, 4), c) + Pack(Repeat(4, 4), d)
  {
    hide Pack;
    var four := Repeat(4, 4);
    assert Repeat(4, 16) == four + four + four + four;
    PackConcat(four + four + four, a + b + c, four, d);
    PackConcat(four + four, a + b, four, c);
    PackConcat(four, a, four, b);
  }

  /** A request header: the fields of the struct in declaration order, four or eight bytes each. */
  lemma RequestHeaderFields(h: RequestHeader)
    ensures RequestHeaderBytes(h) ==
            (LE(4, h.magic) + LE(4, h.version) + LE(8, h.requestId))
            + (LE(4, h.width) + LE(4, h.height) + LE(4, h.step) + LE(4, h.encoding))
            + (LE(4, h.imageBytes) + LE(4, h.promptBytes) + LE(4, h.maxGenerateLength) + LE(4, h.temperature))
            + (LE(4, h.topP) + LE(4, h.topK) + LE(4, FlagsWord(h.schemaFlags)) + LE(4, h.systemBytes))
            + (LE(4, h.historyCount) + LE(4, h.imageCount) + LE(4, h.sequenceType) + LE(4, h.padding))
            + (LE(8, Word(h.fps)) + LE(4, h.timestampCount) + LE(4, h.reserved))
  {
    hide LE, Pack, FlagsWord;
    var a := [h.width, h.height, h.step, h.encoding];
    var b := [h.imageBytes, h.promptBytes, h.maxGenerateLength, h.temperature];
    var c := [h.topP, h.topK, FlagsWord(h.schemaFlags), h.systemBytes];
    var d := [h.historyCount, h.imageCount, h.sequenceType, h.padding];
    var front, back := [h.magic, h.version, h.requestId], [Word(h.fps), h.timestampCount, h.reserved];
    assert MiddleWords(h) == a + b + c + d;
    PackConcat([4, 4, 8] + Repeat(4, 16), front + MiddleWords(h), [8, 4, 4], back);
    PackConcat([4, 4, 8], front, Repeat(4, 16), MiddleWords(h));
    PackSixteen(a, b, c, d);
    PackThree(4, 4, 8, h.magic, h.version, h.requestId);
    PackThree(8, 4, 4, Word(h.fps), h.timestampCount, h.reserved);
    PackFour(h.width, h.height, h.step, h.encoding);
    PackFour(h.imageBytes, h.promptBytes, h.maxGenerateLength, h.temperature);
    PackFour(h.topP, h.topK, FlagsWord(h.schemaFlags), h.systemBytes);
    PackFour(h.historyCount, h.imageCount, h.sequenceType, h.padding);
  }

  /** A response header likewise. */
  lemma ResponseHeaderFields(h: ResponseHeader)
    ensures ResponseHeaderBytes(h) ==
            (LE(4, h.magic) + LE(4, h.version) + LE(8, h.requestId))
            + (LE(4, h.success) + LE(4, h.textBytes) + LE(4, h.errorBytes) + LE(4, h.encodingBytes))
            + (LE(4, h.fallbackUsed) + LE(4, h.padding) + LE(8, Word(h.inferenceSeconds)))
  {
    hide LE, Pack;
    var front, mid := [h.magic, h.version, h.requestId], [h.success, h.textBytes, h.errorBytes, h.encodingBytes];
    var back := [h.fallbackUsed, h.padding, Word(h.inferenceSeconds)];
    assert ResponseWords(h) == front + mid + back;
    assert RESPONSE_WIDTHS == [4, 4, 8] + Repeat(4, 4) + [4, 4, 8] by {
      assert Repeat(4, 6) == Repeat(4, 4) + [4, 4];
    }
    PackConcat([4, 4, 8] + Repeat(4, 4), front + mid, [4, 4, 8], back);
    PackConcat([4, 4, 8], front, Repeat(4, 4), mid);
    PackThree(4, 4, 8, h.magic, h.version, h.requestId);
    PackFour(h.success, h.textBytes, h.errorBytes, h.encodingBytes);
    PackThree(4, 4, 8, h.fallbackUsed, h.padding, Word(h.inferenceSeconds));
  }

  // ---- Layout of one request -----------------------------------------------------------

  datatype Turn = Turn(user: seq<Byte>, asst: seq<Byte>)

  // One request as it travels: the header and every payload section behind it.
  datatype Message = Message(
    header: RequestHeader,
    extraHeaders: seq<ImageHeader>,
    primary: seq<Byte>,
    extras: seq<seq<Byte>>,
    timestamps: seq<Double>,
    system: seq<Byte>,
    prompt: seq<Byte>,
    history: seq<Turn>)

  /** A size stored in a 32-bit field. */
  function Size32(n: nat): U32 { n % 0x1_0000_0000 }

  function TurnBytes(t: Turn): seq<Byte> {
    TurnHeaderBytes(TurnHeader(Size32(|t.user|), Size32(|t.asst|))) + (t.user + t.asst)
  }

  function Raw(bs: seq<Byte>): seq<Byte> { bs }

  function EncMany<T>(enc: T -> seq<Byte>, xs: seq<T>): seq<Byte> {
    if xs == [] then [] else enc(xs[0]) + EncMany(enc, xs[1..])
  }

  lemma {:induction false} EncManySnoc<T>(enc: T -> seq<Byte>, xs: seq<T>, x: T)
    ensures EncMany(enc, xs + [x]) == EncMany(enc, xs) + enc(x)
  {
    if xs == [] {
      assert xs + [x] == [x];
    } else {
      EncManySnoc(enc, xs[1..], x);
      assert (xs + [x])[1..] == xs[1..] + [x];
    }
  }

  // The sections behind the header, followed by whatever comes next on the stream.
  function PayloadThen(m: Message, next: seq<Byte>): seq<Byte> {
    EncMany(ImageHeaderBytes, m.extraHeaders)
    + (m.primary
       + (EncMany(Raw, m.extras)
          + (DoublesBytes(m.timestamps)
             + (m.system
                + (m.prompt
                   + (EncMany(TurnBytes, m.history) + next))))))
  }

  function WireThen(m: Message, next: seq<Byte>): seq<Byte> {
    RequestHeaderBytes(m.header) + PayloadThen(m, next)
  }

  function Wire(m: Message): seq<Byte> { WireThen(m, []) }

  lemma WireThenIsConcat(m: Message, next: seq<Byte>)
    ensures WireThen(m, next) == Wire(m) + next
  {
    hide RequestHeaderBytes, EncMany, DoublesBytes;
    var a := RequestHeaderBytes(m.header);
    var b := EncMany(ImageHeaderBytes, m.extraHeaders);
    var c, d := m.primary, EncMany(Raw, m.extras);
    var e, f, g := DoublesBytes(m.timestamps), m.system, m.prompt;
    var h := EncMany(TurnBytes, m.history);
    assert h + [] == h;
    Reassociate(f, g, h, next);
    Reassociate(d, e, f + (g + h), next);
    Reassociate(b, c, d + (e + (f + (g + h))), next);
    assert a + (b + (c + (d + (e + (f + (g + h)))))) + next
        == a + ((b + (c + (d + (e + (f + (g + h)))))) + next);
  }

  /** The whole message, section behind section. */
  lemma SectionsInOrder(m: Message)
    ensures Wire(m) == RequestHeaderBytes(m.header) + EncMany(ImageHeaderBytes, m.extraHeaders) + m.primary
                       + EncMany(Raw, m.extras) + DoublesBytes(m.timestamps) + m.system + m.prompt
                       + EncMany(TurnBytes, m.history)
  {
    hide RequestHeaderBytes, EncMany, DoublesBytes;
    var c, d, e := m.primary, EncMany(Raw, m.extras), DoublesBytes(m.timestamps);
    var f, g, h := m.system, m.prompt, EncMany(TurnBytes, m.history);
    assert h + [] == h;
    Flatten(RequestHeaderBytes(m.header), EncMany(ImageHeaderBytes, m.extraHeaders), c, d + (e + (f + (g + h))));
    Flatten(RequestHeaderBytes(m.header) + EncMany(ImageHeaderBytes, m.extraHeaders) + c, d, e, f + (g + h));
    Flatten(RequestHeaderBytes(m.header) + EncMany(ImageHeaderBytes, m.extraHeaders) + c + d + e, f, g, h);
  }

  lemma Flatten(a: seq<Byte>, b: seq<Byte>, c: seq<Byte>, d: seq<Byte>)
    ensures a + (b + (c + d)) == a + b + c + d
  {
  }

  lemma Reassociate(a: seq<Byte>, b: seq<Byte>, c: seq<Byte>, d: seq<Byte>)
    ensures (a + (b + c)) + d == a + (b + (c + d))
  {
  }

  // ---- Layout of one response ----------------------------------------------------------

  datatype Reply = Reply(success: bool, text: seq<Byte>, error: seq<Byte>, encoding: seq<Byte>,
                         fallbackUsed: bool, inferenceSeconds: Double)

  // The limit both workers check before they write a response.
  predicate ReplyFits(r: Reply) {
    |r.text| <= MAX_TEXT_BYTES && |r.error| <= MAX_TEXT_BYTES && |r.encoding| <= MAX_TEXT_BYTES
  }

  function ResponseHeaderFor(id: U64, r: Reply, padding: U32): ResponseHeader
    requires ReplyFits(r)
  {
    ResponseHeader(MAGIC, VERSION, id, if r.success then 1 else 0,
                   |r.text|, |r.error|, |r.encoding|, if r.fallbackUsed then 1 else 0,
                   padding, r.inferenceSeconds)
  }

  function ReplyThen(id: U64, r: Reply, padding: U32, next: seq<Byte>): seq<Byte>
    requires ReplyFits(r)
  {
    ResponseHeaderBytes(ResponseHeaderFor(id, r, padding)) + (r.text + (r.error + (r.encoding + next)))
  }
}
