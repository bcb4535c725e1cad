/**
 * The rolling frame window of the FlashRT temporal node. Its callbacks update the node's fields;
 * the theorems are about whole runs of callbacks interleaved with the worker taking windows.
 */
module TemporalWindow {
  import opened Bytes
  import opened Doubles
  import opened Protocol
  import opened Decoders
  import opened Optional
  import opened Requests

  type Stamp = d: Double | IsFinite(d) witness ZERO

  datatype Record = Record(frame: PyFrame, stamp: Stamp, sequence: nat)

  // The node's parameters and the checks its constructor makes on them.
  datatype Config = Config(samplePeriod: real, windowFrames: nat, requireFull: bool, maxGap: real) {
    predicate Valid() {
      && samplePeriod >= 0.0 && 1 <= windowFrames <= 32 && maxGap > 0.0
      && (samplePeriod > 0.0 ==> maxGap > samplePeriod)
    }
  }

  datatype State = State(buffer: seq<Record>, lastSampled: Option<real>, sequence: nat, pending: Option<seq<Record>>)

  const START: State := State([], None, 0, None)

  // An image that arrived; `frame` is `None` when its conversion fails.
  datatype Arrival = Arrival(frame: Option<PyFrame>, stamp: Stamp)

  // What the node did with its input, in order; a reset remembers the stamp of the image that caused it.
  datatype Entry = Sampled(record: Record) | Reset(stamp: Stamp)

  predicate Discontinuity(cfg: Config, last: Option<real>, stamp: Stamp) {
    last.Some? && (Val(stamp) < last.value || Val(stamp) - last.value > cfg.maxGap)
  }

  predicate TooSoon(cfg: Config, last: Option<real>, stamp: Stamp) {
    last.Some? && Val(stamp) - last.value < cfg.samplePeriod
  }

  /** The log entries one image adds; `frame` is `None` when its conversion fails. */
  function Entries(cfg: Config, s: State, frame: Option<PyFrame>, stamp: Stamp): seq<Entry> {
    if Discontinuity(cfg, s.lastSampled, stamp) then
      [Reset(stamp)] + if frame.Some? then [Sampled(Record(frame.value, stamp, s.sequence + 1))] else []
    else if TooSoon(cfg, s.lastSampled, stamp) || frame.None? then []
    else [Sampled(Record(frame.value, stamp, s.sequence + 1))]
  }

  function LastN<T>(s: seq<T>, n: nat): seq<T> {
    if |s| <= n then s else s[|s| - n..]
  }

  /** The records sampled since the last reset. */
  function SinceReset(log: seq<Entry>): seq<Record> {
    if log == [] then [] else
      match log[|log| - 1]
      case Reset(_) => []
      case Sampled(r) => SinceReset(log[..|log| - 1]) + [r]
  }

  /** A reset withdraws the pending window; a sample that fills the window submits the newest one. */
  function PendingAfter(cfg: Config, pending: Option<seq<Record>>, entries: seq<Entry>, records: seq<Record>)
      : Option<seq<Record>>
  {
    if entries == [] then pending
    else if entries[|entries| - 1].Sampled? && (!cfg.requireFull || |records| >= cfg.windowFrames)
    then Some(LastN(records, cfg.windowFrames))
    else if entries[0].Reset? then None
    else pending
  }

  // A worker that takes the pending window between the two lock regions of a reset does the same
  // as one that takes it just before the callback: taking touches nothing but `pending`.
  class TemporalNode {
    const cfg: Config
    var buffer: seq<Record>
    var lastSampled: Option<real>
    var sequence: nat
    var pending: Option<seq<Record>>
    ghost var log: seq<Entry>
    ghost var images: seq<Arrival>  // everything that arrived

    ghost function Now(): State
      reads this
    {
      State(buffer, lastSampled, sequence, pending)
    }

    /** The fields agree with the log, and what they hold is a good window. */
    ghost predicate Agrees()
      reads this
    {
      cfg.Valid() && Refines(cfg, Now(), log) && ResetsDue(cfg, log)
    }

    /** And the log agrees with the images. */
    ghost predicate Valid()
      reads this
    {
      Agrees() && Explains(cfg, images, log, sequence)
    }

    constructor (cfg: Config)
      requires cfg.Valid()
      ensures Valid() && this.cfg == cfg && Now() == START && log == [] && images == []
    {
      this.cfg := cfg;
      buffer, lastSampled, sequence, pending, log, images := [], None, 0, None, [], [];
    }

    /** `_reset_temporal_window`, because of an image with the given stamp. */
    method ResetTemporalWindow(ghost stamp: Stamp)
      requires Agrees() && Discontinuity(cfg, lastSampled, stamp)
      modifies this
      ensures Agrees() && Now() == State([], None, old(sequence), None) && log == old(log) + [Reset(stamp)]
      ensures images == old(images)
    {
      ResetRefines(cfg, Now(), log, stamp);
      ResetIsDue(cfg, Now(), log, stamp);
      buffer := [];
      lastSampled := None;
      pending := None;
      log := log + [Reset(stamp)];
    }

    /** The second half of `_image_callback`: a converted frame joins the window. */
    method Sample(frame: PyFrame, stamp: Stamp)
      requires Agrees()
      requires !Discontinuity(cfg, lastSampled, stamp) && !TooSoon(cfg, lastSampled, stamp)
      modifies this
      ensures images == old(images) && sequence == old(sequence) + 1
      ensures Agrees() && log == old(log) + [Sampled(Record(frame, stamp, old(sequence) + 1))]
      ensures pending == PendingAfter(cfg, old(pending), [Sampled(Record(frame, stamp, old(sequence) + 1))], SinceReset(log))
    {
      hide Val, Chained, Refines, ResetsDue, LastN, SinceReset;
      ghost var s := Now();
      SampleIsNoReset(cfg, log, Record(frame, stamp, sequence + 1));
      lastSampled := Some(Val(stamp));
      sequence := sequence + 1;
      var record := Record(frame, stamp, sequence);
      buffer := LastN(buffer + [record], cfg.windowFrames);
      if !cfg.requireFull || |buffer| >= cfg.windowFrames {
        pending := Some(buffer);
      }
      SampleRefines(cfg, s, log, record, Now());
      BufferIsShort(cfg, Now(), log + [Sampled(record)]);
      log := log + [Sampled(record)];
    }

    /**
     * `_image_callback`. An image before the last sampled one, or more than the gap after it,
     * resets the window first; one that comes before the period is over is skipped.
     */
    method ImageCallback(frame: Option<PyFrame>, stamp: Stamp)
      requires Valid()
      modifies this
      ensures Valid() && images == old(images) + [Arrival(frame, stamp)]
      ensures var last := old(lastSampled);
              var resets := last.Some? && (Val(stamp) < last.value || Val(stamp) - last.value > cfg.maxGap);
              var soon := last.Some? && !resets && Val(stamp) - last.value < cfg.samplePeriod;
              log == old(log) + (if resets then [Reset(stamp)] else [])
                     + (if frame.Some? && !soon then [Sampled(Record(frame.value, stamp, old(sequence) + 1))] else [])
      ensures pending == PendingAfter(cfg, old(pending), Entries(cfg, old(Now()), frame, stamp), SinceReset(log))
      ensures |log| == |old(log)| ==> pending == old(pending)
      ensures |log| > |old(log)| && log[|log| - 1].Reset? ==> pending.None?
      ensures Steady(cfg, images) && (!cfg.requireFull || |images| >= cfg.windowFrames) ==>
                var w := if |images| < cfg.windowFrames then |images| else cfg.windowFrames;
                pending == Some(AllRecords(images)[|images| - w..])
    {
      hide Val, Refines, SinceReset, Steady, ResetsDue, Explains;
      ghost var s, entries := Now(), Entries(cfg, Now(), frame, stamp);
      ghost var image := Arrival(frame, stamp);
      if Steady(cfg, images + [image]) { SteadyOneMore(cfg, s, log, images, image); }
      Arrive(frame, stamp);
      images := images + [image];
      Explained(cfg, s, old(log), old(images), image, log, sequence);
      if Steady(cfg, images) && (!cfg.requireFull || |images| >= cfg.windowFrames) {
        SteadyWindow(cfg, images, log, entries, s.pending, pending, sequence);
      }
    }

    // The callback without the record of what arrived.
    method Arrive(frame: Option<PyFrame>, stamp: Stamp)
      requires Agrees()
      modifies this
      ensures Agrees() && images == old(images)
      ensures log == old(log) + Entries(cfg, old(Now()), frame, stamp)
      ensures sequence == old(sequence) + |Entries(cfg, old(Now()), frame, stamp)| - (if Discontinuity(cfg, old(lastSampled), stamp) then 1 else 0)
      ensures pending == PendingAfter(cfg, old(pending), Entries(cfg, old(Now()), frame, stamp), SinceReset(log))
    {
      hide Val, Refines, SinceReset, ResetsDue;
      assert log + [] == log;
      if lastSampled.Some? {
        var elapsed := Val(stamp) - lastSampled.value;
        if elapsed < 0.0 {
          ResetTemporalWindow(stamp);
        } else if elapsed > cfg.maxGap {
          ResetTemporalWindow(stamp);
        } else if elapsed < cfg.samplePeriod {
          return;
        }
      }
      if frame.None? {
        return;
      }
      ghost var record := Sampled(Record(frame.value, stamp, sequence + 1));
      assert old(log) + [Reset(stamp)] + [record] == old(log) + ([Reset(stamp)] + [record]);
      Sample(frame.value, stamp);
    }

    /** The worker takes the pending window; it reads and writes nothing else. */
    method TakeWindow() returns (window: Option<seq<Record>>)
      requires Valid()
      modifies this
      ensures Valid() && log == old(log) && window == old(pending) && pending == None
      ensures buffer == old(buffer) && lastSampled == old(lastSampled) && sequence == old(sequence) && images == old(images)
      ensures window.Some? ==>
                && GoodWindow(cfg, window.value)
                && window.value == LastN(SinceReset(log), cfg.windowFrames)
    {
      window := pending;
      pending := None;
    }
  }

  /**
   * A window as the node promises it: consecutive sequence numbers, and every step between
   * neighbours at least the sample period and at most the maximum gap.
   */
  ghost predicate GoodWindow(cfg: Config, w: seq<Record>) {
    && 1 <= |w| <= cfg.windowFrames && (cfg.requireFull ==> |w| == cfg.windowFrames)
    && Chained(cfg, w)
  }

  ghost predicate Chained(cfg: Config, w: seq<Record>) {
    forall i :: 0 < i < |w| ==> Follows(cfg, w[i - 1], w[i])
  }

  predicate Follows(cfg: Config, a: Record, b: Record) {
    && b.sequence == a.sequence + 1
    && 0.0 <= Val(b.stamp) - Val(a.stamp) && cfg.samplePeriod <= Val(b.stamp) - Val(a.stamp) <= cfg.maxGap
  }

  /** The buffer is the newest `windowFrames` records since the last reset, and so is a pending window. */
  ghost predicate Refines(cfg: Config, s: State, log: seq<Entry>) {
    var rs := SinceReset(log);
    && Chained(cfg, rs)
    && s.buffer == LastN(rs, cfg.windowFrames)
    && (s.lastSampled.None? <==> rs == [])
    && (rs != [] ==> s.lastSampled.value == Val(rs[|rs| - 1].stamp) && rs[|rs| - 1].sequence == s.sequence)
    && (s.pending.Some? ==> s.pending.value == s.buffer && GoodWindow(cfg, s.buffer))
  }

  lemma ResetRefines(cfg: Config, s: State, log: seq<Entry>, stamp: Stamp)
    requires Refines(cfg, s, log)
    ensures Refines(cfg, State([], None, s.sequence, None), log + [Reset(stamp)])
  {
    assert SinceReset(log + [Reset(stamp)]) == [];
  }

  // A reset stands right behind a sample, and its image was earlier than that sample or more than the gap after it.
  ghost predicate ResetsDue(cfg: Config, log: seq<Entry>) {
    forall j :: 0 <= j < |log| && log[j].Reset? ==>
      && j > 0 && log[j - 1].Sampled?
      && (Val(log[j].stamp) < Val(log[j - 1].record.stamp) || Val(log[j].stamp) - Val(log[j - 1].record.stamp) > cfg.maxGap)
  }

  lemma ResetIsDue(cfg: Config, s: State, log: seq<Entry>, stamp: Stamp)
    requires Refines(cfg, s, log) && ResetsDue(cfg, log) && Discontinuity(cfg, s.lastSampled, stamp)
    ensures ResetsDue(cfg, log + [Reset(stamp)])
  {
    hide Val, Chained;
    var rs := SinceReset(log);
    assert rs != [] && log != [] && log[|log| - 1] == Sampled(rs[|rs| - 1]);
  }

  // ---- From the images to the log ------------------------------------------------------

  // Every image converts, and every step between neighbours is at least the period and at most the gap.
  ghost predicate Steady(cfg: Config, images: seq<Arrival>) {
    && (forall i :: 0 <= i < |images| ==> images[i].frame.Some?)
    && (forall i :: 0 < i < |images| ==>
          cfg.samplePeriod <= Val(images[i].stamp) - Val(images[i - 1].stamp) <= cfg.maxGap)
  }

  function AllRecords(images: seq<Arrival>): (rs: seq<Record>)
    requires forall i :: 0 <= i < |images| ==> images[i].frame.Some?
    ensures |rs| == |images|
    ensures forall i :: 0 <= i < |images| ==> rs[i] == Record(images[i].frame.value, images[i].stamp, i + 1)
  {
    seq(|images|, i requires 0 <= i < |images| => Record(images[i].frame.value, images[i].stamp, i + 1))
  }

  function AllSampled(rs: seq<Record>): (log: seq<Entry>)
    ensures |log| == |rs| && forall i :: 0 <= i < |rs| ==> log[i] == Sampled(rs[i])
  {
    seq(|rs|, i requires 0 <= i < |rs| => Sampled(rs[i]))
  }

  // A steady stream is sampled image by image, numbered from 1.
  ghost predicate Explains(cfg: Config, images: seq<Arrival>, log: seq<Entry>, sequence: nat) {
    Steady(cfg, images) ==> log == AllSampled(AllRecords(images)) && sequence == |images|
  }

  lemma {:induction false} NothingReset(rs: seq<Record>)
    ensures SinceReset(AllSampled(rs)) == rs
  {
    if rs != [] {
      var n := |rs| - 1;
      NothingReset(rs[..n]);
      assert AllSampled(rs)[..n] == AllSampled(rs[..n]);
    } else {
      assert AllSampled(rs) == [];
    }
  }

  lemma SteadyOneMore(cfg: Config, s: State, log: seq<Entry>, images: seq<Arrival>, image: Arrival)
    requires cfg.Valid() && Refines(cfg, s, log) && Explains(cfg, images, log, s.sequence) && Steady(cfg, images + [image])
    ensures image.frame.Some?
    ensures !Discontinuity(cfg, s.lastSampled, image.stamp) && !TooSoon(cfg, s.lastSampled, image.stamp)
    ensures log + [Sampled(Record(image.frame.value, image.stamp, s.sequence + 1))] == AllSampled(AllRecords(images + [image]))
    ensures s.sequence == |images|
  {
    SteadyPrefix(cfg, images, image);
    NothingReset(AllRecords(images));
    hide Val, Chained, SinceReset, Steady;
    assert SinceReset(log) == AllRecords(images);
    assert AllRecords(images + [image]) == AllRecords(images) + [Record(image.frame.value, image.stamp, |images| + 1)];
  }

  lemma SteadyPrefix(cfg: Config, images: seq<Arrival>, image: Arrival)
    requires Steady(cfg, images + [image])
    ensures Steady(cfg, images) && image.frame.Some?
    ensures images != [] ==>
              cfg.samplePeriod <= Val(image.stamp) - Val(images[|images| - 1].stamp) <= cfg.maxGap
  {
    hide Val;
    var all, n := images + [image], |images|;
    assert all[n] == image && all[..n] == images;
    forall i | 0 <= i < n ensures images[i].frame.Some? { assert all[i] == images[i]; }
    forall i | 0 < i < n ensures cfg.samplePeriod <= Val(images[i].stamp) - Val(images[i - 1].stamp) <= cfg.maxGap {
      assert all[i] == images[i] && all[i - 1] == images[i - 1];
    }
    if n > 0 { assert all[n - 1] == images[n - 1]; }
  }

  // The log after one more image still explains the images.
  lemma Explained(cfg: Config, s: State, log: seq<Entry>, images: seq<Arrival>, image: Arrival, log': seq<Entry>, sequence: nat)
    requires cfg.Valid() && Refines(cfg, s, log) && Explains(cfg, images, log, s.sequence)
    requires log' == log + Entries(cfg, s, image.frame, image.stamp)
    requires sequence == s.sequence + |Entries(cfg, s, image.frame, image.stamp)|
                         - (if Discontinuity(cfg, s.lastSampled, image.stamp) then 1 else 0)
    ensures Explains(cfg, images + [image], log', sequence)
  {
    hide Val, Refines;
    if Steady(cfg, images + [image]) {
      SteadyOneMore(cfg, s, log, images, image);
      assert (images + [image])[|images|].frame.Some?;
    }
  }

  // After enough images of a steady stream, what a sample submits is the newest of them.
  lemma SteadyWindow(cfg: Config, images: seq<Arrival>, log: seq<Entry>, entries: seq<Entry>,
                     before: Option<seq<Record>>, pending: Option<seq<Record>>, sequence: nat)
    requires cfg.Valid() && Steady(cfg, images) && Explains(cfg, images, log, sequence)
    requires pending == PendingAfter(cfg, before, entries, SinceReset(log)) && |entries| == 1 && entries[0].Sampled?
    requires !cfg.requireFull || |images| >= cfg.windowFrames
    ensures var w := if |images| < cfg.windowFrames then |images| else cfg.windowFrames;
            pending == Some(AllRecords(images)[|images| - w..])
  {
    var rs := AllRecords(images);
    NothingReset(rs);
    hide Val, SinceReset, Steady;
    assert rs[0..] == rs;
  }

  lemma SampleIsNoReset(cfg: Config, log: seq<Entry>, r: Record)
    requires ResetsDue(cfg, log)
    ensures ResetsDue(cfg, log + [Sampled(r)])
  {
    hide Val;
  }

  lemma BufferIsShort(cfg: Config, s: State, log: seq<Entry>)
    requires Refines(cfg, s, log)
    ensures s.buffer == LastN(SinceReset(log), cfg.windowFrames)
    ensures |s.buffer| >= cfg.windowFrames <==> |SinceReset(log)| >= cfg.windowFrames
  {
    hide Val, Chained;
  }

  lemma LastNChained(cfg: Config, rs: seq<Record>, n: nat)
    requires Chained(cfg, rs)
    ensures Chained(cfg, LastN(rs, n))
  {
    var w := LastN(rs, n);
    forall i | 0 < i < |w|
      ensures Follows(cfg, w[i - 1], w[i])
    {
      var k := |rs| - |w| + i;
      assert w[i - 1] == rs[k - 1] && w[i] == rs[k];
      assert Follows(cfg, rs[k - 1], rs[k]);
    }
  }

  lemma LastNSnoc<T>(s: seq<T>, x: T, n: nat)
    requires n >= 1
    ensures LastN(LastN(s, n) + [x], n) == LastN(s + [x], n)
  {
  }

  lemma SampleRefines(cfg: Config, s: State, log: seq<Entry>, r: Record, s': State)
    requires cfg.Valid() && Refines(cfg, s, log)
    requires r.sequence == s.sequence + 1
    requires !Discontinuity(cfg, s.lastSampled, r.stamp) && !TooSoon(cfg, s.lastSampled, r.stamp)
    requires s'.buffer == LastN(s.buffer + [r], cfg.windowFrames)
    requires s'.lastSampled == Some(Val(r.stamp)) && s'.sequence == r.sequence
    requires s'.pending == if !cfg.requireFull || |s'.buffer| >= cfg.windowFrames then Some(s'.buffer) else s.pending
    ensures Refines(cfg, s', log + [Sampled(r)])
  {
    var rs := SinceReset(log);
    assert (log + [Sampled(r)])[..|log|] == log;
    assert SinceReset(log + [Sampled(r)]) == rs + [r];
    forall i | 0 < i < |rs| + 1
      ensures Follows(cfg, (rs + [r])[i - 1], (rs + [r])[i])
    {
      if i < |rs| { assert Follows(cfg, rs[i - 1], rs[i]); }
    }
    LastNSnoc(rs, r, cfg.windowFrames);
    LastNChained(cfg, rs + [r], cfg.windowFrames);
  }

  // ---- From the node to the workers ----------------------------------------------------

  function Frame(r: Record): PyFrame { r.frame }
  function StampOf(r: Record): Double { r.stamp }

  function WindowMessage(w: seq<Record>, prompt: seq<Byte>, maxTokens: U32, id: U64): Message
    requires w != []
  {
    PyMessageOf(Map(Frame, w), Map(StampOf, w), prompt, maxTokens, VIDEO, id)
  }

  // A window in which two neighbours carry the same stamp.
  ghost predicate HasEqualStamps(w: seq<Record>) {
    exists i :: 0 < i < |w| && Val(w[i - 1].stamp) == Val(w[i].stamp)
  }

  lemma NeighboursOrdered(cfg: Config, w: seq<Record>, i: nat)
    requires Chained(cfg, w) && 0 < i < |w|
    ensures Val(w[i - 1].stamp) <= Val(w[i].stamp)
    ensures cfg.samplePeriod > 0.0 ==> Val(w[i - 1].stamp) < Val(w[i].stamp)
  {
    hide Val;
    assert Follows(cfg, w[i - 1], w[i]);
  }

  lemma StampsIncrease(cfg: Config, w: seq<Record>)
    requires Chained(cfg, w)
    ensures Increasing(Map(StampOf, w)) <==> !HasEqualStamps(w)
    ensures cfg.samplePeriod > 0.0 ==> !HasEqualStamps(w)
  {
    hide Val, Follows, Chained;
    var ts := Map(StampOf, w);
    forall i | 0 < i < |w|
      ensures Val(ts[i - 1]) <= Val(ts[i])
      ensures cfg.samplePeriod > 0.0 ==> Val(ts[i - 1]) < Val(ts[i])
    {
      NeighboursOrdered(cfg, w, i);
    }
  }

  /**
   * End to end: a window taken from the node is decoded by both workers to exactly its frames,
   * stamps and prompt, provided no two neighbouring stamps are equal; otherwise neither
   * worker accepts it. A positive sample period rules equal stamps out.
   */
  lemma WindowReachesWorkers(cfg: Config, w: seq<Record>, prompt: seq<Byte>, maxTokens: U32, id: U64, next: seq<Byte>)
    requires cfg.Valid() && GoodWindow(cfg, w)
    requires forall i :: 0 <= i < |w| ==> PyFitting(w[i].frame)
    requires |prompt| <= MAX_TEXT_BYTES
    ensures var m := WindowMessage(w, prompt, maxTokens, id);
            && (PyDecode(WireThen(m, next)) == Done(m, next) <==> !HasEqualStamps(w))
            && (CppDecode(WireThen(m, next)) == Done(m, next) <==> !HasEqualStamps(w))
            && (cfg.samplePeriod > 0.0 ==> !HasEqualStamps(w))
    ensures var m := WindowMessage(w, prompt, maxTokens, id);
            && m.primary == w[0].frame.data && |m.extras| == |m.extraHeaders| == |w| - 1 && |m.timestamps| == |w|
            && (forall i :: 0 < i < |w| ==> m.extras[i - 1] == w[i].frame.data)
            && (forall i :: 0 <= i < |w| ==> m.timestamps[i] == w[i].stamp)
            && m.prompt == prompt && m.header.maxGenerateLength == maxTokens && m.header.requestId == id
            && m.header.sequenceType == 2
  {
    hide PyDecode, CppDecode, WireThen;
    var frames, stamps := Map(Frame, w), Map(StampOf, w);
    var m := WindowMessage(w, prompt, maxTokens, id);
    StampsIncrease(cfg, w);
    if HasEqualStamps(w) {
      PyDecodeExact(WireThen(m, next), m, next);
      CppDecodeExact(WireThen(m, next), m, next);
    } else {
      forall i | 0 <= i < |frames|
        ensures PyFitting(frames[i])
      {
      }
      PyRequestAccepted(frames, stamps, prompt, maxTokens, id, next);
    }
  }

  /** With a zero sample period the node does submit a window with equal stamps. */
  method ZeroPeriodTakesEqualStamps(frame: PyFrame) returns (node: TemporalNode, w: seq<Record>)
    ensures fresh(node) && node.Valid() && node.cfg.samplePeriod == 0.0
    ensures GoodWindow(node.cfg, w) && w == LastN(SinceReset(node.log), node.cfg.windowFrames)
    ensures HasEqualStamps(w)
  {
    hide Val, SinceReset, PendingAfter, Chained, Steady, GoodWindow, HasEqualStamps, Entries, TemporalNode.Agrees, TemporalNode.Valid;
    node := new TemporalNode(Config(0.0, 2, true, 1.0));
    node.ImageCallback(Some(frame), ZERO);
    node.ImageCallback(Some(frame), ZERO);
    assert node.images == [Arrival(Some(frame), ZERO), Arrival(Some(frame), ZERO)];
    SameStampTwice(node.cfg, frame);
    var window := node.TakeWindow();
    w := window.value;
  }

  lemma SameStampTwice(cfg: Config, frame: PyFrame)
    requires cfg.samplePeriod == 0.0 && cfg.maxGap == 1.0
    ensures var images := [Arrival(Some(frame), ZERO), Arrival(Some(frame), ZERO)];
            Steady(cfg, images) && HasEqualStamps(AllRecords(images)[0..])
  {
    hide Val;
    var w := AllRecords([Arrival(Some(frame), ZERO), Arrival(Some(frame), ZERO)])[0..];
    assert Val(w[1 - 1].stamp) == Val(w[1].stamp);
  }

  /**
   * Every reset is due, in every run: right before it in the log stands the last sampled image,
   * and the image that caused it was stamped before that one or more than the gap after it.
   */
  lemma EveryResetIsDue(node: TemporalNode, j: nat)
    requires node.Valid() && j < |node.log| && node.log[j].Reset?
    ensures j > 0 && node.log[j - 1].Sampled?
    ensures var at, last := Val(node.log[j].stamp), Val(node.log[j - 1].record.stamp);
            at < last || at > last + node.cfg.maxGap
  {
    hide Val;
  }

  /** A steady stream is never reset, and each of its images is sampled. */
  lemma SteadyStreamIsSampled(node: TemporalNode, i: nat)
    requires node.Valid() && i < |node.images|
    requires forall k :: 0 <= k < |node.images| ==> node.images[k].frame.Some?
    requires forall k :: 0 < k < |node.images| ==>
               node.cfg.samplePeriod <= Val(node.images[k].stamp) - Val(node.images[k - 1].stamp) <= node.cfg.maxGap
    ensures |node.log| == |node.images|
    ensures node.log[i] == Sampled(Record(node.images[i].frame.value, node.images[i].stamp, i + 1))
  {
    hide Val;
    assert Steady(node.cfg, node.images);
  }
}
