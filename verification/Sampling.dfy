/**
 * Two ways of thinning out frames: the greedy sampler over a recorded bag, which is optimal, and
 * the even selection over a finished list, which is as even as whole indices allow.
 */
module BagSampling {
  import opened Optional

  // `image` is false when the message cannot be decoded into a non-empty image.
  datatype Message = Message(timestamp: int, image: bool)

  datatype Window = Window(start: int, end: Option<int>, interval: int, maxFrames: int)

  datatype Frame = Frame(index: nat, timestamp: int)

  ghost predicate Chronological(ms: seq<Message>) {
    && (forall i :: 0 <= i < |ms| ==> 0 <= ms[i].timestamp)
    && (forall i, j :: 0 <= i < j < |ms| ==> ms[i].timestamp <= ms[j].timestamp)
  }

  // Time since the first message of the bag.
  function Offset(ms: seq<Message>, k: nat): int
    requires k < |ms|
  {
    ms[k].timestamp - ms[0].timestamp
  }

  predicate Eligible(ms: seq<Message>, w: Window, k: nat) {
    && k < |ms| && ms[k].image
    && w.start <= Offset(ms, k) && (w.end.Some? ==> Offset(ms, k) <= w.end.value)
  }

  /** A possible selection: positions of decodable, in-range messages, each at least the interval after the one before. */
  ghost predicate Spaced(ms: seq<Message>, w: Window, s: seq<nat>) {
    && (forall i :: 0 <= i < |s| ==> Eligible(ms, w, s[i]))
    && (forall i :: 0 < i < |s| ==> s[i - 1] < s[i] && ms[s[i]].timestamp - ms[s[i - 1]].timestamp >= w.interval)
  }

  // `s` only uses messages before position `n`.
  ghost predicate Before(s: seq<nat>, n: nat) { forall i :: 0 <= i < |s| ==> s[i] < n }

  /** `a` has at least as many elements as `b`, and each of them comes no later. */
  ghost predicate Ahead(a: seq<nat>, b: seq<nat>) {
    |b| <= |a| && forall i :: 0 <= i < |b| ==> a[i] <= b[i]
  }

  /** No selection among the first `n` messages is ahead of `picked` anywhere. */
  ghost predicate Best(ms: seq<Message>, w: Window, picked: seq<nat>, n: nat) {
    forall s :: Spaced(ms, w, s) && Before(s, n) ==> Ahead(picked, s)
  }

  // A selection among `n + 1` messages is one among `n`, perhaps followed by `n`.
  lemma DropLast(ms: seq<Message>, w: Window, s: seq<nat>, n: nat)
    requires Spaced(ms, w, s) && Before(s, n + 1) && !Before(s, n)
    ensures s != [] && s[|s| - 1] == n
    ensures Spaced(ms, w, s[..|s| - 1]) && Before(s[..|s| - 1], n)
  {
    Climbs(ms, w, s);
    var i :| 0 <= i < |s| && s[i] >= n;
    assert i == |s| - 1;
  }

  lemma {:induction false} Climbs(ms: seq<Message>, w: Window, s: seq<nat>)
    requires Spaced(ms, w, s)
    ensures forall i, j :: 0 <= i < j < |s| ==> s[i] < s[j]
  {
    if s != [] {
      var t := s[..|s| - 1];
      assert Spaced(ms, w, t) by {
        forall i | 0 <= i < |t| ensures Eligible(ms, w, t[i]) { assert t[i] == s[i]; }
      }
      Climbs(ms, w, t);
      forall i, j | 0 <= i < j < |s| ensures s[i] < s[j] {
        if j == |s| - 1 && i < j - 1 { assert t[i] < t[j - 1]; }
        else if j < |s| - 1 { assert t[i] < t[j]; }
      }
    }
  }

  // `n` is too close to the last pick, so it is too close to the later message of `s` before it.
  lemma TooClose(ms: seq<Message>, w: Window, picked: seq<nat>, s: seq<nat>, n: nat)
    requires Chronological(ms) && n < |ms| && |picked| > 0 && |s| == |picked| + 1 && s[|picked|] == n
    requires picked[|picked| - 1] <= s[|picked| - 1] < |ms|
    requires ms[n].timestamp - ms[picked[|picked| - 1]].timestamp < w.interval
    ensures !Spaced(ms, w, s)
  {
    var p, q := picked[|picked| - 1], s[|picked| - 1];
    assert p < q ==> ms[p].timestamp <= ms[q].timestamp;
  }

  // Passing over a message that cannot follow the last pick, or is no candidate at all.
  lemma PassOver(ms: seq<Message>, w: Window, picked: seq<nat>, n: nat)
    requires Chronological(ms) && n < |ms| && Best(ms, w, picked, n) && Spaced(ms, w, picked) && Before(picked, n)
    requires !Eligible(ms, w, n)
             || (picked != [] && ms[n].timestamp - ms[picked[|picked| - 1]].timestamp < w.interval)
    ensures Best(ms, w, picked, n + 1)
  {
    forall s | Spaced(ms, w, s) && Before(s, n + 1)
      ensures Ahead(picked, s)
    {
      if !Before(s, n) {
        DropLast(ms, w, s, n);
        assert Eligible(ms, w, s[|s| - 1]);
        var t := s[..|s| - 1];
        assert Ahead(picked, t);
        assert |t| < |picked| by {
          if |t| == |picked| && picked != [] { TooClose(ms, w, picked, s, n); }
        }
        forall i | 0 <= i < |s| ensures picked[i] <= s[i] {
          if i < |t| { assert picked[i] <= t[i]; }
        }
      }
    }
  }

  lemma PickNext(ms: seq<Message>, w: Window, picked: seq<nat>, n: nat)
    requires Best(ms, w, picked, n) && Before(picked, n) && Eligible(ms, w, n)
    ensures Best(ms, w, picked + [n], n + 1)
  {
    forall s | Spaced(ms, w, s) && Before(s, n + 1)
      ensures Ahead(picked + [n], s)
    {
      if !Before(s, n) {
        DropLast(ms, w, s, n);
        var t := s[..|s| - 1];
        assert Ahead(picked, t);
        forall i | 0 <= i < |s| ensures (picked + [n])[i] <= s[i] {
          if i < |t| { assert picked[i] <= t[i]; }
        }
      } else {
        assert Ahead(picked, s);
      }
    }
  }

  // Behind a message past the end of the window there is nothing left to pick.
  lemma PastTheEnd(ms: seq<Message>, w: Window, picked: seq<nat>, n: nat)
    requires Chronological(ms) && n < |ms| && Best(ms, w, picked, n)
    requires w.end.Some? && Offset(ms, n) > w.end.value
    ensures Best(ms, w, picked, |ms|)
  {
    forall s | Spaced(ms, w, s) && Before(s, |ms|)
      ensures Ahead(picked, s)
    {
      forall i | 0 <= i < |s| ensures s[i] < n {
        assert Eligible(ms, w, s[i]);
      }
      assert Before(s, n);
    }
  }

  function Quota(w: Window): nat { if w.maxFrames < 0 then 0 else w.maxFrames }

  function Min(a: nat, b: nat): nat { if a < b then a else b }

  // What the sampling loop maintains; `last` is the offset of the last pick, or -1.
  ghost predicate Progress(ms: seq<Message>, w: Window, picked: seq<nat>, last: int, n: nat) {
    && Spaced(ms, w, picked) && Before(picked, n) && n <= |ms|
    && last == (if picked == [] then -1 else Offset(ms, picked[|picked| - 1]))
    && Best(ms, w, picked, n)
  }

  lemma NothingYet(ms: seq<Message>, w: Window)
    ensures Progress(ms, w, [], -1, 0)
  {
    forall s: seq<nat> | s != [] ensures !Before(s, 0) {
      assert 0 <= s[0];
    }
  }

  lemma SkipKeeps(ms: seq<Message>, w: Window, picked: seq<nat>, last: int, n: nat)
    requires Chronological(ms) && n < |ms| && Progress(ms, w, picked, last, n)
    requires !Eligible(ms, w, n) || (last >= 0 && Offset(ms, n) - last < w.interval)
    ensures Progress(ms, w, picked, last, n + 1)
  {
    PassOver(ms, w, picked, n);
  }

  lemma PickKeeps(ms: seq<Message>, w: Window, picked: seq<nat>, last: int, n: nat)
    requires Chronological(ms) && n < |ms| && Progress(ms, w, picked, last, n)
    requires Eligible(ms, w, n) && !(last >= 0 && Offset(ms, n) - last < w.interval)
    ensures Progress(ms, w, picked + [n], Offset(ms, n), n + 1)
  {
    PickNext(ms, w, picked, n);
    if picked != [] {
      assert Eligible(ms, w, picked[|picked| - 1]);
      assert Offset(ms, picked[|picked| - 1]) >= 0;
    }
  }

  // The frames are numbered from 0 and come from the picked messages, decodable ones in bag order, all before `n`.
  ghost predicate Extracted(ms: seq<Message>, frames: seq<Frame>, picked: seq<nat>, n: nat) {
    && |frames| == |picked|
    && (forall i :: 0 <= i < |frames| ==>
          picked[i] < n && picked[i] < |ms| && ms[picked[i]].image && frames[i] == Frame(i, ms[picked[i]].timestamp))
    && (forall i :: 0 < i < |picked| ==> picked[i - 1] < picked[i])
  }

  lemma ExtractOne(ms: seq<Message>, frames: seq<Frame>, picked: seq<nat>, n: nat)
    requires Extracted(ms, frames, picked, n) && n < |ms|
    ensures Extracted(ms, frames, picked, n + 1)
    ensures ms[n].image ==> Extracted(ms, frames + [Frame(|frames|, ms[n].timestamp)], picked + [n], n + 1)
  {
  }

  /**
   * The extraction loop. Whatever the bag holds, the frames are numbered from 0 and come from
   * distinct decodable messages in bag order, no more than asked for. On a chronological bag the
   * picks are spaced and in range, they reach the quota unless the whole bag cannot fill it, and
   * no selection whatsoever gets further with as many frames.
   */
  method ExtractFrames(ms: seq<Message>, w: Window) returns (frames: seq<Frame>, ghost picked: seq<nat>)
    ensures Extracted(ms, frames, picked, |ms|) && |picked| <= Quota(w)
    ensures Chronological(ms) ==> Spaced(ms, w, picked)
    ensures Chronological(ms) ==> forall s :: Spaced(ms, w, s) && |s| <= Quota(w) ==> Ahead(picked, s)
  {
    frames, picked := [], [];
    NothingYet(ms, w);
    var last, bagStart, i := -1, -1, 0;
    while i < |ms| && |frames| < w.maxFrames
      invariant 0 <= i <= |ms| && |frames| == |picked| <= Quota(w)
      invariant Extracted(ms, frames, picked, i)
      invariant i > 0 && Chronological(ms) ==> bagStart == ms[0].timestamp
      invariant i == 0 ==> bagStart < 0
      invariant Chronological(ms) ==> Progress(ms, w, picked, last, i)
      decreases |ms| - i
    {
      hide Progress, Spaced, Best, Extracted;
      ExtractOne(ms, frames, picked, i);
      var m := ms[i];
      i := i + 1;
      if bagStart < 0 { bagStart := m.timestamp; }
      var offset := m.timestamp - bagStart;
      if offset < w.start {
        if Chronological(ms) { SkipKeeps(ms, w, picked, last, i - 1); }
        continue;
      }
      if w.end.Some? && offset > w.end.value {
        if Chronological(ms) { EndReached(ms, w, picked, last, i - 1); }
        StillExtracted(ms, frames, picked, i);
        return;
      }
      if last >= 0 && offset - last < w.interval {
        if Chronological(ms) { SkipKeeps(ms, w, picked, last, i - 1); }
        continue;
      }
      if !m.image {
        if Chronological(ms) { SkipKeeps(ms, w, picked, last, i - 1); }
        continue;
      }
      if Chronological(ms) { PickKeeps(ms, w, picked, last, i - 1); }
      frames := frames + [Frame(|frames|, m.timestamp)];
      picked := picked + [i - 1];
      last := offset;
    }
    if Chronological(ms) { LoopDone(ms, w, picked, last, i); }
  }

  lemma StillExtracted(ms: seq<Message>, frames: seq<Frame>, picked: seq<nat>, n: nat)
    requires Extracted(ms, frames, picked, n)
    ensures Extracted(ms, frames, picked, |ms|)
  {
  }

  lemma EndReached(ms: seq<Message>, w: Window, picked: seq<nat>, last: int, n: nat)
    requires Chronological(ms) && n < |ms| && Progress(ms, w, picked, last, n)
    requires w.end.Some? && Offset(ms, n) > w.end.value
    ensures Spaced(ms, w, picked)
    ensures forall s :: Spaced(ms, w, s) ==> Ahead(picked, s)
  {
    PastTheEnd(ms, w, picked, n);
    EverythingIsBefore(ms, w);
  }

  lemma EverythingIsBefore(ms: seq<Message>, w: Window)
    ensures forall s :: Spaced(ms, w, s) ==> Before(s, |ms|)
  {
    forall s | Spaced(ms, w, s) ensures Before(s, |ms|) {
      forall i | 0 <= i < |s| ensures s[i] < |ms| { assert Eligible(ms, w, s[i]); }
    }
  }

  // The bag is exhausted, or the quota is met: then a longer prefix has nothing to add to the first picks.
  lemma LoopDone(ms: seq<Message>, w: Window, picked: seq<nat>, last: int, n: nat)
    requires Chronological(ms) && Progress(ms, w, picked, last, n) && |picked| <= Quota(w)
    requires n == |ms| || |picked| >= w.maxFrames
    ensures Spaced(ms, w, picked)
    ensures forall s :: Spaced(ms, w, s) && |s| <= Quota(w) ==> Ahead(picked, s)
  {
    EverythingIsBefore(ms, w);
    forall s | Spaced(ms, w, s) && |s| <= Quota(w)
      ensures Ahead(picked, s)
    {
      if n < |ms| { QuotaMet(ms, w, picked, n, s); }
    }
  }

  // With the quota met, the positions of `s` cannot undercut the picks: a prefix of `s` that did would lie before `n`.
  lemma {:induction false} QuotaMet(ms: seq<Message>, w: Window, picked: seq<nat>, n: nat, s: seq<nat>)
    requires Best(ms, w, picked, n) && Before(picked, n) && Spaced(ms, w, s) && |s| <= |picked|
    ensures Ahead(picked, s)
  {
    if s != [] {
      var t, last := s[..|s| - 1], |s| - 1;
      assert Spaced(ms, w, t) by {
        forall i | 0 <= i < |t| ensures Eligible(ms, w, t[i]) { assert t[i] == s[i]; }
      }
      QuotaMet(ms, w, picked, n, t);
      if s[last] < n {
        Climbs(ms, w, s);
        assert Before(s, n) by {
          forall i | 0 <= i < |s| ensures s[i] < n { assert i < last ==> s[i] < s[last]; }
        }
      } else {
        forall i | 0 <= i < |s| ensures picked[i] <= s[i] {
          if i < last { assert picked[i] <= t[i]; }
        }
      }
    }
  }

  ghost predicate IsLargest(ms: seq<Message>, w: Window, m: nat) {
    && (exists s :: Spaced(ms, w, s) && |s| == m)
    && (forall s :: Spaced(ms, w, s) ==> |s| <= m)
  }

  /** Optimality as a number: a selection that is ahead of every other of at most quota size has min(quota, M) frames. */
  lemma CountIsOptimal(ms: seq<Message>, w: Window, picked: seq<nat>, m: nat)
    requires Spaced(ms, w, picked) && |picked| <= Quota(w) && IsLargest(ms, w, m)
    requires forall s :: Spaced(ms, w, s) && |s| <= Quota(w) ==> Ahead(picked, s)
    ensures |picked| == Min(Quota(w), m)
  {
    var s :| Spaced(ms, w, s) && |s| == m;
    var t := s[..Min(Quota(w), m)];
    assert Spaced(ms, w, t) by {
      forall i | 0 <= i < |t| ensures Eligible(ms, w, t[i]) { assert t[i] == s[i]; }
    }
    assert Ahead(picked, t);
  }

  lemma SpacedIsShort(ms: seq<Message>, w: Window, s: seq<nat>)
    requires Spaced(ms, w, s)
    ensures |s| <= |ms|
  {
    Climbs(ms, w, s);
    EverythingIsBefore(ms, w);
    AtLeastIndex(s, |s|);
    if s != [] { assert s[|s| - 1] < |ms|; }
  }

  lemma {:induction false} AtLeastIndex(s: seq<nat>, n: nat)
    requires n <= |s| && forall i, j :: 0 <= i < j < |s| ==> s[i] < s[j]
    ensures forall i :: 0 <= i < n ==> i <= s[i]
  {
    if n > 1 {
      AtLeastIndex(s, n - 1);
      assert s[n - 2] < s[n - 1];
    }
  }

  /** There is a largest selection of every bag. */
  lemma {:induction false} LargestExists(ms: seq<Message>, w: Window, bound: nat)
    requires forall s :: Spaced(ms, w, s) ==> |s| <= bound
    ensures exists m :: IsLargest(ms, w, m)
  {
    if s :| Spaced(ms, w, s) && |s| == bound {
      assert IsLargest(ms, w, bound);
    } else {
      assert Spaced(ms, w, []);
      LargestExists(ms, w, bound - 1);
    }
  }

  /** M: the size of the largest selection. */
  ghost function Largest(ms: seq<Message>, w: Window): (m: nat)
    ensures IsLargest(ms, w, m)
  {
    assert forall s :: Spaced(ms, w, s) ==> |s| <= |ms| by {
      forall s | Spaced(ms, w, s) ensures |s| <= |ms| { SpacedIsShort(ms, w, s); }
    }
    LargestExists(ms, w, |ms|);
    var m :| IsLargest(ms, w, m);
    m
  }

  /** On a chronological bag the loop extracts exactly min(max_frames, M) frames. */
  method ExtractedCount(ms: seq<Message>, w: Window) returns (n: nat)
    requires Chronological(ms)
    ensures n == Min(Quota(w), Largest(ms, w))
  {
    var frames, picked := ExtractFrames(ms, w);
    CountIsOptimal(ms, w, picked, Largest(ms, w));
    n := |frames|;
  }

  /**
   * What the frames of a chronological bag are: numbered from 0, each from a decodable message
   * inside the window, both ends included, later than the one before by the interval or more.
   */
  method ExtractedFramesAreInRange(ms: seq<Message>, w: Window) returns (frames: seq<Frame>)
    requires Chronological(ms)
    ensures |frames| <= if w.maxFrames < 0 then 0 else w.maxFrames
    ensures forall i :: 0 <= i < |frames| ==>
              && frames[i].index == i
              && (exists m :: m in ms && m.image && m.timestamp == frames[i].timestamp)
              && w.start <= frames[i].timestamp - ms[0].timestamp
              && (w.end.Some? ==> frames[i].timestamp - ms[0].timestamp <= w.end.value)
    ensures forall i :: 0 < i < |frames| ==> frames[i].timestamp - frames[i - 1].timestamp >= w.interval
  {
    ghost var picked;
    frames, picked := ExtractFrames(ms, w);
    forall i | 0 <= i < |frames|
      ensures frames[i] == Frame(i, ms[picked[i]].timestamp) && Eligible(ms, w, picked[i]) && ms[picked[i]] in ms
    {
    }
  }

  /** When every message is decodable, in range and far enough from the one before, the loop takes them all, up to the quota. */
  method EveryFrameIsTaken(ms: seq<Message>, w: Window) returns (frames: seq<Frame>)
    requires Chronological(ms)
    requires forall i :: 0 <= i < |ms| ==>
               && ms[i].image && w.start <= ms[i].timestamp - ms[0].timestamp
               && (w.end.Some? ==> ms[i].timestamp - ms[0].timestamp <= w.end.value)
    requires forall i :: 0 < i < |ms| ==> ms[i].timestamp - ms[i - 1].timestamp >= w.interval
    ensures |frames| == if w.maxFrames < 0 then 0 else if w.maxFrames < |ms| then w.maxFrames else |ms|
    ensures forall i :: 0 <= i < |frames| ==> frames[i] == Frame(i, ms[i].timestamp)
  {
    ghost var picked;
    frames, picked := ExtractFrames(ms, w);
    ghost var n := Min(Quota(w), |ms|);
    ghost var all: seq<nat> := seq(n, i => i);
    assert Spaced(ms, w, all) by {
      forall i | 0 <= i < |all| ensures Eligible(ms, w, all[i]) { assert all[i] == i; }
    }
    assert Ahead(picked, all);
    Climbs(ms, w, picked);
    AtLeastIndex(picked, |picked|);
    SpacedIsShort(ms, w, picked);
    forall i | 0 <= i < |picked| ensures picked[i] == i { assert picked[i] <= all[i] == i; }
  }
}

/** `select_frames`: `count` of `n` frames at equal real steps, rounded half to even. */
module EvenSelection {
  import opened Optional
  import opened Rounding

  function Step(n: nat, count: int): real
    requires count != 1
  {
    (n - 1) as real / (count - 1) as real
  }

  function Index(n: nat, count: int, i: nat): int
    requires count != 1
  {
    RoundHalfEven(i as real * Step(n, count))
  }

  // None stands for the error of asking for more frames than there are.
  function SelectFrames<T>(all: seq<T>, count: int): (r: Option<seq<T>>)
    ensures r.Some? <==> count <= |all|
    ensures r.Some? ==> |r.value| == if count < 0 then 0 else count
    ensures r.Some? && count == 1 ==> r.value[0] == all[0]
  {
    var n := |all|;
    if n < count then None
    else if count == 1 then Some([all[0]])
    else if count == n then Some(all)
    else if count <= 0 then Some([])
    else
      IndicesInRange(n, count);
      Some(seq(count, i requires 0 <= i < count => all[Index(n, count, i)]))
  }

  lemma Scales(x: real, y: real, d: real)
    requires d > 0.0
    ensures x * d < y * d <==> x < y
  {
  }

  // A real quotient of integers against the integer one.
  lemma Quotient(a: int, d: int)
    requires d > 0
    ensures a as real / d as real * d as real == a as real
    ensures (a / d) as real <= a as real / d as real < (a / d + 1) as real
    ensures (a / d) as real == a as real / d as real <==> a % d == 0
  {
    var q, r, s := a / d, a % d, a as real / d as real;
    assert a == q * d + r;
    assert (q * d) as real == q as real * d as real;
    assert s * d as real == q as real * d as real + r as real;
    Scales(s, q as real, d as real);
    Scales(q as real, s, d as real);
    Scales(s, q as real + 1.0, d as real);
    assert (q as real + 1.0) * d as real == q as real * d as real + d as real;
  }

  lemma IndexOfWholeStep(n: nat, count: int, i: nat, q: int)
    requires count != 1 && Step(n, count) == q as real
    ensures Index(n, count, i) == i * q
  {
    assert i as real * q as real == (i * q) as real;
    RoundOfInteger(i * q);
  }

  // Between two points whose distance lies strictly between two integers, the rounded gap is one of them.
  lemma RoundedGap(x: real, s: real, q: int)
    requires q as real < s < (q + 1) as real
    ensures q <= RoundHalfEven(x + s) - RoundHalfEven(x) <= q + 1
  {
    RoundIsNearest(x);
    RoundIsNearest(x + s);
  }

  lemma GapIsOneStep(n: nat, count: int, i: nat)
    requires count != 1
    ensures var x := i as real * Step(n, count);
            Index(n, count, i) == RoundHalfEven(x) && Index(n, count, i + 1) == RoundHalfEven(x + Step(n, count))
  {
    var s := Step(n, count);
    assert (i + 1) as real == i as real + 1.0;
    assert (i as real + 1.0) * s == i as real * s + s;
  }

  /** Consecutive indices differ by the floor or the ceiling of (n-1)/(count-1), never by anything else. */
  lemma GapsAreEven(n: nat, count: int, i: nat)
    requires 2 <= count <= n && i + 1 < count
    ensures var q, gap := (n - 1) / (count - 1), Index(n, count, i + 1) - Index(n, count, i);
            && 1 <= q <= gap <= q + 1
            && ((n - 1) % (count - 1) == 0 ==> gap == q)
  {
    var q := (n - 1) / (count - 1);
    Quotient(n - 1, count - 1);
    AtLeastOne(n - 1, count - 1);
    hide Index, RoundHalfEven;
    if (n - 1) % (count - 1) == 0 {
      IndexOfWholeStep(n, count, i, q);
      IndexOfWholeStep(n, count, i + 1, q);
      assert (i + 1) * q - i * q == q;
    } else {
      GapIsOneStep(n, count, i);
      RoundedGap(i as real * Step(n, count), Step(n, count), q);
    }
  }

  lemma AtLeastOne(a: int, d: int)
    requires 1 <= d <= a
    ensures a / d >= 1
  {
  }

  /** Each index is within half a frame of its ideal place, the first is 0 and the last n - 1. */
  lemma EndsAreMet(n: nat, count: int, i: nat)
    requires 2 <= count <= n
    ensures Index(n, count, 0) == 0 && Index(n, count, count - 1) == n - 1
    ensures -0.5 <= Index(n, count, i) as real - i as real * Step(n, count) <= 0.5
  {
    hide RoundHalfEven;
    Quotient(n - 1, count - 1);
    RoundOfInteger(0);
    RoundOfInteger(n - 1);
    assert 0 as real * Step(n, count) == 0 as real;
    assert (count - 1) as real * Step(n, count) == (n - 1) as real;
    RoundIsNearest(i as real * Step(n, count));
  }

  lemma {:induction false} IndicesClimb(n: nat, count: int, i: nat, j: nat)
    requires 2 <= count <= n && i < j < count
    ensures Index(n, count, i) < Index(n, count, j)
    decreases j
  {
    GapsAreEven(n, count, j - 1);
    if i < j - 1 { IndicesClimb(n, count, i, j - 1); }
  }

  lemma IndicesInRange(n: nat, count: int)
    requires 2 <= count <= n
    ensures forall i: nat :: i < count ==> 0 <= Index(n, count, i) < n
  {
    forall i: nat | i < count ensures 0 <= Index(n, count, i) < n {
      EndsAreMet(n, count, i);
      if 0 < i { IndicesClimb(n, count, 0, i); }
      if i < count - 1 { IndicesClimb(n, count, i, count - 1); }
    }
  }

  /** Asking for all frames would give all of them without the special case: the step is then 1. */
  lemma FullSelectionIsIdentity(n: nat, i: nat)
    requires 2 <= n && i < n
    ensures Index(n, n, i) == i
  {
    assert Step(n, n) == 1 as real;
    IndexOfWholeStep(n, n, i, 1);
  }

  /** Every selection of two frames or more, special case included: the frames at the even indices. */
  lemma SelectsEvenIndices<T>(all: seq<T>, count: int, i: nat)
    requires 2 <= count <= |all| && i < count
    ensures 0 <= Index(|all|, count, i) < |all|
    ensures SelectFrames(all, count).value[i] == all[Index(|all|, count, i)]
  {
    IndicesInRange(|all|, count);
    if count == |all| { FullSelectionIsIdentity(|all|, i); }
  }
}
