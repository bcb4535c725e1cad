/** Rounding to the nearest integer, ties to even, over the reals. */
module Rounding {
  function RoundHalfEven(x: real): int {
    var f := x.Floor;
    var d := x - f as real;
    if d < 0.5 then f else if d > 0.5 then f + 1 else if f % 2 == 0 then f else f + 1
  }

  lemma RoundIsNearest(x: real)
    ensures -0.5 <= RoundHalfEven(x) as real - x <= 0.5
  {
  }

  /** Exactly the nearest integer, and of two equally near ones the even one. */
  lemma RoundExactly(x: real, n: int)
    ensures RoundHalfEven(x) == n <==>
            var d := n as real - x; -0.5 < d < 0.5 || ((d == 0.5 || d == -0.5) && n % 2 == 0)
  {
  }

  lemma RoundOfInteger(n: int)
    ensures RoundHalfEven(n as real) == n
  {
    assert (n as real).Floor == n;
  }

  lemma RoundSeparates(x: real, y: real)
    requires y > x + 1.0
    ensures RoundHalfEven(y) > RoundHalfEven(x)
  {
    RoundIsNearest(x);
    RoundIsNearest(y);
  }
}

/**
 * `build_video_metadata`: timestamps become strictly increasing integer frame indices on a
 * millisecond timebase. The result is the least such sequence that is nowhere early.
 */
module VideoMetadata {
  import opened Doubles
  import opened Optional
  import opened Rounding

  const TIMEBASE_HZ: real := 1000.0

  datatype Metadata = Metadata(totalFrames: int, fps: real, duration: real, indices: seq<int>)

  /** Milliseconds since the first frame, rounded: the wished-for index of every frame. */
  ghost function Offsets(ts: seq<Double>): (os: seq<int>)
    requires Increasing(ts)
    ensures |os| == |ts|
  {
    seq(|ts|, i requires 0 <= i < |ts| => RoundHalfEven((Val(ts[i]) - Val(ts[0])) * TIMEBASE_HZ))
  }

  ghost predicate StrictlyIncreasing(s: seq<int>) {
    forall i :: 0 < i < |s| ==> s[i - 1] < s[i]
  }

  ghost predicate NowhereBelow(s: seq<int>, lower: seq<int>) {
    |s| == |lower| && forall i :: 0 <= i < |s| ==> lower[i] <= s[i]
  }

  /** The pointwise least strictly increasing sequence that is nowhere below `lower`. */
  ghost predicate IsLeastAbove(s: seq<int>, lower: seq<int>) {
    && StrictlyIncreasing(s) && NowhereBelow(s, lower)
    && forall t :: StrictlyIncreasing(t) && NowhereBelow(t, lower) ==> NowhereBelow(t, s)
  }

  // One left-to-right pass that lifts an entry just above its left neighbour where needed.
  ghost predicate IsLifted(s: seq<int>, lower: seq<int>) {
    && |s| == |lower| && (|s| > 0 ==> s[0] == lower[0])
    && forall i :: 0 < i < |s| ==> s[i] == if lower[i] <= s[i - 1] then s[i - 1] + 1 else lower[i]
  }

  lemma {:induction false} LiftedBelow(s: seq<int>, lower: seq<int>, t: seq<int>, i: nat)
    requires IsLifted(s, lower) && StrictlyIncreasing(t) && NowhereBelow(t, lower) && i < |s|
    ensures s[i] <= t[i]
  {
    if i > 0 {
      LiftedBelow(s, lower, t, i - 1);
      assert t[i - 1] < t[i];
    }
  }

  lemma LiftedIsLeast(s: seq<int>, lower: seq<int>)
    requires IsLifted(s, lower)
    ensures IsLeastAbove(s, lower)
  {
    forall i | 0 <= i < |s|
      ensures lower[i] <= s[i] && (i > 0 ==> s[i - 1] < s[i])
    {
      if i > 0 {
        assert s[i] == if lower[i] <= s[i - 1] then s[i - 1] + 1 else lower[i];
      }
    }
    forall t | StrictlyIncreasing(t) && NowhereBelow(t, lower)
      ensures NowhereBelow(t, s)
    {
      forall i | 0 <= i < |s|
        ensures s[i] <= t[i]
      {
        LiftedBelow(s, lower, t, i);
      }
    }
  }

  /** The in-place pass over the index list. */
  method LiftInPlace(indices: array<int>)
    modifies indices
    ensures IsLeastAbove(indices[..], old(indices[..]))
  {
    ghost var lower := indices[..];
    var i := 1;
    while i < indices.Length
      invariant 1 <= i
      invariant i <= indices.Length ==> IsLifted(indices[..i], lower[..i])
      invariant forall j :: i <= j < indices.Length ==> indices[j] == lower[j]
      invariant indices.Length == 0 ==> indices[..] == []
      invariant i > indices.Length ==> indices.Length == 0
    {
      ghost var done := indices[..i];
      if indices[i] <= indices[i - 1] {
        indices[i] := indices[i - 1] + 1;
      }
      assert indices[..i + 1] == done + [indices[i]];
      assert lower[..i + 1] == lower[..i] + [lower[i]];
      i := i + 1;
    }
    if indices.Length > 0 {
      assert indices[..i] == indices[..] && lower[..i] == lower;
    }
    LiftedIsLeast(indices[..], lower);
  }

  /** Frame rate when there are no timestamps: the declared one, or one frame a second. */
  function DeclaredFps(fps: Option<Double>): (r: real)
    requires fps.Some? ==> IsFinite(fps.value) && Val(fps.value) > 0.0
    ensures r > 0.0
  {
    if fps.Some? then Val(fps.value) else 1.0
  }

  method BuildVideoMetadata(ts: seq<Double>, fps: Option<Double>, frames: nat) returns (md: Metadata)
    requires Increasing(ts) && frames >= 1
    requires fps.Some? ==> IsFinite(fps.value) && Val(fps.value) > 0.0
    ensures ts != [] ==>
              && IsLeastAbove(md.indices, Offsets(ts))
              && md.totalFrames == md.indices[|ts| - 1] + 1
              && md.fps == 1000.0 && md.duration == Val(ts[|ts| - 1]) - Val(ts[0])
    ensures ts == [] ==>
              && |md.indices| == frames == md.totalFrames
              && (forall i :: 0 <= i < frames ==> md.indices[i] == i)
              && md.fps == (if fps.Some? then Val(fps.value) else 1.0) && md.duration * md.fps == (frames - 1) as real
  {
    if ts != [] {
      var n := |ts|;
      FirstIsEarliest(ts);
      var indices := new int[n];
      for i := 0 to n
        invariant forall j :: 0 <= j < i ==> indices[j] == Offsets(ts)[j]
      {
        var relative := Val(ts[i]) - Val(ts[0]);
        relative := if relative > 0.0 then relative else 0.0;
        indices[i] := RoundHalfEven(relative * TIMEBASE_HZ);
      }
      assert indices[..] == Offsets(ts);
      LiftInPlace(indices);
      var span := if n > 1 then Val(ts[n - 1]) - Val(ts[0]) else 0.0;
      return Metadata(indices[n - 1] + 1, TIMEBASE_HZ, span, indices[..]);
    }
    var rate := DeclaredFps(fps);
    var span := if frames > 1 then (frames - 1) as real / rate else 0.0;
    return Metadata(frames, rate, span, seq(frames, i => i));
  }

  lemma {:induction false} LaterIsLater(ts: seq<Double>, i: nat, j: nat)
    requires Increasing(ts) && i <= j < |ts|
    ensures i < j ==> Val(ts[i]) < Val(ts[j])
    decreases j
  {
    if i < j { LaterIsLater(ts, i, j - 1); }
  }

  lemma FirstIsEarliest(ts: seq<Double>)
    requires Increasing(ts)
    ensures forall i :: 0 <= i < |ts| ==> Val(ts[0]) <= Val(ts[i])
  {
    forall i | 0 <= i < |ts|
      ensures Val(ts[0]) <= Val(ts[i])
    {
      LaterIsLater(ts, 0, i);
    }
  }

  lemma LeastIsUnique(s: seq<int>, t: seq<int>, lower: seq<int>)
    requires IsLeastAbove(s, lower) && IsLeastAbove(t, lower)
    ensures s == t
  {
    assert NowhereBelow(s, t) && NowhereBelow(t, s);
  }

  /**
   * When consecutive frames are more than a millisecond apart nothing is lifted: every index is
   * the rounded offset itself, at most half a millisecond from the true one.
   */
  lemma WideGapsAreExact(ts: seq<Double>, s: seq<int>)
    requires Increasing(ts) && IsLeastAbove(s, Offsets(ts))
    requires forall i :: 0 < i < |ts| ==> Val(ts[i]) - Val(ts[i - 1]) > 1.0 / 1000.0
    ensures s == Offsets(ts)
    ensures forall i :: 0 <= i < |ts| ==>
              -0.5 <= s[i] as real - (Val(ts[i]) - Val(ts[0])) * 1000.0 <= 0.5
  {
    var os := Offsets(ts);
    forall i | 0 < i < |ts|
      ensures os[i - 1] < os[i]
    {
      RoundSeparates((Val(ts[i - 1]) - Val(ts[0])) * TIMEBASE_HZ, (Val(ts[i]) - Val(ts[0])) * TIMEBASE_HZ);
    }
    assert NowhereBelow(os, s);
    forall i | 0 <= i < |ts|
      ensures -0.5 <= os[i] as real - (Val(ts[i]) - Val(ts[0])) * TIMEBASE_HZ <= 0.5
    {
      RoundIsNearest((Val(ts[i]) - Val(ts[0])) * TIMEBASE_HZ);
    }
  }

  /** The first index is 0, and every index stays below the frame total. */
  lemma IndicesInRange(ts: seq<Double>, s: seq<int>, i: nat)
    requires Increasing(ts) && IsLeastAbove(s, Offsets(ts)) && i < |ts|
    ensures s[0] == 0 && 0 <= s[i] <= s[|ts| - 1]
  {
    RoundOfInteger(0);
    var os := Offsets(ts);
    assert os[0] == 0;
    LeastStartsLow(s, os);
    Spread(s, 0, i);
    Spread(s, i, |ts| - 1);
  }

  lemma {:induction false} Spread(s: seq<int>, i: nat, j: nat)
    requires StrictlyIncreasing(s) && i <= j < |s|
    ensures s[i] + (j - i) <= s[j]
    decreases j
  {
    if i < j { Spread(s, i, j - 1); }
  }

  lemma LeastStartsLow(s: seq<int>, lower: seq<int>)
    requires IsLeastAbove(s, lower) && |s| > 0
    ensures s[0] == lower[0]
  {
    var t := s[0 := lower[0]];
    assert StrictlyIncreasing(t) && NowhereBelow(t, lower);
  }
}
