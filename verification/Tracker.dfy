/**
 * The IoU tracker: greedy association of detections to tracks in track order, coasting of
 * unmatched tracks, creation of new ones. Arithmetic is over the reals.
 */
module Tracker {
  import opened Optional

  datatype Box = Box(kind: string, confidence: real, x: real, y: real, width: real, height: real)

  datatype Track = Track(id: nat, box: Box, vx: real, vy: real, age: nat, coastAge: nat)

  datatype Options = Options(minIou: real, maxCoastAge: nat, classAware: bool)

  // ---- Intersection over union ---------------------------------------------------------

  const EPSILON: real := 1.0 / 8388608.0  // the float machine epsilon, 2^-23

  function Max(a: real, b: real): real { if a < b then b else a }
  function Min(a: real, b: real): real { if b < a then b else a }

  /** Length of the overlap of two intervals given by centre and size. */
  function Overlap(ca: real, sa: real, cb: real, sb: real): real {
    Max(0.0, Min(ca + sa / 2.0, cb + sb / 2.0) - Max(ca - sa / 2.0, cb - sb / 2.0))
  }

  function Area(w: real, h: real): real { Max(0.0, w) * Max(0.0, h) }

  function Intersection(x: real, y: real, w: real, h: real, d: Box): real {
    Overlap(x, w, d.x, d.width) * Overlap(y, h, d.y, d.height)
  }

  function Iou(x: real, y: real, w: real, h: real, d: Box): real {
    var intersection := Intersection(x, y, w, h, d);
    var denom := Area(w, h) + Area(d.width, d.height) - intersection;
    if denom <= EPSILON then 0.0 else intersection / denom
  }

  lemma OverlapBound(ca: real, sa: real, cb: real, sb: real)
    ensures 0.0 <= Overlap(ca, sa, cb, sb) <= Max(0.0, sa)
    ensures Overlap(ca, sa, cb, sb) <= Max(0.0, sb)
  {
  }

  lemma ProductBound(a: real, b: real, c: real, d: real)
    requires 0.0 <= a <= c && 0.0 <= b <= d
    ensures 0.0 <= a * b <= c * d
  {
    assert a * b <= c * b;
    assert c * b <= c * d;
  }

  lemma SignOfFactor(p: real, b: real)
    requires b > 0.0 && p * b >= 0.0
    ensures p >= 0.0
  {
  }

  lemma QuotientBound(a: real, b: real)
    requires 0.0 <= a <= b && b > 0.0
    ensures 0.0 <= a / b <= 1.0
  {
    var q := a / b;
    assert q * b == a && (1.0 - q) * b == b - a;
    SignOfFactor(q, b);
    SignOfFactor(1.0 - q, b);
  }

  /** For all boxes, even with zero or negative sizes: the overlap is at most either area, the score in [0, 1]. */
  lemma IouInRange(x: real, y: real, w: real, h: real, d: Box)
    ensures 0.0 <= Intersection(x, y, w, h, d) <= Area(w, h)
    ensures Intersection(x, y, w, h, d) <= Area(d.width, d.height)
    ensures 0.0 <= Iou(x, y, w, h, d) <= 1.0
  {
    hide Overlap, Max, Min;
    OverlapBound(x, w, d.x, d.width);
    OverlapBound(y, h, d.y, d.height);
    var ox, oy := Overlap(x, w, d.x, d.width), Overlap(y, h, d.y, d.height);
    ProductBound(ox, oy, Max(0.0, w), Max(0.0, h));
    ProductBound(ox, oy, Max(0.0, d.width), Max(0.0, d.height));
    var i := Intersection(x, y, w, h, d);
    var denom := Area(w, h) + Area(d.width, d.height) - i;
    if denom > EPSILON { QuotientBound(i, denom); }
  }

  predicate Inside(p: real, c: real, size: real) { c - size / 2.0 <= p <= c + size / 2.0 }

  /** The overlap is the length of what the two intervals have in common. */
  lemma OverlapExactly(ca: real, sa: real, cb: real, sb: real) returns (lo: real, hi: real)
    ensures forall p :: Inside(p, ca, sa) && Inside(p, cb, sb) <==> lo <= p <= hi
    ensures Overlap(ca, sa, cb, sb) == if lo <= hi then hi - lo else 0.0
  {
    lo := if ca - sa / 2.0 < cb - sb / 2.0 then cb - sb / 2.0 else ca - sa / 2.0;
    hi := if ca + sa / 2.0 < cb + sb / 2.0 then ca + sa / 2.0 else cb + sb / 2.0;
  }

  lemma OverlapLaws(ca: real, sa: real, cb: real, sb: real)
    ensures Overlap(ca, sa, ca, sa) == if sa > 0.0 then sa else 0.0
    ensures Overlap(ca, sa, cb, sb) == Overlap(cb, sb, ca, sa)
    ensures cb - ca >= (sa + sb) / 2.0 || ca - cb >= (sa + sb) / 2.0 ==> Overlap(ca, sa, cb, sb) == 0.0
  {
  }

  // Size of a box, where a negative side counts as none.
  function Size(w: real, h: real): real { if w > 0.0 && h > 0.0 then w * h else 0.0 }

  /**
   * Intersection over union: with I the common area and A and B those of the boxes, the score times
   * A + B - I is I, or the score is 0 where A + B - I is no more than the float epsilon.
   */
  lemma IouExactly(x: real, y: real, w: real, h: real, d: Box)
    ensures var common := Overlap(x, w, d.x, d.width) * Overlap(y, h, d.y, d.height);
            var union := Size(w, h) + Size(d.width, d.height) - common;
            if union > 1.0 / 8388608.0 then Iou(x, y, w, h, d) * union == common else Iou(x, y, w, h, d) == 0.0
  {
    hide Overlap;
    assert Area(w, h) == Size(w, h) && Area(d.width, d.height) == Size(d.width, d.height);
  }

  lemma FullQuotient(q: real, common: real, union: real)
    requires union == common > 1.0 / 8388608.0
    requires if union > 1.0 / 8388608.0 then q * union == common else q == 0.0
    ensures q == 1.0
  {
    assert (q - 1.0) * union == 0.0;
    ZeroQuotient(q - 1.0, union);
  }

  lemma ZeroQuotient(q: real, a: real)
    requires a > 0.0 && q * a == 0.0
    ensures q == 0.0
  {
  }

  /** A box of size above the epsilon scores 1 against itself. */
  lemma IouOfSelf(d: Box)
    requires Size(d.width, d.height) > 1.0 / 8388608.0
    ensures Iou(d.x, d.y, d.width, d.height, d) == 1.0
  {
    OverlapLaws(d.x, d.width, d.x, d.width);
    OverlapLaws(d.y, d.height, d.y, d.height);
    IouExactly(d.x, d.y, d.width, d.height, d);
    var common := Overlap(d.x, d.width, d.x, d.width) * Overlap(d.y, d.height, d.y, d.height);
    assert common == Size(d.width, d.height);
    hide Overlap, Iou, Size;
    FullQuotient(Iou(d.x, d.y, d.width, d.height, d), common, Size(d.width, d.height) + Size(d.width, d.height) - common);
  }

  lemma IouIsSymmetric(a: Box, b: Box)
    ensures Iou(a.x, a.y, a.width, a.height, b) == Iou(b.x, b.y, b.width, b.height, a)
  {
    OverlapLaws(a.x, a.width, b.x, b.width);
    OverlapLaws(a.y, a.height, b.y, b.height);
    hide Overlap, Area;
  }

  /** Boxes that do not meet score 0. */
  lemma IouOfDisjoint(a: Box, b: Box)
    requires b.x - a.x >= (a.width + b.width) / 2.0 || a.x - b.x >= (a.width + b.width) / 2.0
             || b.y - a.y >= (a.height + b.height) / 2.0 || a.y - b.y >= (a.height + b.height) / 2.0
    ensures Iou(a.x, a.y, a.width, a.height, b) == 0.0
  {
    OverlapLaws(a.x, a.width, b.x, b.width);
    OverlapLaws(a.y, a.height, b.y, b.height);
    IouExactly(a.x, a.y, a.width, a.height, b);
    hide Overlap, Iou;
    var common := Overlap(a.x, a.width, b.x, b.width) * Overlap(a.y, a.height, b.y, b.height);
    assert common == 0.0;
    var union := Size(a.width, a.height) + Size(b.width, b.height) - common;
    if union > 1.0 / 8388608.0 { ZeroQuotient(Iou(a.x, a.y, a.width, a.height, b), union); }
  }

  /** Two unit boxes half a side apart score a third. */
  lemma IouOfHalfShifted(kind: string, confidence: real)
    ensures Iou(0.0, 0.0, 1.0, 1.0, Box(kind, confidence, 0.5, 0.0, 1.0, 1.0)) == 1.0 / 3.0
  {
  }

  // ---- One update, as a relation -------------------------------------------------------

  function Score(t: Track, d: Box): real {
    Iou(t.box.x + t.vx, t.box.y + t.vy, t.box.width, t.box.height, d)
  }

  predicate Compatible(o: Options, t: Track, d: Box) {
    o.classAware ==> d.kind == t.box.kind
  }

  // Which detection each track took, in track order.
  type Matching = seq<Option<nat>>

  ghost function Taken(m: Matching): set<nat> {
    set k | 0 <= k < |m| && m[k].Some? :: m[k].value
  }

  ghost predicate Candidate(o: Options, t: Track, dets: seq<Box>, taken: set<nat>, i: nat) {
    i < |dets| && i !in taken && Compatible(o, t, dets[i])
  }

  /** The highest-scoring free candidate, the first one among equals. */
  ghost predicate IsBest(o: Options, t: Track, dets: seq<Box>, taken: set<nat>, i: nat) {
    && Candidate(o, t, dets, taken, i)
    && forall j: nat :: Candidate(o, t, dets, taken, j) ==>
         Score(t, dets[j]) <= Score(t, dets[i]) && (j < i ==> Score(t, dets[j]) < Score(t, dets[i]))
  }

  ghost predicate Choice(o: Options, t: Track, dets: seq<Box>, taken: set<nat>, c: Option<nat>) {
    match c
    case Some(i) => IsBest(o, t, dets, taken, i) && Score(t, dets[i]) >= o.minIou
    case None => forall j: nat :: Candidate(o, t, dets, taken, j) ==> Score(t, dets[j]) < o.minIou
  }

  ghost predicate Greedy(o: Options, tracks: seq<Track>, dets: seq<Box>, m: Matching) {
    |m| == |tracks| && forall k :: 0 <= k < |m| ==> Choice(o, tracks[k], dets, Taken(m[..k]), m[k])
  }

  function Matched(t: Track, d: Box): Track {
    Track(t.id, d, d.x - t.box.x, d.y - t.box.y, t.age + 1, 0)
  }

  function Coasted(t: Track): Track {
    t.(box := t.box.(x := t.box.x + t.vx, y := t.box.y + t.vy), age := t.age + 1, coastAge := t.coastAge + 1)
  }

  function Created(id: nat, d: Box): Track { Track(id, d, 0.0, 0.0, 1, 0) }

  /** What becomes of one track: matched, coasted, or dropped. */
  function Continue(o: Options, t: Track, dets: seq<Box>, c: Option<nat>): seq<Track>
    requires c.Some? ==> c.value < |dets|
  {
    if c.Some? then [Matched(t, dets[c.value])]
    else if t.coastAge < o.maxCoastAge then [Coasted(t)]
    else []
  }

  function ContinueAll(o: Options, tracks: seq<Track>, dets: seq<Box>, m: Matching): seq<Track>
    requires |m| == |tracks| && forall k :: 0 <= k < |m| && m[k].Some? ==> m[k].value < |dets|
  {
    if m == [] then [] else
      var n := |m| - 1;
      ContinueAll(o, tracks[..n], dets, m[..n]) + Continue(o, tracks[n], dets, m[n])
  }

  /** New tracks for the first `n` detections that nobody took, numbered from `id`. */
  ghost function CreateAll(dets: seq<Box>, taken: set<nat>, n: nat, id: nat): seq<Track>
    requires n <= |dets|
  {
    if n == 0 then [] else
      var before := CreateAll(dets, taken, n - 1, id);
      if n - 1 in taken then before else before + [Created(id + |before|, dets[n - 1])]
  }

  datatype State = State(tracks: seq<Track>, nextId: nat)

  ghost predicate Step(o: Options, s: State, dets: seq<Box>, m: Matching, s': State) {
    && Greedy(o, s.tracks, dets, m)
    && var created := CreateAll(dets, Taken(m), |dets|, s.nextId);
    && s'.tracks == ContinueAll(o, s.tracks, dets, m) + created
    && s'.nextId == s.nextId + |created|
  }

  // ---- The tracker ---------------------------------------------------------------------

  ghost function Flagged(matched: array<bool>): set<nat>
    reads matched
  {
    set i: nat | i < matched.Length && matched[i]
  }

  class IouTracker {
    const options: Options
    var tracks: seq<Track>
    var nextTrackId: nat

    ghost function Now(): State
      reads this
    {
      State(tracks, nextTrackId)
    }

    constructor (options: Options)
      ensures this.options == options && Now() == State([], 1)
    {
      this.options := options;
      tracks, nextTrackId := [], 1;
    }

    /** The inner loop: the best free detection for one track, if it scores high enough. */
    method BestDetection(t: Track, dets: seq<Box>, matched: array<bool>) returns (c: Option<nat>)
      requires matched.Length == |dets|
      ensures Choice(options, t, dets, Flagged(matched), c)
    {
      ghost var taken := Flagged(matched);
      var bestIndex: nat, bestIou := |dets|, -1.0;
      for i := 0 to |dets|
        invariant bestIndex == |dets| ==> bestIou == -1.0 && forall j: nat :: j < i ==> !Candidate(options, t, dets, taken, j)
        invariant bestIndex < |dets| ==>
                    && bestIndex < i && Candidate(options, t, dets, taken, bestIndex)
                    && bestIou == Score(t, dets[bestIndex])
                    && forall j: nat :: j < i && Candidate(options, t, dets, taken, j) ==>
                         Score(t, dets[j]) <= bestIou && (j < bestIndex ==> Score(t, dets[j]) < bestIou)
        invariant bestIndex <= |dets|
      {
        if matched[i] { continue; }
        if options.classAware && dets[i].kind != t.box.kind { continue; }
        var score := Score(t, dets[i]);
        IouInRange(t.box.x + t.vx, t.box.y + t.vy, t.box.width, t.box.height, dets[i]);
        if score > bestIou {
          bestIou, bestIndex := score, i;
        }
      }
      if bestIndex < |dets| && bestIou >= options.minIou {
        return Some(bestIndex);
      }
      return None;
    }

    /** The loop over the tracks: each is matched, coasted or dropped. */
    method MatchTracks(dets: seq<Box>, matched: array<bool>) returns (next: seq<Track>, ghost m: Matching)
      requires matched.Length == |dets| && Flagged(matched) == {}
      modifies matched
      ensures Greedy(options, tracks, dets, m) && Flagged(matched) == Taken(m)
      ensures forall k :: 0 <= k < |m| && m[k].Some? ==> m[k].value < |dets|
      ensures next == ContinueAll(options, tracks, dets, m)
    {
      hide Choice;
      next, m := [], [];
      for k := 0 to |tracks|
        invariant |m| == k && Greedy(options, tracks[..k], dets, m)
        invariant forall j :: 0 <= j < |m| && m[j].Some? ==> m[j].value < |dets|
        invariant Flagged(matched) == Taken(m)
        invariant next == ContinueAll(options, tracks[..k], dets, m)
      {
        var track := tracks[k];
        var c := BestDetection(track, dets, matched);
        TakenSnoc(m, c);
        GreedySnoc(options, tracks[..k], dets, m, track, c);
        ContinueSnoc(options, tracks[..k], dets, m, track, c);
        assert tracks[..k] + [track] == tracks[..k + 1];
        if c.Some? {
          matched[c.value] := true;
          next := next + [Matched(track, dets[c.value])];
        } else if track.coastAge < options.maxCoastAge {
          next := next + [Coasted(track)];
        }
        m := m + [c];
      }
      assert tracks[..|tracks|] == tracks;
    }

    /** The loop over the detections: each one nobody took starts a track. */
    method CreateTracks(dets: seq<Box>, matched: array<bool>) returns (created: seq<Track>)
      requires matched.Length == |dets|
      modifies this`nextTrackId
      ensures created == CreateAll(dets, Flagged(matched), |dets|, old(nextTrackId))
      ensures nextTrackId == old(nextTrackId) + |created|
    {
      created := [];
      for i := 0 to |dets|
        invariant created == CreateAll(dets, Flagged(matched), i, old(nextTrackId))
        invariant nextTrackId == old(nextTrackId) + |created|
      {
        if matched[i] { continue; }
        created := created + [Created(nextTrackId, dets[i])];
        nextTrackId := nextTrackId + 1;
      }
    }

    method Update(dets: seq<Box>) returns (result: seq<Track>, ghost m: Matching)
      modifies this
      ensures Step(options, old(Now()), dets, m, Now()) && result == tracks
    {
      var matched := new bool[|dets|](_ => false);
      var next;
      next, m := MatchTracks(dets, matched);
      var created := CreateTracks(dets, matched);
      tracks := next + created;
      result := tracks;
    }
  }

  lemma ContinueSnoc(o: Options, tracks: seq<Track>, dets: seq<Box>, m: Matching, t: Track, c: Option<nat>)
    requires |m| == |tracks| && forall k :: 0 <= k < |m| && m[k].Some? ==> m[k].value < |dets|
    requires Choice(o, t, dets, Taken(m), c)
    ensures c.Some? ==> c.value < |dets| && c.value !in Taken(m)
    ensures ContinueAll(o, tracks + [t], dets, m + [c])
         == ContinueAll(o, tracks, dets, m) + Continue(o, t, dets, c)
  {
    assert (tracks + [t])[..|m|] == tracks && (m + [c])[..|m|] == m;
  }

  lemma TakenSnoc(m: Matching, c: Option<nat>)
    ensures Taken(m + [c]) == Taken(m) + if c.Some? then {c.value} else {}
  {
    var m' := m + [c];
    forall i | i in Taken(m) + if c.Some? then {c.value} else {}
      ensures i in Taken(m')
    {
      if i in Taken(m) {
        var k :| 0 <= k < |m| && m[k].Some? && m[k].value == i;
        assert m'[k] == m[k];
      } else {
        assert m'[|m|] == c;
      }
    }
  }

  lemma GreedySnoc(o: Options, tracks: seq<Track>, dets: seq<Box>, m: Matching, t: Track, c: Option<nat>)
    requires Greedy(o, tracks, dets, m) && Choice(o, t, dets, Taken(m), c)
    ensures Greedy(o, tracks + [t], dets, m + [c])
  {
    var m' := m + [c];
    forall k | 0 <= k < |m'|
      ensures Choice(o, (tracks + [t])[k], dets, Taken(m'[..k]), m'[k])
    {
      if k < |m| { assert m'[..k] == m[..k]; } else { assert m'[..k] == m; }
    }
  }

  // ---- What every update keeps ---------------------------------------------------------

  /** Strictly sorted by id, ids already issued, nothing coasting beyond the limit. */
  ghost predicate Inv(o: Options, s: State) {
    && (forall i :: 0 < i < |s.tracks| ==> s.tracks[i - 1].id < s.tracks[i].id)
    && (forall i :: 0 <= i < |s.tracks| ==> s.tracks[i].id < s.nextId && s.tracks[i].coastAge <= o.maxCoastAge)
  }

  // `lo <=` every id `< hi`, strictly sorted, within the coasting limit.
  ghost predicate Sorted(o: Options, ts: seq<Track>, lo: nat, hi: nat) {
    && (forall i :: 0 < i < |ts| ==> ts[i - 1].id < ts[i].id)
    && (forall i :: 0 <= i < |ts| ==> lo <= ts[i].id < hi && ts[i].coastAge <= o.maxCoastAge)
  }

  lemma SortedConcat(o: Options, a: seq<Track>, b: seq<Track>, lo: nat, mid: nat, hi: nat)
    requires lo <= mid <= hi && Sorted(o, a, lo, mid) && Sorted(o, b, mid, hi)
    ensures Sorted(o, a + b, lo, hi)
  {
  }

  lemma {:induction false} ContinuedSorted(o: Options, tracks: seq<Track>, dets: seq<Box>, m: Matching, hi: nat)
    requires Sorted(o, tracks, 0, hi)
    requires |m| == |tracks| && forall k :: 0 <= k < |m| && m[k].Some? ==> m[k].value < |dets|
    ensures Sorted(o, ContinueAll(o, tracks, dets, m), 0, hi)
  {
    if m != [] {
      var n := |m| - 1;
      forall i | 0 <= i < n
        ensures tracks[i].id < tracks[n].id
      {
        IdsSpread(o, tracks, 0, hi, i, n);
      }
      ContinuedSorted(o, tracks[..n], dets, m[..n], tracks[n].id);
      SortedConcat(o, ContinueAll(o, tracks[..n], dets, m[..n]), Continue(o, tracks[n], dets, m[n]), 0, tracks[n].id, hi);
    }
  }

  lemma {:induction false} IdsSpread(o: Options, ts: seq<Track>, lo: nat, hi: nat, i: nat, j: nat)
    requires Sorted(o, ts, lo, hi) && i < j < |ts|
    ensures ts[i].id < ts[j].id
    decreases j
  {
    if i < j - 1 { IdsSpread(o, ts, lo, hi, i, j - 1); }
  }

  lemma {:induction false} CreatedSorted(o: Options, dets: seq<Box>, taken: set<nat>, n: nat, id: nat)
    requires n <= |dets|
    ensures var c := CreateAll(dets, taken, n, id); Sorted(o, c, id, id + |c|)
  {
    if n > 0 {
      CreatedSorted(o, dets, taken, n - 1, id);
      var before := CreateAll(dets, taken, n - 1, id);
      if n - 1 !in taken {
        var last := [Created(id + |before|, dets[n - 1])];
        SortedConcat(o, before, last, id, id + |before|, id + |before| + 1);
      }
    }
  }

  /** Every update keeps the track list sorted, its ids fresh and its coasting bounded. */
  lemma StepKeepsInv(o: Options, s: State, dets: seq<Box>, m: Matching, s': State)
    requires Inv(o, s) && Step(o, s, dets, m, s')
    ensures Inv(o, s') && s.nextId <= s'.nextId
  {
    GreedyInBounds(o, s.tracks, dets, m);
    var continued := ContinueAll(o, s.tracks, dets, m);
    var created := CreateAll(dets, Taken(m), |dets|, s.nextId);
    ContinuedSorted(o, s.tracks, dets, m, s.nextId);
    CreatedSorted(o, dets, Taken(m), |dets|, s.nextId);
    SortedConcat(o, continued, created, 0, s.nextId, s'.nextId);
  }

  lemma GreedyInBounds(o: Options, tracks: seq<Track>, dets: seq<Box>, m: Matching)
    requires Greedy(o, tracks, dets, m)
    ensures forall k :: 0 <= k < |m| && m[k].Some? ==> m[k].value < |dets| && m[k].value !in Taken(m[..k])
  {
    forall k | 0 <= k < |m| && m[k].Some?
      ensures m[k].value < |dets| && m[k].value !in Taken(m[..k])
    {
      assert Choice(o, tracks[k], dets, Taken(m[..k]), m[k]);
    }
  }

  // ---- Every detection has its track ---------------------------------------------------

  /** The boxes of the tracks that were seen in the last update. */
  function SeenBoxes(ts: seq<Track>): seq<Box> {
    if ts == [] then [] else
      SeenBoxes(ts[..|ts| - 1]) + if ts[|ts| - 1].coastAge == 0 then [ts[|ts| - 1].box] else []
  }

  lemma {:induction false} SeenConcat(a: seq<Track>, b: seq<Track>)
    ensures SeenBoxes(a + b) == SeenBoxes(a) + SeenBoxes(b)
  {
    if b == [] {
      assert a + b == a;
    } else {
      SeenConcat(a, b[..|b| - 1]);
      assert (a + b)[..|a + b| - 1] == a + b[..|b| - 1];
    }
  }

  /** The first `n` detections whose index is in `pick`. */
  ghost function Picked(dets: seq<Box>, pick: set<nat>, n: nat): multiset<Box>
    requires n <= |dets|
  {
    if n == 0 then multiset{}
    else if n - 1 in pick then Picked(dets, pick, n - 1) + multiset{dets[n - 1]}
    else Picked(dets, pick, n - 1)
  }

  lemma Swap(a: multiset<Box>, b: Box, c: Box)
    ensures a + multiset{b} + multiset{c} == a + multiset{c} + multiset{b}
  {
  }

  lemma {:induction false} PickOneMore(dets: seq<Box>, pick: set<nat>, i: nat, n: nat)
    requires n <= |dets| && i < |dets| && i !in pick
    ensures Picked(dets, pick + {i}, n) == if i < n then Picked(dets, pick, n) + multiset{dets[i]} else Picked(dets, pick, n)
  {
    if n > 0 {
      PickOneMore(dets, pick, i, n - 1);
      if n - 1 in pick {
        Swap(Picked(dets, pick, n - 1), dets[i], dets[n - 1]);
      }
    }
  }

  lemma {:induction false} PickNothing(dets: seq<Box>, n: nat)
    requires n <= |dets|
    ensures Picked(dets, {}, n) == multiset{}
  {
    if n > 0 { PickNothing(dets, n - 1); }
  }

  lemma EmptyMatching(o: Options, dets: seq<Box>)
    ensures Taken([]) == {} && multiset(SeenBoxes(ContinueAll(o, [], dets, []))) == multiset{}
  {
  }

  lemma {:induction false} ContinuedSeen(o: Options, tracks: seq<Track>, dets: seq<Box>, m: Matching)
    requires Greedy(o, tracks, dets, m)
    requires forall k :: 0 <= k < |m| && m[k].Some? ==> m[k].value < |dets|
    ensures multiset(SeenBoxes(ContinueAll(o, tracks, dets, m))) == Picked(dets, Taken(m), |dets|)
  {
    hide Choice, SeenBoxes, Continue, Picked, Taken;
    if m == [] {
      EmptyMatching(o, dets);
      PickNothing(dets, |dets|);
    } else {
      var n := |m| - 1;
      GreedyInBounds(o, tracks, dets, m);
      GreedyPrefix(o, tracks, dets, m, n);
      ContinuedSeen(o, tracks[..n], dets, m[..n]);
      var before, last := ContinueAll(o, tracks[..n], dets, m[..n]), Continue(o, tracks[n], dets, m[n]);
      SeenConcat(before, last);
      SeenOfOne(o, tracks[n], dets, m[n]);
      assert m == m[..n] + [m[n]];
      TakenSnoc(m[..n], m[n]);
      assert ContinueAll(o, tracks, dets, m) == before + last;
      if m[n].Some? {
        PickOneMore(dets, Taken(m[..n]), m[n].value, |dets|);
      } else {
        assert Taken(m) == Taken(m[..n]);
      }
    }
  }

  lemma SeenOfOne(o: Options, t: Track, dets: seq<Box>, c: Option<nat>)
    requires c.Some? ==> c.value < |dets|
    ensures SeenBoxes(Continue(o, t, dets, c)) == if c.Some? then [dets[c.value]] else []
  {
    var ts := Continue(o, t, dets, c);
    if |ts| == 1 { assert ts[..0] == []; }
  }

  lemma GreedyPrefix(o: Options, tracks: seq<Track>, dets: seq<Box>, m: Matching, n: nat)
    requires Greedy(o, tracks, dets, m) && n <= |m|
    ensures Greedy(o, tracks[..n], dets, m[..n])
  {
    forall k | 0 <= k < n
      ensures Choice(o, tracks[..n][k], dets, Taken(m[..n][..k]), m[..n][k])
    {
      assert m[..n][..k] == m[..k];
    }
  }

  lemma SeenOne(t: Track)
    ensures SeenBoxes([t]) == if t.coastAge == 0 then [t.box] else []
  {
    assert [t][..0] == [];
  }

  ghost predicate Covers(seen: seq<Box>, picked: multiset<Box>, all: seq<Box>) {
    multiset(seen) + picked == multiset(all)
  }

  lemma CoversOneMore(seen: seq<Box>, picked: multiset<Box>, all: seq<Box>, d: Box)
    requires Covers(seen, picked, all)
    ensures Covers(seen + [d], picked, all + [d]) && Covers(seen, picked + multiset{d}, all + [d])
  {
  }

  lemma {:induction false} CreatedSeen(dets: seq<Box>, taken: set<nat>, n: nat, id: nat)
    requires n <= |dets|
    ensures Covers(SeenBoxes(CreateAll(dets, taken, n, id)), Picked(dets, taken, n), dets[..n])
  {
    if n > 0 {
      CreatedSeen(dets, taken, n - 1, id);
      hide Covers;
      var before, d := CreateAll(dets, taken, n - 1, id), dets[n - 1];
      var t := Created(id + |before|, d);
      assert dets[..n] == dets[..n - 1] + [d];
      CoversOneMore(SeenBoxes(before), Picked(dets, taken, n - 1), dets[..n - 1], d);
      SeenConcat(before, [t]);
      SeenOne(t);
      hide SeenBoxes;
    }
  }

  /** Each detection is the box of exactly one track that is not coasting, and those tracks have no other boxes. */
  lemma DetectionsAreSeen(o: Options, s: State, dets: seq<Box>, m: Matching, s': State)
    requires Step(o, s, dets, m, s')
    ensures multiset(SeenBoxes(s'.tracks)) == multiset(dets)
  {
    GreedyInBounds(o, s.tracks, dets, m);
    ContinuedSeen(o, s.tracks, dets, m);
    CreatedSeen(dets, Taken(m), |dets|, s.nextId);
    SeenConcat(ContinueAll(o, s.tracks, dets, m), CreateAll(dets, Taken(m), |dets|, s.nextId));
    assert dets[..|dets|] == dets;
  }

  // ---- What an update does to each track -----------------------------------------------

  /**
   * Which detection a track takes: a free one of its class where classes count, at least as good
   * against the predicted box as every other such and good enough; and none only if none is.
   */
  lemma MatchingRules(o: Options, s: State, dets: seq<Box>, m: Matching, s': State, k: nat)
    requires Step(o, s, dets, m, s') && k < |s.tracks|
    ensures |m| == |s.tracks|
    ensures var t := s.tracks[k];
            var px, py, w, h := t.box.x + t.vx, t.box.y + t.vy, t.box.width, t.box.height;
            && (m[k].Some? ==>
                  var i := m[k].value;
                  && i < |dets| && i !in Taken(m[..k]) && (o.classAware ==> dets[i].kind == t.box.kind)
                  && Iou(px, py, w, h, dets[i]) >= o.minIou
                  && forall j: nat :: j < |dets| && j !in Taken(m[..k]) && (o.classAware ==> dets[j].kind == t.box.kind)
                       ==> Iou(px, py, w, h, dets[j]) <= Iou(px, py, w, h, dets[i]))
            && (m[k].None? ==>
                  forall j: nat :: j < |dets| && j !in Taken(m[..k]) && (o.classAware ==> dets[j].kind == t.box.kind)
                    ==> Iou(px, py, w, h, dets[j]) < o.minIou)
  {
    hide Iou;
    assert Choice(o, s.tracks[k], dets, Taken(m[..k]), m[k]);
    var t, taken := s.tracks[k], Taken(m[..k]);
    forall j: nat | j < |dets| && j !in taken && (o.classAware ==> dets[j].kind == t.box.kind)
      ensures Candidate(o, t, dets, taken, j)
    {
    }
  }

  /** A track whose predicted box is detected, and nothing else of its class is free, takes that detection. */
  lemma OwnBoxIsMatched(o: Options, s: State, dets: seq<Box>, m: Matching, s': State, k: nat, i: nat)
    requires Step(o, s, dets, m, s') && k < |s.tracks| && i < |dets| && |m| == |s.tracks| && i !in Taken(m[..k])
    requires o.minIou <= 1.0
    requires var t := s.tracks[k];
             && Size(t.box.width, t.box.height) > 1.0 / 8388608.0
             && dets[i] == t.box.(confidence := dets[i].confidence, x := t.box.x + t.vx, y := t.box.y + t.vy)
    requires forall j: nat :: j < |dets| && j != i && j !in Taken(m[..k]) ==> o.classAware && dets[j].kind != s.tracks[k].box.kind
    ensures m[k] == Some(i)
  {
    hide Iou, Size;
    MatchingRules(o, s, dets, m, s', k);
    IouOfSelf(dets[i]);
  }

  // Where the old track `k` ends up when it goes on.
  lemma {:induction false} ContinuedAt(o: Options, tracks: seq<Track>, dets: seq<Box>, m: Matching, k: nat) returns (p: nat)
    requires |m| == |tracks| && forall i :: 0 <= i < |m| && m[i].Some? ==> m[i].value < |dets|
    requires k < |m| && (m[k].Some? || tracks[k].coastAge < o.maxCoastAge)
    ensures p < |ContinueAll(o, tracks, dets, m)|
    ensures [ContinueAll(o, tracks, dets, m)[p]] == Continue(o, tracks[k], dets, m[k])
  {
    hide Continue;
    var n := |m| - 1;
    if k < n {
      p := ContinuedAt(o, tracks[..n], dets, m[..n], k);
    } else {
      p := |ContinueAll(o, tracks[..n], dets, m[..n])|;
      ContinueIsOne(o, tracks[k], dets, m[k]);
    }
  }

  lemma ContinueIsOne(o: Options, t: Track, dets: seq<Box>, c: Option<nat>)
    requires c.Some? ==> c.value < |dets|
    requires c.Some? || t.coastAge < o.maxCoastAge
    ensures |Continue(o, t, dets, c)| == 1
  {
  }

  /**
   * Field by field: a matched track takes over the detection and the way it moved as its velocity;
   * an unmatched one moves on by its velocity and keeps it, as long as it may coast.
   */
  lemma TracksGoOn(o: Options, s: State, dets: seq<Box>, m: Matching, s': State, k: nat) returns (p: nat)
    requires Step(o, s, dets, m, s') && k < |s.tracks| && |m| == |s.tracks|
    requires m[k].Some? || s.tracks[k].coastAge < o.maxCoastAge
    ensures p < |s'.tracks| && (m[k].Some? ==> m[k].value < |dets|)
    ensures var t, t' := s.tracks[k], s'.tracks[p];
            && t'.id == t.id && t'.age == t.age + 1
            && (m[k].Some? ==>
                  var d := dets[m[k].value];
                  t'.box == d && t'.vx == d.x - t.box.x && t'.vy == d.y - t.box.y && t'.coastAge == 0)
            && (m[k].None? ==>
                  && t'.box == t.box.(x := t.box.x + t.vx, y := t.box.y + t.vy)
                  && t'.vx == t.vx && t'.vy == t.vy && t'.coastAge == t.coastAge + 1)
  {
    GreedyInBounds(o, s.tracks, dets, m);
    p := ContinuedAt(o, s.tracks, dets, m, k);
  }

  /** A detection nobody took starts a track: a new id, at rest, of age 1. */
  lemma {:induction false} FreeDetectionsStartTracks(dets: seq<Box>, taken: set<nat>, n: nat, id: nat, i: nat) returns (p: nat)
    requires i < n <= |dets| && i !in taken
    ensures p < |CreateAll(dets, taken, n, id)|
    ensures var t := CreateAll(dets, taken, n, id)[p];
            t.box == dets[i] && t.id == id + p && t.vx == 0.0 && t.vy == 0.0 && t.age == 1 && t.coastAge == 0
  {
    if i < n - 1 {
      p := FreeDetectionsStartTracks(dets, taken, n - 1, id, i);
    } else {
      p := |CreateAll(dets, taken, n - 1, id)|;
    }
  }

  // ---- Runs ----------------------------------------------------------------------------

  datatype Event = Event(dets: seq<Box>, matching: Matching)

  ghost predicate Run(o: Options, states: seq<State>, events: seq<Event>) {
    && |states| == |events| + 1 && states[0] == State([], 1)
    && forall i :: 0 <= i < |events| ==> Step(o, states[i], events[i].dets, events[i].matching, states[i + 1])
  }

  lemma {:induction false} RunKeepsInv(o: Options, states: seq<State>, events: seq<Event>, i: nat)
    requires Run(o, states, events) && i < |states|
    ensures Inv(o, states[i])
  {
    hide Step;

    if i > 0 {
      RunKeepsInv(o, states, events, i - 1);
      StepKeepsInv(o, states[i - 1], events[i - 1].dets, events[i - 1].matching, states[i]);
    }
  }

  ghost predicate Live(s: State, id: nat) {
    exists k :: 0 <= k < |s.tracks| && s.tracks[k].id == id
  }

  ghost predicate MatchedIn(s: State, e: Event, id: nat) {
    exists k :: 0 <= k < |s.tracks| && k < |e.matching| && s.tracks[k].id == id && e.matching[k].Some?
  }

  /** Where a track of the new list comes from: an old track, matched or coasted, or a new id. */
  lemma {:induction false} ContinuedFrom(o: Options, tracks: seq<Track>, dets: seq<Box>, m: Matching, p: nat) returns (k: nat)
    requires |m| == |tracks| && forall k :: 0 <= k < |m| && m[k].Some? ==> m[k].value < |dets|
    requires p < |ContinueAll(o, tracks, dets, m)|
    ensures k < |tracks|
    ensures var t := ContinueAll(o, tracks, dets, m)[p];
            t.id == tracks[k].id && (m[k].None? ==> t.coastAge == tracks[k].coastAge + 1)
  {
    var n := |m| - 1;
    var before := ContinueAll(o, tracks[..n], dets, m[..n]);
    if p < |before| {
      k := ContinuedFrom(o, tracks[..n], dets, m[..n], p);
    } else {
      k := n;
    }
  }

  /** An id that is live after an update was live before it, and coasts unless it was matched; or it is new. */
  lemma StepTraces(o: Options, s: State, e: Event, s': State, p: nat)
    requires Inv(o, s) && Step(o, s, e.dets, e.matching, s') && p < |s'.tracks|
    ensures var t := s'.tracks[p];
            t.id >= s.nextId ||
            exists k :: 0 <= k < |s.tracks| && s.tracks[k].id == t.id
                        && (MatchedIn(s, e, t.id) || t.coastAge == s.tracks[k].coastAge + 1)
  {
    GreedyInBounds(o, s.tracks, e.dets, e.matching);
    var continued := ContinueAll(o, s.tracks, e.dets, e.matching);
    if p < |continued| {
      var k := ContinuedFrom(o, s.tracks, e.dets, e.matching, p);
      if e.matching[k].Some? { assert MatchedIn(s, e, s.tracks[k].id); }
    } else {
      var created := CreateAll(e.dets, Taken(e.matching), |e.dets|, s.nextId);
      CreatedSorted(o, e.dets, Taken(e.matching), |e.dets|, s.nextId);
      assert s'.tracks[p] == created[p - |continued|];
    }
  }

  lemma {:induction false} ContinuedMatch(o: Options, tracks: seq<Track>, dets: seq<Box>, m: Matching, k: nat) returns (p: nat)
    requires |m| == |tracks| && forall i :: 0 <= i < |m| && m[i].Some? ==> m[i].value < |dets|
    requires k < |m| && m[k].Some?
    ensures p < |ContinueAll(o, tracks, dets, m)|
    ensures var t := ContinueAll(o, tracks, dets, m)[p]; t.id == tracks[k].id && t.coastAge == 0
  {
    var n := |m| - 1;
    if k < n {
      p := ContinuedMatch(o, tracks[..n], dets, m[..n], k);
    } else {
      p := |ContinueAll(o, tracks[..n], dets, m[..n])|;
    }
  }

  /** A matched track is on the new list, not coasting. */
  lemma MatchedIsSeen(o: Options, s: State, e: Event, s': State, id: nat) returns (p: nat)
    requires Step(o, s, e.dets, e.matching, s') && MatchedIn(s, e, id)
    ensures p < |s'.tracks| && s'.tracks[p].id == id && s'.tracks[p].coastAge == 0
  {
    GreedyInBounds(o, s.tracks, e.dets, e.matching);
    var k :| 0 <= k < |s.tracks| && k < |e.matching| && s.tracks[k].id == id && e.matching[k].Some?;
    p := ContinuedMatch(o, s.tracks, e.dets, e.matching, k);
  }

  // After `j` updates without a match, a track that is still live has coasted at least `j` times.
  lemma {:induction false} CoastsOn(o: Options, states: seq<State>, events: seq<Event>, id: nat, from: nat, j: nat, p: nat)
    requires Run(o, states, events) && from + j < |states|
    requires id < states[from].nextId
    requires forall i :: from <= i < from + j ==> !MatchedIn(states[i], events[i], id)
    requires p < |states[from + j].tracks| && states[from + j].tracks[p].id == id
    ensures states[from + j].tracks[p].coastAge >= j
    decreases j
  {
    hide Step, MatchedIn, Inv;

    if j > 0 {
      var n := from + j - 1;
      RunKeepsInv(o, states, events, n);
      NextIdGrows(o, states, events, from, n);
      StepTraces(o, states[n], events[n], states[n + 1], p);
      var k :| 0 <= k < |states[n].tracks| && states[n].tracks[k].id == id
               && (MatchedIn(states[n], events[n], id) || states[n + 1].tracks[p].coastAge == states[n].tracks[k].coastAge + 1);
      CoastsOn(o, states, events, id, from, j - 1, k);
    }
  }

  lemma {:induction false} NextIdGrows(o: Options, states: seq<State>, events: seq<Event>, i: nat, j: nat)
    requires Run(o, states, events) && i <= j < |states|
    ensures states[i].nextId <= states[j].nextId
    decreases j
  {
    hide Step, Inv;

    if i < j {
      NextIdGrows(o, states, events, i, j - 1);
      RunKeepsInv(o, states, events, j - 1);
      StepKeepsInv(o, states[j - 1], events[j - 1].dets, events[j - 1].matching, states[j]);
    }
  }

  /** Ids are never reused: an issued id that is gone stays gone. */
  lemma {:induction false} GoneForGood(o: Options, states: seq<State>, events: seq<Event>, id: nat, i: nat, j: nat)
    requires Run(o, states, events) && i <= j < |states|
    requires id < states[i].nextId && !Live(states[i], id)
    ensures !Live(states[j], id)
    decreases j
  {
    hide Step, Inv, MatchedIn;

    if i < j {
      GoneForGood(o, states, events, id, i, j - 1);
      if Live(states[j], id) {
        var p :| 0 <= p < |states[j].tracks| && states[j].tracks[p].id == id;
        RunKeepsInv(o, states, events, j - 1);
        NextIdGrows(o, states, events, i, j - 1);
        StepTraces(o, states[j - 1], events[j - 1], states[j], p);
      }
    }
  }

  /** A track left unmatched for `maxCoastAge + 1` updates in a row is gone for good. */
  lemma UnmatchedExpires(o: Options, states: seq<State>, events: seq<Event>, id: nat, from: nat, j: nat)
    requires Run(o, states, events) && from + o.maxCoastAge + 1 <= j < |states|
    requires id < states[from].nextId
    requires forall i :: from <= i < from + o.maxCoastAge + 1 ==> !MatchedIn(states[i], events[i], id)
    ensures !Live(states[j], id)
  {
    hide Step, MatchedIn;

    var n := from + o.maxCoastAge + 1;
    RunKeepsInv(o, states, events, n);
    NextIdGrows(o, states, events, from, n);
    if Live(states[n], id) {
      var p :| 0 <= p < |states[n].tracks| && states[n].tracks[p].id == id;
      CoastsOn(o, states, events, id, from, o.maxCoastAge + 1, p);
    }
    GoneForGood(o, states, events, id, n, j);
  }
}
