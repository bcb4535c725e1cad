/**
 * The tracked-observation adapter: one slot per stream, an exact stamp match publishes, a
 * mismatch drops the earlier of the two. Stamps are nanosecond totals.
 */
module Synchroniser {
  import opened Optional
  import Tracker

  // One callback: which stream it came from and its stamp; `detections` is used for that stream.
  datatype Message = Message(isImage: bool, stamp: nat, detections: seq<Tracker.Box>)

  // The two slots, each remembering the position of its message in the run.
  datatype Slots = Slots(image: Option<nat>, detections: Option<nat>) {
    function Of(isImage: bool): Option<nat> { if isImage then image else detections }
  }

  function Put(s: Slots, isImage: bool, k: nat): Slots {
    if isImage then s.(image := Some(k)) else s.(detections := Some(k))
  }

  predicate InRange(s: Slots, n: nat) {
    (s.image.Some? ==> s.image.value < n) && (s.detections.Some? ==> s.detections.value < n)
  }

  /** Both slots filled with equal stamps: this callback publishes. */
  predicate Matches(ms: seq<Message>, s: Slots)
    requires InRange(s, |ms|)
  {
    s.image.Some? && s.detections.Some? && ms[s.image.value].stamp == ms[s.detections.value].stamp
  }

  function Resolve(ms: seq<Message>, s: Slots): Slots
    requires InRange(s, |ms|)
  {
    if s.image.None? || s.detections.None? then s
    else if Matches(ms, s) then Slots(None, None)
    else if ms[s.image.value].stamp < ms[s.detections.value].stamp then s.(image := None)
    else s.(detections := None)
  }

  /** The slots just after callback `n - 1` stored its message, before the match attempt. */
  function Loaded(ms: seq<Message>, n: nat): (s: Slots)
    requires 0 < n <= |ms|
    ensures InRange(s, n)
    decreases n, 0
  {
    Put(After(ms, n - 1), ms[n - 1].isImage, n - 1)
  }

  /** The slots after the first `n` callbacks. */
  function After(ms: seq<Message>, n: nat): (s: Slots)
    requires n <= |ms|
    ensures InRange(s, n) && !(s.image.Some? && s.detections.Some?)
    decreases n, 1
  {
    if n == 0 then Slots(None, None) else Resolve(ms, Loaded(ms, n))
  }

  /** Callback `j` publishes the pair of messages `i` and `j`. */
  predicate Publishes(ms: seq<Message>, i: nat, j: nat)
    requires i < j < |ms|
  {
    Matches(ms, Loaded(ms, j + 1)) && Loaded(ms, j + 1).Of(ms[i].isImage) == Some(i)
    && ms[i].isImage != ms[j].isImage
  }

  // No message of `i`'s own stream arrives strictly between `i` and `n`.
  ghost predicate NotOverwritten(ms: seq<Message>, i: nat, n: nat)
    requires i < n <= |ms|
  {
    forall k :: i < k < n ==> ms[k].isImage != ms[i].isImage
  }

  // No message of the other stream between `i` and `n` is as late as `i`, nor is the one `i` finds waiting.
  ghost predicate NotOvertaken(ms: seq<Message>, i: nat, n: nat)
    requires i < n <= |ms|
  {
    && (forall k :: i < k < n && ms[k].isImage != ms[i].isImage ==> ms[k].stamp < ms[i].stamp)
    && var other := After(ms, i).Of(!ms[i].isImage);
       other.Some? ==> ms[other.value].stamp < ms[i].stamp
  }

  lemma SlotKinds(ms: seq<Message>, n: nat)
    requires n <= |ms|
    ensures var s := After(ms, n);
            && (s.image.Some? ==> ms[s.image.value].isImage)
            && (s.detections.Some? ==> !ms[s.detections.value].isImage)
  {
    if n > 0 { SlotKinds(ms, n - 1); }
  }

  /** Exactly when a message still sits in its slot: nothing overwrote it and nothing overtook it. */
  lemma {:induction false} KeptExactly(ms: seq<Message>, i: nat, n: nat)
    requires i < n <= |ms|
    ensures After(ms, n).Of(ms[i].isImage) == Some(i) <==> NotOverwritten(ms, i, n) && NotOvertaken(ms, i, n)
    decreases n
  {
    if n > i + 1 {
      KeptExactly(ms, i, n - 1);
      KeptOneStep(ms, i, n);
      hide After;
      assert NotOverwritten(ms, i, n) <==> NotOverwritten(ms, i, n - 1) && ms[n - 1].isImage != ms[i].isImage;
      assert NotOvertaken(ms, i, n) <==>
             NotOvertaken(ms, i, n - 1) && (ms[n - 1].isImage != ms[i].isImage ==> ms[n - 1].stamp < ms[i].stamp);
    } else {
      SlotKinds(ms, i);
    }
  }

  // A message stays exactly if the next one is an earlier one of the other stream.
  lemma KeptOneStep(ms: seq<Message>, i: nat, n: nat)
    requires i < n - 1 && n <= |ms|
    ensures After(ms, n).Of(ms[i].isImage) == Some(i) <==>
            After(ms, n - 1).Of(ms[i].isImage) == Some(i) && ms[n - 1].isImage != ms[i].isImage && ms[n - 1].stamp < ms[i].stamp
  {
    SlotKinds(ms, n - 1);
    var s, s' := After(ms, n - 1), After(ms, n);
    assert Loaded(ms, n) == Put(s, ms[n - 1].isImage, n - 1);
    assert s' == Resolve(ms, Loaded(ms, n));
  }

  /**
   * Which pairs are published, over every run, whatever the stamps: `i` and `j` are of different
   * streams with equal stamps, and `i` was neither overwritten nor overtaken before `j` came.
   */
  lemma PublishedExactly(ms: seq<Message>, i: nat, j: nat)
    requires i < j < |ms|
    ensures Publishes(ms, i, j) <==>
            && ms[i].isImage != ms[j].isImage && ms[i].stamp == ms[j].stamp
            && NotOverwritten(ms, i, j) && NotOvertaken(ms, i, j)
  {
    SlotKinds(ms, j);
    KeptExactly(ms, i, j);
  }

  // The stamps of each stream strictly increase.
  ghost predicate StreamsIncrease(ms: seq<Message>) {
    forall a, b :: 0 <= a < b < |ms| && ms[a].isImage == ms[b].isImage ==> ms[a].stamp < ms[b].stamp
  }

  /**
   * With increasing stamps a pair with equal stamps is published if and only if no further
   * message of the first one's stream arrived in between: a mismatch never loses a pair.
   */
  lemma IncreasingStampsPublish(ms: seq<Message>, i: nat, j: nat)
    requires StreamsIncrease(ms) && i < j < |ms|
    requires ms[i].isImage != ms[j].isImage && ms[i].stamp == ms[j].stamp
    ensures Publishes(ms, i, j) <==> NotOverwritten(ms, i, j)
  {
    SlotKinds(ms, i);
    PublishedExactly(ms, i, j);
    assert NotOvertaken(ms, i, j);
  }

  lemma EmptyAfterPublishing(ms: seq<Message>, i: nat, j: nat)
    requires i < j < |ms| && Publishes(ms, i, j)
    ensures After(ms, j + 1) == Slots(None, None)
  {
  }

  // A message that has left its slot does not come back.
  lemma {:induction false} NotKeptLater(ms: seq<Message>, i: nat, n: nat, n': nat)
    requires i < n <= n' <= |ms|
    requires After(ms, n).Of(ms[i].isImage) != Some(i)
    ensures After(ms, n').Of(ms[i].isImage) != Some(i)
    decreases n'
  {
    if n < n' { NotKeptLater(ms, i, n, n' - 1); }
  }

  lemma NotPublishedAgain(ms: seq<Message>, i: nat, j: nat, i': nat, j': nat)
    requires i < j < j' < |ms| && i' < j' && Publishes(ms, i, j) && (i' == i || i' == j)
    ensures !Publishes(ms, i', j')
  {
    EmptyAfterPublishing(ms, i, j);
    NotKeptLater(ms, i', j + 1, j');
  }

  /** Each message is published at most once. */
  lemma PublishedOnce(ms: seq<Message>, i: nat, j: nat, i': nat, j': nat)
    requires i < j < |ms| && i' < j' < |ms|
    requires Publishes(ms, i, j) && Publishes(ms, i', j')
    requires i == i' || j == j' || i == j' || j == i'
    ensures i == i' && j == j'
  {
    if j < j' && (i' == i || i' == j) {
      NotPublishedAgain(ms, i, j, i', j');
    } else if j' < j && (i == i' || i == j') {
      NotPublishedAgain(ms, i', j', i, j);
    }
  }

  /** Without increasing stamps the short characterisation fails: an early late-stamped message overtakes. */
  lemma OutOfOrderLosesPair()
    ensures exists ms: seq<Message> ::
              && |ms| == 3 && ms[0].isImage && !ms[2].isImage && ms[0].stamp == ms[2].stamp
              && NotOverwritten(ms, 0, 2) && !Publishes(ms, 0, 2)
  {
    var ms := [Message(true, 2, []), Message(false, 5, []), Message(false, 2, [])];
    assert After(ms, 1) == Slots(Some(0), None);
    assert After(ms, 2) == Slots(None, Some(1));
    assert NotOverwritten(ms, 0, 2) && !Publishes(ms, 0, 2);
  }

  // ---- The adapter ---------------------------------------------------------------------

  datatype Observation = Observation(sequence: nat, image: Message, detections: Message, tracks: seq<Tracker.Track>)

  /** The pairs of messages published by the first `n` callbacks, in order. */
  function Pairs(ms: seq<Message>, n: nat): seq<(Message, Message)>
    requires n <= |ms|
  {
    if n == 0 then [] else
      var s := Loaded(ms, n);
      Pairs(ms, n - 1) + if Matches(ms, s) then [(ms[s.image.value], ms[s.detections.value])] else []
  }

  function Count(b: bool): nat { if b then 1 else 0 }

  // One more message changes nothing about the callbacks before it.
  lemma {:induction false} RunExtends(ms: seq<Message>, m: Message, n: nat)
    requires n <= |ms|
    ensures After(ms + [m], n) == After(ms, n) && Pairs(ms + [m], n) == Pairs(ms, n)
  {
    if n > 0 {
      RunExtends(ms, m, n - 1);
      assert (ms + [m])[n - 1] == ms[n - 1];
    }
  }

  /** How many of the first `n` callbacks found their own slot still occupied. */
  function StaleCount(ms: seq<Message>, n: nat): nat
    requires n <= |ms|
  {
    if n == 0 then 0 else StaleCount(ms, n - 1) + Count(After(ms, n - 1).Of(ms[n - 1].isImage).Some?)
  }

  lemma {:induction false} StaleExtends(ms: seq<Message>, m: Message, n: nat)
    requires n <= |ms|
    ensures StaleCount(ms + [m], n) == StaleCount(ms, n)
  {
    if n > 0 {
      StaleExtends(ms, m, n - 1);
      RunExtends(ms, m, n - 1);
      hide After;
      assert (ms + [m])[n - 1] == ms[n - 1];
    }
  }

  /** Such a callback replaces exactly a message of its own stream that was neither overwritten nor overtaken. */
  lemma StaleExactly(ms: seq<Message>, j: nat)
    requires j < |ms|
    ensures StaleCount(ms, j + 1) == StaleCount(ms, j) + Count(Replaces(ms, j))
  {
    var kept := After(ms, j).Of(ms[j].isImage);
    SlotKinds(ms, j);
    if kept.Some? {
      var i := kept.value;
      assert After(ms, j).Of(ms[i].isImage) == Some(i);
      KeptExactly(ms, i, j);
      assert Replaces(ms, j);
    }
    if Replaces(ms, j) {
      var i: nat :| i < j && ms[i].isImage == ms[j].isImage && NotOverwritten(ms, i, j) && NotOvertaken(ms, i, j);
      KeptExactly(ms, i, j);
    }
  }

  ghost predicate Replaces(ms: seq<Message>, j: nat)
    requires j < |ms|
  {
    exists i: nat :: i < j && ms[i].isImage == ms[j].isImage && NotOverwritten(ms, i, j) && NotOvertaken(ms, i, j)
  }

  // The observations are the published pairs, numbered 1, 2, 3 and so on.
  ghost predicate Agrees(pairs: seq<(Message, Message)>, published: seq<Observation>) {
    && |published| == |pairs|
    && forall k :: 0 <= k < |published| ==>
         published[k].sequence == k + 1 && (published[k].image, published[k].detections) == pairs[k]
  }

  /** The tracker went through `states`, one update per observation, and each observation shows the tracks it left. */
  ghost predicate Tracked(o: Tracker.Options, published: seq<Observation>, states: seq<Tracker.State>,
                          updates: seq<Tracker.Event>, now: Tracker.State)
  {
    && Tracker.Run(o, states, updates) && |updates| == |published| && states[|published|] == now
    && forall k :: 0 <= k < |published| ==>
         published[k].detections.detections == updates[k].dets && published[k].tracks == states[k + 1].tracks
  }

  lemma TrackedOneMore(o: Tracker.Options, published: seq<Observation>, states: seq<Tracker.State>,
                       updates: seq<Tracker.Event>, now: Tracker.State, next: Observation, m: Tracker.Matching, now': Tracker.State)
    requires Tracked(o, published, states, updates, now)
    requires Tracker.Step(o, now, next.detections.detections, m, now') && next.tracks == now'.tracks
    ensures Tracked(o, published + [next], states + [now'], updates + [Tracker.Event(next.detections.detections, m)], now')
  {
    hide Tracker.Step;
    var states', updates' := states + [now'], updates + [Tracker.Event(next.detections.detections, m)];
    forall i | 0 <= i < |updates'|
      ensures Tracker.Step(o, states'[i], updates'[i].dets, updates'[i].matching, states'[i + 1])
    {
      if i < |updates| { assert Tracker.Step(o, states[i], updates[i].dets, updates[i].matching, states[i + 1]); }
    }
  }

  class TrackedObservationAdapter {
    const tracker: Tracker.IouTracker
    var latestImage: Option<Message>
    var latestDetections: Option<Message>
    var staleDrops: nat
    var mismatchDrops: nat
    var nextSourceSequence: nat
    var published: seq<Observation>  // what went to the topic so far
    ghost var run: seq<Message>      // every message received so far
    ghost var states: seq<Tracker.State>  // the tracker before and after each observation
    ghost var updates: seq<Tracker.Event>

    ghost predicate Holds(s: Slots)
      reads this
    {
      && InRange(s, |run|)
      && latestImage == (if s.image.Some? then Some(run[s.image.value]) else None)
      && latestDetections == (if s.detections.Some? then Some(run[s.detections.value]) else None)
    }

    /**
     * Every message is dropped as stale, dropped in a mismatch, published, or still in its slot;
     * and the stale ones are those replaced by the next message of their own stream.
     */
    ghost predicate Counted()
      reads this
    {
      && |run| == staleDrops + mismatchDrops + 2 * |published|
                  + Count(latestImage.Some?) + Count(latestDetections.Some?)
      && nextSourceSequence == |published| + 1
      && staleDrops == StaleCount(run, |run|)
    }

    /**
     * The slots, the observations and the counters are what the run so far determines, and the
     * tracks in the observations are those of one run of the tracker.
     */
    ghost predicate Valid()
      reads this, tracker
    {
      && Holds(After(run, |run|)) && Agrees(Pairs(run, |run|), published) && Counted()
      && Tracked(tracker.options, published, states, updates, tracker.Now())
    }

    constructor (options: Tracker.Options)
      ensures Valid() && run == [] && published == [] && fresh(tracker)
      ensures tracker.options == options && tracker.Now() == Tracker.State([], 1)
    {
      tracker := new Tracker.IouTracker(options);
      latestImage, latestDetections, staleDrops, mismatchDrops := None, None, 0, 0;
      nextSourceSequence, published, run := 1, [], [];
      states, updates := [Tracker.State([], 1)], [];
    }

    /** `image_callback` and `detections_callback`: store the message, then try to publish. */
    method Receive(m: Message)
      requires Valid()
      modifies this, tracker
      ensures Valid() && run == old(run) + [m]
      ensures TrackerFollows(tracker.options, old(published), published, old(tracker.Now()), tracker.Now())
    {
      hide Holds, After, Loaded, Agrees, Counted, Tracked, TrackerFollows;
      Store(m);
      TryPublishLatestMatch();
    }

    // The new message takes its stream's slot; one that was still in it is stale.
    method Store(m: Message)
      requires Holds(After(run, |run|)) && Agrees(Pairs(run, |run|), published) && Counted()
      modifies this`latestImage, this`latestDetections, this`staleDrops, this`run
      ensures run == old(run) + [m] && Holds(Loaded(run, |run|))
      ensures Agrees(Pairs(run, |run| - 1), published) && Counted()
    {
      hide Agrees, Matches, Resolve;
      ghost var s := After(run, |run|);
      RunExtends(run, m, |run|);
      StaleExtends(run, m, |run|);
      if m.isImage {
        if latestImage.Some? { staleDrops := staleDrops + 1; }
        latestImage := Some(m);
      } else {
        if latestDetections.Some? { staleDrops := staleDrops + 1; }
        latestDetections := Some(m);
      }
      run := run + [m];
      assert Loaded(run, |run|) == Put(s, m.isImage, |run| - 1);
    }

    method TryPublishLatestMatch()
      requires |run| > 0 && Holds(Loaded(run, |run|))
      requires Agrees(Pairs(run, |run| - 1), published) && Counted()
      requires Tracked(tracker.options, published, states, updates, tracker.Now())
      modifies this, tracker
      ensures Valid() && run == old(run)
      ensures TrackerFollows(tracker.options, old(published), published, old(tracker.Now()), tracker.Now())
    {
      hide Tracked, Tracker.Step;
      if latestImage.None? || latestDetections.None? { return; }
      var image, detections := latestImage.value, latestDetections.value;
      if image.stamp != detections.stamp {
        if image.stamp < detections.stamp {
          latestImage := None;
        } else {
          latestDetections := None;
        }
        mismatchDrops := mismatchDrops + 1;
        return;
      }
      hide Holds, Loaded, After, Resolve, Matches, Agrees, Counted;
      Publish(image, detections);
    }

    // The matching part: the tracker takes the detections, and both slots are emptied.
    method Publish(image: Message, detections: Message)
      requires |run| > 0 && Holds(Loaded(run, |run|)) && latestImage == Some(image) && latestDetections == Some(detections)
      requires image.stamp == detections.stamp
      requires Agrees(Pairs(run, |run| - 1), published) && Counted()
      requires Tracked(tracker.options, published, states, updates, tracker.Now())
      modifies this, tracker
      ensures Valid() && run == old(run)
      ensures TrackerFollows(tracker.options, old(published), published, old(tracker.Now()), tracker.Now())
    {
      hide Tracked, Tracker.Step;
      ghost var t := tracker.Now();
      var tracks, m := tracker.Update(detections.detections);
      var observation := Observation(nextSourceSequence, image, detections, tracks);
      TrackedOneMore(tracker.options, published, states, updates, t, observation, m, tracker.Now());
      published := published + [observation];
      states, updates := states + [tracker.Now()], updates + [Tracker.Event(detections.detections, m)];
      nextSourceSequence := nextSourceSequence + 1;
      latestImage, latestDetections := None, None;
    }
  }

  /** The tracker is updated exactly when an observation is published, with that observation's detections. */
  ghost predicate TrackerFollows(o: Tracker.Options, before: seq<Observation>, after: seq<Observation>,
                                 t: Tracker.State, t': Tracker.State)
  {
    || (after == before && t' == t)
    || (|after| == |before| + 1 && after[..|before|] == before
        && after[|before|].tracks == t'.tracks
        && exists m :: Tracker.Step(o, t, after[|before|].detections.detections, m, t'))
  }

  // An observation shows a track.
  ghost predicate Shows(o: Observation, id: nat) {
    exists k :: 0 <= k < |o.tracks| && o.tracks[k].id == id
  }

  /**
   * Over everything the adapter ever published: each detection of an observation is the box of
   * exactly one of its tracks that do not coast, the tracks are sorted by id and coast no longer
   * than allowed, and a track that was shown and then is not shown is never shown again.
   */
  lemma PublishedTracksAreConsistent(a: TrackedObservationAdapter, k: nat)
    requires a.Valid() && k < |a.published|
    ensures multiset(Tracker.SeenBoxes(a.published[k].tracks)) == multiset(a.published[k].detections.detections)
    ensures var ts := a.published[k].tracks;
            && (forall i :: 0 < i < |ts| ==> ts[i - 1].id < ts[i].id)
            && (forall i :: 0 <= i < |ts| ==> ts[i].coastAge <= a.tracker.options.maxCoastAge)
  {
    hide Tracker.Step;
    var o, s, e := a.tracker.options, a.states, a.updates;
    assert Tracker.Step(o, s[k], e[k].dets, e[k].matching, s[k + 1]);
    Tracker.DetectionsAreSeen(o, s[k], e[k].dets, e[k].matching, s[k + 1]);
    Tracker.RunKeepsInv(o, s, e, k + 1);
  }

  // An observation shows a track that was detected in it.
  ghost predicate ShowsDetected(o: Observation, id: nat) {
    exists k :: 0 <= k < |o.tracks| && o.tracks[k].id == id && o.tracks[k].coastAge == 0
  }

  lemma MatchedIsShown(a: TrackedObservationAdapter, id: nat, j: nat)
    requires a.Valid() && j < |a.published| && Tracker.MatchedIn(a.states[j], a.updates[j], id)
    ensures ShowsDetected(a.published[j], id)
  {
    hide Tracker.Step, Tracker.MatchedIn;
    var o, s, e := a.tracker.options, a.states, a.updates;
    assert Tracker.Step(o, s[j], e[j].dets, e[j].matching, s[j + 1]);
    var p := Tracker.MatchedIsSeen(o, s[j], e[j], s[j + 1], id);
    assert a.published[j].tracks[p].id == id;
  }

  /** A track that is not detected in max_coast_age + 1 observations in a row is not shown from the last of them on. */
  lemma UndetectedTracksExpire(a: TrackedObservationAdapter, id: nat, i: nat, from: nat, k: nat)
    requires a.Valid() && i < from && from + a.tracker.options.maxCoastAge <= k < |a.published| && Shows(a.published[i], id)
    requires forall j :: from <= j <= from + a.tracker.options.maxCoastAge ==> !ShowsDetected(a.published[j], id)
    ensures !Shows(a.published[k], id)
  {
    hide Tracker.Step, Tracker.MatchedIn;
    var o, s, e := a.tracker.options, a.states, a.updates;
    Tracker.RunKeepsInv(o, s, e, i + 1);
    Tracker.NextIdGrows(o, s, e, i + 1, from);
    forall j | from <= j < from + o.maxCoastAge + 1 ensures !Tracker.MatchedIn(s[j], e[j], id) {
      if Tracker.MatchedIn(s[j], e[j], id) { MatchedIsShown(a, id, j); }
    }
    Tracker.UnmatchedExpires(o, s, e, id, from, k + 1);
  }

  lemma VanishedTracksStayAway(a: TrackedObservationAdapter, id: nat, i: nat, j: nat, k: nat)
    requires a.Valid() && i <= j <= k < |a.published|
    requires Shows(a.published[i], id) && !Shows(a.published[j], id)
    ensures !Shows(a.published[k], id)
  {
    hide Tracker.Step;
    var o, s, e := a.tracker.options, a.states, a.updates;
    Tracker.RunKeepsInv(o, s, e, i + 1);
    Tracker.NextIdGrows(o, s, e, i + 1, j + 1);
    assert Tracker.Live(s[j + 1], id) <==> Shows(a.published[j], id);
    Tracker.GoneForGood(o, s, e, id, j + 1, k + 1);
  }
}
