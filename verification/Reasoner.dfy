/**
 * The reasoner node's depth-one queue between its subscription callback and its worker thread.
 * Each method is one step of one thread, cut at the lock boundaries of the source; the two
 * program counters say which step may come next. `Valid` holds after every step of every
 * interleaving.
 */
module Reasoner {
  import opened Optional

  // A queued frame; `source` is its source sequence, 0 when it has none.
  datatype Frame = Frame(source: nat, number: nat)

  datatype CallbackPc =
    | Ready                       // between callbacks
    | ImageSampled                // an image was counted but is not queued yet
    | TrackedSampled(source: nat) // an observation passed the sampler but is not queued yet
    | TrackedQueued               // an observation is queued but not counted yet

  datatype WorkerPc =
    | Waiting
    | Holding(frame: Frame)               // dequeued, nothing done yet
    | Unconverted(frame: Frame)           // conversion failed and the failure is counted
    | Inferring(frame: Frame)             // `backend_->infer` was called
    | Answered(frame: Frame)              // its outcome is counted
    | Exited

  function One(b: bool): nat { if b then 1 else 0 }

  ghost predicate StrictlyIncreasing(s: seq<nat>) {
    forall i :: 0 < i < |s| ==> s[i - 1] < s[i]
  }

  function Source(f: Option<Frame>): nat { if f.Some? then f.value.source else 0 }

  /** The source sequence of the frame the worker holds, 0 if none. */
  function Held(w: WorkerPc): nat {
    if w.Waiting? || w.Exited? then 0 else w.frame.source
  }

  /** A frame the worker holds and has not counted yet. */
  predicate InFlight(w: WorkerPc) { w.Holding? || w.Inferring? }

  // The accepted sequences are exactly the pending and the held one, and those differ.
  ghost predicate SpokenFor(accepted: set<nat>, pending: nat, held: nat) {
    accepted == {pending, held} - {0} && (pending != 0 ==> pending != held)
  }

  /** The order facts behind at-most-once inference. */
  ghost predicate Ordered(inferred: seq<nat>, newest: nat, pending: nat, w: WorkerPc, lastCompleted: Option<nat>) {
    var begun := Held(w) != 0 && (w.Inferring? || w.Answered?);
    && StrictlyIncreasing(inferred)
    && (inferred != [] ==> Last(inferred) <= newest)
    && (pending != 0 ==> AboveAll(pending, inferred) && Held(w) < pending <= newest)
    && (Held(w) != 0 && !begun ==> AboveAll(Held(w), inferred) && Held(w) <= newest)
    && (begun ==> inferred != [] && Last(inferred) == Held(w))
    && (inferred != [] && !begun ==> lastCompleted == Some(Last(inferred)))
    && (lastCompleted.Some? ==> inferred != [] && lastCompleted.value <= Last(inferred))
  }

  function Last(s: seq<nat>): nat
    requires s != []
  {
    s[|s| - 1]
  }

  // `s` is increasing, so being above its last element is being above all of it.
  ghost predicate AboveAll(x: nat, s: seq<nat>) { s != [] ==> Last(s) < x }

  // A sequence the node already completed, queued or is working on.
  predicate Seen(source: nat, lastCompleted: Option<nat>, accepted: set<nat>, active: nat) {
    source != 0 &&
    ((lastCompleted.Some? && source <= lastCompleted.value) || source in accepted || source == active)
  }

  function Newest(a: nat, b: nat): nat { if a < b then b else a }

  lemma OfferKeepsOrder(inferred: seq<nat>, newest: nat, pending: nat, w: WorkerPc, lastCompleted: Option<nat>, source: nat)
    requires Ordered(inferred, newest, pending, w, lastCompleted)
    ensures Ordered(inferred, Newest(newest, source), pending, w, lastCompleted)
  {
  }

  lemma EnqueueKeepsOrder(inferred: seq<nat>, newest: nat, pending: nat, w: WorkerPc, lastCompleted: Option<nat>,
                          accepted: set<nat>, source: nat)
    requires Ordered(inferred, newest, pending, w, lastCompleted)
    requires source == 0 || source >= newest
    requires !Seen(source, lastCompleted, accepted, Held(w))
    ensures Ordered(inferred, Newest(newest, source), source, w, lastCompleted)
  {
  }

  // Replacing the pending frame moves the claim from the old sequence to the new one.
  function Claims(accepted: set<nat>, pending: nat, source: nat): set<nat> {
    (if pending == 0 then accepted else accepted - {pending}) + (if source == 0 then {} else {source})
  }

  lemma EnqueueKeepsClaims(accepted: set<nat>, pending: nat, held: nat, source: nat, lastCompleted: Option<nat>)
    requires SpokenFor(accepted, pending, held)
    requires !Seen(source, lastCompleted, accepted, held)
    ensures SpokenFor(Claims(accepted, pending, source), source, held)
  {
  }

  class ReasonerNode {
    const dropOldFrames: bool
    const useTracked: bool
    const samplePeriod: real

    // sampler
    var lastSampled: Option<real>
    // queue state, guarded by the mutex
    var pending: Option<Frame>
    var accepted: set<nat>
    var workerHasActive: bool
    var activeSource: nat
    var lastCompleted: Option<nat>
    var running: bool
    // counters
    var received: nat
    var sampled: nat
    var dropped: nat
    var success: nat
    var failure: nat

    // where each thread is, with its local frame
    var callback: CallbackPc
    var worker: WorkerPc
    ghost var inferred: seq<nat>    // non-zero source sequences passed to `infer`, in order
    ghost var overwritten: nat      // frames replaced while `dropOldFrames` was off
    ghost var newest: nat           // largest source sequence offered so far
    ghost var inOrder: bool         // non-zero source sequences never decreased so far

    /** Frame conservation, with the callback possibly between its two halves. */
    ghost predicate Conserved()
      reads this
    {
      && sampled + One(callback.TrackedQueued?)
         == success + failure + dropped + overwritten + One(pending.Some?) + One(InFlight(worker)) + One(callback.ImageSampled?)
      && (dropOldFrames ==> overwritten == 0)
    }

    ghost predicate Valid()
      reads this
    {
      && Conserved()
      && (workerHasActive <==> Held(worker) != 0) && activeSource == Held(worker)
      && (!useTracked ==> Source(pending) == 0 && Held(worker) == 0)
      && (dropOldFrames ==> SpokenFor(accepted, Source(pending), Held(worker)))
      && (callback.ImageSampled? ==> !useTracked)
      && (callback.TrackedSampled? || callback.TrackedQueued? ==> useTracked)
      && (dropOldFrames && inOrder ==> Ordered(inferred, newest, Source(pending), worker, lastCompleted))
    }

    constructor (dropOldFrames: bool, useTracked: bool, samplePeriod: real)
      ensures this.dropOldFrames == dropOldFrames && this.useTracked == useTracked && this.samplePeriod == samplePeriod
      ensures Valid() && callback.Ready? && worker.Waiting? && inferred == [] && inOrder && running
      ensures lastSampled.None? && pending.None? && received == sampled == dropped == success == failure == 0
    {
      this.dropOldFrames, this.useTracked, this.samplePeriod := dropOldFrames, useTracked, samplePeriod;
      lastSampled, pending, accepted, workerHasActive, activeSource := None, None, {}, false, 0;
      lastCompleted, running := None, true;
      received, sampled, dropped, success, failure := 0, 0, 0, 0, 0;
      callback, worker, inferred, overwritten, newest, inOrder := Ready, Waiting, [], 0, 0, true;
    }

    // ---- Callback thread -----------------------------------------------------------------

    /** First half of `image_callback`: the sampler, and the count. */
    method ImageArrives(stamp: real) returns (due: bool)
      requires Valid() && callback.Ready? && !useTracked
      modifies this`received, this`lastSampled, this`sampled, this`callback
      ensures Valid() && received == old(received) + 1
      ensures due <==> (old(lastSampled).None? || stamp < old(lastSampled).value
                        || stamp - old(lastSampled).value >= samplePeriod)
      ensures due ==> callback.ImageSampled? && lastSampled == Some(stamp) && sampled == old(sampled) + 1
      ensures !due ==> callback.Ready? && lastSampled == old(lastSampled) && sampled == old(sampled)
    {
      received := received + 1;
      if lastSampled.Some? {
        var elapsed := stamp - lastSampled.value;
        if elapsed < 0.0 {
          lastSampled := None;
        } else if elapsed < samplePeriod {
          return false;
        }
      }
      lastSampled := Some(stamp);
      sampled := sampled + 1;
      callback := ImageSampled;
      return true;
    }

    /** Second half, under the lock: the newest frame takes the slot. */
    method ImageEnqueues()
      requires Valid() && callback.ImageSampled?
      modifies this`pending, this`dropped, this`callback, this`overwritten
      ensures Valid() && callback.Ready? && pending == Some(Frame(0, sampled))
      ensures dropped == old(dropped) + One(old(pending).Some? && dropOldFrames)
      ensures overwritten == old(overwritten) + One(old(pending).Some? && !dropOldFrames)
    {
      if pending.Some? && dropOldFrames {
        dropped := dropped + 1;
      }
      if pending.Some? && !dropOldFrames { overwritten := overwritten + 1; }
      pending := Some(Frame(0, sampled));
      callback := Ready;
    }

    /** First part of `tracked_observation_callback`: the sampler. */
    method TrackedArrives(stamp: real, source: nat) returns (due: bool)
      requires Valid() && callback.Ready? && useTracked
      modifies this`received, this`lastSampled, this`callback
      ensures Valid() && received == old(received) + 1
      ensures due <==> (samplePeriod <= 0.0 || old(lastSampled).None? || stamp < old(lastSampled).value
                        || stamp - old(lastSampled).value >= samplePeriod)
      ensures due ==> callback == TrackedSampled(source) && lastSampled == Some(stamp)
      ensures !due ==> callback.Ready? && lastSampled == old(lastSampled)
    {
      received := received + 1;
      if samplePeriod > 0.0 && lastSampled.Some? {
        var elapsed := stamp - lastSampled.value;
        if elapsed < 0.0 {
          lastSampled := None;
        } else if elapsed < samplePeriod {
          return false;
        }
      }
      lastSampled := Some(stamp);
      callback := TrackedSampled(source);
      return true;
    }

    // The locked section when the observation is a repeat: only the ghost record of the offer moves.
    method RejectRepeat(source: nat)
      requires Valid() && callback == TrackedSampled(source)
      modifies this`callback, this`newest, this`inOrder
      ensures Valid() && callback.Ready?
      ensures inOrder == (old(inOrder) && (source == 0 || source >= old(newest)))
    {
      hide Ordered, SpokenFor;
      if dropOldFrames && inOrder {
        OfferKeepsOrder(inferred, newest, Source(pending), worker, lastCompleted, source);
      }
      callback := Ready;
      inOrder, newest := inOrder && (source == 0 || source >= newest), Newest(newest, source);
    }

    // The locked section when it is new: the newest frame takes the slot.
    method TakeSlot(source: nat)
      requires Valid() && callback == TrackedSampled(source)
      requires !Seen(source, lastCompleted, accepted, Held(worker))
      modifies this`pending, this`accepted, this`dropped, this`callback, this`overwritten, this`newest, this`inOrder
      ensures Valid() && callback.TrackedQueued? && pending == Some(Frame(source, sampled))
      ensures inOrder == (old(inOrder) && (source == 0 || source >= old(newest)))
      ensures dropped == old(dropped) + One(old(pending).Some? && dropOldFrames)
      ensures overwritten == old(overwritten) + One(old(pending).Some? && !dropOldFrames)
    {
      hide Ordered, SpokenFor, Seen;
      ghost var inOrder' := inOrder && (source == 0 || source >= newest);
      if dropOldFrames {
        EnqueueKeepsClaims(accepted, Source(pending), Held(worker), source, lastCompleted);
        if inOrder' {
          EnqueueKeepsOrder(inferred, newest, Source(pending), worker, lastCompleted, accepted, source);
        }
      }
      ReplacePending(source);
      callback := TrackedQueued;
      inOrder, newest := inOrder', Newest(newest, source);
    }

    method ReplacePending(source: nat)
      modifies this`pending, this`accepted, this`dropped, this`overwritten
      ensures pending == Some(Frame(source, sampled))
      ensures dropped == old(dropped) + One(old(pending).Some? && dropOldFrames)
      ensures overwritten == old(overwritten) + One(old(pending).Some? && !dropOldFrames)
      ensures dropOldFrames ==> accepted == Claims(old(accepted), Source(old(pending)), source)
    {
      if pending.Some? && dropOldFrames {
        if pending.value.source != 0 {
          accepted := accepted - {pending.value.source};
        }
        dropped := dropped + 1;
      }
      if pending.Some? && !dropOldFrames { overwritten := overwritten + 1; }
      pending := Some(Frame(source, sampled));
      if source != 0 {
        accepted := accepted + {source};
      }
    }

    method IsRepeat(source: nat) returns (repeated: bool)
      requires Valid()
      ensures repeated == Seen(source, lastCompleted, accepted, Held(worker))
    {
      repeated := source != 0 &&
        ((lastCompleted.Some? && source <= lastCompleted.value) || source in accepted
         || (workerHasActive && source == activeSource));
    }

    /** Second part, under the lock: de-duplication, then the newest frame takes the slot. */
    method TrackedEnqueues() returns (isNew: bool)
      requires Valid() && callback.TrackedSampled?
      modifies this`pending, this`accepted, this`dropped, this`callback, this`overwritten, this`newest, this`inOrder
      ensures Valid()
      ensures isNew <==> !Seen(old(callback.source), lastCompleted, old(accepted), Held(worker))
      ensures dropOldFrames ==>
                var source := old(callback.source);
                isNew <==> source == 0 || ((lastCompleted.Some? ==> source > lastCompleted.value)
                                           && source != old(Source(pending)) && source != Held(worker))
      ensures dropOldFrames && old(inOrder) && old(callback.source) > old(newest) ==> isNew
      ensures inOrder == (old(inOrder) && (old(callback.source) == 0 || old(callback.source) >= old(newest)))
      ensures isNew ==> callback.TrackedQueued? && pending == Some(Frame(old(callback.source), sampled))
      ensures isNew ==> dropped == old(dropped) + One(old(pending).Some? && dropOldFrames)
      ensures isNew ==> overwritten == old(overwritten) + One(old(pending).Some? && !dropOldFrames)
      ensures !isNew ==> callback.Ready? && pending == old(pending) && dropped == old(dropped) && overwritten == old(overwritten)
    {
      SeenExactly(this, callback.source);
      hide Valid, Seen;
      var source := callback.source;
      var repeated := IsRepeat(source);
      if repeated { RejectRepeat(source); } else { TakeSlot(source); }
      isNew := !repeated;
    }

    /** Last part, after the lock: the count. */
    method TrackedCounts()
      requires Valid() && callback.TrackedQueued?
      modifies this`sampled, this`callback
      ensures Valid() && callback.Ready? && sampled == old(sampled) + 1
    {
      sampled := sampled + 1;
      callback := Ready;
    }

    // ---- Worker thread -------------------------------------------------------------------

    /** The worker takes the pending frame, under the lock. */
    method Dequeues()
      requires Valid() && worker.Waiting? && pending.Some?
      modifies this`pending, this`workerHasActive, this`activeSource, this`worker
      ensures Valid() && pending.None? && worker == Holding(old(pending).value)
    {
      var frame := pending.value;
      pending := None;
      if frame.source != 0 {
        workerHasActive := true;
        activeSource := frame.source;
      }
      worker := Holding(frame);
    }

    method ConversionFails()
      requires Valid() && worker.Holding?
      modifies this`failure, this`worker
      ensures Valid() && worker == Unconverted(old(worker).frame) && failure == old(failure) + 1
    {
      failure := failure + 1;
      worker := Unconverted(worker.frame);
    }

    /** `backend_->infer` is called for the held frame. */
    method Infers()
      requires Valid() && worker.Holding?
      modifies this`worker, this`inferred
      ensures Valid() && worker == Inferring(old(worker).frame)
      ensures inferred == old(inferred) + if Held(worker) != 0 then [Held(worker)] else []
    {
      if Held(worker) != 0 { inferred := inferred + [Held(worker)]; }
      worker := Inferring(worker.frame);
    }

    method CountsOutcome(ok: bool)
      requires Valid() && worker.Inferring?
      modifies this`success, this`failure, this`worker
      ensures Valid() && worker == Answered(old(worker).frame)
      ensures success == old(success) + One(ok) && failure == old(failure) + One(!ok)
    {
      if ok { success := success + 1; } else { failure := failure + 1; }
      worker := Answered(worker.frame);
    }

    /** The end of a turn, under the lock; only an inferred frame becomes the last completed one. */
    method Finishes()
      requires Valid() && (worker.Unconverted? || worker.Answered?)
      modifies this`workerHasActive, this`activeSource, this`accepted, this`lastCompleted, this`worker
      ensures Valid() && worker.Waiting?
      ensures lastCompleted == if old(worker).Answered? && old(Held(worker)) != 0
                               then Some(old(Held(worker))) else old(lastCompleted)
    {
      var source := worker.frame.source;
      if source != 0 {
        workerHasActive := false;
        activeSource := 0;
        accepted := accepted - {source};
        if worker.Answered? { lastCompleted := Some(source); }
      }
      worker := Waiting;
    }

    method StopsWorker()
      requires Valid()
      modifies this`running
      ensures Valid() && !running
    {
      running := false;
    }

    /** The worker leaves its loop: it was told to stop and nothing is pending. */
    method Exits()
      requires Valid() && worker.Waiting? && !running && pending.None?
      modifies this`worker
      ensures Valid() && worker.Exited?
      ensures callback.Ready? ==> sampled == success + failure + dropped + overwritten
    {
      worker := Exited;
    }
  }

  /**
   * At most once: as long as source sequences do not decrease and old frames are dropped, `infer`
   * has run at most once for each of them, in strictly increasing order, and the set of accepted
   * sequences is exactly the pending and the active one.
   */
  lemma AtMostOnce(n: ReasonerNode, i: nat, j: nat)
    requires n.Valid() && n.dropOldFrames && n.inOrder
    requires i < j < |n.inferred|
    ensures n.inferred[i] < n.inferred[j]
    ensures n.accepted == {Source(n.pending), Held(n.worker)} - {0}
  {
    IncreasingSpread(n.inferred, i, j);
  }

  /**
   * With old frames dropped, a sequence counts as a repeat exactly when it was completed or
   * passed, is pending or is active; so one larger than all offered before never does.
   */
  lemma SeenExactly(n: ReasonerNode, source: nat)
    requires n.Valid()
    ensures n.dropOldFrames ==>
              (Seen(source, n.lastCompleted, n.accepted, Held(n.worker)) <==>
               source != 0 && ((n.lastCompleted.Some? && source <= n.lastCompleted.value)
                               || source == Source(n.pending) || source == Held(n.worker)))
    ensures n.dropOldFrames && n.inOrder && source > n.newest ==> !Seen(source, n.lastCompleted, n.accepted, Held(n.worker))
  {
  }

  /** With old frames dropped, the accepted sequences are at every moment exactly the pending and the active one. */
  lemma AcceptedIsPendingAndActive(n: ReasonerNode)
    requires n.Valid() && n.dropOldFrames
    ensures n.accepted == {Source(n.pending), Held(n.worker)} - {0}
    ensures Source(n.pending) != 0 ==> Source(n.pending) != Held(n.worker)
    ensures n.workerHasActive <==> Held(n.worker) != 0
    ensures n.activeSource == Held(n.worker)
  {
  }

  lemma {:induction false} IncreasingSpread(s: seq<nat>, i: nat, j: nat)
    requires StrictlyIncreasing(s) && i < j < |s|
    ensures s[i] < s[j]
    decreases j
  {
    if i < j - 1 { IncreasingSpread(s, i, j - 1); }
  }

  /**
   * Frame conservation between callbacks: every sampled frame is a success, a failure, dropped,
   * pending or in flight if and only if no frame was overwritten uncounted, which can happen
   * only while `dropOldFrames` is off.
   */
  lemma FramesConserved(n: ReasonerNode)
    requires n.Valid() && n.callback.Ready?
    ensures (n.sampled == n.success + n.failure + n.dropped + One(n.pending.Some?) + One(InFlight(n.worker)))
            <==> n.overwritten == 0
    ensures n.dropOldFrames ==> n.overwritten == 0
  {
  }

  /** With `dropOldFrames` off, a second frame makes one disappear from the books. */
  method OverwriteBreaksConservation() returns (n: ReasonerNode)
    ensures fresh(n) && n.Valid() && n.callback.Ready? && n.worker.Waiting?
    ensures n.sampled == 2 && n.success + n.failure + n.dropped + One(n.pending.Some?) == 1
  {
    n := new ReasonerNode(false, false, 1.0);
    var due := n.ImageArrives(0.0);
    n.ImageEnqueues();
    due := n.ImageArrives(2.0);
    n.ImageEnqueues();
  }
}
