/**
 * The deferral queue of the video behaviour: media calls requested before the
 * video's metadata has loaded are queued, and run once it has; later
 * requests run at once.
 */
module Media {
  import opened Events

  /** The media calls the video behaviour makes: `currentTime = 0`, `play()`, `pause()`. */
  datatype Action = SeekStart | Play | Pause

  /** The call the video behaviour's listener for slide event e requests, if any. */
  function ActionFor(e: SlideState): (r: seq<Action>)
    ensures |r| <= 1
    ensures e == AfterHide <==> r == []
  {
    match e
    case Show => [SeekStart]
    case AfterShow => [Play]
    case Hide => [Pause]
    case AfterHide => []
  }

  class Player {
    /** `isReady`: the video's metadata has loaded. */
    var ready: bool
    /** `funcQueue`: the calls requested before then, in order. */
    var queue: seq<Action>
    /** The calls made on the video element so far, in order. */
    var performed: seq<Action>
    /** Every call requested through whenReady, in order. */
    ghost var requested: seq<Action>
    /** How many times the metadata has been signalled as loaded. */
    ghost var signals: nat

    /**
     * Before the signal every request waits in the queue and nothing has been
     * performed; after exactly one signal, every request has been performed
     * once, in request order.
     */
    ghost predicate Valid()
      reads this
    {
      && queue <= requested
      && (!ready ==> signals == 0 && queue == requested && performed == [])
      && (ready ==> signals >= 1)
      && (signals == 1 ==> performed == requested)
    }

    constructor ()
      ensures Valid() && !ready && queue == [] && performed == [] && requested == []
    {
      ready := false;
      queue := [];
      performed := [];
      requested := [];
      signals := 0;
    }

    /** whenReady(func): run the call now when ready, otherwise queue it. */
    method WhenReady(a: Action)
      requires Valid()
      modifies this
      ensures Valid() && ready == old(ready) && signals == old(signals)
      ensures requested == old(requested) + [a]
      ensures old(ready) ==> performed == old(performed) + [a] && queue == old(queue)
      ensures !old(ready) ==> queue == old(queue) + [a] && performed == old(performed)
    {
      requested := requested + [a];
      if ready {
        performed := performed + [a];
      } else {
        queue := queue + [a];
      }
    }

    /** The listener the video behaviour registers for slide event e: it requests that event's call. */
    method SlideEvent(e: SlideState)
      requires Valid()
      modifies this
      ensures Valid() && ready == old(ready) && signals == old(signals)
      ensures requested == old(requested) + ActionFor(e)
      ensures old(ready) ==> performed == old(performed) + ActionFor(e) && queue == old(queue)
      ensures !old(ready) ==> queue == old(queue) + ActionFor(e) && performed == old(performed)
    {
      var acts := ActionFor(e);
      if acts != [] {
        WhenReady(acts[0]);
        assert acts == [acts[0]];
      } else {
        assert requested + [] == requested;
        assert performed + [] == performed;
        assert queue + [] == queue;
      }
    }

    /**
     * The `loadedmetadata` handler: ready from now on, and every queued call
     * runs in order. The queue is not emptied, so a second signal runs the
     * queued calls again.
     */
    method LoadedMetadata()
      requires Valid()
      modifies this
      ensures Valid() && ready && signals == old(signals) + 1
      ensures requested == old(requested) && queue == old(queue)
      ensures performed == old(performed) + queue
    {
      ready := true;
      signals := signals + 1;
      var k := 0;
      while k < |queue|
        invariant 0 <= k <= |queue|
        invariant performed == old(performed) + queue[..k]
        invariant ready && signals == old(signals) + 1 && queue == old(queue) && requested == old(requested)
      {
        performed := performed + [queue[k]];
        k := k + 1;
      }
      assert queue[..|queue|] == queue;
    }
  }
}
