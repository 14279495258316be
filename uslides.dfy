/**
 * uSlides: the earlier deck. Slides are only shown and hidden; switchTo has
 * no events, no guard and no loop option, and start is one-shot. Its
 * EventProxy is a plain list of handlers per event name.
 */
module USlides {
  import opened Util

  /** The slide after c in a deck of n slides, if there is one. */
  function Following(c: Option<nat>, n: nat): (r: Option<nat>)
    ensures r.Some? <==> c.Some? && c.value + 1 < n
    ensures r.Some? ==> r.value == c.value + 1
  {
    if c.Some? && c.value + 1 < n then Some(c.value + 1) else None
  }

  /** The slide before c, if there is one. */
  function Preceding(c: Option<nat>): (r: Option<nat>)
    ensures r.Some? <==> c.Some? && c.value > 0
    ensures r.Some? ==> r.value + 1 == c.value
  {
    if c.Some? && c.value > 0 then Some(c.value - 1) else None
  }

  /** Where next() leaves the current slide: on the following one, or where it was. */
  function AfterNext(c: Option<nat>, n: nat): Option<nat>
  {
    if Following(c, n).Some? then Following(c, n) else c
  }

  /** Where prev() leaves the current slide: on the preceding one, or where it was. */
  function AfterPrev(c: Option<nat>): Option<nat>
  {
    if Preceding(c).Some? then Preceding(c) else c
  }

  /** The current slide after k calls of next(). */
  function Forward(c: Option<nat>, n: nat, k: nat): Option<nat>
    decreases k
  {
    if k == 0 then c else Forward(AfterNext(c, n), n, k - 1)
  }

  /** The current slide after k calls of prev(). */
  function Backward(c: Option<nat>, k: nat): Option<nat>
    decreases k
  {
    if k == 0 then c else Backward(AfterPrev(c), k - 1)
  }

  /**
   * One step forward and one back is a round trip, and so is one step back
   * and one forward, whenever the first step has a target.
   */
  lemma StepBack(c: Option<nat>, n: nat)
    ensures Following(c, n).Some? ==> Preceding(Following(c, n)) == c
    ensures Preceding(c).Some? && c.value < n ==> Following(Preceding(c), n) == c
  {
  }

  lemma {:induction false} ForwardFrom(m: nat, n: nat, k: nat)
    requires m + k < n
    ensures Forward(Some(m), n, k) == Some(m + k)
    decreases k
  {
    if k > 0 {
      assert AfterNext(Some(m), n) == Some(m + 1);
      ForwardFrom(m + 1, n, k - 1);
    }
  }

  lemma {:induction false} BackwardFrom(m: nat, k: nat)
    requires k <= m
    ensures Backward(Some(m), k) == Some(m - k)
    decreases k
  {
    if k > 0 {
      assert AfterPrev(Some(m)) == Some(m - 1);
      BackwardFrom(m - 1, k - 1);
    }
  }

  /**
   * From a current slide with at least k slides after it, k calls of next()
   * reach the k-th following slide, and k calls of prev() then come back.
   */
  lemma ForwardBack(c: Option<nat>, n: nat, k: nat)
    requires c.Some? && c.value + k < n
    ensures Forward(c, n, k) == Some(c.value + k)
    ensures Backward(Forward(c, n, k), k) == c
  {
    ForwardFrom(c.value, n, k);
    BackwardFrom(c.value + k, k);
  }

  class Deck {
    /** The number of child elements of the container. */
    const count: nat
    /** Whether each slide element is shown. */
    var visible: seq<bool>
    /** `_currentSlideElm`, as an index; None before start and in an empty deck. */
    var current: Option<nat>
    var started: bool

    /** Exactly the current slide is shown; once started, a non-empty deck has a current slide. */
    ghost predicate Valid()
      reads this
    {
      && |visible| == count
      && (current.Some? ==> current.value < count)
      && (forall j :: 0 <= j < count ==> (visible[j] <==> current == Some(j)))
      && (!started ==> current.None?)
      && (started ==> (current.Some? <==> count > 0))
    }

    /** new Slideshow(container, opts): every child is hidden. */
    constructor (count: nat)
      ensures this.count == count && !started && current.None?
      ensures |visible| == count && forall j :: 0 <= j < count ==> !visible[j]
      ensures Valid()
    {
      this.count := count;
      visible := seq(count, j => false);
      current := None;
      started := false;
    }

    /**
     * switchTo(slideshow, newSlide): with a target, the current slide is
     * hidden, the target shown, and the target becomes current; nothing
     * else changes. Without a target nothing happens.
     */
    method SwitchTo(target: Option<nat>)
      requires Valid() && started
      requires target.Some? ==> target.value < count && current.Some?
      modifies this`visible, this`current
      ensures Valid()
      ensures target.None? ==> visible == old(visible) && current == old(current)
      ensures target.Some? ==>
        current == target && visible == old(visible)[old(current).value := false][target.value := true]
    {
      if target.Some? {
        visible := visible[current.value := false];
        visible := visible[target.value := true];
        current := target;
      }
    }

    /** next(): switchTo the following slide; on the last slide nothing happens. */
    method Next()
      requires Valid() && started
      modifies this`visible, this`current
      ensures Valid()
      ensures current == AfterNext(old(current), count)
    {
      SwitchTo(Following(current, count));
    }

    /** prev(): switchTo the preceding slide; on the first slide nothing happens. */
    method Prev()
      requires Valid() && started
      modifies this`visible, this`current
      ensures Valid()
      ensures current == AfterPrev(old(current))
    {
      SwitchTo(Preceding(current));
    }

    /** start(): the first time, the first slide is shown and made current; later calls do nothing. */
    method Start()
      requires Valid()
      modifies this`visible, this`current, this`started
      ensures Valid() && started
      ensures old(started) ==> visible == old(visible) && current == old(current)
      ensures !old(started) ==>
        current == (if count > 0 then Some(0) else None) &&
        visible == if count > 0 then old(visible)[0 := true] else old(visible)
    {
      if !started {
        if count > 0 {
          visible := visible[0 := true];
          current := Some(0);
        }
        started := true;
      }
    }
  }

  /** One `on(eventName, callback)` registration; the callback is named by a number. */
  datatype Binding = Binding(event: string, handler: nat)

  /** The handlers bound to event e, in the order they were bound. */
  function Bound(bs: seq<Binding>, e: string): seq<nat>
  {
    if bs == [] then []
    else Bound(bs[..|bs| - 1], e) + (if bs[|bs| - 1].event == e then [bs[|bs| - 1].handler] else [])
  }

  /**
   * A handler runs when e fires exactly when it was bound to e, and it runs
   * as many times as it was bound to e.
   */
  lemma {:induction false} BoundMember(bs: seq<Binding>, e: string, h: nat)
    ensures h in Bound(bs, e) <==> Binding(e, h) in bs
    ensures multiset(Bound(bs, e))[h] == multiset(bs)[Binding(e, h)]
  {
    if bs != [] {
      var init := bs[..|bs| - 1];
      BoundMember(init, e, h);
      assert bs == init + [bs[|bs| - 1]];
    }
  }

  /** Bindings for other events do not change what e runs; bindings for e add at the end. */
  lemma BoundOn(bs: seq<Binding>, b: Binding, e: string)
    ensures Bound(bs + [b], e) == Bound(bs, e) + (if b.event == e then [b.handler] else [])
  {
    assert (bs + [b])[..|bs|] == bs;
  }

  /** EventProxy: handlers bound per event name; firing runs them all and keeps them. */
  class Proxy {
    var bindings: seq<Binding>

    constructor ()
      ensures bindings == []
    {
      bindings := [];
    }

    /** on(eventName, callback): the handler is bound after all earlier ones. */
    method On(e: string, handler: nat)
      modifies this
      ensures bindings == old(bindings) + [Binding(e, handler)]
    {
      bindings := bindings + [Binding(e, handler)];
    }

    /**
     * fire(eventName): jQuery's trigger walks the bindings in order and runs
     * each handler bound to the event; none is removed. A handler runs
     * exactly as often as it was bound to the event.
     */
    method Fire(e: string) returns (ran: seq<nat>)
      ensures ran == Bound(bindings, e)
      ensures forall h :: h in ran <==> Binding(e, h) in bindings
      ensures forall h :: multiset(ran)[h] == multiset(bindings)[Binding(e, h)]
    {
      ran := [];
      var k := 0;
      while k < |bindings|
        invariant 0 <= k <= |bindings|
        invariant ran == Bound(bindings[..k], e)
      {
        BoundOn(bindings[..k], bindings[k], e);
        assert bindings[..k + 1] == bindings[..k] + [bindings[k]];
        if bindings[k].event == e {
          ran := ran + [bindings[k].handler];
        }
        k := k + 1;
      }
      assert bindings[..k] == bindings;
      forall h
        ensures h in ran <==> Binding(e, h) in bindings
        ensures multiset(ran)[h] == multiset(bindings)[Binding(e, h)]
      {
        BoundMember(bindings, e, h);
      }
    }
  }
}
