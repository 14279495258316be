/**
 * webPresents.Slideshow: the deck controller. It owns the slides in document
 * order, the current slide, the `_started` flag and the `loop` option, and
 * runs the switchTo protocol; each operation is proved against the
 * functions of module Stages on the deck's stage.
 *
 * An asynchronous transition is an explicit in-flight state (`inFlight`),
 * ended by TransitionDone, which is the transition firing `afterShow` on the
 * incoming slide. A duration timer's expiry is the environment step Expire.
 */
module Presents {
  import opened Util
  import opened Behaviours
  import opened Events
  import opened SlideModel
  import opened Stages

  class Deck {
    const slides: seq<Slide>
    const loop: bool
    /** `_currentSlideElm`, as an index into slides. */
    var current: Option<nat>
    /** The incoming slide while a transition is running. */
    var inFlight: Option<nat>
    var started: bool
    /** What page-script listeners observed, in the order they ran. */
    ghost var log: seq<Observation>

    /** Each slide knows its position, so the slides are distinct objects. */
    ghost predicate Indexed()
    {
      forall j :: 0 <= j < |slides| ==> slides[j].index == j
    }

    /** The commit listeners of slide j, if there is one, are well formed. */
    ghost predicate CommitsAt(j: nat)
      reads if j < |slides| then {slides[j]} else {}
    {
      j < |slides| ==> CommitsOk(slides[j].listeners, j, |slides|)
    }

    /** The views of all slides, in order. */
    ghost function Views(): (vs: seq<SlideView>)
      reads slides
      ensures |vs| == |slides|
    {
      seq(|slides|, j requires 0 <= j < |slides| reads slides => slides[j].View())
    }

    /** The views of the slides, one by one. */
    lemma ViewsAre()
      ensures forall j :: 0 <= j < |slides| ==> Views()[j] == slides[j].View()
    {
    }

    /** The deck's stage. */
    ghost function Staging(): Stage
      reads this, slides
    {
      Stage(Views(), current, inFlight)
    }

    /** The parts of the invariant that every operation keeps, started or not. */
    ghost predicate Sound()
      reads this, slides
    {
      && Indexed()
      && (loop ==> |slides| != 1)
      && Consistent(log)
      && StageOk(Staging())
    }

    /** The deck invariant: sound, and no current slide before start. */
    ghost predicate Valid()
      reads this, slides
    {
      Sound() && (!started ==> current.None?)
    }

    /** The slide that the commit listener among ls (if any) hides, as a frame. */
    ghost function CommitSet(ls: seq<Listener>): set<object>
    {
      match OutOf(ls)
      case Some(q) => if q < |slides| then {slides[q]} else {}
      case None => {}
    }

    /** The slides that firing e on slide i may change besides slide i itself. */
    ghost function OutgoingSet(i: nat, e: SlideState): set<object>
      reads this, slides
      requires i < |slides|
    {
      CommitSet(Matching(slides[i].listeners, e))
    }

    /**
     * Fire event e on slide i (Slide.fire): the state is stamped first, then
     * the snapshot of listeners runs in registration order. Only slide i, the
     * outgoing slide of a commit listener, `current` and the log can change.
     */
    method Fire(i: nat, e: SlideState) returns (ghost snap: seq<Listener>)
      requires Indexed() && i < |slides| && Consistent(log)
      requires CommitsAt(i)
      requires var q := OutOf(Matching(slides[i].listeners, e)); q.Some? ==> CommitsAt(q.value)
      modifies this`current, this`log, slides[i], OutgoingSet(i, e)
      ensures Consistent(log) && old(log) <= log
      ensures snap == Matching(old(slides[i].listeners), e)
      ensures slides[i].View() == Fired(old(slides[i].View()), e)
      ensures current == if Commits(snap) == [] then old(current) else Some(i)
      ensures OutOf(snap).Some? ==>
        OutOf(snap).value < |slides| &&
        slides[OutOf(snap).value].View() == Hidden(old(slides[OutOf(snap).value].View()))
      ensures var vs := old(Views())[i := Fired(old(Views())[i], e)];
        Views() == if OutOf(snap).Some? then vs[OutOf(snap).value := Hidden(vs[OutOf(snap).value])] else vs
      ensures forall l :: l in snap && l.kind.User? ==> Observation(i, l.kind.tag, e, e) in log
      decreases if e == AfterShow then 1 else 0, 3
    {
      ViewsAre();
      SnapshotOk(slides[i].listeners, e, i, |slides|);
      var s := slides[i].Stamp(e);
      snap := s;
      RunAll(i, e, s);
      forall j | 0 <= j < |slides| && j != i && Some(j) != OutOf(s) ensures slides[j].View() == old(slides[j].View()) {
        assert slides[j].index == j;
      }
      ViewsAre();
    }

    /**
     * The loop of Slide.fire: the listeners of the snapshot run one after the
     * other, in order; the commit listener among them (at most one) hides the
     * slide it names and makes i current.
     */
    method RunAll(i: nat, e: SlideState, s: seq<Listener>)
      requires Indexed() && i < |slides| && slides[i].state == e && Consistent(log)
      requires forall l :: l in s ==> l.event == e && CommitOk(l, i, |slides|)
      requires |Commits(s)| <= 1
      requires OutOf(s).Some? ==> OutOf(s).value < |slides| && OutOf(s).value != i && CommitsAt(OutOf(s).value)
      modifies this`current, this`log, slides[i], CommitSet(s)
      ensures Consistent(log) && old(log) <= log
      ensures slides[i].View() == old(slides[i].View()).(pending := PendingAfter(old(slides[i].pending), s))
      ensures current == if Commits(s) == [] then old(current) else Some(i)
      ensures OutOf(s).Some? ==>
        slides[OutOf(s).value].View() == Hidden(old(slides[OutOf(s).value].View()))
      ensures forall l :: l in s && l.kind.User? ==> Observation(i, l.kind.tag, e, e) in log
      decreases if e == AfterShow then 1 else 0, 2
    {
      ghost var v0 := slides[i].View();
      FirstCommitSpec(s);
      ghost var c := FirstCommit(s);
      ghost var out := OutOf(s);
      ghost var w0 := if out.Some? then slides[out.value].View() else v0;
      ghost var fin := PendingAfter(v0.pending, s);
      assert s[0..] == s;
      var k := 0;
      while k < |s|
        invariant 0 <= k <= |s|
        invariant slides[i].state == e && Consistent(log) && old(log) <= log
        invariant slides[i].View() == v0.(pending := slides[i].pending)
        invariant PendingAfter(slides[i].pending, s[k..]) == fin
        invariant current == if c < k then Some(i) else old(current)
        invariant out.Some? ==> slides[out.value].View() == if c < k then Hidden(w0) else w0
        invariant out.Some? && k <= c ==> CommitsAt(out.value)
        invariant forall m :: 0 <= m < k && s[m].kind.User? ==> Observation(i, s[m].kind.tag, e, e) in log
      {
        Run(i, e, s, k);
        k := k + 1;
      }
      assert forall l :: l in s ==> exists m :: 0 <= m < |s| && s[m] == l;
    }

    /**
     * Run listener k of the snapshot s of slide i, for event e. A duration
     * listener arms or clears the timer; the commit listener of switchTo hides
     * the outgoing slide, fires `afterHide` on it and then makes i current; a
     * page-script listener observes the slide's state.
     */
    method Run(i: nat, e: SlideState, s: seq<Listener>, k: nat)
      requires Indexed() && i < |slides| && slides[i].state == e && Consistent(log) && k < |s|
      requires forall l :: l in s ==> l.event == e && CommitOk(l, i, |slides|)
      requires |Commits(s)| <= 1
      requires OutOf(s).Some? ==> OutOf(s).value < |slides| && OutOf(s).value != i
      requires OutOf(s).Some? && k <= FirstCommit(s) ==> CommitsAt(OutOf(s).value)
      modifies this`current, this`log, slides[i], CommitSet(s)
      ensures Consistent(log) && old(log) <= log
      ensures slides[i].View() == old(slides[i].View()).(pending := slides[i].pending)
      ensures PendingAfter(slides[i].pending, s[k + 1..]) == PendingAfter(old(slides[i].pending), s[k..])
      ensures current == if k == FirstCommit(s) then Some(i) else old(current)
      ensures OutOf(s).Some? ==>
        slides[OutOf(s).value].View() ==
          if k == FirstCommit(s) then Hidden(old(slides[OutOf(s).value].View()))
          else old(slides[OutOf(s).value].View())
      ensures !s[k].kind.Commit? ==> log == old(log) + ObservedBy(i, e, s[k])
      decreases if e == AfterShow then 1 else 0, 1
    {
      SuffixStep(slides[i].pending, s, k);
      FirstCommitSpec(s);
      assert s[k] in s;
      match s[k].kind {
        case DurationArm(_) =>
          slides[i].pending := true;
        case DurationCancel =>
          slides[i].pending := false;
        case Commit(prev) =>
          RunCommit(i, prev);
        case User(tag) =>
          log := log + [Observation(i, tag, e, slides[i].state)];
      }
    }

    /**
     * The commit listener that switchTo registers on the incoming slide i:
     * the outgoing slide is hidden and fired `afterHide`, then i becomes current.
     */
    method RunCommit(i: nat, prev: Option<nat>)
      requires Indexed() && i < |slides| && Consistent(log)
      requires prev.Some? ==> prev.value < |slides| && prev.value != i && CommitsAt(prev.value)
      modifies this`current, this`log, if prev.Some? then {slides[prev.value]} else {}
      ensures Consistent(log) && old(log) <= log
      ensures current == Some(i)
      ensures prev.Some? ==> slides[prev.value].View() == Hidden(old(slides[prev.value].View()))
      decreases 1, 0
    {
      if prev.Some? {
        var q := prev.value;
        QuietSnapshot(slides[q].listeners, AfterHide, q, |slides|);
        slides[q].visible := false;
        ghost var _ := Fire(q, AfterHide);
      }
      current := Some(i);
    }


    /** Step 1 of switchTo: the settled current slide c fires hide. */
    method Leave(c: nat)
      requires Indexed() && c < |slides| && Consistent(log)
      requires ViewOk(slides[c].View(), c, |slides|) && Onstage(slides[c].View())
      modifies this`current, this`log, slides[c]
      ensures Consistent(log) && old(log) <= log && current == old(current)
      ensures slides[c].View() == Fired(old(slides[c].View()), Hide)
      ensures ViewOk(slides[c].View(), c, |slides|) && Leaving(slides[c].View())
      ensures Views() == old(Views())[c := Fired(old(Views())[c], Hide)]
    {
      ViewsAre();
      LeavingOk(slides[c].View(), c, |slides|);
      ViewCommitsOk(slides[c].View(), c, |slides|);
      ghost var _ := Fire(c, Hide);
    }

    /**
     * Steps 2 and 3 of switchTo: the off-screen target t fires show, is shown,
     * and gets the one-shot commit listener naming the outgoing slide prev.
     */
    method Enter(t: nat, prev: Option<nat>)
      requires Indexed() && t < |slides| && Consistent(log)
      requires ViewOk(slides[t].View(), t, |slides|) && Offstage(slides[t].View())
      requires prev.Some? ==> prev.value < |slides| && prev.value != t
      modifies this`current, this`log, slides[t]
      ensures Consistent(log) && old(log) <= log && current == old(current)
      ensures slides[t].View() == Entering(old(slides[t].View()), prev)
      ensures ViewOk(slides[t].View(), t, |slides|) && Arriving(slides[t].View(), prev)
      ensures Views() == old(Views())[t := Entering(old(Views())[t], prev)]
    {
      ViewsAre();
      EnteringOk(slides[t].View(), prev, t, |slides|);
      QuietKeepsTimer(slides[t].View(), Show, t, |slides|);
      ViewCommitsOk(slides[t].View(), t, |slides|);
      QuietSnapshot(slides[t].listeners, Show, t, |slides|);
      ghost var _ := Fire(t, Show);
      slides[t].visible := true;
      slides[t].One(AfterShow, Commit(prev));
      forall j | 0 <= j < |slides| && j != t ensures slides[j].View() == old(slides[j].View()) {
        assert slides[j].index == j;
      }
      ViewsAre();
    }

    /**
     * afterShow on the Arriving slide t: its commit listener hides the
     * Leaving current slide (if any) and makes t current; nothing is in flight.
     */
    method Arrive(t: nat)
      requires Indexed() && t < |slides| && Consistent(log) && Some(t) != current
      requires ViewOk(slides[t].View(), t, |slides|) && Arriving(slides[t].View(), current)
      requires current.Some? ==>
        && current.value < |slides|
        && ViewOk(slides[current.value].View(), current.value, |slides|) && Leaving(slides[current.value].View())
      modifies this`current, this`inFlight, this`log, slides[t], if current.Some? then {slides[current.value]} else {}
      ensures Consistent(log) && old(log) <= log
      ensures Staging() == Land(Stage(old(Views()), old(current), Some(t)))
    {
      ViewsAre();
      var prev := current;
      ArrivedOk(slides[t].View(), prev, t, |slides|);
      ViewCommitsOk(slides[t].View(), t, |slides|);
      if prev.Some? {
        ViewCommitsOk(slides[prev.value].View(), prev.value, |slides|);
      }
      ghost var _ := Fire(t, AfterShow);
      inFlight := None;
    }

    /**
     * Steps 1-3 of switchTo on a deck that is not busy: the current slide
     * (if any) is settled on stage, and t is another slide, off-screen.
     */
    method Begin(t: nat)
      requires Indexed() && Consistent(log) && inFlight.None? && t < |slides| && Some(t) != current
      requires current.Some? ==>
        current.value < |slides| && ViewOk(slides[current.value].View(), current.value, |slides|) && Onstage(slides[current.value].View())
      requires ViewOk(slides[t].View(), t, |slides|) && Offstage(slides[t].View())
      modifies this`current, this`log, slides
      ensures Consistent(log) && old(log) <= log && current == old(current) && inFlight.None?
      ensures Views() == Stages.Begin(old(Staging()), t).views
      ensures ViewOk(slides[t].View(), t, |slides|) && Arriving(slides[t].View(), current)
      ensures current.Some? ==>
        ViewOk(slides[current.value].View(), current.value, |slides|) && Leaving(slides[current.value].View())
      ensures current.Some? ==> slides[current.value].transition == old(slides[current.value].transition)
    {
      ViewsAre();
      var c := current;
      var n := |slides|;
      if c.Some? {
        Leave(c.value);
      }
      Enter(t, c);
    }

    /**
     * switchTo(slideshow, newSlideElm). The guard is the one its comment
     * intends: the request is dropped while the current slide is not in
     * afterShow. (As written, the guard tests the local `currentSlide`
     * before it is assigned and never fires; see GuardAsWritten.)
     */
    method SwitchTo(target: Option<nat>)
      requires Sound()
      requires target.Some? ==> target.value < |slides| && target != current
      modifies this`current, this`inFlight, this`log, slides
      ensures Sound() && old(log) <= log
      ensures Staging() == Switch(old(Staging()), target)
    {
      ViewsAre();
      ghost var st := Staging();
      SwitchOk(st, target);
      BusyIffInFlight(st);
      if target.None? || (current.Some? && slides[current.value].state != AfterShow) {
        return;
      }
      var t := target.value;
      assert RoleOf(st.views[t], t, current, None) && ViewOk(st.views[t], t, |slides|);
      assert current.Some? ==>
        RoleOf(st.views[current.value], current.value, current, None) && ViewOk(st.views[current.value], current.value, |slides|);
      Proceed(t);
    }

    /** The part of switchTo past its guard: Begin, then Land unless the outgoing slide has a transition. */
    method Proceed(t: nat)
      requires Indexed() && Consistent(log) && inFlight.None? && t < |slides| && Some(t) != current
      requires current.Some? ==>
        current.value < |slides| && ViewOk(slides[current.value].View(), current.value, |slides|) && Onstage(slides[current.value].View())
      requires ViewOk(slides[t].View(), t, |slides|) && Offstage(slides[t].View())
      modifies this`current, this`inFlight, this`log, slides
      ensures Consistent(log) && old(log) <= log
      ensures Staging() == Switch(old(Staging()), Some(t))
    {
      ViewsAre();
      ghost var st := Staging();
      assert !Busy(st);
      Begin(t);
      ghost var m := Stages.Begin(st, t);
      assert Staging() == m.(inFlight := None);
      if current.Some? && slides[current.value].transition.Some? {
        inFlight := Some(t);
        assert Staging() == m;
      } else {
        Arrive(t);
      }
    }

    /**
     * The end of a transition: the transition fires afterShow on the incoming
     * slide, whose commit listener hides the outgoing one and makes it current.
     */
    method TransitionDone()
      requires Valid() && inFlight.Some?
      modifies this`current, this`inFlight, this`log, slides
      ensures Valid() && old(log) <= log
      ensures Staging() == Land(old(Staging()))
    {
      ViewsAre();
      ghost var st := Staging();
      var t := inFlight.value;
      assert RoleOf(st.views[t], t, current, inFlight) && ViewOk(st.views[t], t, |slides|);
      assert RoleOf(st.views[current.value], current.value, current, inFlight) && ViewOk(st.views[current.value], current.value, |slides|);
      LandOk(st);
      Arrive(t);
    }

    /** next(): switchTo the following slide, or the first one when looping past the last. */
    method Next()
      requires Valid() && current.Some?
      modifies this`current, this`inFlight, this`log, slides
      ensures Valid() && old(log) <= log
      ensures Staging() == Switch(old(Staging()), NextOf(old(current).value, |slides|, loop))
    {
      NextOfSpec(current.value, |slides|, loop);
      SwitchTo(NextOf(current.value, |slides|, loop));
    }

    /** prev(): switchTo the preceding slide; on the first slide nothing happens. */
    method Prev()
      requires Valid() && current.Some?
      modifies this`current, this`inFlight, this`log, slides
      ensures Valid() && old(log) <= log
      ensures Staging() == Switch(old(Staging()), PrevOf(old(current).value))
    {
      PrevOfSpec(current.value);
      SwitchTo(PrevOf(current.value));
    }

    /**
     * start(): the first time, switchTo the first slide, which has no
     * outgoing slide and so no transition; later calls do nothing.
     */
    method Start()
      requires Valid()
      modifies this`current, this`inFlight, this`log, this`started, slides
      ensures Valid() && started && old(log) <= log
      ensures old(started) ==> Staging() == old(Staging())
      ensures !old(started) ==> Staging() == Switch(old(Staging()), if |slides| > 0 then Some(0) else None)
      ensures !old(started) && |slides| > 0 ==>
        current == Some(0) && inFlight.None? && slides[0].state == AfterShow && slides[0].visible
    {
      if !started {
        ViewsAre();
        ghost var st := Staging();
        if |slides| > 0 {
          SwitchSettles(st, 0);
        }
        SwitchTo(if |slides| > 0 then Some(0) else None);
        started := true;
        ViewsAre();
      }
    }

    /** Slide.complete(): a slide in afterShow advances the deck; in any other state nothing happens. */
    method Complete(j: nat)
      requires Valid() && j < |slides|
      modifies this`current, this`inFlight, this`log, slides
      ensures Valid() && old(log) <= log
      ensures old(slides[j].state) != AfterShow ==> Staging() == old(Staging())
      ensures old(slides[j].state) == AfterShow ==>
        old(current) == Some(j) && Staging() == Switch(old(Staging()), NextOf(j, |slides|, loop))
    {
      if slides[j].state == AfterShow {
        ViewsAre();
        Settled(Staging(), j);
        Next();
      }
    }

    /**
     * The duration timer of slide j expires: its `timeout` has run out, and it
     * calls complete(). Only a settled current slide has a pending timer.
     */
    method Expire(j: nat)
      requires Valid() && j < |slides|
      modifies this`current, this`inFlight, this`log, slides
      ensures Valid() && old(log) <= log
      ensures !old(slides[j].pending) ==> Staging() == old(Staging())
      ensures old(slides[j].pending) ==>
        old(current) == Some(j) && Staging() == Switch(Cleared(old(Staging()), j), NextOf(j, |slides|, loop))
    {
      if slides[j].pending {
        ViewsAre();
        ghost var st := Staging();
        Settled(st, j);
        ClearedOk(st, j);
        slides[j].pending := false;
        forall k | 0 <= k < |slides| && k != j ensures slides[k].View() == old(slides[k].View()) {
          assert slides[k].index == k;
        }
        ViewsAre();
        assert Staging() == Cleared(st, j);
        Complete(j);
      }
    }

    /** Slide.on(e, callback) from a page script: a persistent listener that observes the slide. */
    method On(j: nat, e: SlideState, tag: nat)
      requires Valid() && j < |slides|
      modifies slides[j]
      ensures Valid()
      ensures Staging() == Listened(old(Staging()), j, Listener(e, User(tag), false))
    {
      Listen(j, Listener(e, User(tag), false));
    }

    /** Slide.one(e, callback) from a page script: a one-shot listener that observes the slide. */
    method One(j: nat, e: SlideState, tag: nat)
      requires Valid() && j < |slides|
      modifies slides[j]
      ensures Valid()
      ensures Staging() == Listened(old(Staging()), j, Listener(e, User(tag), true))
    {
      Listen(j, Listener(e, User(tag), true));
    }

    /** Registering a page-script listener on slide j. */
    method Listen(j: nat, l: Listener)
      requires Valid() && j < |slides| && l.kind.User?
      modifies slides[j]
      ensures Valid()
      ensures Staging() == Listened(old(Staging()), j, l)
    {
      ViewsAre();
      ghost var st := Staging();
      ListenedOk(st, j, l);
      if l.once {
        slides[j].One(l.event, l.kind);
      } else {
        slides[j].On(l.event, l.kind);
      }
      forall k | 0 <= k < |slides| && k != j ensures slides[k].View() == old(slides[k].View()) {
        assert slides[k].index == k;
      }
      ViewsAre();
      assert Views() == Listened(st, j, l).views;
    }

    /** `new Slide(slideshow, elm).transition(opts.transition)`, then applySlideBehaviours on it. */
    static method NewSlide(ghost position: nat, attrs: seq<Attribute>, transition: TransitionRef) returns (s: Slide)
      ensures fresh(s) && s.index == position
      ensures s.View() == Installed(Initial(transition), Installs(attrs))
    {
      s := new Slide(position);
      s.SetTransition(transition);
      s.ApplySlideBehaviours(attrs);
    }

    /**
     * The `each` over the slide elements: a new slide per element, given the
     * default transition and then its behaviours.
     */
    static method MakeSlides(els: seq<seq<Attribute>>, transition: TransitionRef) returns (ss: seq<Slide>)
      ensures |ss| == |els|
      ensures forall j :: 0 <= j < |ss| ==>
        ss[j].View() == Installed(Initial(transition), Installs(els[j])) && ss[j].index == j
    {
      ss := [];
      ghost var want := seq(|els|, j requires 0 <= j < |els| => Installed(Initial(transition), Installs(els[j])));
      var i := 0;
      while i < |els|
        invariant 0 <= i <= |els| && |ss| == i
        invariant forall j :: 0 <= j < i ==> ss[j].View() == want[j] && ss[j].index == j
      {
        var s := NewSlide(i, els[i], transition);
        ss := ss + [s];
        i := i + 1;
      }
    }

    /**
     * new Slideshow(container, opts): one slide per child element (a lone
     * child of a looping deck is cloned first), each given the default
     * transition and then its `data-` behaviours, and all hidden.
     */
    constructor (children: seq<seq<Attribute>>, loop: bool, transition: TransitionRef)
      ensures this.loop == loop && |slides| == |Elements(children, loop)|
      ensures forall j :: 0 <= j < |slides| ==>
        slides[j].View() == Installed(Initial(transition), Installs(Elements(children, loop)[j]))
      ensures current.None? && inFlight.None? && !started && log == []
      ensures Valid()
    {
      var els := Elements(children, loop);
      ElementsSpec(children, loop);
      var ss := MakeSlides(els, transition);
      slides := ss;
      this.loop := loop;
      current := None;
      inFlight := None;
      started := false;
      log := [];
      new;
      ViewsAre();
      forall j | 0 <= j < |slides|
        ensures ViewOk(Views()[j], j, |slides|) && RoleOf(Views()[j], j, None, None)
      {
        InitialOk(transition, els[j], j, |slides|);
      }
    }
  }
}
