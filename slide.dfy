/**
 * webPresents.Slide: one panel of the deck, with its lifecycle state, its
 * transition, its listener list (the EventProxy part) and the state that its
 * behaviours keep (the duration timer).
 */
module SlideModel {
  import opened Util
  import opened Behaviours
  import opened Events

  /** The two listeners the duration behaviour adds for one installer call. */
  function DurationPair(x: Install): seq<Listener>
  {
    if x.behaviour == Duration then
      [Listener(AfterShow, DurationArm(x.value), false), Listener(Hide, DurationCancel, false)]
    else []
  }

  /** The listeners that a sequence of installer calls adds, in order. */
  function DurationListeners(installs: seq<Install>): seq<Listener>
  {
    if installs == [] then []
    else DurationListeners(installs[..|installs| - 1]) + DurationPair(installs[|installs| - 1])
  }

  /**
   * The duration listeners are persistent, arm the timer only on afterShow and
   * cancel it only on hide, and come with a cancelling listener whenever
   * there is an arming one.
   */
  lemma {:induction false} DurationListenersShape(installs: seq<Install>)
    ensures forall l :: l in DurationListeners(installs) ==>
      (l.kind.DurationArm? && l.event == AfterShow && !l.once) || (l.kind == DurationCancel && l.event == Hide && !l.once)
    ensures HasArm(DurationListeners(installs)) ==> HasCancel(DurationListeners(installs))
  {
    if installs != [] {
      DurationListenersShape(installs[..|installs| - 1]);
      var init := DurationListeners(installs[..|installs| - 1]);
      var pair := DurationPair(installs[|installs| - 1]);
      assert forall l :: l in init + pair ==> l in init || l in pair;
      assert HasCancel(init) ==> HasCancel(init + pair);
      assert pair != [] ==> pair[1] in init + pair;
    }
  }

  /** The fields of a slide, as one value. */
  datatype SlideView = SlideView(
    state: SlideState,
    transition: Option<Transition>,
    listeners: seq<Listener>,
    pending: bool,
    visible: bool,
    foreign: seq<Install>)

  /** A slide after a sequence of installer calls: listeners added, transition overridden, foreign calls recorded. */
  function Installed(v: SlideView, installs: seq<Install>): SlideView
  {
    v.(listeners := v.listeners + DurationListeners(installs),
       transition := TransitionAfter(v.transition, installs),
       foreign := v.foreign + ForeignInstalls(installs))
  }

  /** Running at most one more installer call extends each fold by that call's effect. */
  lemma InstalledStep(v: SlideView, done: seq<Install>, xs: seq<Install>)
    requires |xs| <= 1
    ensures Installed(v, done + xs) == Installed(Installed(v, done), xs)
  {
    if xs == [] {
      assert done + xs == done;
      assert Installed(v, done).listeners + [] == Installed(v, done).listeners;
      assert Installed(v, done).foreign + [] == Installed(v, done).foreign;
    } else {
      var all := done + xs;
      assert all[..|all| - 1] == done && all[|all| - 1] == xs[0];
      assert xs[..0] == [];
      assert TransitionAfter(TransitionAfter(v.transition, done), xs) == TransitionAfter(v.transition, all);
      ListenersStep(v.listeners, done, xs);
      ForeignStep(v.foreign, done, xs);
    }
  }

  lemma ListenersStep(ls: seq<Listener>, done: seq<Install>, xs: seq<Install>)
    requires |xs| == 1
    ensures ls + DurationListeners(done + xs) == ls + DurationListeners(done) + DurationListeners(xs)
  {
    var all := done + xs;
    assert all[..|all| - 1] == done && all[|all| - 1] == xs[0];
    assert xs[..0] == [];
  }

  lemma ForeignStep(fs: seq<Install>, done: seq<Install>, xs: seq<Install>)
    requires |xs| == 1
    ensures fs + ForeignInstalls(done + xs) == fs + ForeignInstalls(done) + ForeignInstalls(xs)
  {
    var all := done + xs;
    assert all[..|all| - 1] == done && all[|all| - 1] == xs[0];
    assert xs[..0] == [];
  }

  /** One installer call: duration adds its two listeners, transition sets the transition, the rest are recorded. */
  lemma InstalledOne(v: SlideView, x: Install)
    ensures Installed(v, [x]) ==
      if x.behaviour == Duration then v.(listeners := v.listeners + DurationPair(x))
      else if x.behaviour == TransitionB then v.(transition := TransitionOfValue(x.value))
      else v.(foreign := v.foreign + [x])
  {
    assert [x][..0] == [];
    assert TransitionAfter(v.transition, [x]) ==
      if x.behaviour == TransitionB then TransitionOfValue(x.value) else v.transition;
    assert DurationListeners([x]) == DurationPair(x);
    assert ForeignInstalls([x]) == if IsForeign(x.behaviour) then [x] else [];
    if x.behaviour == Duration {
      assert v.foreign + [] == v.foreign;
    } else if x.behaviour == TransitionB {
      assert v.listeners + [] == v.listeners;
      assert v.foreign + [] == v.foreign;
    } else {
      assert v.listeners + [] == v.listeners;
    }
  }

  /** The first half of Slide.fire: state stamped with e, one-shot listeners for e removed. */
  function Stamped(v: SlideView, e: SlideState): SlideView
  {
    v.(state := e, listeners := Remaining(v.listeners, e))
  }

  /** A slide after Slide.fire(e) ran its snapshot, as far as the slide's own fields go. */
  function Fired(v: SlideView, e: SlideState): SlideView
  {
    Stamped(v, e).(pending := PendingAfter(v.pending, Matching(v.listeners, e)))
  }

  /** The outgoing slide once the commit listener has run: `hide()`, then `fire('afterHide')`. */
  function Hidden(v: SlideView): SlideView
  {
    Fired(v.(visible := false), AfterHide)
  }

  class Slide {
    var state: SlideState
    var transition: Option<Transition>
    var listeners: seq<Listener>
    /** The duration behaviour's `timeout`: armed and not yet cleared or expired. */
    var pending: bool
    var visible: bool
    /** Installer calls of behaviours whose effects are not modelled (video, fullvideo, fadeelements). */
    var foreign: seq<Install>
    /** The slide's position in its deck. */
    ghost const index: nat

    ghost function View(): SlideView
      reads this
    {
      SlideView(state, transition, listeners, pending, visible, foreign)
    }

    /** A new slide is in `afterHide`, with no transition and no listeners; the deck hides it. */
    constructor (ghost position: nat)
      ensures View() == SlideView(AfterHide, None, [], false, false, []) && index == position
    {
      index := position;
      state := AfterHide;
      transition := None;
      listeners := [];
      pending := false;
      visible := false;
      foreign := [];
    }

    /** EventProxy.on: a persistent listener is appended. */
    method On(e: SlideState, k: Kind)
      modifies this
      ensures View() == old(View()).(listeners := old(listeners) + [Listener(e, k, false)])
    {
      listeners := listeners + [Listener(e, k, false)];
    }

    /** EventProxy.one: a one-shot listener is appended. */
    method One(e: SlideState, k: Kind)
      modifies this
      ensures View() == old(View()).(listeners := old(listeners) + [Listener(e, k, true)])
    {
      listeners := listeners + [Listener(e, k, true)];
    }

    /**
     * The first half of Slide.fire: `state` is stamped with the event name
     * before any listener runs; the listeners to run are a snapshot taken now,
     * and the one-shot ones among them are removed from the list.
     */
    method Stamp(e: SlideState) returns (snapshot: seq<Listener>)
      modifies this
      ensures snapshot == Matching(old(listeners), e)
      ensures View() == Stamped(old(View()), e)
    {
      state := e;
      snapshot := Matching(listeners, e);
      listeners := Remaining(listeners, e);
    }

    /** Slide.transition: a name is looked up in the transitions table, a function is kept. */
    method SetTransition(r: TransitionRef)
      modifies this
      ensures View() == old(View()).(transition := ResolveRef(r))
    {
      match r
      case Name(n) => transition := LookupTransition(n);
      case Func(id) => transition := Some(Custom(id));
    }

    /** One installer of `webPresents.behaviours`, called with the slide and the coerced value. */
    method RunInstaller(x: Install)
      modifies this
      ensures View() == Installed(old(View()), [x])
    {
      InstalledOne(View(), x);
      if x.behaviour == Duration {
        On(AfterShow, DurationArm(x.value));
        On(Hide, DurationCancel);
      } else if x.behaviour == TransitionB {
        match x.value
        case Str(name) => SetTransition(Name(name));
        case Num(_) => transition := None;
      } else {
        foreign := foreign + [x];
      }
    }

    /** One turn of applySlideBehaviours' loop: the installer call (if any) for one attribute. */
    method VisitAttribute(a: Attribute)
      modifies this
      ensures View() == Installed(old(View()), InstallOf(a))
    {
      var calls := InstallOf(a);
      if calls == [] {
        assert Installed(View(), []) == View();
      } else {
        assert calls == [calls[0]];
        RunInstaller(calls[0]);
      }
    }

    /**
     * applySlideBehaviours: the attributes are visited from the last to the
     * first; for each `data-` attribute whose suffix names a registered
     * behaviour, its installer is called once with the coerced value.
     */
    method ApplySlideBehaviours(attrs: seq<Attribute>)
      modifies this
      ensures View() == Installed(old(View()), Installs(attrs))
    {
      var i := |attrs|;
      assert Installed(View(), []) == View();
      while i > 0
        invariant 0 <= i <= |attrs|
        invariant View() == Installed(old(View()), Installs(attrs[i..]))
        decreases i
      {
        i := i - 1;
        assert attrs[i..][1..] == attrs[i + 1..];
        InstalledStep(old(View()), Installs(attrs[i + 1..]), InstallOf(attrs[i]));
        VisitAttribute(attrs[i]);
      }
      assert attrs[0..] == attrs;
    }
  }
}
