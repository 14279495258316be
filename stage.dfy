/**
 * The switchTo protocol of webPresents.Slideshow on values: what each slide's
 * listeners may be, the part each slide plays in the deck, and the deck's
 * steps (switch, transition end) as functions of the deck's stage, with the
 * invariants they keep.
 */
module Stages {
  import opened Util
  import opened Behaviours
  import opened Events
  import opened SlideModel

  /**
   * A commit listener of slide i (of n) is a one-shot afterShow listener
   * naming another slide of the deck, or none.
   */
  predicate CommitOk(l: Listener, i: nat, n: nat)
  {
    l.kind.Commit? ==>
      l.event == AfterShow && l.once && (l.kind.prev.Some? ==> l.kind.prev.value < n && l.kind.prev.value != i)
  }

  /** A duration listener arms on afterShow and cancels on hide, persistently. */
  predicate TimerOk(l: Listener)
  {
    && (l.kind.DurationArm? ==> l.event == AfterShow && !l.once)
    && (l.kind == DurationCancel ==> l.event == Hide && !l.once)
  }

  /** What a listener may be, given the slide (index i of n) whose list holds it. */
  predicate ListenerOk(l: Listener, i: nat, n: nat)
  {
    CommitOk(l, i, n) && TimerOk(l)
  }

  /** The commit listeners of slide i's list: well formed, and at most one. */
  predicate CommitsOk(ls: seq<Listener>, i: nat, n: nat)
  {
    (forall l :: l in ls ==> CommitOk(l, i, n)) && |Commits(ls)| <= 1
  }

  /**
   * The structural invariant of one slide (index i of n): its listeners are
   * well formed, it holds at most one commit listener, an arming duration
   * listener comes with a cancelling one, and a pending timer can be cancelled.
   */
  predicate ViewOk(v: SlideView, i: nat, n: nat)
  {
    && (forall l :: l in v.listeners ==> ListenerOk(l, i, n))
    && |Commits(v.listeners)| <= 1
    && (HasArm(v.listeners) ==> HasCancel(v.listeners))
    && (v.pending ==> HasCancel(v.listeners))
  }

  /** Every page-script listener saw the state named by the event it was run for. */
  predicate Consistent(log: seq<Observation>)
  {
    forall o :: o in log ==> o.observed == o.event
  }

  /** The one-shot listeners that remain after a firing are still well formed. */
  lemma RemainingOk(ls: seq<Listener>, e: SlideState, i: nat, n: nat)
    requires forall l :: l in ls ==> ListenerOk(l, i, n)
    requires |Commits(ls)| <= 1
    requires HasArm(ls) ==> HasCancel(ls)
    ensures var r := Remaining(ls, e);
      && (forall l :: l in r ==> ListenerOk(l, i, n))
      && |Commits(r)| <= 1
      && (HasArm(r) ==> HasCancel(r))
      && (HasCancel(ls) ==> HasCancel(r))
  {
    var r := Remaining(ls, e);
    CommitsRemainingLe(ls, e);
    forall l | l in r ensures ListenerOk(l, i, n) {
      RemainingMember(ls, e, l);
    }
    if HasArm(r) {
      var a :| a in r && a.kind.DurationArm?;
      RemainingMember(ls, e, a);
      assert HasArm(ls);
    }
    if HasCancel(ls) {
      var c :| c in ls && c.kind == DurationCancel;
      assert ListenerOk(c, i, n);
      RemainingMember(ls, e, c);
      assert c in r;
    }
  }

  /** Firing keeps a slide well formed. */
  lemma FiredOk(v: SlideView, e: SlideState, i: nat, n: nat)
    requires ViewOk(v, i, n)
    ensures ViewOk(Fired(v, e), i, n)
  {
    var m := Matching(v.listeners, e);
    RemainingOk(v.listeners, e, i, n);
    PendingAfterSource(v.pending, m);
    if HasArm(m) {
      var a :| a in m && a.kind.DurationArm?;
      MatchingMember(v.listeners, e, a);
      assert HasArm(v.listeners);
    }
  }

  /** Hide runs the duration behaviour's clearTimeout: no timer is pending afterwards. */
  lemma HideClears(v: SlideView, i: nat, n: nat)
    requires ViewOk(v, i, n)
    ensures !Fired(v, Hide).pending
  {
    var m := Matching(v.listeners, Hide);
    assert !HasArm(m) by {
      forall l | l in m ensures !l.kind.DurationArm? {
        MatchingMember(v.listeners, Hide, l);
        assert ListenerOk(l, i, n);
      }
    }
    PendingAfterCancels(v.pending, m);
    if v.pending {
      var c :| c in v.listeners && c.kind == DurationCancel;
      assert ListenerOk(c, i, n);
      MatchingMember(v.listeners, Hide, c);
    }
  }

  /**
   * afterShow runs the duration behaviour's setTimeout: a slide with a
   * duration has a pending auto-advance afterwards, and without one the flag
   * is as it was.
   */
  lemma AfterShowArms(v: SlideView, i: nat, n: nat)
    requires ViewOk(v, i, n)
    ensures Fired(v, AfterShow).pending == (v.pending || HasArm(v.listeners))
  {
    var m := Matching(v.listeners, AfterShow);
    assert !HasCancel(m) by {
      forall l | l in m ensures l.kind != DurationCancel {
        MatchingMember(v.listeners, AfterShow, l);
        assert ListenerOk(l, i, n);
      }
    }
    PendingAfterArms(v.pending, m);
    if HasArm(v.listeners) {
      var a :| a in v.listeners && a.kind.DurationArm?;
      assert ListenerOk(a, i, n);
      MatchingMember(v.listeners, AfterShow, a);
    }
    if HasArm(m) {
      var a :| a in m && a.kind.DurationArm?;
      MatchingMember(v.listeners, AfterShow, a);
    }
  }

  /** show and afterHide run neither a duration listener nor a commit listener. */
  lemma QuietKeepsTimer(v: SlideView, e: SlideState, i: nat, n: nat)
    requires ViewOk(v, i, n) && (e == Show || e == AfterHide)
    ensures Fired(v, e).pending == v.pending
    ensures Commits(Matching(v.listeners, e)) == []
  {
    var m := Matching(v.listeners, e);
    assert !HasCancel(m) && !HasArm(m) by {
      forall l | l in m ensures !l.kind.DurationArm? && l.kind != DurationCancel {
        MatchingMember(v.listeners, e, l);
        assert ListenerOk(l, i, n);
      }
    }
    PendingAfterArms(v.pending, m);
    NoCommitsElsewhere(v.listeners, e);
  }

  /** A listener list without commit listeners names no outgoing slide. */
  lemma {:induction false} NoCommits(ls: seq<Listener>)
    requires forall l :: l in ls ==> !l.kind.Commit?
    ensures Commits(ls) == []
  {
    if ls != [] {
      assert forall l :: l in ls[1..] ==> l in ls;
      NoCommits(ls[1..]);
    }
  }

  /** Registering one more listener adds its commit, if it is one, at the end. */
  lemma CommitsPush(ls: seq<Listener>, l: Listener)
    ensures Commits(ls + [l]) == Commits(ls) + CommitOf(l)
  {
    CommitsAppend(ls, [l]);
    assert [l][1..] == [];
  }

  /**
   * Registering a listener that is not a duration listener keeps a slide well
   * formed, as long as the slide still holds at most one commit listener.
   */
  lemma PushOk(v: SlideView, l: Listener, i: nat, n: nat)
    requires ViewOk(v, i, n) && ListenerOk(l, i, n) && !l.kind.DurationArm? && l.kind != DurationCancel
    requires |Commits(v.listeners) + CommitOf(l)| <= 1
    ensures ViewOk(v.(listeners := v.listeners + [l]), i, n)
    ensures Commits(v.listeners + [l]) == Commits(v.listeners) + CommitOf(l)
  {
    CommitsPush(v.listeners, l);
    var ls := v.listeners + [l];
    assert forall x :: x in ls ==> x in v.listeners || x == l;
    if HasArm(ls) {
      var a :| a in ls && a.kind.DurationArm?;
      assert a in v.listeners;
    }
    if HasCancel(v.listeners) {
      var c :| c in v.listeners && c.kind == DurationCancel;
      assert c in ls;
    }
  }

  /** A page-script listener leaves the structural invariant of a slide intact. */
  lemma UserListenerOk(v: SlideView, l: Listener, i: nat, n: nat)
    requires ViewOk(v, i, n) && l.kind.User?
    ensures ViewOk(v.(listeners := v.listeners + [l]), i, n)
    ensures Commits(v.listeners + [l]) == Commits(v.listeners)
  {
    assert CommitOf(l) == [];
    assert Commits(v.listeners) + [] == Commits(v.listeners);
    PushOk(v, l, i, n);
  }

  /** The outgoing slide named by the commit listener of a list, if it has one that names a slide. */
  function OutOf(ls: seq<Listener>): Option<nat>
  {
    if |Commits(ls)| > 0 then Commits(ls)[0] else None
  }

  /** The slide entering the view: `fire('show')`, `show()`, then the one-shot commit listener is added. */
  function Entering(v: SlideView, prev: Option<nat>): SlideView
  {
    var w := Fired(v, Show);
    w.(visible := true, listeners := w.listeners + [Listener(AfterShow, Commit(prev), true)])
  }

  /** A slide at rest off-screen. */
  predicate Offstage(v: SlideView)
  {
    v.state == AfterHide && !v.visible && !v.pending && Commits(v.listeners) == []
  }

  /** The current slide, settled in view. */
  predicate Onstage(v: SlideView)
  {
    v.state == AfterShow && v.visible && Commits(v.listeners) == []
  }

  /** The outgoing slide while a transition runs: still on screen, hiding, its timer cleared. */
  predicate Leaving(v: SlideView)
  {
    v.state == Hide && v.visible && !v.pending && Commits(v.listeners) == []
  }

  /** The incoming slide while a transition runs: shown, waiting for afterShow, its commit naming prev. */
  predicate Arriving(v: SlideView, prev: Option<nat>)
  {
    v.state == Show && v.visible && !v.pending && Commits(v.listeners) == [prev]
  }

  /** The target of `next()` from slide c of n: the following slide, else the first one when looping. */
  function NextOf(c: nat, n: nat, loop: bool): (r: Option<nat>)
  {
    if c + 1 < n then Some(c + 1) else if loop then Some(0) else None
  }

  /** The target of `prev()` from slide c: the preceding slide; there is no wrap-around. */
  function PrevOf(c: nat): (r: Option<nat>)
  {
    if c > 0 then Some(c - 1) else None
  }

  /**
   * next() moves one slide on; past the last slide it wraps to the first only
   * when looping; with at least two slides the target is never the current one.
   */
  lemma NextOfSpec(c: nat, n: nat, loop: bool)
    requires c < n
    ensures c + 1 < n ==> NextOf(c, n, loop) == Some(c + 1)
    ensures c + 1 == n ==> NextOf(c, n, loop) == if loop then Some(0) else None
    ensures (loop ==> n != 1) ==> NextOf(c, n, loop) != Some(c)
    ensures NextOf(c, n, loop).Some? ==> NextOf(c, n, loop).value < n
  {
  }

  /** prev() moves one slide back and is absent on the first slide. */
  lemma PrevOfSpec(c: nat)
    ensures PrevOf(c).None? <==> c == 0
    ensures PrevOf(c).Some? ==> PrevOf(c).value + 1 == c
  {
  }

  /** The slide elements the constructor creates slides for: a lone slide of a looping deck is cloned. */
  function Elements(children: seq<seq<Attribute>>, loop: bool): seq<seq<Attribute>>
  {
    if loop && |children| == 1 then children + children else children
  }

  /** With `loop` and exactly one child the deck gets a second copy of it; otherwise the children as they are. */
  lemma ElementsSpec(children: seq<seq<Attribute>>, loop: bool)
    ensures loop && |children| == 1 ==>
      |Elements(children, loop)| == 2 && Elements(children, loop)[0] == Elements(children, loop)[1] == children[0]
    ensures !(loop && |children| == 1) ==> Elements(children, loop) == children
    ensures loop ==> |Elements(children, loop)| != 1
  {
  }

  /** A new slide before its behaviours are applied: afterHide, hidden, with the default transition. */
  function Initial(transition: TransitionRef): SlideView
  {
    SlideView(AfterHide, ResolveRef(transition), [], false, false, [])
  }

  /** A slide just created from an element is well formed and off-screen. */
  lemma InitialOk(transition: TransitionRef, attrs: seq<Attribute>, i: nat, n: nat)
    ensures var v := Installed(Initial(transition), Installs(attrs));
      ViewOk(v, i, n) && Offstage(v)
  {
    var ls := DurationListeners(Installs(attrs));
    DurationListenersShape(Installs(attrs));
    assert [] + ls == ls;
    NoCommits(ls);
  }

  /** The structural invariant of a slide includes the shape of its commit listeners. */
  lemma ViewCommitsOk(v: SlideView, i: nat, n: nat)
    requires ViewOk(v, i, n)
    ensures CommitsOk(v.listeners, i, n)
  {
    forall l | l in v.listeners ensures CommitOk(l, i, n) {
      assert ListenerOk(l, i, n);
    }
  }

  /** The snapshot for e of a list with well-formed commits: listeners for e, well-formed commits. */
  lemma SnapshotOk(ls: seq<Listener>, e: SlideState, i: nat, n: nat)
    requires CommitsOk(ls, i, n)
    ensures var s := Matching(ls, e);
      && (forall l :: l in s ==> l.event == e && CommitOk(l, i, n))
      && |Commits(s)| <= 1
      && (OutOf(s).Some? ==> OutOf(s).value < n && OutOf(s).value != i && e == AfterShow)
  {
    var s := Matching(ls, e);
    CommitsMatching(ls, e);
    forall l | l in s ensures l.event == e && CommitOk(l, i, n) {
      MatchingMember(ls, e, l);
    }
    FirstCommitSpec(s);
    if FirstCommit(s) < |s| {
      assert s[FirstCommit(s)] in s;
    }
  }

  /** Listeners for an event other than afterShow name no outgoing slide. */
  lemma QuietSnapshot(ls: seq<Listener>, e: SlideState, i: nat, n: nat)
    requires CommitsOk(ls, i, n) && e != AfterShow
    ensures Commits(Matching(ls, e)) == [] && OutOf(Matching(ls, e)) == None
  {
    NoCommitsElsewhere(ls, e);
  }

  /** hide on the settled current slide: it stays well formed, becomes Leaving, and its snapshot commits nothing. */
  lemma LeavingOk(v: SlideView, i: nat, n: nat)
    requires ViewOk(v, i, n) && Onstage(v)
    ensures ViewOk(Fired(v, Hide), i, n) && Leaving(Fired(v, Hide))
    ensures OutOf(Matching(v.listeners, Hide)) == None && Commits(Matching(v.listeners, Hide)) == []
  {
    FiredOk(v, Hide, i, n);
    HideClears(v, i, n);
    CommitsRemainingLe(v.listeners, Hide);
    ViewCommitsOk(v, i, n);
    QuietSnapshot(v.listeners, Hide, i, n);
  }

  /**
   * show, `show()` and the commit listener on an off-screen slide: it stays
   * well formed and is Arriving, its one commit naming prev.
   */
  lemma EnteringOk(v: SlideView, prev: Option<nat>, i: nat, n: nat)
    requires ViewOk(v, i, n) && Offstage(v)
    requires prev.Some? ==> prev.value < n && prev.value != i
    ensures ViewOk(Entering(v, prev), i, n) && Arriving(Entering(v, prev), prev)
    ensures Commits(Matching(v.listeners, Show)) == []
  {
    var w := Fired(v, Show);
    FiredOk(v, Show, i, n);
    QuietKeepsTimer(v, Show, i, n);
    CommitsRemainingLe(v.listeners, Show);
    var l := Listener(AfterShow, Commit(prev), true);
    assert Commits(w.listeners) + CommitOf(l) == [prev];
    PushOk(w, l, i, n);
  }

  /** afterShow on the Arriving slide: it settles Onstage, and its snapshot holds its commit naming prev. */
  lemma ArrivedOk(v: SlideView, prev: Option<nat>, i: nat, n: nat)
    requires ViewOk(v, i, n) && Arriving(v, prev)
    ensures ViewOk(Fired(v, AfterShow), i, n) && Onstage(Fired(v, AfterShow))
    ensures Commits(Matching(v.listeners, AfterShow)) == [prev] && OutOf(Matching(v.listeners, AfterShow)) == prev
  {
    FiredOk(v, AfterShow, i, n);
    assert forall l :: l in v.listeners ==> ListenerOk(l, i, n);
    CommitsMatchingAll(v.listeners, AfterShow);
    CommitsRemaining(v.listeners);
  }

  /** The commit listener hides a Leaving slide: it is well formed and off-screen afterwards. */
  lemma HiddenOk(v: SlideView, i: nat, n: nat)
    requires ViewOk(v, i, n) && Leaving(v)
    ensures ViewOk(Hidden(v), i, n) && Offstage(Hidden(v))
    ensures Commits(Matching(v.listeners, AfterHide)) == []
  {
    var u := v.(visible := false);
    assert ViewOk(u, i, n);
    FiredOk(u, AfterHide, i, n);
    QuietKeepsTimer(u, AfterHide, i, n);
    CommitsRemainingLe(u.listeners, AfterHide);
  }

  /**
   * The part slide j plays, given the current slide and the slide in flight:
   * Arriving while in flight, Leaving or on stage when current, else off-screen.
   */
  predicate RoleOf(v: SlideView, j: nat, current: Option<nat>, inFlight: Option<nat>)
  {
    if inFlight == Some(j) then Arriving(v, current)
    else if current == Some(j) then (if inFlight.Some? then Leaving(v) else Onstage(v))
    else Offstage(v)
  }

  /** The deck as a value: the views of its slides in order, the current slide, the slide in flight. */
  datatype Stage = Stage(views: seq<SlideView>, current: Option<nat>, inFlight: Option<nat>)

  /** The current slide and the slide in flight, if any, are slides of the deck. */
  predicate InRange(st: Stage)
  {
    && (st.current.Some? ==> st.current.value < |st.views|)
    && (st.inFlight.Some? ==> st.inFlight.value < |st.views|)
  }

  /** Every slide is well formed and plays its part. */
  predicate Cast(st: Stage)
  {
    forall j :: 0 <= j < |st.views| ==>
      ViewOk(st.views[j], j, |st.views|) && RoleOf(st.views[j], j, st.current, st.inFlight)
  }

  /**
   * The deck invariant on values: one slide on stage, or, while a transition
   * runs, the outgoing slide Leaving and the incoming one Arriving; every
   * other slide off-screen.
   */
  predicate StageOk(st: Stage)
  {
    && InRange(st)
    && (st.inFlight.Some? ==> st.current.Some? && st.inFlight != st.current)
    && Cast(st)
  }

  /** The stage between switchTo's steps 1-3 and the incoming slide's afterShow. */
  predicate InFlightOk(st: Stage)
  {
    InRange(st) && st.inFlight.Some? && st.inFlight != st.current && Cast(st)
  }

  /** The guard of switchTo, as its comment states it: the current slide is not in afterShow. */
  predicate Busy(st: Stage)
  {
    st.current.Some? && st.current.value < |st.views| && st.views[st.current.value].state != AfterShow
  }

  /** switchTo calls a transition when the outgoing slide has one. */
  predicate HasTransition(st: Stage)
  {
    st.current.Some? && st.current.value < |st.views| && st.views[st.current.value].transition.Some?
  }

  /**
   * Steps 1-3 of switchTo: the current slide (if any) fires hide; the target
   * fires show, is shown and gets the commit listener; the target is in flight.
   */
  function Begin(st: Stage, t: nat): (r: Stage)
    requires InRange(st) && t < |st.views| && Some(t) != st.current
    ensures |r.views| == |st.views| && r.current == st.current && r.inFlight == Some(t) && InRange(r)
  {
    var c := st.current;
    var vs := if c.Some? then st.views[c.value := Fired(st.views[c.value], Hide)] else st.views;
    Stage(vs[t := Entering(vs[t], c)], c, Some(t))
  }

  /**
   * afterShow on the slide in flight: its commit listener hides the outgoing
   * slide (if any) and fires afterHide on it, and the incoming slide is current.
   */
  function Land(st: Stage): (r: Stage)
    requires InRange(st) && st.inFlight.Some? && st.inFlight != st.current
    ensures |r.views| == |st.views| && r.current == st.inFlight && r.inFlight.None? && InRange(r)
  {
    var t := st.inFlight.value;
    var c := st.current;
    var vs := st.views[t := Fired(st.views[t], AfterShow)];
    Stage(if c.Some? then vs[c.value := Hidden(vs[c.value])] else vs, Some(t), None)
  }

  /**
   * switchTo(target): no target, or a busy deck, changes nothing; otherwise
   * Begin, then, when the outgoing slide has no transition, Land at once.
   */
  function Switch(st: Stage, target: Option<nat>): (r: Stage)
    requires InRange(st) && (target.Some? ==> target.value < |st.views| && target != st.current)
    ensures |r.views| == |st.views|
  {
    if target.None? || Busy(st) then st
    else if HasTransition(st) then Begin(st, target.value)
    else Land(Begin(st, target.value))
  }

  /** Under the invariant the guard holds exactly while a transition is in flight. */
  lemma BusyIffInFlight(st: Stage)
    requires StageOk(st)
    ensures Busy(st) <==> st.inFlight.Some?
  {
    if st.current.Some? {
      assert RoleOf(st.views[st.current.value], st.current.value, st.current, st.inFlight);
    }
  }

  /** Begin on a settled stage moves to a well-cast stage with the target in flight. */
  lemma BeginOk(st: Stage, t: nat)
    requires StageOk(st) && !Busy(st) && t < |st.views| && Some(t) != st.current
    ensures InFlightOk(Begin(st, t))
    ensures Begin(st, t).views[t] == Entering(st.views[t], st.current)
  {
    BusyIffInFlight(st);
    var n := |st.views|;
    var c := st.current;
    var r := Begin(st, t);
    assert RoleOf(st.views[t], t, c, None) && ViewOk(st.views[t], t, n);
    EnteringOk(st.views[t], c, t, n);
    if c.Some? {
      assert RoleOf(st.views[c.value], c.value, c, None) && ViewOk(st.views[c.value], c.value, n);
      LeavingOk(st.views[c.value], c.value, n);
    }
    forall j | 0 <= j < n ensures ViewOk(r.views[j], j, n) && RoleOf(r.views[j], j, c, Some(t)) {
      if j != t && Some(j) != c {
        assert r.views[j] == st.views[j];
        assert RoleOf(st.views[j], j, c, None);
      }
    }
  }

  /** Land on a well-cast stage with a slide in flight settles it: the incoming slide is on stage. */
  lemma LandOk(st: Stage)
    requires InFlightOk(st)
    ensures StageOk(Land(st))
  {
    var n := |st.views|;
    var t := st.inFlight.value;
    var c := st.current;
    var r := Land(st);
    assert RoleOf(st.views[t], t, c, Some(t)) && ViewOk(st.views[t], t, n);
    ArrivedOk(st.views[t], c, t, n);
    if c.Some? {
      assert RoleOf(st.views[c.value], c.value, c, Some(t)) && ViewOk(st.views[c.value], c.value, n);
      HiddenOk(st.views[c.value], c.value, n);
    }
    forall j | 0 <= j < n ensures ViewOk(r.views[j], j, n) && RoleOf(r.views[j], j, Some(t), None) {
      if j != t && Some(j) != c {
        assert r.views[j] == st.views[j];
        assert RoleOf(st.views[j], j, c, Some(t));
      }
    }
  }

  /** switchTo keeps the deck invariant. */
  lemma SwitchOk(st: Stage, target: Option<nat>)
    requires StageOk(st) && (target.Some? ==> target.value < |st.views| && target != st.current)
    ensures StageOk(Switch(st, target))
  {
    if target.Some? && !Busy(st) {
      BeginOk(st, target.value);
      if !HasTransition(st) {
        LandOk(Begin(st, target.value));
      }
    }
  }

  /** While a transition is in flight, switchTo changes nothing: the guard drops the request. */
  lemma GuardHolds(st: Stage, target: Option<nat>)
    requires StageOk(st) && st.inFlight.Some?
    requires target.Some? ==> target.value < |st.views| && target != st.current
    ensures Switch(st, target) == st
  {
    BusyIffInFlight(st);
  }

  /**
   * With no transition on the outgoing slide, switchTo finishes at once: the
   * target is current and settled in view, the outgoing slide is hidden in
   * afterHide, and every other slide is as it was.
   */
  lemma SwitchSettles(st: Stage, t: nat)
    requires StageOk(st) && st.inFlight.None? && t < |st.views| && Some(t) != st.current && !HasTransition(st)
    ensures var r := Switch(st, Some(t));
      && r.current == Some(t) && r.inFlight.None?
      && r.views[t].state == AfterShow && r.views[t].visible
      && (st.current.Some? ==> r.views[st.current.value].state == AfterHide && !r.views[st.current.value].visible)
      && forall j :: 0 <= j < |st.views| && j != t && Some(j) != st.current ==> r.views[j] == st.views[j]
  {
    BusyIffInFlight(st);
    SwitchOk(st, Some(t));
    var r := Switch(st, Some(t));
    assert RoleOf(r.views[t], t, r.current, r.inFlight);
    if st.current.Some? {
      assert RoleOf(r.views[st.current.value], st.current.value, r.current, r.inFlight);
    }
  }

  /**
   * With a transition on the outgoing slide, switchTo leaves current as it
   * is: the outgoing slide is in hide, the target in show and in flight.
   */
  lemma SwitchDefers(st: Stage, t: nat)
    requires StageOk(st) && st.inFlight.None? && t < |st.views| && Some(t) != st.current && HasTransition(st)
    ensures var r := Switch(st, Some(t));
      && r.current == st.current && r.inFlight == Some(t)
      && r.views[t].state == Show && r.views[st.current.value].state == Hide
      && forall j :: 0 <= j < |st.views| && j != t && Some(j) != st.current ==> r.views[j] == st.views[j]
  {
    BusyIffInFlight(st);
    SwitchOk(st, Some(t));
    var r := Switch(st, Some(t));
    assert RoleOf(r.views[t], t, r.current, r.inFlight);
    assert RoleOf(r.views[st.current.value], st.current.value, r.current, r.inFlight);
  }

  /** The end of a transition: the incoming slide is current in afterShow, the outgoing one in afterHide. */
  lemma LandSettles(st: Stage)
    requires StageOk(st) && st.inFlight.Some?
    ensures var r := Land(st);
      && r.current == st.inFlight && r.inFlight.None?
      && r.views[st.inFlight.value].state == AfterShow
      && r.views[st.current.value].state == AfterHide && !r.views[st.current.value].visible
  {
    LandOk(st);
    var r := Land(st);
    assert RoleOf(r.views[st.inFlight.value], st.inFlight.value, r.current, r.inFlight);
    assert RoleOf(r.views[st.current.value], st.current.value, r.current, r.inFlight);
  }

  /**
   * The duration behaviour across a switch: hide clears the outgoing slide's
   * timer, and afterShow arms the incoming slide's timer exactly when it has
   * a duration.
   */
  lemma SwitchTimers(st: Stage, t: nat)
    requires StageOk(st) && st.inFlight.None? && t < |st.views| && Some(t) != st.current
    ensures st.current.Some? ==> !Begin(st, t).views[st.current.value].pending
    ensures !HasTransition(st) ==>
      Switch(st, Some(t)).views[t].pending == HasArm(st.views[t].listeners)
  {
    BusyIffInFlight(st);
    var n := |st.views|;
    var c := st.current;
    assert RoleOf(st.views[t], t, c, None) && ViewOk(st.views[t], t, n);
    if c.Some? {
      assert RoleOf(st.views[c.value], c.value, c, None) && ViewOk(st.views[c.value], c.value, n);
      HideClears(st.views[c.value], c.value, n);
    }
    if !HasTransition(st) {
      var v := st.views[t];
      var e := Entering(v, c);
      EnteringOk(v, c, t, n);
      QuietKeepsTimer(v, Show, t, n);
      AfterShowArms(e, t, n);
      var l := Listener(AfterShow, Commit(c), true);
      var w := Fired(v, Show);
      assert e.listeners == w.listeners + [l];
      assert HasArm(e.listeners) <==> HasArm(w.listeners) by {
        assert forall x :: x in e.listeners ==> x in w.listeners || x == l;
      }
      assert HasArm(w.listeners) <==> HasArm(v.listeners) by {
        forall x | x in v.listeners && x.kind.DurationArm? ensures x in w.listeners {
          assert ListenerOk(x, t, n);
          RemainingMember(v.listeners, Show, x);
        }
        forall x | x in w.listeners ensures x in v.listeners {
          RemainingMember(v.listeners, Show, x);
        }
      }
    }
  }

  /** At most one slide is in show or afterShow. */
  lemma AtMostOneShown(st: Stage, a: nat, b: nat)
    requires StageOk(st) && a < |st.views| && b < |st.views|
    requires st.views[a].state in {Show, AfterShow} && st.views[b].state in {Show, AfterShow}
    ensures a == b
  {
    assert RoleOf(st.views[a], a, st.current, st.inFlight);
    assert RoleOf(st.views[b], b, st.current, st.inFlight);
  }

  /**
   * A slide in afterShow, or one with a pending auto-advance, is the current
   * slide, settled: no transition is in flight.
   */
  lemma Settled(st: Stage, j: nat)
    requires StageOk(st) && j < |st.views| && (st.views[j].state == AfterShow || st.views[j].pending)
    ensures st.current == Some(j) && st.inFlight.None? && st.views[j].state == AfterShow
  {
    assert RoleOf(st.views[j], j, st.current, st.inFlight);
  }

  /** The slide lifecycle: afterHide, show, afterShow, hide, and round again. */
  function NextState(s: SlideState): SlideState
  {
    match s
    case AfterHide => Show
    case Show => AfterShow
    case AfterShow => Hide
    case Hide => AfterHide
  }

  /** State b is state a, or is reached from a by at most `steps` moves along the lifecycle. */
  predicate Along(a: SlideState, b: SlideState, steps: nat)
  {
    b == a || (steps >= 1 && b == NextState(a)) || (steps >= 2 && b == NextState(NextState(a)))
  }

  /**
   * switchTo moves every slide along the lifecycle, never against it: the
   * outgoing and incoming slides by one step when a transition starts, by two
   * when the switch completes at once; every other slide stays where it is.
   */
  lemma SwitchCycles(st: Stage, target: Option<nat>)
    requires StageOk(st) && (target.Some? ==> target.value < |st.views| && target != st.current)
    ensures var r := Switch(st, target);
      forall j :: 0 <= j < |st.views| ==>
        Along(st.views[j].state, r.views[j].state, if HasTransition(st) then 1 else 2)
  {
    if target.Some? && !Busy(st) {
      BusyIffInFlight(st);
      var t := target.value;
      assert RoleOf(st.views[t], t, st.current, st.inFlight);
      if st.current.Some? {
        assert RoleOf(st.views[st.current.value], st.current.value, st.current, st.inFlight);
      }
      if HasTransition(st) {
        SwitchDefers(st, t);
      } else {
        SwitchSettles(st, t);
      }
    }
  }

  /** The end of a transition moves the outgoing and the incoming slide one step along the lifecycle. */
  lemma LandCycles(st: Stage)
    requires StageOk(st) && st.inFlight.Some?
    ensures var r := Land(st);
      forall j :: 0 <= j < |st.views| ==> Along(st.views[j].state, r.views[j].state, 1)
  {
    var t := st.inFlight.value;
    var c := st.current.value;
    assert RoleOf(st.views[t], t, st.current, st.inFlight);
    assert RoleOf(st.views[c], c, st.current, st.inFlight);
    LandSettles(st);
  }

  /** switchTo keeps every slide's transition. */
  lemma SwitchKeepsTransitions(st: Stage, target: Option<nat>)
    requires InRange(st) && (target.Some? ==> target.value < |st.views| && target != st.current)
    ensures forall j :: 0 <= j < |st.views| ==> Switch(st, target).views[j].transition == st.views[j].transition
  {
  }

  /**
   * With no transitions on the first two slides, start() (a switch to slide
   * 0 of a deck with nothing current), then next(), then prev() come back to
   * the first slide: it is current and in afterShow, the second slide is in
   * afterHide again, and nothing is in flight.
   */
  lemma RoundTrip(st: Stage, loop: bool)
    requires StageOk(st) && st.current.None? && |st.views| >= 2
    requires st.views[0].transition.None? && st.views[1].transition.None?
    ensures var a := Switch(st, Some(0));
      var b := Switch(a, NextOf(0, |st.views|, loop));
      var c := Switch(b, PrevOf(1));
      && a.current == Some(0) && b.current == Some(1) && c.current == Some(0)
      && c.inFlight.None? && c.views[0].state == AfterShow && c.views[1].state == AfterHide
  {
    var n := |st.views|;
    assert st.inFlight.None?;
    SwitchSettles(st, 0);
    var a := Switch(st, Some(0));
    SwitchOk(st, Some(0));
    SwitchKeepsTransitions(st, Some(0));
    assert NextOf(0, n, loop) == Some(1);
    SwitchSettles(a, 1);
    var b := Switch(a, Some(1));
    SwitchOk(a, Some(1));
    SwitchKeepsTransitions(a, Some(1));
    assert PrevOf(1) == Some(0);
    SwitchSettles(b, 0);
  }

  /** The stage once the timer of slide j has expired: its flag is cleared. */
  function Cleared(st: Stage, j: nat): (r: Stage)
    requires j < |st.views|
    ensures |r.views| == |st.views| && r.current == st.current && r.inFlight == st.inFlight
  {
    st.(views := st.views[j := st.views[j].(pending := false)])
  }

  /** Clearing a timer keeps the deck invariant. */
  lemma ClearedOk(st: Stage, j: nat)
    requires StageOk(st) && j < |st.views|
    ensures StageOk(Cleared(st, j))
  {
    var r := Cleared(st, j);
    forall k | 0 <= k < |st.views| ensures ViewOk(r.views[k], k, |st.views|) && RoleOf(r.views[k], k, r.current, r.inFlight) {
      assert ViewOk(st.views[k], k, |st.views|) && RoleOf(st.views[k], k, st.current, st.inFlight);
    }
  }

  /** A page script registers listener l on slide j (Listener.on or Listener.one with a page callback). */
  function Listened(st: Stage, j: nat, l: Listener): (r: Stage)
    requires j < |st.views|
    ensures |r.views| == |st.views| && r.current == st.current && r.inFlight == st.inFlight
    ensures r.views[j].listeners == st.views[j].listeners + [l]
  {
    st.(views := st.views[j := st.views[j].(listeners := st.views[j].listeners + [l])])
  }

  /** Page-script listeners keep the deck invariant, whatever slide and phase they are added in. */
  lemma ListenedOk(st: Stage, j: nat, l: Listener)
    requires StageOk(st) && j < |st.views| && l.kind.User?
    ensures StageOk(Listened(st, j, l))
  {
    var r := Listened(st, j, l);
    assert ViewOk(st.views[j], j, |st.views|) && RoleOf(st.views[j], j, st.current, st.inFlight);
    UserListenerOk(st.views[j], l, j, |st.views|);
    forall k | 0 <= k < |st.views| ensures ViewOk(r.views[k], k, |st.views|) && RoleOf(r.views[k], k, r.current, r.inFlight) {
      assert ViewOk(st.views[k], k, |st.views|) && RoleOf(st.views[k], k, st.current, st.inFlight);
    }
  }

  /**
   * The guard of switchTo as written: it tests the local `currentSlide`,
   * which is assigned only after the guard, so it never drops a request.
   */
  function GuardAsWritten(st: Stage): (drop: bool)
    ensures !drop
  {
    var currentSlide: Option<SlideView> := None;
    match currentSlide
    case Some(v) => v.state != AfterShow
    case None => false
  }

  /** switchTo with the guard as written: every request is acted on, in a transition or not. */
  function SwitchAsWritten(st: Stage, target: Option<nat>): (r: Stage)
    requires InRange(st) && (target.Some? ==> target.value < |st.views| && target != st.current)
    ensures |r.views| == |st.views|
    ensures target.None? ==> r == st
    ensures target.Some? && HasTransition(st) ==> r.current == st.current && r.inFlight == target
    ensures target.Some? && !HasTransition(st) ==> r.current == target && r.inFlight.None?
  {
    if target.None? || GuardAsWritten(st) then st
    else if HasTransition(st) then Begin(st, target.value)
    else Land(Begin(st, target.value))
  }

  /**
   * A request made while a transition runs (another next() or prev()) is
   * dropped by the intended guard, but breaks the deck with the guard as
   * written: re-requesting the slide in flight gives it a second commit
   * listener; requesting any other slide starts a second transition, whose
   * commit hides the same outgoing slide as the first one's. The stage
   * tracks only the newer transition, so the first slide in flight is left
   * in show here, although its own transition still fires afterShow on it.
   */
  lemma UnguardedReentry(st: Stage, target: Option<nat>)
    requires StageOk(st) && st.inFlight.Some? && HasTransition(st)
    requires target.Some? && target.value < |st.views| && target != st.current
    ensures Switch(st, target) == st
    ensures !StageOk(SwitchAsWritten(st, target))
    ensures target == st.inFlight ==> |Commits(SwitchAsWritten(st, target).views[target.value].listeners)| == 2
    ensures target != st.inFlight ==> SwitchAsWritten(st, target).views[st.inFlight.value].state == Show
    ensures target != st.inFlight ==>
      var r := SwitchAsWritten(st, target);
      r.inFlight == target
      && Commits(r.views[st.inFlight.value].listeners) == [st.current]
      && Commits(r.views[target.value].listeners) == [st.current]
  {
    GuardHolds(st, target);
    var n := |st.views|;
    var t := target.value;
    var f := st.inFlight.value;
    var c := st.current;
    var r := SwitchAsWritten(st, target);
    assert r == Begin(st, t);
    assert RoleOf(st.views[f], f, c, st.inFlight) && ViewOk(st.views[f], f, n);
    if t == f {
      var v := st.views[t];
      ViewCommitsOk(v, t, n);
      forall l | l in v.listeners && l.kind.Commit? ensures l.event == AfterShow {
        assert CommitOk(l, t, n);
      }
      CommitsKept(v.listeners, Show);
      var w := Fired(v, Show);
      var l := Listener(AfterShow, Commit(c), true);
      CommitsPush(w.listeners, l);
      assert r.views[t] == Entering(v, c);
      assert Commits(r.views[t].listeners) == [c, c];
      assert !ViewOk(r.views[t], t, n);
    } else {
      assert r.views[f] == st.views[f];
      assert !RoleOf(r.views[f], f, r.current, r.inFlight);
      var v := st.views[t];
      assert RoleOf(v, t, c, st.inFlight) && ViewOk(v, t, n);
      ViewCommitsOk(v, t, n);
      forall l | l in v.listeners && l.kind.Commit? ensures l.event == AfterShow {
        assert CommitOk(l, t, n);
      }
      CommitsKept(v.listeners, Show);
      CommitsPush(Fired(v, Show).listeners, Listener(AfterShow, Commit(c), true));
      assert r.views[t] == Entering(v, c);
    }
  }
}
