/**
 * Slide lifecycle states and the per-slide listener lists of the EventProxy
 * bus, with listeners modelled as data rather than closures.
 */
module Events {
  import opened Util
  import opened Behaviours

  /**
   * The four lifecycle events; a slide's `state` is the name of the last
   * event fired on it, so the same type serves for both.
   */
  datatype SlideState = AfterHide | Show | AfterShow | Hide

  /** What a listener does when it runs. */
  datatype Kind =
    | DurationArm(delay: Value)  // duration behaviour, on afterShow: setTimeout(complete, delay)
    | DurationCancel             // duration behaviour, on hide: clearTimeout
    | Commit(prev: Option<nat>)  // switchTo's one-shot afterShow listener; prev is the outgoing slide
    | User(tag: nat)             // a listener added by a page script; it observes the slide

  /** A registration made by `on` (once == false) or `one` (once == true). */
  datatype Listener = Listener(event: SlideState, kind: Kind, once: bool)

  /** What a page-script listener saw when it ran. */
  datatype Observation = Observation(slide: nat, tag: nat, event: SlideState, observed: SlideState)

  /** The listeners a `fire(e)` call runs, in registration order (a snapshot taken when it starts). */
  function Matching(ls: seq<Listener>, e: SlideState): seq<Listener>
  {
    if ls == [] then []
    else (if ls[0].event == e then [ls[0]] else []) + Matching(ls[1..], e)
  }

  /** The listener list after `fire(e)`: the one-shot listeners for e are gone. */
  function Remaining(ls: seq<Listener>, e: SlideState): seq<Listener>
  {
    if ls == [] then []
    else (if ls[0].event == e && ls[0].once then [] else [ls[0]]) + Remaining(ls[1..], e)
  }

  /** A snapshot for e holds exactly the listeners registered for e. */
  lemma {:induction false} MatchingMember(ls: seq<Listener>, e: SlideState, l: Listener)
    ensures l in Matching(ls, e) <==> l in ls && l.event == e
  {
    if ls != [] {
      MatchingMember(ls[1..], e, l);
      assert ls == [ls[0]] + ls[1..];
    }
  }

  /** The snapshot keeps registration order: the listeners of a later registration come after. */
  lemma {:induction false} MatchingAppend(a: seq<Listener>, b: seq<Listener>, e: SlideState)
    ensures Matching(a + b, e) == Matching(a, e) + Matching(b, e)
  {
    if a == [] {
      assert a + b == b;
    } else {
      var h := if a[0].event == e then [a[0]] else [];
      assert (a + b)[0] == a[0] && (a + b)[1..] == a[1..] + b;
      assert Matching(a + b, e) == h + Matching(a[1..] + b, e);
      MatchingAppend(a[1..], b, e);
      assert Matching(a, e) == h + Matching(a[1..], e);
    }
  }

  /** A listener registered for e is in the snapshot as often as it was registered; others are not. */
  lemma {:induction false} MatchingCount(ls: seq<Listener>, e: SlideState, l: Listener)
    ensures multiset(Matching(ls, e))[l] == if l.event == e then multiset(ls)[l] else 0
  {
    if ls != [] {
      MatchingCount(ls[1..], e, l);
      assert ls == [ls[0]] + ls[1..];
    }
  }

  /** Firing e removes exactly the one-shot listeners for e and keeps every other listener. */
  lemma {:induction false} RemainingMember(ls: seq<Listener>, e: SlideState, l: Listener)
    ensures l in Remaining(ls, e) <==> l in ls && !(l.event == e && l.once)
  {
    if ls != [] {
      RemainingMember(ls[1..], e, l);
      assert ls == [ls[0]] + ls[1..];
    }
  }

  /** Firing keeps the kept listeners in registration order. */
  lemma {:induction false} RemainingAppend(a: seq<Listener>, b: seq<Listener>, e: SlideState)
    ensures Remaining(a + b, e) == Remaining(a, e) + Remaining(b, e)
  {
    if a == [] {
      assert a + b == b;
    } else {
      var h := if a[0].event == e && a[0].once then [] else [a[0]];
      assert (a + b)[0] == a[0] && (a + b)[1..] == a[1..] + b;
      assert Remaining(a + b, e) == h + Remaining(a[1..] + b, e);
      RemainingAppend(a[1..], b, e);
      assert Remaining(a, e) == h + Remaining(a[1..], e);
    }
  }

  /** A kept listener stays as often as it was registered; a one-shot listener for e is gone. */
  lemma {:induction false} RemainingCount(ls: seq<Listener>, e: SlideState, l: Listener)
    ensures multiset(Remaining(ls, e))[l] == if l.event == e && l.once then 0 else multiset(ls)[l]
  {
    if ls != [] {
      RemainingCount(ls[1..], e, l);
      assert ls == [ls[0]] + ls[1..];
    }
  }

  /** What page-script listener l records when `fire(e)` on slide i runs it: it sees the state e. */
  function ObservedBy(i: nat, e: SlideState, l: Listener): seq<Observation>
  {
    if l.kind.User? then [Observation(i, l.kind.tag, e, e)] else []
  }

  /** The commit (if any) of one listener: the outgoing slide it names. */
  function CommitOf(l: Listener): seq<Option<nat>>
  {
    if l.kind.Commit? then [l.kind.prev] else []
  }

  /** The outgoing slides named by the commit listeners of a list, in order. */
  function Commits(ls: seq<Listener>): seq<Option<nat>>
  {
    if ls == [] then [] else CommitOf(ls[0]) + Commits(ls[1..])
  }

  lemma {:induction false} CommitsAppend(a: seq<Listener>, b: seq<Listener>)
    ensures Commits(a + b) == Commits(a) + Commits(b)
  {
    if a == [] {
      assert a + b == b;
    } else {
      assert (a + b)[1..] == a[1..] + b;
      CommitsAppend(a[1..], b);
    }
  }

  /** A snapshot holds no more commit listeners than the list it is taken from. */
  lemma {:induction false} CommitsMatching(ls: seq<Listener>, e: SlideState)
    ensures |Commits(Matching(ls, e))| <= |Commits(ls)|
  {
    if ls != [] {
      CommitsMatching(ls[1..], e);
      CommitsAppend(if ls[0].event == e then [ls[0]] else [], Matching(ls[1..], e));
      assert [ls[0]][1..] == [];
    }
  }

  /** Firing never adds a commit listener. */
  lemma {:induction false} CommitsRemainingLe(ls: seq<Listener>, e: SlideState)
    ensures |Commits(Remaining(ls, e))| <= |Commits(ls)|
  {
    if ls != [] {
      CommitsRemainingLe(ls[1..], e);
      CommitsAppend(if ls[0].event == e && ls[0].once then [] else [ls[0]], Remaining(ls[1..], e));
      assert [ls[0]][1..] == [];
    }
  }

  /** Firing afterShow drops every commit listener, since they are all one-shot afterShow listeners. */
  lemma {:induction false} CommitsRemaining(ls: seq<Listener>)
    requires forall l :: l in ls && l.kind.Commit? ==> l.event == AfterShow && l.once
    ensures Commits(Remaining(ls, AfterShow)) == []
  {
    if ls != [] {
      assert forall l :: l in ls[1..] ==> l in ls;
      CommitsRemaining(ls[1..]);
      CommitsAppend(if ls[0].event == AfterShow && ls[0].once then [] else [ls[0]], Remaining(ls[1..], AfterShow));
      assert [ls[0]][1..] == [];
    }
  }

  /** Listeners registered only for events other than afterShow include no commit listener. */
  lemma {:induction false} NoCommitsElsewhere(ls: seq<Listener>, e: SlideState)
    requires e != AfterShow
    requires forall l :: l in ls && l.kind.Commit? ==> l.event == AfterShow
    ensures Commits(Matching(ls, e)) == []
  {
    if ls != [] {
      assert forall l :: l in ls[1..] ==> l in ls;
      NoCommitsElsewhere(ls[1..], e);
      CommitsAppend(if ls[0].event == e then [ls[0]] else [], Matching(ls[1..], e));
      assert [ls[0]][1..] == [];
    }
  }

  /** Firing an event other than afterShow keeps every commit listener. */
  lemma {:induction false} CommitsKept(ls: seq<Listener>, e: SlideState)
    requires e != AfterShow
    requires forall l :: l in ls && l.kind.Commit? ==> l.event == AfterShow
    ensures Commits(Remaining(ls, e)) == Commits(ls)
  {
    if ls != [] {
      assert forall l :: l in ls[1..] ==> l in ls;
      CommitsKept(ls[1..], e);
      CommitsAppend(if ls[0].event == e && ls[0].once then [] else [ls[0]], Remaining(ls[1..], e));
      assert [ls[0]][1..] == [];
      assert ls[0] in ls;
    }
  }

  /** When every commit listener of a list is registered for e, the snapshot for e holds all of them. */
  lemma {:induction false} CommitsMatchingAll(ls: seq<Listener>, e: SlideState)
    requires forall l :: l in ls && l.kind.Commit? ==> l.event == e
    ensures Commits(Matching(ls, e)) == Commits(ls)
  {
    if ls != [] {
      assert forall l :: l in ls[1..] ==> l in ls;
      CommitsMatchingAll(ls[1..], e);
      CommitsAppend(if ls[0].event == e then [ls[0]] else [], Matching(ls[1..], e));
      assert [ls[0]][1..] == [];
      assert ls[0] in ls;
    }
  }

  /** The position of the first commit listener of a list, or its length when there is none. */
  function FirstCommit(ls: seq<Listener>): (c: nat)
    ensures c <= |ls|
  {
    if ls == [] then 0 else if ls[0].kind.Commit? then 0 else 1 + FirstCommit(ls[1..])
  }

  /**
   * The commit listeners of a list, by position: none before FirstCommit; at
   * FirstCommit the first one (if any); and none after it when the list holds
   * at most one.
   */
  lemma {:induction false} FirstCommitSpec(ls: seq<Listener>)
    ensures forall j :: 0 <= j < FirstCommit(ls) ==> !ls[j].kind.Commit?
    ensures FirstCommit(ls) == |ls| <==> Commits(ls) == []
    ensures FirstCommit(ls) < |ls| ==> ls[FirstCommit(ls)].kind == Commit(Commits(ls)[0])
    ensures FirstCommit(ls) < |ls| && |Commits(ls)| <= 1 ==>
      forall j :: FirstCommit(ls) < j < |ls| ==> !ls[j].kind.Commit?
  {
    if ls != [] {
      var t := ls[1..];
      FirstCommitSpec(t);
      if !ls[0].kind.Commit? {
        assert forall j :: 0 < j < |ls| ==> ls[j] == t[j - 1];
      } else {
        assert Commits(ls) == [ls[0].kind.prev] + Commits(t);
        if |Commits(ls)| <= 1 {
          assert Commits(t) == [];
          assert forall j :: 0 < j < |ls| ==> ls[j] == t[j - 1];
        }
      }
    }
  }

  /** Effect of one listener on the slide's pending-timer flag. */
  function TimerStep(pending: bool, l: Listener): bool
  {
    match l.kind
    case DurationArm(_) => true
    case DurationCancel => false
    case _ => pending
  }

  /** The pending-timer flag after running the listeners of a snapshot in order. */
  function PendingAfter(pending: bool, ls: seq<Listener>): bool
    decreases |ls|
  {
    if ls == [] then pending else PendingAfter(TimerStep(pending, ls[0]), ls[1..])
  }

  /** Running the snapshot from position k on is running listener k, then the rest. */
  lemma SuffixStep(pending: bool, s: seq<Listener>, k: nat)
    requires k < |s|
    ensures PendingAfter(pending, s[k..]) == PendingAfter(TimerStep(pending, s[k]), s[k + 1..])
    ensures Commits(s[k..]) == CommitOf(s[k]) + Commits(s[k + 1..])
  {
    assert s[k..][1..] == s[k + 1..];
  }

  predicate HasArm(ls: seq<Listener>) { exists l :: l in ls && l.kind.DurationArm? }

  predicate HasCancel(ls: seq<Listener>) { exists l :: l in ls && l.kind == DurationCancel }

  /** With no cancelling listener, the timer is pending afterwards iff it was, or a listener armed it. */
  lemma {:induction false} PendingAfterArms(pending: bool, ls: seq<Listener>)
    requires !HasCancel(ls)
    ensures PendingAfter(pending, ls) == (pending || HasArm(ls))
    decreases |ls|
  {
    if ls != [] {
      var tail := ls[1..];
      assert forall l :: l in tail ==> l in ls;
      PendingAfterArms(TimerStep(pending, ls[0]), tail);
      assert HasArm(ls) <==> ls[0].kind.DurationArm? || HasArm(tail) by {
        assert forall l :: l in ls ==> l == ls[0] || l in tail;
      }
    }
  }

  /** The timer is pending after a snapshot only if it was before, or a listener in it armed it. */
  lemma {:induction false} PendingAfterSource(pending: bool, ls: seq<Listener>)
    ensures PendingAfter(pending, ls) ==> pending || HasArm(ls)
    decreases |ls|
  {
    if ls != [] {
      var tail := ls[1..];
      PendingAfterSource(TimerStep(pending, ls[0]), tail);
      assert forall l :: l in tail ==> l in ls;
      assert ls[0] in ls;
    }
  }

  /** With no arming listener, the timer is pending afterwards iff it was and nothing cancelled it. */
  lemma {:induction false} PendingAfterCancels(pending: bool, ls: seq<Listener>)
    requires !HasArm(ls)
    ensures PendingAfter(pending, ls) == (pending && !HasCancel(ls))
    decreases |ls|
  {
    if ls != [] {
      var tail := ls[1..];
      assert forall l :: l in tail ==> l in ls;
      PendingAfterCancels(TimerStep(pending, ls[0]), tail);
      assert HasCancel(ls) <==> ls[0].kind == DurationCancel || HasCancel(tail) by {
        assert forall l :: l in ls ==> l == ls[0] || l in tail;
      }
    }
  }
}
