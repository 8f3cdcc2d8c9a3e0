/**
 * What the sequential frame coordinator guarantees, proved about the model in
 * FrameModel: the gate, the watchers that replace rather than stack, the
 * handlers' reactions to each kind of intersection, the timers, the reset and
 * the delayed viewport check.
 */
module FrameProperties {
  import opened FrameModel

  // ---------------------------------------------------------------------------
  // Labels
  // ---------------------------------------------------------------------------

  /** The label names the action and the direction it is built from. */
  lemma LabelCases(st: FrameState)
    ensures st.Label() == "LEAVE_UP" <==> st.action == "LEAVE" && st.direction == "UP"
    ensures st.Label() == "LEAVE_DOWN" <==> st.action == "LEAVE" && st.direction == "DOWN"
  {
    var l := st.Label();
    if st.action == "ENTER" {
      assert l[0] == 'E';
    } else if st.direction == "UP" {
      assert l == "LEAVE_UP";
    } else {
      assert l == "LEAVE_DOWN";
    }
  }

  // ---------------------------------------------------------------------------
  // Flushing the watchers
  // ---------------------------------------------------------------------------

  /** Activating a frame can shut its successor's gate but never opens a gate. */
  lemma ActivateNeverOpensGate(s: Coord, i: nat, j: nat)
    ensures Gate(Activate(s, i).frames, j) ==> Gate(s.frames, j)
  {
  }

  /** One watcher, then the rest. */
  lemma FlushStep(s: Coord, k: nat)
    requires k < |s.frames|
    ensures FlushFrom(s, k) == FlushFrom(Wake(s, k), k + 1)
  {
  }

  /** A single watcher only activates its own frame, and only when it is waiting. */
  lemma WakeOnlyWakes(s: Coord, k: nat, i: nat)
    requires i < |s.frames|
    ensures Wake(s, k).frames[i].isEnter ==> s.frames[i].isEnter || (i == k && k in s.watchers)
  {
  }

  /** A single watcher never deactivates a frame. */
  lemma WakeKeepsActive(s: Coord, k: nat, i: nat)
    requires i < |s.frames| && s.frames[i].isEnter
    ensures Wake(s, k).frames[i].isEnter
  {
  }

  /** A single watcher leaves every other frame and its watchers alone. */
  lemma WakeElsewhere(s: Coord, k: nat, j: nat)
    requires j != k && j < |s.frames|
    ensures Wake(s, k).frames[j] == s.frames[j] && Wake(s, k).watchers[j] == s.watchers[j]
  {
  }

  /** An earlier watcher leaves a waiting frame waiting, its gate open and its predecessor not waiting. */
  lemma WakeKeepsWaiting(s: Coord, k: nat, i: nat)
    requires k < i && Ready(s, i)
    ensures Ready(Wake(s, k), i)
  {
    WakeElsewhere(s, k, i);
    if i - 1 == k {
      assert Wake(s, k) == s;
    } else {
      WakeElsewhere(s, k, i - 1);
    }
  }

  /** A waiting frame whose gate is open is activated by its own watcher. */
  lemma WakeWakes(s: Coord, k: nat)
    requires Ready(s, k)
    ensures |Wake(s, k).frames| == |s.frames| && Wake(s, k).frames[k].isEnter
  {
  }

  /** A watcher that is absent or behind a shut gate does nothing. */
  lemma FlushSkipsOne(s: Coord, k: nat)
    requires k < |s.frames| && !(k in s.watchers && Gate(s.frames, k))
    ensures FlushFrom(s, k) == FlushFrom(s, k + 1)
  {
    FlushStep(s, k);
    assert Wake(s, k) == s;
  }

  /** Past the last frame there is nothing left to run. */
  lemma FlushPastBoth(s: Coord, k: nat, m: nat)
    requires |s.frames| <= k <= m
    ensures FlushFrom(s, k) == FlushFrom(s, m)
  {
  }

  /** A single watcher never adds a watcher. */
  lemma WakeAddsNoWatcher(s: Coord, k: nat, i: nat)
    ensures Wake(s, k).watchers[i] <= s.watchers[i]
  {
  }

  /** Watchers whose gate is shut are passed over. */
  lemma {:induction false} FlushSkips(s: Coord, k: nat, m: nat)
    requires k <= m
    requires forall j :: j in s.watchers && k <= j < m ==> !Gate(s.frames, j)
    ensures FlushFrom(s, k) == FlushFrom(s, m)
    decreases m - k
  {
    if k < m && k < |s.frames| {
      FlushSkipsOne(s, k);
      FlushSkips(s, k + 1, m);
    } else if k < m {
      FlushPastBoth(s, k, m);
    }
  }

  /** In a settled state no watcher fires. */
  lemma FlushIdle(s: Coord)
    requires Settled(s)
    ensures Flush(s) == s
  {
    FlushSkips(s, 0, |s.frames|);
  }

  /** A watcher that has run leaves every watcher up to its own behind a shut gate. */
  lemma WakeSettles(s: Coord, k: nat)
    requires WellFormed(s)
    requires forall j :: j in s.watchers && j < k ==> !Gate(s.frames, j)
    ensures WellFormed(Wake(s, k))
    ensures forall j :: j in Wake(s, k).watchers && j < k + 1 ==> !Gate(Wake(s, k).frames, j)
  {
    var s' := Wake(s, k);
    forall j | j in s'.watchers && j < k + 1
      ensures !Gate(s'.frames, j)
    {
      if k in s.watchers && Gate(s.frames, k) {
        assert s'.watchers == s.watchers[k := 0];
        assert j != k && s'.watchers[j] == s.watchers[j];
        ActivateNeverOpensGate(s, k, j);
      } else {
        assert s' == s;
      }
    }
  }

  /** After a flush every remaining watcher waits behind a shut gate. */
  lemma {:induction false} FlushSettles(s: Coord, k: nat)
    requires WellFormed(s)
    requires forall j :: j in s.watchers && j < k ==> !Gate(s.frames, j)
    ensures Inv(FlushFrom(s, k))
    decreases |s.frames| - k, 1
  {
    if k < |s.frames| {
      FlushSettlesOn(s, k);
    } else {
      SettledPast(s, k);
    }
  }

  /** Frame `k`'s watcher settles the prefix up to `k`, and the rest of the flush the remainder. */
  lemma {:induction false} FlushSettlesOn(s: Coord, k: nat)
    requires WellFormed(s) && k < |s.frames|
    requires forall j :: j in s.watchers && j < k ==> !Gate(s.frames, j)
    ensures Inv(FlushFrom(s, k))
    decreases |s.frames| - k, 0
  {
    var s' := Wake(s, k);
    WakeSettles(s, k);
    FlushSettles(s', k + 1);
    FlushStep(s, k);
  }


  /** Once past the last frame, every watcher has been passed. */
  lemma SettledPast(s: Coord, k: nat)
    requires WellFormed(s) && k >= |s.frames|
    requires forall j :: j in s.watchers && j < k ==> !Gate(s.frames, j)
    ensures Inv(FlushFrom(s, k))
  {
  }

  /** A flush never deactivates a frame. */
  lemma {:induction false} FlushKeepsActive(s: Coord, k: nat, i: nat)
    requires i < |s.frames| && s.frames[i].isEnter
    ensures FlushFrom(s, k).frames[i].isEnter
    decreases |s.frames| - k
  {
    if k < |s.frames| {
      var s' := Wake(s, k);
      FlushStep(s, k);
      assert FlushFrom(s, k).frames[i] == FlushFrom(s', k + 1).frames[i];
      WakeKeepsActive(s, k, i);
      FlushKeepsActive(s', k + 1, i);
    }
  }

  /** A flush never adds a watcher. */
  lemma {:induction false} FlushAddsNoWatcher(s: Coord, k: nat, i: nat)
    requires i < |s.frames|
    ensures FlushFrom(s, k).watchers[i] <= s.watchers[i]
    decreases |s.frames| - k
  {
    if k < |s.frames| {
      var s' := Wake(s, k);
      FlushStep(s, k);
      assert FlushFrom(s, k).watchers[i] == FlushFrom(s', k + 1).watchers[i];
      FlushAddsNoWatcher(s', k + 1, i);
      WakeAddsNoWatcher(s, k, i);
    }
  }

  /** A flush only activates frames that were waiting: every frame it leaves active was active or waiting. */
  lemma {:induction false} FlushOnlyWakes(s: Coord, k: nat, i: nat)
    requires i < |s.frames|
    ensures FlushFrom(s, k).frames[i].isEnter ==> s.frames[i].isEnter || i in s.watchers
    decreases |s.frames| - k
  {
    if k < |s.frames| {
      var s' := Wake(s, k);
      var r := FlushFrom(s', k + 1);
      FlushStep(s, k);
      assert FlushFrom(s, k).frames[i] == r.frames[i];
      FlushOnlyWakes(s', k + 1, i);
      WakeOnlyWakes(s, k, i);
      WakeAddsNoWatcher(s, k, i);
      assert s'.frames[i].isEnter ==> s.frames[i].isEnter || i in s.watchers;
      assert i in s'.watchers ==> i in s.watchers;
    }
  }

  /** Frame `i` exists and waits with an open gate, and its predecessor does not wait. */
  predicate Ready(s: Coord, i: nat)
  {
    i < |s.frames| && i in s.watchers && Gate(s.frames, i) && (i == 0 || i - 1 !in s.watchers)
  }

  /**
   * A waiting frame whose gate is open and whose predecessor is not waiting
   * is woken by the flush.
   */
  lemma {:induction false} FlushWakes(s: Coord, k: nat, i: nat)
    requires k <= i && Ready(s, i)
    ensures FlushFrom(s, k).frames[i].isEnter
    decreases i - k, 1
  {
    if k < i {
      FlushWakesLater(s, k, i);
    } else {
      FlushWakesNow(s, k);
    }
  }

  /** The watchers before frame `i` leave it ready, and the rest of the flush wakes it. */
  lemma {:induction false} FlushWakesLater(s: Coord, k: nat, i: nat)
    requires k < i && Ready(s, i)
    ensures FlushFrom(s, k).frames[i].isEnter
    decreases i - k, 0
  {
    var s' := Wake(s, k);
    WakeKeepsWaiting(s, k, i);
    FlushWakes(s', k + 1, i);
    FlushStep(s, k);
  }

  /** Frame `k`'s own watcher wakes it, and the rest of the flush keeps it active. */
  lemma FlushWakesNow(s: Coord, k: nat)
    requires Ready(s, k)
    ensures FlushFrom(s, k).frames[k].isEnter
  {
    var s' := Wake(s, k);
    WakeWakes(s, k);
    FlushKeepsActive(s', k + 1, k);
    FlushStep(s, k);
  }


  /**
   * When at most one watcher, that of frame `j0`, can have an open gate, the
   * flush does exactly what that watcher does.
   */
  lemma FlushOne(s: Coord, j0: nat)
    requires WellFormed(s)
    requires forall j :: j in s.watchers && j != j0 ==> !Gate(s.frames, j)
    ensures Flush(s) == Wake(s, j0)
  {
    if j0 >= |s.frames| {
      FlushSkips(s, 0, |s.frames|);
    } else {
      FlushSkips(s, 0, j0);
      var s' := Wake(s, j0);
      forall j | j in s'.watchers && j0 + 1 <= j
        ensures !Gate(s'.frames, j)
      {
        ActivateNeverOpensGate(s, j0, j);
      }
      FlushStep(s, j0);
      FlushSkips(s', j0 + 1, |s.frames|);
    }
  }

  // ---------------------------------------------------------------------------
  // Every event keeps the invariant
  // ---------------------------------------------------------------------------

  /** A completion timer may only fire when it is due first. */
  lemma FireKeepsWellFormed(s: Coord, t: Timer)
    requires WellFormed(s) && Enabled(s, TimerFires(t))
    ensures WellFormed(s.(timers := s.timers - multiset{t}, now := t.due))
  {
    var s1 := s.(timers := s.timers - multiset{t}, now := t.due);
    forall u | u in s1.timers ensures u.frame < |s1.frames| && s1.now <= u.due {
      assert u in s.timers;
    }
  }

  lemma IntersectKeepsInv(s: Coord, i: nat, b: bool)
    requires Inv(s) && i < |s.frames|
    ensures Inv(Step(s, Intersect(i, b)))
  {
    FlushSettles(Handler(s, i, Classify(b, s.y, s.lastY)), 0);
  }

  lemma FireKeepsInv(s: Coord, t: Timer)
    requires Inv(s) && Enabled(s, TimerFires(t))
    ensures Inv(Step(s, TimerFires(t)))
  {
    FireKeepsWellFormed(s, t);
    FlushSettles(SetComplete(s.(timers := s.timers - multiset{t}, now := t.due), t.frame), 0);
  }

  lemma ScrollKeepsInv(s: Coord, p: int)
    requires Inv(s)
    ensures Inv(Step(s, ScrollTo(p)))
  {
    if p != s.y && p < 10 {
      var r := ResetAtTop(Moved(s, p));
      assert WellFormed(r);
      FlushSettles(r, 0);
    }
  }

  lemma CheckKeepsInv(s: Coord)
    requires Inv(s) && s.pendingChecks > 0
    ensures Inv(Step(s, DelayedCheck))
  {
    FlushSettles(CheckFrom(s.(pendingChecks := s.pendingChecks - 1), 0), 0);
  }

  /** Every event keeps the invariant. */
  lemma StepPreservesInv(s: Coord, e: Event)
    requires Inv(s) && Enabled(s, e)
    ensures Inv(Step(s, e))
  {
    match e
    case Intersect(i, b) => IntersectKeepsInv(s, i, b);
    case TimerFires(t) => FireKeepsInv(s, t);
    case Elapse(t) =>
    case ScrollTo(p) => ScrollKeepsInv(s, p);
    case DelayedCheck => CheckKeepsInv(s);
  }

  // ---------------------------------------------------------------------------
  // Reactions to intersections
  // ---------------------------------------------------------------------------

  /**
   * Frame 0: an intersecting entry activates it whatever the direction and
   * changes no other frame; a non-intersecting one only records that it left
   * the viewport.
   */
  lemma FirstFrameStrict(s: Coord, b: bool)
    requires Inv(s) && 0 < |s.frames|
    ensures var r := Step(s, Intersect(0, b));
            && (b ==> r.frames[0].isEnter && InViewport(r, 0) && r.watchers == s.watchers
                      && forall j :: 0 < j < |s.frames| ==> r.frames[j] == s.frames[j])
            && (!b ==> r == s.(inViewport := s.inViewport[0 := false]))
  {
    var h := Handler(s, 0, Classify(b, s.y, s.lastY));
    forall j | j in h.watchers ensures !Gate(h.frames, j) {
      assert j in s.watchers;
    }
    FlushIdle(h);
  }

  /**
   * Frames 1..: an intersecting entry, in either direction, leaves the frame
   * active exactly when it was active or its gate was open, and waiting
   * exactly when the gate was shut; no other frame changes.
   */
  lemma EnterActivatesIffGate(s: Coord, i: nat)
    requires Inv(s) && 0 < i < |s.frames|
    ensures var r := Step(s, Intersect(i, true));
            && r.frames[i].isEnter == (s.frames[i].isEnter || Gate(s.frames, i))
            && (i in r.watchers <==> !Gate(s.frames, i))
            && InViewport(r, i)
            && (forall j :: 0 <= j < |s.frames| && j != i ==> r.frames[j] == s.frames[j])
            && (forall j :: j != i ==> r.watchers[j] == s.watchers[j])
  {
    var st := Classify(true, s.y, s.lastY);
    LabelCases(st);
    var s1 := s.(inViewport := s.inViewport[i := true]);
    var h := SequentialHandler(s, i, st);
    assert h == if Gate(s.frames, i) then Activate(s1, i) else WaitFor(s1, i);
    forall j | j in h.watchers ensures !Gate(h.frames, j) {
      ActivateNeverOpensGate(s1, i, j);
    }
    FlushIdle(h);
  }

  /** Frames 1..: leaving while scrolling down only records that the frame left. */
  lemma LeaveDownOnlyRecords(s: Coord, i: nat)
    requires Inv(s) && 0 < i < |s.frames| && s.y > s.lastY
    ensures Step(s, Intersect(i, false)) == s.(inViewport := s.inViewport[i := false])
  {
    var st := Classify(false, s.y, s.lastY);
    LabelCases(st);
    FlushIdle(s.(inViewport := s.inViewport[i := false]));
  }

  /**
   * Frames 1..: leaving while scrolling up (equal positions included)
   * deactivates the frame and drops its watcher; if the next frame was
   * waiting, its gate is now open and it activates. No other frame changes.
   */
  lemma LeaveUpDeactivates(s: Coord, i: nat)
    requires Inv(s) && 0 < i < |s.frames| && s.y <= s.lastY
    ensures var r := Step(s, Intersect(i, false));
            && !r.frames[i].isEnter && i !in r.watchers && !InViewport(r, i)
            && (i + 1 < |s.frames| ==>
                  r.frames[i + 1].isEnter == (s.frames[i + 1].isEnter || i + 1 in s.watchers))
            && (forall j :: 0 <= j < |s.frames| && j != i && j != i + 1 ==> r.frames[j] == s.frames[j])
  {
    var h := Deactivate(s.(inViewport := s.inViewport[i := false]), i);
    LeaveUpFlush(s, i);
    if i + 1 < |s.frames| {
      assert Gate(h.frames, i + 1);
    }
  }

  /** Leaving while scrolling up is the deactivation followed by the successor's watcher alone. */
  lemma LeaveUpFlush(s: Coord, i: nat)
    requires Inv(s) && 0 < i < |s.frames| && s.y <= s.lastY
    ensures Step(s, Intersect(i, false)) == Wake(Deactivate(s.(inViewport := s.inViewport[i := false]), i), i + 1)
  {
    var st := Classify(false, s.y, s.lastY);
    LabelCases(st);
    var h := Deactivate(s.(inViewport := s.inViewport[i := false]), i);
    assert Step(s, Intersect(i, false)) == Flush(h);
    forall j | j in h.watchers && j != i + 1 ensures !Gate(h.frames, j) {
      assert j in s.watchers && j - 1 != i;
    }
    FlushOne(h, i + 1);
  }

  /**
   * An active frame stays active through every event but two: a
   * non-intersecting entry of that frame while scrolling up (frames 1.. only;
   * frame 0 never deactivates this way), and a scroll to a new position
   * below 10.
   */
  lemma ActiveFrameStaysActive(s: Coord, e: Event, i: nat)
    requires Inv(s) && Enabled(s, e) && i < |s.frames| && s.frames[i].isEnter
    requires !(e.Intersect? && e.frame == i && 0 < i && !e.isIntersecting && s.y <= s.lastY)
    requires !(e.ScrollTo? && e.position != s.y && e.position < 10)
    ensures Step(s, e).frames[i].isEnter
  {
    match e
    case Intersect(j, b) => HandlerKeepsActive(s, j, b, i);
    case TimerFires(t) => TimerKeepsActive(s, t, i);
    case Elapse(_) =>
    case ScrollTo(p) =>
    case DelayedCheck => CheckKeepsActive(s, i);
  }

  /** The timer case of ActiveFrameStaysActive. */
  lemma TimerKeepsActive(s: Coord, t: Timer, i: nat)
    requires WellFormed(s) && Enabled(s, TimerFires(t)) && i < |s.frames| && s.frames[i].isEnter
    ensures Step(s, TimerFires(t)).frames[i].isEnter
  {
    var h := SetComplete(s.(timers := s.timers - multiset{t}, now := t.due), t.frame);
    assert h.frames[i].isEnter;
    FlushKeepsActive(h, 0, i);
  }

  /** The delayed-check case of ActiveFrameStaysActive. */
  lemma CheckKeepsActive(s: Coord, i: nat)
    requires WellFormed(s) && s.pendingChecks > 0 && i < |s.frames| && s.frames[i].isEnter
    ensures Step(s, DelayedCheck).frames[i].isEnter
  {
    var c := CheckFrom(s.(pendingChecks := s.pendingChecks - 1), 0);
    assert c.frames[i].isEnter;
    FlushKeepsActive(c, 0, i);
  }

  /** The intersection case of ActiveFrameStaysActive. */
  lemma HandlerKeepsActive(s: Coord, j: nat, b: bool, i: nat)
    requires WellFormed(s) && j < |s.frames| && i < |s.frames| && s.frames[i].isEnter
    requires !(j == i && 0 < i && !b && s.y <= s.lastY)
    ensures Step(s, Intersect(j, b)).frames[i].isEnter
  {
    var st := Classify(b, s.y, s.lastY);
    LabelCases(st);
    var h := Handler(s, j, st);
    assert h.frames[i].isEnter;
    FlushKeepsActive(h, 0, i);
  }

  // ---------------------------------------------------------------------------
  // Completion timers
  // ---------------------------------------------------------------------------

  /**
   * A firing timer marks its frame's animation complete whether or not the
   * frame is still active (nothing cancels the timer on deactivation), leaves
   * `isEnter` alone, and wakes the next frame if it was waiting.
   */
  lemma TimerCompletesFrame(s: Coord, t: Timer)
    requires Inv(s) && Enabled(s, TimerFires(t))
    ensures var f, r := t.frame, Step(s, TimerFires(t));
            && f < |s.frames|
            && r.frames[f] == s.frames[f].(isAnimationComplete := true)
            && r.now == t.due
            && (f + 1 < |s.frames| ==>
                  r.frames[f + 1].isEnter == (s.frames[f + 1].isEnter || f + 1 in s.watchers))
            && (forall j :: 0 <= j < |s.frames| && j != f && j != f + 1 ==> r.frames[j] == s.frames[j])
  {
    var s1 := s.(timers := s.timers - multiset{t}, now := t.due);
    FireKeepsWellFormed(s, t);
    var h := SetComplete(s1, t.frame);
    forall j | j in h.watchers && j != t.frame + 1 ensures !Gate(h.frames, j) {
      assert j in s.watchers && j - 1 != t.frame;
    }
    FlushOne(h, t.frame + 1);
  }

  /**
   * Deactivating and re-activating a frame keeps the timer of the first
   * activation and starts a second one: the first to fire completes the new
   * animation early.
   */
  lemma ReactivationKeepsOldTimer(s: Coord, i: nat)
    requires i < |s.frames| && s.frames[i].isEnter
    ensures var r := Activate(Deactivate(s, i), i);
            && r.timers == s.timers + multiset{Timer(i, s.now + s.frames[i].animationDuration)}
            && r.frames[i] == s.frames[i].(isAnimationComplete := false)
  {
  }

  // ---------------------------------------------------------------------------
  // The reset at the top of the page
  // ---------------------------------------------------------------------------

  /**
   * The reset leaves every frame inactive, keeps only the watchers of frames
   * that were inactive, and schedules one more check.
   */
  lemma ResetAtTopFrame(s: Coord, p: int, j: nat)
    requires j < |s.frames|
    ensures var r := ResetAtTop(Moved(s, p));
            && |r.frames| == |s.frames| && !r.frames[j].isEnter
            && r.watchers[j] == (if s.frames[j].isEnter then 0 else s.watchers[j])
            && r.pendingChecks == s.pendingChecks + 1
  {
  }

  /**
   * Scrolling to a new position below 10 wakes every inactive waiting frame
   * whose predecessor is not itself waiting: the reset has deactivated that
   * predecessor, which opens the gate. (A frame that is active and waiting,
   * which an ENTER on an active frame with a shut gate produces, is
   * deactivated by the reset and loses its watcher instead.)
   */
  lemma ResetWakesWaiters(s: Coord, p: int, i: nat)
    requires Inv(s) && p != s.y && p < 10
    requires 0 < i < |s.frames| && i in s.watchers && !s.frames[i].isEnter && i - 1 !in s.watchers
    ensures Step(s, ScrollTo(p)).frames[i].isEnter
  {
    var r := ResetAtTop(Moved(s, p));
    ResetAtTopFrame(s, p, i);
    ResetAtTopFrame(s, p, i - 1);
    assert i in r.watchers && i - 1 !in r.watchers && Gate(r.frames, i);
    FlushWakes(r, 0, i);
  }

  /**
   * After scrolling to a new position below 10, the only active frames are
   * frames that were waiting, inactive, before; a check is scheduled.
   */
  lemma ResetLeavesOnlyWaiters(s: Coord, p: int, j: nat)
    requires Inv(s) && p != s.y && p < 10 && j < |s.frames|
    ensures var r := Step(s, ScrollTo(p));
            && (r.frames[j].isEnter ==> j in s.watchers && !s.frames[j].isEnter)
            && r.pendingChecks == s.pendingChecks + 1
  {
    var r := ResetAtTop(Moved(s, p));
    ResetAtTopFrame(s, p, j);
    FlushOnlyWakes(r, 0, j);
  }

  // ---------------------------------------------------------------------------
  // checkInitialFramesInViewport
  // ---------------------------------------------------------------------------

  /** Every frame in the viewport is active or waiting for its predecessor. */
  predicate Covered(s: Coord)
  {
    forall j :: 0 <= j < |s.frames| && InViewport(s, j) ==> s.frames[j].isEnter || j in s.watchers
  }

  /** One iteration covers frame `k` and uncovers none of the frames before it. */
  lemma CheckOneCovers(s: Coord, k: nat, j: nat)
    requires j <= k < |s.frames| && InViewport(s, j)
    requires j < k ==> s.frames[j].isEnter || j in s.watchers
    ensures CheckOne(s, k).frames[j].isEnter || j in CheckOne(s, k).watchers
  {
    if j < k && !s.frames[j].isEnter {
      assert s.watchers[j] > 0;
    }
  }

  /**
   * One iteration on an inactive frame in the viewport activates it exactly
   * when its predecessor lets it through, and otherwise leaves one watcher on it.
   */
  lemma CheckOneGate(s: Coord, k: nat)
    requires k < |s.frames| && InViewport(s, k) && !s.frames[k].isEnter
    ensures CheckOne(s, k).frames[k].isEnter <==> Gate(s.frames, k)
    ensures !Gate(s.frames, k) ==> CheckOne(s, k).watchers[k] == 1
  {
    if !Gate(s.frames, k) {
      assert CheckOne(s, k) == WaitFor(s, k);
    }
  }

  lemma {:induction false} CheckFromCovers(s: Coord, k: nat)
    requires forall j :: 0 <= j < k && j < |s.frames| && InViewport(s, j) ==> s.frames[j].isEnter || j in s.watchers
    ensures Covered(CheckFrom(s, k))
    decreases |s.frames| - k
  {
    if k < |s.frames| {
      var c := CheckOne(s, k);
      forall j | 0 <= j < k + 1 && j < |c.frames| && InViewport(c, j)
        ensures c.frames[j].isEnter || j in c.watchers
      {
        CheckOneCovers(s, k, j);
      }
      CheckFromCovers(c, k + 1);
    }
  }

  /** On a settled, covered state the check changes nothing. */
  lemma {:induction false} CheckFixesCovered(s: Coord, k: nat)
    requires Inv(s) && Covered(s)
    ensures CheckFrom(s, k) == s
    decreases |s.frames| - k
  {
    if k < |s.frames| {
      if InViewport(s, k) && !s.frames[k].isEnter {
        assert k in s.watchers && !Gate(s.frames, k);
        var w := WaitFor(s, k);
        assert w.watchers == s.watchers;
      }
      assert CheckOne(s, k) == s;
      CheckFixesCovered(s, k + 1);
    }
  }

  /**
   * After the check every frame in the viewport is active or waiting, and
   * running the check a second time changes nothing.
   */
  lemma CheckInitialIdempotent(s: Coord)
    requires Inv(s)
    ensures Covered(CheckInitial(s))
    ensures CheckInitial(CheckInitial(s)) == CheckInitial(s)
  {
    var c := CheckFrom(s, 0);
    CheckFromCovers(s, 0);
    FlushIdle(c);
    CheckFixesCovered(c, 0);
    FlushIdle(c);
  }

  /** The check leaves alone every frame that is out of the viewport or already active. */
  lemma {:induction false} CheckSkips(s: Coord, k: nat, j: nat)
    requires j < |s.frames| && (!InViewport(s, j) || s.frames[j].isEnter || j < k)
    ensures CheckFrom(s, k).frames[j] == s.frames[j]
    ensures CheckFrom(s, k).watchers[j] == s.watchers[j]
    decreases |s.frames| - k
  {
    if k < |s.frames| {
      CheckSkips(CheckOne(s, k), k + 1, j);
    }
  }
}
