/**
 * The sequential frame coordinator of app/composables/useSequentialFrames.ts,
 * as a state machine over values.
 *
 * A coordinator holds an ordered list of frames, each active (`isEnter`) or
 * not and with its animation complete or not; the set of frames waiting for
 * their predecessor (`frameWatchers`, one `watchEffect` each); which frames
 * were last seen in the viewport (`framesInViewport`); the completion timers
 * started by activations; the scroll position `y` with the previous one
 * `lastY`; and the number of delayed viewport checks still to run.
 *
 * Vue's reactions are explicit steps here. The watch on `isEnter` runs right
 * after each write that changes `isEnter`. The `watchEffect` of every waiting
 * frame is re-run by `Flush`, once per frame in ascending order, at the end of
 * every event. The `setTimeout`s become timers with a due time, fired in order
 * of due time, and the 100 ms delayed checks become a counter.
 */
module FrameModel {

  // ---------------------------------------------------------------------------
  // State
  // ---------------------------------------------------------------------------

  /** FrameData without its id and DOM element. */
  datatype Frame = Frame(isEnter: bool, isAnimationComplete: bool, animationDuration: nat)

  /** A pending completion `setTimeout` of frame `frame`, due at time `due`. */
  datatype Timer = Timer(frame: nat, due: nat)

  datatype Coord = Coord(
    frames: seq<Frame>,
    watchers: multiset<nat>,     // one occurrence per live watchEffect of a waiting frame
    inViewport: map<nat, bool>,  // framesInViewport
    timers: multiset<Timer>,     // completion timers not yet fired
    now: nat,                    // the clock the timers run on
    y: int,                      // scroll position
    lastY: int,                  // the scroll position before the last change of y
    pendingChecks: nat)          // delayed checkInitialFramesInViewport calls not yet run

  type Action = a: string | a == "ENTER" || a == "LEAVE" witness "ENTER"
  type Direction = d: string | d == "UP" || d == "DOWN" witness "UP"

  /** FrameState: the action, the direction and the label `${action}_${direction}`. */
  datatype FrameState = FrameState(action: Action, direction: Direction)
  {
    function Label(): string { action + "_" + direction }
  }

  // ---------------------------------------------------------------------------
  // Pure predicates
  // ---------------------------------------------------------------------------

  /**
   * watchFrameIntersection: an entry is ENTER when it intersects and LEAVE
   * otherwise; the direction is DOWN when y has grown past lastY and UP
   * otherwise, equal positions included.
   */
  function Classify(isIntersecting: bool, y: int, lastY: int): (st: FrameState)
    ensures st.action == "ENTER" <==> isIntersecting
    ensures st.direction == "DOWN" <==> y > lastY
  {
    FrameState(if isIntersecting then "ENTER" else "LEAVE", if y > lastY then "DOWN" else "UP")
  }

  /** canActivateByPreviousFrame. */
  function Gate(frames: seq<Frame>, i: nat): (r: bool)
    ensures r <==> i == 0 || (i - 1 < |frames| && (!frames[i - 1].isEnter || frames[i - 1].isAnimationComplete))
  {
    if i == 0 then true
    else if i - 1 >= |frames| then false
    else if !frames[i - 1].isEnter then true
    else frames[i - 1].isEnter && frames[i - 1].isAnimationComplete
  }

  predicate InViewport(s: Coord, i: nat)
  {
    i in s.inViewport && s.inViewport[i]
  }

  // ---------------------------------------------------------------------------
  // Elementary updates
  // ---------------------------------------------------------------------------

  /**
   * Writes `isEnter` of frame `i` and runs the watch on it: a false-to-true
   * change clears `isAnimationComplete` and starts the completion timer, a
   * true-to-false change clears `isAnimationComplete`, and writing the value
   * already there triggers nothing.
   */
  function SetEnter(s: Coord, i: nat, v: bool): (r: Coord)
    requires i < |s.frames|
    ensures |r.frames| == |s.frames| && r.frames[i].isEnter == v
    ensures r.frames[i].animationDuration == s.frames[i].animationDuration
    ensures v != s.frames[i].isEnter ==> !r.frames[i].isAnimationComplete
    ensures v == s.frames[i].isEnter ==> r == s
    ensures r.timers == if v && !s.frames[i].isEnter
                        then s.timers + multiset{Timer(i, s.now + s.frames[i].animationDuration)}
                        else s.timers
    ensures r.watchers == s.watchers && r.inViewport == s.inViewport && r.now == s.now
    ensures r.y == s.y && r.lastY == s.lastY && r.pendingChecks == s.pendingChecks
    ensures r.frames == s.frames[i := r.frames[i]]
  {
    var f := s.frames[i];
    if v == f.isEnter then s
    else if v then
      s.(frames := s.frames[i := f.(isEnter := true, isAnimationComplete := false)],
         timers := s.timers + multiset{Timer(i, s.now + f.animationDuration)})
    else
      s.(frames := s.frames[i := f.(isEnter := false, isAnimationComplete := false)])
  }

  /** cleanupWatcher: stops and forgets the watcher of frame `i`, if there is one. */
  function Cleanup(s: Coord, i: nat): (r: Coord)
    ensures r.watchers == s.watchers[i := 0]
    ensures r.(watchers := s.watchers) == s
  {
    s.(watchers := s.watchers[i := 0])
  }

  /** activateFrame: a frame that exists becomes active and stops waiting. */
  function Activate(s: Coord, i: nat): (r: Coord)
    ensures i >= |s.frames| ==> r == s
    ensures |r.frames| == |s.frames|
    ensures i < |s.frames| ==> r.frames[i].isEnter && r.watchers == s.watchers[i := 0]
    ensures i < |s.frames| && s.frames[i].isEnter ==> r.frames == s.frames && r.timers == s.timers
    ensures i < |s.frames| && !s.frames[i].isEnter ==>
              r.frames == s.frames[i := s.frames[i].(isEnter := true, isAnimationComplete := false)]
    ensures r.inViewport == s.inViewport && r.now == s.now && r.y == s.y && r.lastY == s.lastY
    ensures r.pendingChecks == s.pendingChecks
  {
    if i < |s.frames| then Cleanup(SetEnter(s, i, true), i) else s
  }

  /** deactivateFrame: a frame that exists becomes inactive and stops waiting. */
  function Deactivate(s: Coord, i: nat): (r: Coord)
    ensures i >= |s.frames| ==> r == s
    ensures |r.frames| == |s.frames|
    ensures i < |s.frames| ==> !r.frames[i].isEnter && r.watchers == s.watchers[i := 0]
    ensures i < |s.frames| && s.frames[i].isEnter ==>
              r.frames == s.frames[i := s.frames[i].(isEnter := false, isAnimationComplete := false)]
    ensures i < |s.frames| && !s.frames[i].isEnter ==> r.frames == s.frames
    ensures r.timers == s.timers && r.inViewport == s.inViewport && r.now == s.now
    ensures r.y == s.y && r.lastY == s.lastY && r.pendingChecks == s.pendingChecks
  {
    if i < |s.frames| then Cleanup(SetEnter(s, i, false), i) else s
  }

  /**
   * waitForPreviousFrame: drops the frame's old watcher and registers a new
   * one. Its callers call it only when the gate is shut; the first,
   * synchronous run of the new watchEffect then does nothing.
   */
  function WaitFor(s: Coord, i: nat): (r: Coord)
    requires 0 < i < |s.frames| && !Gate(s.frames, i)
    ensures r.watchers == s.watchers[i := 1]
    ensures r.(watchers := s.watchers) == s
  {
    var c := Cleanup(s, i);
    c.(watchers := c.watchers + multiset{i})
  }

  /** The completion timer's callback: the animation of frame `i` is complete. */
  function SetComplete(s: Coord, i: nat): (r: Coord)
    requires i < |s.frames|
    ensures |r.frames| == |s.frames| && r.frames[i] == s.frames[i].(isAnimationComplete := true)
    ensures r.frames == s.frames[i := r.frames[i]]
    ensures r.(frames := s.frames) == s
  {
    s.(frames := s.frames[i := s.frames[i].(isAnimationComplete := true)])
  }

  // ---------------------------------------------------------------------------
  // Handlers
  // ---------------------------------------------------------------------------

  /** createStrictHandler (frame 0): ENTER activates at once, LEAVE is only recorded. */
  function StrictHandler(s: Coord, i: nat, st: FrameState): (r: Coord)
    requires i < |s.frames|
    ensures |r.frames| == |s.frames| && r.now == s.now && r.y == s.y && r.lastY == s.lastY
    ensures r.pendingChecks == s.pendingChecks
    ensures WellFormed(s) ==> WellFormed(r)
    ensures r.frames == s.frames[i := r.frames[i]]
  {
    if st.action == "ENTER" then
      SetEnter(s.(inViewport := s.inViewport[i := true]), i, true)
    else
      s.(inViewport := s.inViewport[i := false])
  }

  /**
   * createSequentialHandler (frames 1..): LEAVE_UP deactivates, LEAVE_DOWN is
   * only recorded, ENTER in either direction activates when the gate is open
   * and waits for the predecessor otherwise.
   */
  function SequentialHandler(s: Coord, i: nat, st: FrameState): (r: Coord)
    requires 0 < i < |s.frames|
    ensures |r.frames| == |s.frames| && r.now == s.now && r.y == s.y && r.lastY == s.lastY
    ensures r.pendingChecks == s.pendingChecks
    ensures WellFormed(s) ==> WellFormed(r)
    ensures r.frames == s.frames[i := r.frames[i]]
  {
    if st.Label() == "LEAVE_UP" then
      Deactivate(s.(inViewport := s.inViewport[i := false]), i)
    else if st.Label() == "LEAVE_DOWN" then
      s.(inViewport := s.inViewport[i := false])
    else if st.action == "ENTER" then
      var s1 := s.(inViewport := s.inViewport[i := true]);
      if Gate(s1.frames, i) then Activate(s1, i) else WaitFor(s1, i)
    else
      s
  }

  /** setup: frame 0 gets the strict handler, every other frame the sequential one. */
  function Handler(s: Coord, i: nat, st: FrameState): (r: Coord)
    requires i < |s.frames|
    ensures |r.frames| == |s.frames| && r.now == s.now && r.y == s.y && r.lastY == s.lastY
    ensures r.pendingChecks == s.pendingChecks
    ensures WellFormed(s) ==> WellFormed(r)
    ensures r.frames == s.frames[i := r.frames[i]]
  {
    if i == 0 then StrictHandler(s, i, st) else SequentialHandler(s, i, st)
  }

  // ---------------------------------------------------------------------------
  // Re-running the waiting watchers
  // ---------------------------------------------------------------------------

  /** The watchEffect of frame `k`, if it has one: an open gate activates the frame. */
  function Wake(s: Coord, k: nat): Coord
  {
    if k in s.watchers && Gate(s.frames, k) then Activate(s, k) else s
  }

  /**
   * The watchEffect of every waiting frame from `k` on, in ascending order:
   * one whose gate has opened activates its frame and stops itself.
   */
  function FlushFrom(s: Coord, k: nat): (r: Coord)
    ensures |r.frames| == |s.frames|
    ensures r.inViewport == s.inViewport && r.now == s.now && r.y == s.y && r.lastY == s.lastY
    ensures r.pendingChecks == s.pendingChecks
    decreases |s.frames| - k
  {
    if k >= |s.frames| then s
    else FlushFrom(Wake(s, k), k + 1)
  }

  function Flush(s: Coord): Coord
  {
    FlushFrom(s, 0)
  }

  // ---------------------------------------------------------------------------
  // checkInitialFramesInViewport and the reset
  // ---------------------------------------------------------------------------

  /** One iteration of checkInitialFramesInViewport. */
  function CheckOne(s: Coord, k: nat): (r: Coord)
    requires k < |s.frames|
    ensures Inv(s) ==> Inv(r)
    ensures |r.frames| == |s.frames| && r.now == s.now && r.y == s.y && r.lastY == s.lastY
    ensures r.pendingChecks == s.pendingChecks
    ensures WellFormed(s) ==> WellFormed(r)
    ensures r.inViewport == s.inViewport
    ensures forall j :: 0 <= j < |s.frames| && s.frames[j].isEnter ==> r.frames[j].isEnter
  {
    if !InViewport(s, k) || s.frames[k].isEnter then s
    else if Gate(s.frames, k) then Activate(s, k)
    else WaitFor(s, k)
  }

  /** checkInitialFramesInViewport from frame `k` on. */
  function CheckFrom(s: Coord, k: nat): (r: Coord)
    ensures Inv(s) ==> Inv(r)
    ensures WellFormed(s) ==> WellFormed(r)
    ensures |r.frames| == |s.frames|
    ensures r.inViewport == s.inViewport && r.now == s.now && r.y == s.y && r.lastY == s.lastY
    ensures r.pendingChecks == s.pendingChecks
    ensures forall j :: 0 <= j < |s.frames| && s.frames[j].isEnter ==> r.frames[j].isEnter
    decreases |s.frames| - k
  {
    if k >= |s.frames| then s else CheckFrom(CheckOne(s, k), k + 1)
  }

  /** The y < 10 reset from frame `k` on: every active frame is deactivated. */
  function ResetFrom(s: Coord, k: nat): (r: Coord)
    ensures forall j :: r.watchers[j] == if k <= j < |s.frames| && s.frames[j].isEnter then 0 else s.watchers[j]
    ensures WellFormed(s) ==> WellFormed(r)
    ensures |r.frames| == |s.frames|
    ensures r.inViewport == s.inViewport && r.now == s.now && r.y == s.y && r.lastY == s.lastY
    ensures r.pendingChecks == s.pendingChecks && r.timers == s.timers
    ensures forall j :: 0 <= j < |s.frames| ==>
              r.frames[j] == if k <= j && s.frames[j].isEnter
                             then s.frames[j].(isEnter := false, isAnimationComplete := false)
                             else s.frames[j]
    decreases |s.frames| - k
  {
    if k >= |s.frames| then s
    else ResetFrom(if s.frames[k].isEnter then Deactivate(s, k) else s, k + 1)
  }

  /** checkInitialFramesInViewport followed by the watchers it has woken. */
  function CheckInitial(s: Coord): Coord
  {
    Flush(CheckFrom(s, 0))
  }

  // ---------------------------------------------------------------------------
  // Events
  // ---------------------------------------------------------------------------

  datatype Event =
    | Intersect(frame: nat, isIntersecting: bool)  // the frame's IntersectionObserver callback
    | TimerFires(timer: Timer)                     // a completion timer runs
    | Elapse(time: nat)                            // time passes with no timer due
    | ScrollTo(position: int)                      // the scroll position changes
    | DelayedCheck                                 // a delayed checkInitialFramesInViewport runs

  predicate Enabled(s: Coord, e: Event)
  {
    match e
    case Intersect(i, _) => i < |s.frames|
    case TimerFires(t) => t in s.timers && forall u :: u in s.timers ==> t.due <= u.due
    case Elapse(t) => s.now <= t && forall u :: u in s.timers ==> t <= u.due
    case ScrollTo(_) => true
    case DelayedCheck => s.pendingChecks > 0
  }

  /** The lastY watcher: the old position is recorded, the new one taken. */
  function Moved(s: Coord, p: int): Coord
  {
    s.(lastY := s.y, y := p)
  }

  /** The reset watcher's y < 10 branch before the watchers re-run: every frame off, one more check. */
  function ResetAtTop(s: Coord): Coord
  {
    ResetFrom(s, 0).(pendingChecks := s.pendingChecks + 1)
  }

  /**
   * A change of y first records the old position in lastY; a new position
   * below 10 then deactivates every active frame and schedules a check.
   */
  function Scroll(s: Coord, p: int): Coord
  {
    if p == s.y then s
    else if p < 10 then Flush(ResetAtTop(Moved(s, p)))
    else Moved(s, p)
  }

  function Step(s: Coord, e: Event): Coord
    requires WellFormed(s) && Enabled(s, e)
  {
    match e
    case Intersect(i, b) => Flush(Handler(s, i, Classify(b, s.y, s.lastY)))
    case TimerFires(t) =>
      Flush(SetComplete(s.(timers := s.timers - multiset{t}, now := t.due), t.frame))
    case Elapse(t) => s.(now := t)
    case ScrollTo(p) => Scroll(s, p)
    case DelayedCheck => CheckInitial(s.(pendingChecks := s.pendingChecks - 1))
  }

  // ---------------------------------------------------------------------------
  // Invariants
  // ---------------------------------------------------------------------------

  /**
   * Only frames 1.. wait, each with at most one watcher; every timer belongs
   * to a frame and is not overdue.
   */
  predicate WellFormed(s: Coord)
  {
    && (forall j :: j in s.watchers ==> 0 < j < |s.frames| && s.watchers[j] == 1)
    && (forall t :: t in s.timers ==> t.frame < |s.frames| && s.now <= t.due)
  }

  /** Every waiting frame is waiting for a reason: its gate is shut. */
  predicate Settled(s: Coord)
  {
    forall j :: j in s.watchers ==> !Gate(s.frames, j)
  }

  predicate Inv(s: Coord)
  {
    WellFormed(s) && Settled(s)
  }

  /** useSequentialFrames followed by setup: all frames inactive, one check scheduled. */
  function Init(durations: seq<nat>, y: int): (s: Coord)
    ensures Inv(s) && |s.frames| == |durations| && s.pendingChecks == 1
    ensures forall i :: 0 <= i < |durations| ==> s.frames[i] == Frame(false, false, durations[i])
  {
    Coord(seq(|durations|, i requires 0 <= i < |durations| => Frame(false, false, durations[i])),
          multiset{}, map[], multiset{}, 0, y, y, 1)
  }
}
