/**
 * useSequentialFrames as an object: the frames' refs, the `frameWatchers`
 * and `framesInViewport` maps, the pending timers and the scroll position are
 * fields that the handlers update in place. Every method is proved to move the
 * object from one state to the next exactly as FrameModel says, and the event
 * methods to keep FrameModel's invariant; FrameProperties holds what follows
 * from that.
 */
module SequentialFrames {
  import opened FrameModel
  import FrameProperties

  class FrameCoordinator {
    var frames: seq<Frame>
    var watchers: multiset<nat>
    var inViewport: map<nat, bool>
    var timers: multiset<Timer>
    var now: nat
    var y: int
    var lastY: int
    var pendingChecks: nat

    function State(): Coord
      reads this
    {
      Coord(frames, watchers, inViewport, timers, now, y, lastY, pendingChecks)
    }

    /** useSequentialFrames(frameConfigs) followed by setup(): one check is scheduled. */
    constructor (durations: seq<nat>, y0: int)
      ensures State() == Init(durations, y0)
    {
      frames := seq(|durations|, i requires 0 <= i < |durations| => Frame(false, false, durations[i]));
      watchers := multiset{};
      inViewport := map[];
      timers := multiset{};
      now := 0;
      y := y0;
      lastY := y0;
      pendingChecks := 1;
    }

    /** The watch on `isEnter`, called with the new and the old value after a change. */
    method OnEnterChanged(i: nat, newValue: bool, oldValue: bool)
      requires i < |frames| && frames[i].isEnter == newValue && newValue != oldValue
      modifies this
      ensures State() == FrameModel.SetEnter(old(State()).(frames := old(frames)[i := old(frames)[i].(isEnter := oldValue)]), i, newValue)
    {
      if newValue && !oldValue {
        frames := frames[i := frames[i].(isAnimationComplete := false)];
        timers := timers + multiset{Timer(i, now + frames[i].animationDuration)};
      } else if !newValue && oldValue {
        frames := frames[i := frames[i].(isAnimationComplete := false)];
      }
    }

    /** A write to `frames[i].isEnter`, followed by the watch on it when the value changes. */
    method SetEnter(i: nat, v: bool)
      requires i < |frames|
      modifies this
      ensures State() == FrameModel.SetEnter(old(State()), i, v)
    {
      ghost var s0 := State();
      var oldValue := frames[i].isEnter;
      frames := frames[i := frames[i].(isEnter := v)];
      if v != oldValue {
        assert State().(frames := frames[i := frames[i].(isEnter := oldValue)]) == s0;
        OnEnterChanged(i, v, oldValue);
      } else {
        assert frames == old(frames);
      }
    }

    method CleanupWatcher(i: nat)
      modifies this
      ensures State() == Cleanup(old(State()), i)
    {
      if i in watchers {
        watchers := watchers[i := 0];
      } else {
        assert watchers == watchers[i := 0];
      }
    }

    method ActivateFrame(i: nat)
      modifies this
      ensures State() == Activate(old(State()), i)
    {
      if i < |frames| {
        SetEnter(i, true);
        CleanupWatcher(i);
      }
    }

    method DeactivateFrame(i: nat)
      modifies this
      ensures State() == Deactivate(old(State()), i)
    {
      if i < |frames| {
        SetEnter(i, false);
        CleanupWatcher(i);
      }
    }

    method WaitForPreviousFrame(i: nat)
      requires 0 < i < |frames| && !Gate(frames, i)
      modifies this
      ensures State() == WaitFor(old(State()), i)
    {
      CleanupWatcher(i);
      watchers := watchers + multiset{i};
    }

    method StrictHandler(i: nat, st: FrameState)
      requires i < |frames|
      modifies this
      ensures State() == FrameModel.StrictHandler(old(State()), i, st)
    {
      if st.action == "ENTER" {
        inViewport := inViewport[i := true];
        SetEnter(i, true);
        return;
      }
      inViewport := inViewport[i := false];
    }

    method SequentialHandler(i: nat, st: FrameState)
      requires 0 < i < |frames|
      modifies this
      ensures State() == FrameModel.SequentialHandler(old(State()), i, st)
    {
      if st.Label() == "LEAVE_UP" {
        inViewport := inViewport[i := false];
        DeactivateFrame(i);
        return;
      }
      if st.Label() == "LEAVE_DOWN" {
        inViewport := inViewport[i := false];
        return;
      }
      if st.action == "ENTER" {
        inViewport := inViewport[i := true];
        if Gate(frames, i) {
          ActivateFrame(i);
        } else {
          WaitForPreviousFrame(i);
        }
      }
    }

    /** Re-runs the watchEffect of every waiting frame, in ascending order. */
    method FlushWatchers()
      modifies this
      ensures State() == Flush(old(State()))
    {
      var k := 0;
      while k < |frames|
        invariant |frames| == |old(frames)|
        invariant FlushFrom(State(), k) == Flush(old(State()))
      {
        if k in watchers && Gate(frames, k) {
          ActivateFrame(k);
        }
        k := k + 1;
      }
    }

    method CheckInitialFramesInViewport()
      modifies this
      ensures State() == CheckFrom(old(State()), 0)
    {
      var index := 0;
      while index < |frames|
        invariant |frames| == |old(frames)|
        invariant CheckFrom(State(), index) == CheckFrom(old(State()), 0)
      {
        var isInViewport := index in inViewport && inViewport[index];
        if isInViewport && !frames[index].isEnter {
          if Gate(frames, index) {
            ActivateFrame(index);
          } else {
            WaitForPreviousFrame(index);
          }
        }
        index := index + 1;
      }
    }

    /** The y < 10 branch of the scroll watcher: every active frame is deactivated. */
    method ResetAll()
      modifies this
      ensures State() == ResetFrom(old(State()), 0)
    {
      var index := 0;
      while index < |frames|
        invariant |frames| == |old(frames)|
        invariant ResetFrom(State(), index) == ResetFrom(old(State()), 0)
      {
        if frames[index].isEnter {
          DeactivateFrame(index);
        }
        index := index + 1;
      }
    }

    // -------------------------------------------------------------------------
    // Events
    // -------------------------------------------------------------------------

    /** The IntersectionObserver callback of frame `i`. */
    method OnIntersection(i: nat, isIntersecting: bool)
      requires Inv(State()) && i < |frames|
      modifies this
      ensures State() == Step(old(State()), Intersect(i, isIntersecting)) && Inv(State())
    {
      var st := Classify(isIntersecting, y, lastY);
      if i == 0 {
        StrictHandler(i, st);
      } else {
        SequentialHandler(i, st);
      }
      FlushWatchers();
      FrameProperties.StepPreservesInv(old(State()), Intersect(i, isIntersecting));
    }

    /** A completion timer runs: the frame's animation is complete. */
    method OnTimer(t: Timer)
      requires Inv(State()) && Enabled(State(), TimerFires(t))
      modifies this
      ensures State() == Step(old(State()), TimerFires(t)) && Inv(State())
    {
      timers := timers - multiset{t};
      now := t.due;
      frames := frames[t.frame := frames[t.frame].(isAnimationComplete := true)];
      FlushWatchers();
      FrameProperties.StepPreservesInv(old(State()), TimerFires(t));
    }

    /** Time passes without any timer becoming due. */
    method OnElapse(time: nat)
      requires Inv(State()) && Enabled(State(), Elapse(time))
      modifies this
      ensures State() == Step(old(State()), Elapse(time)) && Inv(State())
    {
      now := time;
    }

    /** Reset all frames, schedule a check, then re-run the woken watchers. */
    method ResetToTop()
      modifies this
      ensures State() == Flush(ResetAtTop(old(State())))
    {
      ResetAll();
      pendingChecks := pendingChecks + 1;
      FlushWatchers();
    }

    /** The two watchers on y, in the order they were registered: lastY, then the reset. */
    method ScrollWatchers(position: int)
      modifies this
      ensures State() == Scroll(old(State()), position)
    {
      if position != y {
        lastY := y;
        y := position;
        if position < 10 {
          ResetToTop();
        }
      }
    }

    /** The scroll position changes. */
    method OnScroll(position: int)
      requires Inv(State())
      modifies this
      ensures State() == Step(old(State()), ScrollTo(position)) && Inv(State())
    {
      ScrollWatchers(position);
      FrameProperties.ScrollKeepsInv(old(State()), position);
    }

    /** The delayed callback: one check fewer is pending, then the check and the watchers it woke. */
    method RunDelayedCheck()
      requires pendingChecks > 0
      modifies this
      ensures State() == CheckInitial(old(State()).(pendingChecks := old(pendingChecks) - 1))
    {
      pendingChecks := pendingChecks - 1;
      CheckInitialFramesInViewport();
      FlushWatchers();
    }

    /** A delayed checkInitialFramesInViewport runs. */
    method OnDelayedCheck()
      requires Inv(State()) && pendingChecks > 0
      modifies this
      ensures State() == Step(old(State()), DelayedCheck) && Inv(State())
    {
      RunDelayedCheck();
      FrameProperties.CheckKeepsInv(old(State()));
    }
  }
}
