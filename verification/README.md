# The Love Report: scroll-driven frame sequencing, in Dafny

The Love Report is a scrollytelling page (Nuxt/Vue). Its first section is a
run of "frames": panels that animate in one after another as the reader
scrolls. This project models the logic that decides when each frame animates
and proves properties of that model. It also covers three smaller helpers of
the page.

- **Sequential frame coordinator** (`useSequentialFrames`):
  - Each frame is active (`isEnter`) or not, and its animation is complete or
    not. Activating a frame starts a completion timer of the frame's
    `animationDuration`.
  - Frame 0 activates as soon as it enters the viewport.
  - Every later frame activates on entering only when its predecessor is
    inactive or has finished animating. Otherwise it registers a watcher that
    activates it once that holds.
  - A later frame leaving the viewport while the reader scrolls up is
    deactivated. Leaving while scrolling down is only recorded.
  - Scrolling to a position below 10 deactivates every active frame; a frame
    waiting behind one of them is then activated by its watcher; one more
    check is scheduled.
  - Modules:
    - `FrameModel` states the coordinator as a state machine over values.
    - `FrameProperties` proves what it guarantees.
    - `SequentialFrames.FrameCoordinator` keeps the same state in fields. Its
      methods are proved to move it exactly as `FrameModel` says.
- **Animation timings** (`AnimationTimings`):
  - `calculateTotalDuration` finds the longest `delay + duration` chain of a
    frame's timing record.
  - The `SECTION_A_DURATIONS` values are computed from the section-A timing
    tables.
  - `toCssTime` renders milliseconds as a CSS time.
- **Breakpoints** (`Breakpoints`): `getCurrentBreakpoint` classifies a window
  width into a named breakpoint.
- **Active-on-viewport tracking** (`ActiveOnViewport`):
  - Per-element observers keep a Set of the elements in view and the index of
    the latest one to enter.
  - `setup` registers the observers and `cleanup` stops them.
- `Wrappers` holds the `Option` type the other modules share.

How the browser's reactions are modelled:
- The `watch` on `isEnter` runs right after each write that changes the value.
- The `watchEffect` of every waiting frame is re-run after each event, once
  per frame in ascending order (`FrameModel.Flush`).
- The completion `setTimeout`s are timers with a due time on an explicit
  clock. They fire in order of due time.
- The 100 ms delayed viewport checks are a counter of checks still to run.
- The two watchers on `y` run in the order they were registered: `lastY`
  first, then the reset.

Where the comments in the code disagree with the code, the model follows the
code:
- FRAME_2 totals 2800 ms (TEXT_DELAY 1800 + TEXT_DURATION 1000), not the
  2300 ms its comment gives (app/utils/animationTimings.ts:92).
- The sequential handler activates on ENTER in either direction. The header
  comment (app/composables/useSequentialFrames.ts:76) says ENTER_DOWN only.
- Frame 0 is never deactivated by leaving the viewport, only by the reset.
- A completion timer is never cancelled. When a frame is deactivated and
  re-activated, its first timer can mark the new animation complete early.
- An ENTER on a frame that is already active, with the gate shut, registers a
  watcher. So an active frame can be waiting.
- `cleanup` in `useActiveOnViewport` empties the Set but leaves the 'active'
  class on the elements.

## Model

| member | source | states |
|---|---|---|
| AnimationTimings.IncludesIff | app/utils/animationTimings.ts:69 | `key.includes(pat)` holds exactly when `pat` occurs in `key` at some position |
| AnimationTimings.ReplaceFirstOccurrence | app/utils/animationTimings.ts:70 | `replace` with a string pattern splices the replacement in place of the leftmost occurrence only, and leaves a string without an occurrence unchanged |
| AnimationTimings.CalculateTotalDuration | app/utils/animationTimings.ts:64-84 | the result is the maximum of 0 and what each key offers: a DELAY key with a truthy paired `_DURATION` offers their sum; a DURATION key without DELAY offers its value; any other key offers nothing |
| AnimationTimings.TotalDurationUnique | app/utils/animationTimings.ts:64-84 | only one number meets that description, so the total of a record is determined |
| AnimationTimings.NoTimingKeysGiveZero | app/utils/animationTimings.ts:65-83 | a record with no DURATION or DELAY key totals 0 |
| AnimationTimings.DurationBoundsTotal | app/utils/animationTimings.ts:77-80 | every plain duration is at most the total |
| AnimationTimings.DelayKeyPairsWithDuration | app/utils/animationTimings.ts:69-71 | `X_DELAY` is paired with `X_DURATION` when `X` itself holds no `_DELAY` |
| AnimationTimings.DelayChainBoundsTotal | app/utils/animationTimings.ts:69-76 | an `X_DELAY` entry with a non-zero `X_DURATION` bounds the total by their sum |
| AnimationTimings.DelayKeyIncludesDelay | app/utils/animationTimings.ts:69 | a key ending in `_DELAY` takes the DELAY branch |
| AnimationTimings.BoundsOffersStep | app/utils/animationTimings.ts:75 | raising the maximum to cover the next key's offer keeps it above every earlier offer |
| AnimationTimings.UnpairedDelayOffersNothing | app/utils/animationTimings.ts:73 | a DELAY key whose paired duration is missing or 0 contributes nothing |
| AnimationTimings.Frame1Total | app/utils/animationTimings.ts:15-23 | FRAME_1's record totals 2000 |
| AnimationTimings.Frame2Total | app/utils/animationTimings.ts:24-29 | FRAME_2's record totals 2800 |
| AnimationTimings.Frame3Total | app/utils/animationTimings.ts:30-34 | FRAME_3's record totals 1300 |
| AnimationTimings.Frame4Total | app/utils/animationTimings.ts:35-48 | FRAME_4's record totals 2500 |
| AnimationTimings.Frame5Total | app/utils/animationTimings.ts:49-53 | FRAME_5's record totals 1000 |
| AnimationTimings.Frame6Total | app/utils/animationTimings.ts:54-57 | FRAME_6's record totals 1000 |
| AnimationTimings.SectionADurations | app/utils/animationTimings.ts:90-97 | applying calculateTotalDuration to the six records gives 2000, 2800, 1300, 2500, 1000, 1000 |
| AnimationTimings.NatToDecimal | app/utils/animationTimings.ts:105 | an integer renders as a non-empty digit string with no leading zero |
| AnimationTimings.ToCssTime | app/utils/animationTimings.ts:104-106 | the CSS time ends in "ms" and starts with '-' exactly for negative values |
| AnimationTimings.NatToDecimalRoundTrip | app/utils/animationTimings.ts:105 | reading the digits back gives the number |
| AnimationTimings.CssTimeRoundTrip | app/utils/animationTimings.ts:104-106 | the milliseconds can be read back from the CSS time |
| AnimationTimings.CssTimeInjective | app/utils/animationTimings.ts:104-106 | different values never give the same CSS time |
| FrameModel.Classify | app/composables/useSequentialFrames.ts:290-297 | the action is ENTER iff the entry intersects; the direction is DOWN iff y > lastY, so equal positions count as UP |
| FrameModel.Gate | app/composables/useSequentialFrames.ts:181-192 | frame 0 may always activate; frame i > 0 may iff its predecessor exists and is inactive or complete; a missing predecessor gives false |
| FrameModel.SetEnter | app/composables/useSequentialFrames.ts:108-121 | false→true clears completion and adds one timer due after the duration; true→false clears completion; no change has no effect; no other frame changes |
| FrameModel.Cleanup | app/composables/useSequentialFrames.ts:148-154 | frame i's watcher is gone and nothing else changes |
| FrameModel.Activate | app/composables/useSequentialFrames.ts:159-165 | an existing frame ends active with no watcher; other frames and watchers are unchanged; an out-of-range index is a no-op |
| FrameModel.Deactivate | app/composables/useSequentialFrames.ts:170-176 | an existing frame ends inactive with no watcher, and an active one loses its completion; timers stay; out-of-range is a no-op |
| FrameModel.WaitFor | app/composables/useSequentialFrames.ts:197-211 | the old watcher is replaced, not stacked: frame i ends with exactly one watcher and nothing else changes |
| FrameModel.SetComplete | app/composables/useSequentialFrames.ts:113-115 | the timer's callback marks only that frame complete |
| FrameModel.StrictHandler | app/composables/useSequentialFrames.ts:127-143 | frame 0's handler changes no other frame and keeps the state well-formed |
| FrameModel.SequentialHandler | app/composables/useSequentialFrames.ts:216-245 | a later frame's handler changes no other frame and keeps the state well-formed |
| FrameModel.Handler | app/composables/useSequentialFrames.ts:315-321 | frame 0 gets the strict handler, the others the sequential one; no other frame changes |
| FrameModel.FlushFrom | app/composables/useSequentialFrames.ts:203-208 | re-running the watchers keeps the number of frames and touches neither viewport, clock, scroll state nor pending checks |
| FrameModel.CheckOne | app/composables/useSequentialFrames.ts:261-273 | one step of the initial check keeps the invariant and never deactivates a frame |
| FrameModel.CheckFrom | app/composables/useSequentialFrames.ts:250-275 | the initial check keeps the invariant and never deactivates a frame |
| FrameModel.ResetFrom | app/composables/useSequentialFrames.ts:330-336 | exactly the active frames become inactive and incomplete and lose their watchers; timers stay |
| FrameModel.Init | app/composables/useSequentialFrames.ts:85-91 | every frame starts inactive and incomplete, with no watcher, and one check is scheduled |
| FrameProperties.LabelCases | app/composables/useSequentialFrames.ts:222-231 | the `STATE` label is LEAVE_UP / LEAVE_DOWN exactly for those action-direction pairs |
| FrameProperties.ActivateNeverOpensGate | app/composables/useSequentialFrames.ts:181-192 | activating a frame never opens any frame's gate |
| FrameProperties.FlushStep | app/composables/useSequentialFrames.ts:203-208 | re-running the watchers from frame k is frame k's watcher followed by the rest |
| FrameProperties.WakeOnlyWakes | app/composables/useSequentialFrames.ts:203-208 | one watcher activates only its own frame, and only when that frame is waiting |
| FrameProperties.WakeKeepsActive | app/composables/useSequentialFrames.ts:203-208 | one watcher never deactivates a frame |
| FrameProperties.WakeElsewhere | app/composables/useSequentialFrames.ts:203-208 | one watcher leaves every other frame and its watcher count alone |
| FrameProperties.WakeKeepsWaiting | app/composables/useSequentialFrames.ts:203-208 | an earlier frame's watcher leaves a later ready frame (waiting, gate open, predecessor not waiting) ready |
| FrameProperties.WakeWakes | app/composables/useSequentialFrames.ts:203-208 | a ready frame's own watcher activates it |
| FrameProperties.FlushSkipsOne | app/composables/useSequentialFrames.ts:203-208 | a frame with no watcher, or one behind a shut gate, is passed over |
| FrameProperties.FlushPastBoth | app/composables/useSequentialFrames.ts:203-208 | past the last frame the re-run changes nothing |
| FrameProperties.WakeAddsNoWatcher | app/composables/useSequentialFrames.ts:203-208 | one watcher never adds a watcher |
| FrameProperties.WakeSettles | app/composables/useSequentialFrames.ts:203-208 | after frame k's watcher, every watcher up to k waits behind a shut gate, and the state stays well-formed |
| FrameProperties.SettledPast | app/composables/useSequentialFrames.ts:203-208 | once every watcher is behind a shut gate, the re-run has nothing left to do and the invariant holds |
| FrameProperties.FlushKeepsActive | app/composables/useSequentialFrames.ts:203-208 | re-running the watchers never deactivates a frame |
| FrameProperties.FlushAddsNoWatcher | app/composables/useSequentialFrames.ts:203-208 | re-running the watchers never adds a watcher to any frame |
| FrameProperties.FlushSkips | app/composables/useSequentialFrames.ts:203-208 | watchers whose gate is shut do nothing |
| FrameProperties.FlushIdle | app/composables/useSequentialFrames.ts:203-208 | when every watcher is behind a shut gate, re-running them changes nothing |
| FrameProperties.FlushSettlesOn | app/composables/useSequentialFrames.ts:203-208 | frame k's watcher extends the settled prefix by one, and the rest of the re-run settles the remainder |
| FrameProperties.FlushSettles | app/composables/useSequentialFrames.ts:203-208 | after the watchers re-run, every remaining watcher waits behind a shut gate |
| FrameProperties.FlushOnlyWakes | app/composables/useSequentialFrames.ts:203-208 | every frame active after the watchers re-run was active or waiting before |
| FrameProperties.FlushWakes | app/composables/useSequentialFrames.ts:203-208 | a waiting frame with an open gate and a non-waiting predecessor ends active |
| FrameProperties.FlushWakesLater | app/composables/useSequentialFrames.ts:203-208 | the watchers before a ready frame leave it ready, so the re-run still wakes it |
| FrameProperties.FlushWakesNow | app/composables/useSequentialFrames.ts:203-208 | a ready frame's watcher wakes it and the later watchers keep it active |
| FrameProperties.FlushOne | app/composables/useSequentialFrames.ts:203-208 | when only one watcher can fire, the re-run is exactly that one watcher's run |
| FrameProperties.FireKeepsWellFormed | app/composables/useSequentialFrames.ts:113-115 | firing the earliest timer leaves every other timer belonging to a frame and not overdue |
| FrameProperties.IntersectKeepsInv | app/composables/useSequentialFrames.ts:216-245 | an intersection keeps the invariant: at most one watcher per frame, only frames 1.. wait, every waiting frame's gate shut |
| FrameProperties.FireKeepsInv | app/composables/useSequentialFrames.ts:113-115 | a completion timer keeps the invariant |
| FrameProperties.ScrollKeepsInv | app/composables/useSequentialFrames.ts:329-342 | a scroll, with or without the reset, keeps the invariant |
| FrameProperties.CheckKeepsInv | app/composables/useSequentialFrames.ts:250-275 | a delayed check keeps the invariant |
| FrameProperties.StepPreservesInv | app/composables/useSequentialFrames.ts:97-343 | every event keeps the invariant: an intersection handled by either handler, a completion timer, the delayed check, and a change of y seen by both watches on it |
| FrameProperties.FirstFrameStrict | app/composables/useSequentialFrames.ts:127-143 | frame 0 activates on any intersecting entry and changes no other frame; a leaving entry only records it |
| FrameProperties.EnterActivatesIffGate | app/composables/useSequentialFrames.ts:234-243 | a later frame entering in either direction ends active iff it was active or its gate was open, and waiting iff the gate was shut; no other frame changes |
| FrameProperties.LeaveDownOnlyRecords | app/composables/useSequentialFrames.ts:228-232 | leaving while scrolling down only records the frame as out of view |
| FrameProperties.LeaveUpFlush | app/composables/useSequentialFrames.ts:221-226 | leaving while scrolling up is the deactivation followed by the successor's watcher alone |
| FrameProperties.LeaveUpDeactivates | app/composables/useSequentialFrames.ts:221-226 | leaving while scrolling up deactivates the frame and drops its watcher; a waiting successor then activates; no other frame changes |
| FrameProperties.HandlerKeepsActive | app/composables/useSequentialFrames.ts:127-143 | an intersection keeps every active frame active except the frame itself leaving upward (frames 1..) |
| FrameProperties.TimerKeepsActive | app/composables/useSequentialFrames.ts:113-115 | a completion timer keeps every active frame active |
| FrameProperties.CheckKeepsActive | app/composables/useSequentialFrames.ts:250-275 | a delayed check keeps every active frame active |
| FrameProperties.ActiveFrameStaysActive | app/composables/useSequentialFrames.ts:127-143 | an active frame stays active through every event except its own LEAVE_UP (frames 1..) and a scroll to a new position below 10 |
| FrameProperties.TimerCompletesFrame | app/composables/useSequentialFrames.ts:113-115 | a timer marks its frame complete whether or not it is still active, and wakes a waiting successor |
| FrameProperties.ReactivationKeepsOldTimer | app/composables/useSequentialFrames.ts:108-121 | deactivating and re-activating keeps the old timer and adds a second one |
| FrameProperties.ResetAtTopFrame | app/composables/useSequentialFrames.ts:329-341 | the reset leaves every frame inactive, drops the watchers of the frames it deactivates, keeps the others, and schedules one check |
| FrameProperties.ResetWakesWaiters | app/composables/useSequentialFrames.ts:329-336 | after the reset, an inactive waiting frame whose predecessor does not wait is activated by its watcher |
| FrameProperties.ResetLeavesOnlyWaiters | app/composables/useSequentialFrames.ts:329-342 | after the reset, the only active frames are ones that were waiting, and one more check is scheduled |
| FrameProperties.CheckOneGate | app/composables/useSequentialFrames.ts:261-273 | one iteration on an inactive frame in the viewport activates it exactly when its predecessor is inactive or complete, and otherwise leaves one watcher on it |
| FrameProperties.CheckOneCovers | app/composables/useSequentialFrames.ts:261-273 | one iteration leaves its frame active or waiting when it is in the viewport, and uncovers no earlier frame |
| FrameProperties.CheckFromCovers | app/composables/useSequentialFrames.ts:250-275 | after the check every frame in the viewport is active or waiting |
| FrameProperties.CheckFixesCovered | app/composables/useSequentialFrames.ts:250-275 | on a settled state where that already holds, the check changes nothing |
| FrameProperties.CheckInitialIdempotent | app/composables/useSequentialFrames.ts:250-275 | running the check twice with no event in between is the same as running it once |
| FrameProperties.CheckSkips | app/composables/useSequentialFrames.ts:262 | frames out of the viewport or already active are left alone |
| SequentialFrames.FrameCoordinator.constructor | app/composables/useSequentialFrames.ts:83-91 | the new coordinator is in the initial state |
| SequentialFrames.FrameCoordinator.OnEnterChanged | app/composables/useSequentialFrames.ts:109-120 | the watch callback does what SetEnter says for the change it is given |
| SequentialFrames.FrameCoordinator.SetEnter | app/composables/useSequentialFrames.ts:108-121 | writing isEnter updates the fields as FrameModel.SetEnter |
| SequentialFrames.FrameCoordinator.CleanupWatcher | app/composables/useSequentialFrames.ts:148-154 | the fields change as FrameModel.Cleanup |
| SequentialFrames.FrameCoordinator.ActivateFrame | app/composables/useSequentialFrames.ts:159-165 | the fields change as FrameModel.Activate |
| SequentialFrames.FrameCoordinator.DeactivateFrame | app/composables/useSequentialFrames.ts:170-176 | the fields change as FrameModel.Deactivate |
| SequentialFrames.FrameCoordinator.WaitForPreviousFrame | app/composables/useSequentialFrames.ts:197-211 | the fields change as FrameModel.WaitFor |
| SequentialFrames.FrameCoordinator.StrictHandler | app/composables/useSequentialFrames.ts:127-143 | the fields change as FrameModel.StrictHandler |
| SequentialFrames.FrameCoordinator.SequentialHandler | app/composables/useSequentialFrames.ts:216-245 | the fields change as FrameModel.SequentialHandler |
| SequentialFrames.FrameCoordinator.FlushWatchers | app/composables/useSequentialFrames.ts:203-208 | the loop re-runs the watchers as FrameModel.Flush |
| SequentialFrames.FrameCoordinator.CheckInitialFramesInViewport | app/composables/useSequentialFrames.ts:250-275 | the loop over the frames does what FrameModel.CheckFrom says |
| SequentialFrames.FrameCoordinator.ResetAll | app/composables/useSequentialFrames.ts:332-336 | the loop deactivates the active frames as FrameModel.ResetFrom |
| SequentialFrames.FrameCoordinator.ResetToTop | app/composables/useSequentialFrames.ts:330-342 | the reset branch: deactivate the active frames, schedule a check, re-run the watchers |
| SequentialFrames.FrameCoordinator.ScrollWatchers | app/composables/useSequentialFrames.ts:97-343 | both watches on y (lines 97-99 and 329-343): a change of y records lastY, then runs the reset when the new y is below 10; an unchanged y does nothing |
| SequentialFrames.FrameCoordinator.OnIntersection | app/composables/useSequentialFrames.ts:280-299 | an observer callback moves the coordinator one step and keeps the invariant |
| SequentialFrames.FrameCoordinator.OnTimer | app/composables/useSequentialFrames.ts:113-115 | a timer moves the coordinator one step and keeps the invariant |
| SequentialFrames.FrameCoordinator.OnElapse | app/composables/useSequentialFrames.ts:113-115 | time passing before any timer is due changes only the clock |
| SequentialFrames.FrameCoordinator.OnScroll | app/composables/useSequentialFrames.ts:329-343 | a scroll moves the coordinator one step and keeps the invariant |
| SequentialFrames.FrameCoordinator.RunDelayedCheck | app/composables/useSequentialFrames.ts:324-326 | the delayed callback takes one pending check off and runs the check and the watchers it woke, as FrameModel.CheckInitial |
| SequentialFrames.FrameCoordinator.OnDelayedCheck | app/composables/useSequentialFrames.ts:324-326 | a delayed check moves the coordinator one step and keeps the invariant |
| Breakpoints.MinWidth | app/composables/useBreakpoint.ts:16-25 | each tabled name's minimum width lies between 375 and 1920 |
| Breakpoints.GetCurrentBreakpoint | app/composables/useBreakpoint.ts:30-39 | the result has a table entry; it is xxs iff the width is below 414; otherwise the width reaches it, and no name the width reaches has a larger minimum |
| Breakpoints.BreakpointUnique | app/composables/useBreakpoint.ts:30-39 | that description fits exactly one name, so every width maps to exactly one breakpoint |
| Breakpoints.NeverUntabled | app/composables/useBreakpoint.ts:3-14 | the result is one of 2xl, xl, lg, md, sm, xs, xxs and never mob, pad, pc or 3xl |
| Breakpoints.ThresholdsInclusive | app/composables/useBreakpoint.ts:32-37 | a width equal to a minimum yields that name |
| Breakpoints.JustBelowThreshold | app/composables/useBreakpoint.ts:32-37 | one pixel below a minimum yields the next narrower name |
| Breakpoints.XxsThresholdUnused | app/composables/useBreakpoint.ts:17 | every width below 414 is xxs, so the 375 entry never decides anything |
| Breakpoints.Monotone | app/composables/useBreakpoint.ts:30-39 | a wider window never yields a breakpoint earlier in the type's order |
| Breakpoints.RankFollowsMinWidth | app/composables/useBreakpoint.ts:3-25 | on tabled names the type's order and the table's order agree |
| ActiveOnViewport.Initial | app/composables/useActiveOnViewport.ts:38-47 | the Set is empty, the index is -1 and there are no stop functions |
| ActiveOnViewport.Indices | app/composables/useActiveOnViewport.ts:74 | `forEach` hands out the indices 0 to n-1 in order |
| ActiveOnViewport.EnterActivates | app/composables/useActiveOnViewport.ts:85-90 | an intersecting entry adds its element to the Set and the class, and makes it the active index |
| ActiveOnViewport.LeaveDeactivates | app/composables/useActiveOnViewport.ts:91-98 | a leaving entry removes its element; the index becomes -1 iff it was -1 or named that element, and is otherwise unchanged |
| ActiveOnViewport.EntryKeepsValid | app/composables/useActiveOnViewport.ts:80-103 | a callback keeps the index at -1 or at a matched element in the Set |
| ActiveOnViewport.SetupRegistersEach | app/composables/useActiveOnViewport.ts:54-108 | with no container or no match nothing changes; otherwise one stop function per matched element is appended, in element order |
| ActiveOnViewport.SetupKeepsValid | app/composables/useActiveOnViewport.ts:53-109 | setup keeps the invariant when no observer is live or no fewer elements match |
| ActiveOnViewport.SetupAgainCanOverrun | app/composables/useActiveOnViewport.ts:71-107 | a second setup over fewer elements, without cleanup, lets an earlier observer set the index past the elements |
| ActiveOnViewport.CleanupResets | app/composables/useActiveOnViewport.ts:115-120 | cleanup empties the stop list and the Set, sets the index to -1, keeps the invariant, and leaves the class lists alone |
| ActiveOnViewport.Run | app/composables/useActiveOnViewport.ts:80-103 | callbacks change neither the stop functions nor the element count |
| ActiveOnViewport.RunMembership | app/composables/useActiveOnViewport.ts:85-94 | after any run of callbacks an element is in the Set iff its latest entry intersected, or it got none and was in before |
| ActiveOnViewport.RunActiveIndex | app/composables/useActiveOnViewport.ts:90-98 | after any run the index is the latest element to enter if it has not left since, and -1 otherwise |
| ActiveOnViewport.RunKeepsValid | app/composables/useActiveOnViewport.ts:80-103 | the invariant survives any run of callbacks |
| ActiveOnViewport.CopySet | app/composables/useActiveOnViewport.ts:102 | re-wrapping the Set in a new Set keeps its membership |
| ActiveOnViewport.ActiveTracker.constructor | app/composables/useActiveOnViewport.ts:38-47 | a new tracker is in the initial state |
| ActiveOnViewport.ActiveTracker.Setup | app/composables/useActiveOnViewport.ts:53-109 | the guards and the push loop change the fields as AfterSetup |
| ActiveOnViewport.ActiveTracker.OnEntry | app/composables/useActiveOnViewport.ts:80-103 | the callback changes the fields as AfterEntry |
| ActiveOnViewport.ActiveTracker.Cleanup | app/composables/useActiveOnViewport.ts:115-120 | the fields change as AfterCleanup |

## Left out

- Browser and Vue wiring is not modelled. This covers `useScroll`, `useIntersectionObserver`, `onMounted`, `console.log`/`console.warn` and the ResizeObserver/resize-listener lifecycle of `useBreakpoint`. Their callbacks are the model's events.
- The 100 ms delay of the initial and post-reset checks is not modelled. A check is a pending event that may run at any later point, and the delay's length has no effect.
- Vue's scheduler is simplified. The `isEnter` watch runs right after the write that changes it. Watch effects re-run once, in frame order, at the end of each event. Vue batches pre-flush watchers per tick, which the model does not capture. So several `y` changes within one tick count as separate scroll events.
- FrameModel.WaitFor requires a shut gate. The source's first, synchronous run of the new watchEffect would call `stopWatch` before it is assigned if the gate were open. Every caller checks the gate first, so that path is unreachable. So is the `!prevFrame` return, which only an index of 0 could reach.
- The frames' DOM refs, their ids and the `!frame` guards of the handlers are not modelled. Every handler is registered for an existing index.
- AnimationTimings.ToCssTime covers integer milliseconds only. JavaScript renders fractions, NaN, Infinity and magnitudes of 1e21 and above differently.
- Timing records are sequences of entries in `Object.keys` order. Numbers are integers, so the `timings[durationKey]` truthiness test is "present and non-zero" (NaN does not occur).
- ActiveOnViewport.SetupKeepsValid: weaker than "activeIndex is always -1 or a valid index". A second `setup` over fewer elements, without `cleanup`, leaves the earlier observers live, and the invariant can then fail (see SetupAgainCanOverrun).
- Elements in `useActiveOnViewport` are named by their index in the matched list. `elementsArray` is modelled by its length. The intersection options and the selector string are not modelled.
- The shared `currentBreakpoint` ref and `updateBreakpoint` are not modelled. They only store `getCurrentBreakpoint(window.innerWidth)`. The window width is an integer.
- useIntroPin, useCardsAnimation, useScrollAnimation, useTrackingEvent, useGaSectionView, tracking.js, share.ts, useSectionBState and the configuration files are not part of this model. They are analytics, sharing, configuration and other animation wiring outside the frame sequencing.
