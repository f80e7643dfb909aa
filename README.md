# Animal transformation page: the hold-to-transform controller

The page shows three animals: Cat, Dog and Rabbit. Pressing and holding an
animal's button turns its adult picture into its baby picture. A progress
percentage per animal drives the change. While the button is held, a
periodic timer recomputes that animal's progress from the time elapsed since
the hold started. Releasing the button, or the pointer leaving it, stops the
timer. So does reaching 100. A Reset button, shown only once the animal is
complete, sets it back to 0. When the page unmounts, every stored timer is
cleared.

This project models that controller in Dafny and proves facts about it:

- `progress.dfy` (module `Progress`) holds the tick formula
  `min(100, startProgress + (elapsed / 2000) * (100 - startProgress))` over
  `real`, and what it promises: it stays in range, it never goes down during a
  hold, and it completes exactly at 2000 ms. A hold closes the *remaining*
  distance, so a series of holds leaves the product of their unused window
  parts still to go. Splitting a hold never makes it faster.
- `machine.dfy` (module `Machine`) holds the page's tables as one `State`
  value. It has pure transitions for pressing (`Start`), one timer firing
  (`Tick`), releasing (`Stop`), the Reset click (`Reset`) and the unmount
  cleanup (`Cleanup`). The tables are:
  - `progress`
  - `holding` (`isHolding`)
  - `handles` (`intervalRefs.current`)

  Beside them, the state holds the intervals the host still fires. Every
  reachable state is `Valid`: all three tables are keyed by exactly the three
  animals, progress is in [0, 100], and every stored handle names a running
  interval of its own animal. The stronger invariant `Tidy` is the
  controller's intended one:
  - an animal is held exactly when it has a running interval;
  - every running interval is the one stored for its animal;
  - a held animal's progress lies between its hold's starting progress and
    that hold's tick value at the latest time.

  Tidiness is proved to hold as long as presses and releases alternate and
  Reset is only clicked on a complete animal, the only time its button is
  shown.
- `controller.dfy` (module `Page`) holds the class `Controller`. Its fields are
  the same tables, and its methods update them in place as the handlers do.
  Each method is proved to move the fields exactly as the matching `Machine`
  transition does. `Unmount` walks the handle table in a loop, as the
  cleanup's `forEach` does.

Time is an argument: each operation that reads `Date.now()` takes `now` in
milliseconds. The state remembers the latest time seen, and operations require
`now` to be at least that time. A timer firing is the `Tick`/`Fire` operation
on a running interval's handle. A cleared interval never fires again, because
`Tick` only applies to intervals that are still scheduled.

Three behaviours a reader would expect of such a controller are not what the
code does. The model follows the code:

- A new press would be expected to cancel any timer already running for that
  animal. `startTransformation` does not: it overwrites the stored handle
  (see Findings).
- Reset would be expected to cancel any running timer. The click handler only
  sets `progress` and `isHolding`. It relies on completion having already
  cleared the timer, which `CompleteMeansIdle` proves for tidy states.
- "Held" would be expected to mean "a timer is running". That holds in tidy
  states. The leak below breaks it.

## Model

| member | source | states |
|---|---|---|
| Progress.NewProgress | src/app/page.tsx:47-51 | a tick value is never above 100 |
| Progress.NewProgressIsInterpolation | src/app/page.tsx:48-51 | for a start in [0, 100], the tick value is the start plus the used fraction of the 2000 ms window (capped at 1) times the remaining distance |
| Progress.NewProgressInRange | src/app/page.tsx:47-51 | from a start in [0, 100] and a non-negative elapsed time, the tick value is in [startProgress, 100] |
| Progress.NewProgressMonotone | src/app/page.tsx:48-51 | within one hold, the tick value never decreases as elapsed time grows |
| Progress.CompleteAfterDuration | src/app/page.tsx:35-51 | once elapsed >= 2000 ms, the tick value is exactly 100, whatever the start progress in [0, 100] was |
| Progress.CompleteExactlyAtDuration | src/app/page.tsx:35-51 | from a start below 100, the tick value is 100 if and only if elapsed >= 2000 ms |
| Progress.RemainingAfterHold | src/app/page.tsx:48-51 | within the window, the distance left to 100 is the starting distance times (1 - elapsed/2000) |
| Progress.AfterHoldsInRange | src/app/page.tsx:44-51 | after any series of holds, each starting where the last stopped, progress is in [start, 100] |
| Progress.RemainingAfterHolds | src/app/page.tsx:44-51 | each hold rescales to the remaining distance: after a series of holds, the distance left is the start distance times the product of the unused window parts |
| Progress.ChoppedHoldsNoFaster | src/app/page.tsx:44-51 | a series of non-negative holds of any length ends at or below one uninterrupted hold of the same total length |
| Progress.CompletingHoldPastItsWindow | src/app/page.tsx:44-51 | a 1000 ms hold then a hold whose last tick lands at 2010 ms ends at 100, no more than one 3010 ms hold |
| Progress.TwoShortHoldsReachThreeQuarters | src/app/page.tsx:44-51 | two 1000 ms holds from 0 give 50 and then 75; one 2000 ms hold gives 100 |
| Machine.Init | src/app/page.tsx:19-33 | the initial tables: every animal at 0, not held, null handle, no interval running |
| Machine.Start | src/app/page.tsx:38-59 | a complete animal is left exactly as it was; otherwise it is held, a fresh handle is stored, and a new interval captures the current time and progress; the handle counter moves on by one; the interval of an overwritten handle keeps running; other animals are untouched |
| Machine.Stop | src/app/page.tsx:61-67 | the stored interval, if any, is cleared; the handle becomes null; the animal is not held; progress, the handle counter and other animals are untouched |
| Machine.Tick | src/app/page.tsx:46-58 | the interval's animal gets its hold's tick value, which is never below the hold's start; a value of 100 leaves the animal not held with no handle, and clears the interval of the stored handle, if any, and no other; a lower value changes nothing else; other animals and the handle counter are untouched |
| Machine.Reset | src/app/page.tsx:221-224 | progress 0 and not held; handles, intervals, the handle counter and other animals are untouched |
| Machine.Cleanup | src/app/page.tsx:82-88 | every stored handle's interval is cleared; every interval no handle names is kept unchanged; the tables, the handle counter and the clock are left as they were |
| Machine.InitTidy | src/app/page.tsx:19-33 | the initial page is tidy |
| Machine.StartKeepsTidy | src/app/page.tsx:38-59 | pressing an animal that is not held keeps the controller tidy |
| Machine.TickKeepsTidy | src/app/page.tsx:46-58 | any timer firing keeps the controller tidy |
| Machine.StopKeepsTidy | src/app/page.tsx:61-67 | releasing keeps the controller tidy |
| Machine.ResetKeepsTidy | src/app/page.tsx:219-224 | resetting a complete animal, the only time the button is shown, keeps the controller tidy |
| Machine.CompleteIffFull | src/app/page.tsx:109 | an animal is complete exactly when its progress is 100 |
| Machine.CompleteMeansIdle | src/app/page.tsx:53-57 | in a tidy controller, a complete animal is not held, has a null handle and has no interval running |
| Machine.TickNeverLowers | src/app/page.tsx:46-58 | in a tidy controller, a firing never lowers its animal's progress |
| Machine.CompletionStopsTimer | src/app/page.tsx:53-57 | in a tidy controller, a firing that completes its animal removes exactly its own interval, so no interval of that animal is left |
| Machine.StopIdempotent | src/app/page.tsx:61-67 | stopping twice is the same as stopping once |
| Machine.ReleaseFreezes | src/app/page.tsx:61-79 | after a release in a tidy controller, no interval of that animal is left, so no firing changes its progress |
| Machine.CleanupStopsEverything | src/app/page.tsx:82-88 | in a tidy controller, the unmount cleanup leaves no interval running |
| Machine.StartCancelling | src/app/page.tsx:38-59 | the corrected press: a complete animal is left as it was; otherwise it is a release followed by the as-written press |
| Machine.StartCancellingKeepsTidy | src/app/page.tsx:38-59 | the corrected press keeps the controller tidy even when the animal is already held |
| Machine.StartTwiceLeaksInterval | src/app/page.tsx:46 | after two presses and one release, the first interval still runs, and neither a release nor the cleanup can clear it; it sets the Cat to 100, and after a Reset it sets it back to 100 |
| Machine.TwoHoldsScenario | src/app/page.tsx:38-67 | Cat held 1000 ms gives 50; released, it stays at 50 with nothing running; held again for 1000 ms gives 75; held on to 2000 ms, it completes, is not held, and nothing runs |
| Page.Controller.constructor | src/app/page.tsx:19-33 | the fields start as Machine.Init |
| Page.Controller.StartTransformation | src/app/page.tsx:38-59 | updates the fields exactly as Machine.Start |
| Page.Controller.StopTransformation | src/app/page.tsx:61-67 | updates the fields exactly as Machine.Stop |
| Page.Controller.Fire | src/app/page.tsx:46-58 | updates the fields exactly as Machine.Tick, calling StopTransformation on completion |
| Page.Controller.ResetClick | src/app/page.tsx:221-224 | updates the fields exactly as Machine.Reset |
| Page.Controller.Unmount | src/app/page.tsx:82-88 | walks the handle table and ends with the fields of Machine.Cleanup |
| Page.Controller.StartTransformationCancelling | src/app/page.tsx:38-59 | updates the fields exactly as Machine.StartCancelling |
| Page.TwoShortHoldsOnThePage | src/app/page.tsx:38-67 | on one page object, two 1000 ms holds of the Cat with a release between leave it at 75 |

## Findings

| source | as written | input that shows it | evidently intended | confidence | as-written member | corrected member |
|---|---|---|---|---|---|---|
| src/app/page.tsx:46 | a press stores the new interval's handle over the one already stored, without clearing the old interval | press the Cat button twice without a release in between (for example, a second mouse button pressed while the first is held fires a second mousedown), then release | clear any stored interval before starting a new one, so that at most one interval runs per animal and release and cleanup clear it | medium, not executed | Machine.StartTwiceLeaksInterval | Machine.StartCancelling |

The leaked interval is never cleared. Release and cleanup only see the stored
handle. When the leaked interval completes, its own call to stop clears
nothing, so it keeps firing. From then on, every firing sets the animal back to
100, which undoes Reset. `Machine.StartCancellingKeepsTidy` proves that the
corrected press keeps the controller tidy in every tidy state.
`Machine.StartKeepsTidy` proves the same for the as-written press only when
the animal is not already held. The class keeps the as-written press
(`StartTransformation`) to follow the page. It also offers the corrected one
(`StartTransformationCancelling`).

## Left out

- Rendering is not modelled: the JSX, the Tailwind classes, the images, the
  opacity/scale/translate styles and the rounded percentage label.
- Mouse and touch events are not modelled separately. `onMouseDown` and
  `onTouchStart` are the press. `onMouseUp`, `onMouseLeave` and `onTouchEnd` are
  the release.
- React's batching of `setState`, `useRef` and `useEffect` are not modelled.
  Each update is an immediate assignment to the tables.
- The handlers read `progress` from the render in which they were created.
  That stale-closure read is not modelled: a press sees the current progress.
- `setInterval`, `clearInterval` and the 16 ms cadence are not modelled as real
  timers. An interval is an entry of `scheduled`. The cadence only decides when
  firings happen. Any order of firings at non-decreasing times is allowed.
- `Date.now()` is the argument `now`, assumed never to go backwards.
- Progress is `real`, not an IEEE double. The exact-100 and monotonicity facts
  hold over the reals; doubles may round.
- The tables only have keys for the three animals, so every operation requires
  one of those names. A call with another name is outside the model.
- Machine.Cleanup: does not ensure `Valid`, because after unmount the stored
  handles name intervals that are no longer running. The page is gone then,
  so no further operation applies.
