# ShimmerImageView in Dafny

A model of `ShimmerImageView`, an Android `ImageView` that sweeps a gradient "shimmer" mask
across its image, and of its configuration value `MaskSpecs`.

The widget is a small lifecycle state machine:

- `startAnimation` builds an int `ValueAnimator` once the view is laid out. If the view is not
  laid out yet, it registers a one-shot layout-change listener.
- `stopAnimation` cancels the animator and drops both cached bitmaps.
- `resetAnimation` stops, and restarts if it was running. It runs when `maskSpecs` is assigned and when the layout
  changes.
- Detaching from the window stops the widget.
- Each frame, `drawMaskUsingBitmap` lazily allocates two bitmaps: a render target (whose canvas
  an observable delegate keeps in step) and the gradient mask. A failed allocation
  (`OutOfMemoryError`) skips the work.

Files and modules:

- `jvm_numbers.dfy` (`JvmNumbers`): Kotlin `Int`/`Long` as `int32`/`int64`. Also wrap-around,
  and the JVM's Float-to-Int conversion (truncate, saturate, NaN to 0) used for the lead-in.
- `mask_specs.dfy` (`Masks`): `PorterDuff.Mode` as `BlendMode`, `parseMaskMode` and its inverse,
  `MaskSpecs` with its defaults, and the gradient's colours and stop positions (Floats as `real`).
- `shimmer_state.dfy` (`ShimmerState`): the widget's fields as a `State` value with one function
  per transition, the invariant `Inv`, host events (`Event`, `Step`, `Run`), and the lemmas.
- `shimmer_image_view.dfy` (`ShimmerView`): the class `ShimmerImageView`. Its fields are the
  widget's, and each method is proved to move `Snap()` exactly as the matching `ShimmerState`
  function does. Every method that starts from `Valid()` ends in it, `StopAnimation` keeps it
  whenever it held before, and `ResetAnimation` restores it when only the paint's mode lags the
  specs. `SetRenderMaskBitmap`, the observable delegate, is a step inside other methods and
  promises only its own assignment.

The host view is an input. A `Host` value carries whether a drawable is set, whether the view is
laid out, and its width and height. Whether a bitmap allocation succeeds is a flag passed to the
draw. Pending layout listeners are a count, because `stopAnimation` never removes them.

A listener that fires while an animator is referenced replaces it without cancelling it. This
happens after start, stop, start before the first layout, when two listeners are pending. The
replaced animator keeps running with nothing referencing it. The model keeps such animators in
`orphans`. A tick may come from any live animator, so an orphan can move the offset after
`stopAnimation` (`StartStopStartOrphansAnimator`).

Three behaviours of the code worth knowing:

- A zero `animationDuration` does not crash. The lead-in divides in `Float`, so a zero duration
  gives NaN (lead-in 0) or ±Infinity (saturated to the Int bounds); see `ZeroDurationRange`.
- Gradient stops are not ordered for every drop-off in [0, 0.5] and intensity in [0, 1]. In real
  arithmetic they are ordered exactly when 0 ≤ intensity ≤ 1 and dropOff ≤ (1 − intensity)/2
  (`GradientPositionsOrdered`, `GradientPositionsMayDecrease`).
- `stopAnimation` writes 0 to the offset. When an animator is built, its update listener is
  added before `start()` (lines 125-129), and `start()` delivers the first update, with the start
  value, synchronously. The model leaves that first update to a separate `TickEvent`, so between
  a restart and that event the modelled offset is still 0.

## Model

| member | source | states |
|---|---|---|
| `JvmNumbers.Wrap32` | shimmer-imageview/src/main/java/com/wenhui/shimmerimageview/ShimmerImageView.kt:119-120 | Int arithmetic: the result equals the exact value when it fits and is congruent to it modulo 2^32 always |
| `JvmNumbers.Wrap64` | shimmer-imageview/src/main/java/com/wenhui/shimmerimageview/ShimmerImageView.kt:121 | Long addition of duration and delay: exact when it fits, congruent modulo 2^64 always |
| `JvmNumbers.TruncDiv` | shimmer-imageview/src/main/java/com/wenhui/shimmerimageview/ShimmerImageView.kt:119 | `toInt()` truncates the quotient toward zero: its magnitude is the magnitudes' quotient and its sign follows the operands' signs; plain division for non-negative operands |
| `JvmNumbers.Saturate32` | shimmer-imageview/src/main/java/com/wenhui/shimmerimageview/ShimmerImageView.kt:119 | `toInt()` clamps out-of-range values to the Int bounds and keeps in-range ones |
| `JvmNumbers.FloatQuotientToInt` | shimmer-imageview/src/main/java/com/wenhui/shimmerimageview/ShimmerImageView.kt:119 | a zero duration yields the largest Int, the smallest Int or 0 by the delay's sign; otherwise the truncated quotient when it fits, the largest Int above the range and the smallest Int below it; for non-negative operands a value in [0, delay/duration] |
| `JvmNumbers.QuotientOfNonNegatives` | shimmer-imageview/src/main/java/com/wenhui/shimmerimageview/ShimmerImageView.kt:119 | with a non-negative delay, positive duration and a quotient that fits, the lead-in term is delay / duration |
| `Masks.MaskModeCode` | shimmer-imageview/src/main/java/com/wenhui/shimmerimageview/ShimmerImageView.kt:23-31 | exactly the four attribute modes have an attribute code |
| `Masks.ParseMaskMode` | shimmer-imageview/src/main/java/com/wenhui/shimmerimageview/ShimmerImageView.kt:23-31 | total; always an attribute mode; 3, 7, 9, 15 map to the mode whose code they are; every other code maps to SRC_IN |
| `Masks.ParseMaskModeInvertsCode` | shimmer-imageview/src/main/java/com/wenhui/shimmerimageview/ShimmerImageView.kt:23-31 | parsing a mode's code gives the mode back, and a non-default result comes only from that mode's code |
| `Masks.ParseMaskModeDefault` | shimmer-imageview/src/main/java/com/wenhui/shimmerimageview/ShimmerImageView.kt:85 | the attribute default -1 parses to SRC_IN |
| `Masks.GradientColors` | shimmer-imageview/src/main/java/com/wenhui/shimmerimageview/ShimmerImageView.kt:221 | four colours, a palindrome, with the outer ones differing from the inner ones |
| `Masks.GradientPositions` | shimmer-imageview/src/main/java/com/wenhui/shimmerimageview/ShimmerImageView.kt:223-226 | four stops; the first is at least 0 and the last at most 1; the inner stops sum to 1 and lie `intensity` apart |
| `Masks.GradientPositionsOrdered` | shimmer-imageview/src/main/java/com/wenhui/shimmerimageview/ShimmerImageView.kt:223-226 | the stops are non-decreasing if and only if 0 ≤ intensity ≤ 1 and dropOff ≤ (1 − intensity)/2 |
| `Masks.GradientPositionsMayDecrease` | shimmer-imageview/src/main/java/com/wenhui/shimmerimageview/ShimmerImageView.kt:223-226 | dropOff 0.3 with intensity 1 gives [0.3, 0, 1, 0.7], which is not ordered |
| `Masks.GradientSymmetric` | shimmer-imageview/src/main/java/com/wenhui/shimmerimageview/ShimmerImageView.kt:221-226 | for a drop-off in [0, 1], stop k and stop 3 − k are mirrored about 0.5 and have the same colour |
| `ShimmerState.CreateBitmap` | shimmer-imageview/src/main/java/com/wenhui/shimmerimageview/ShimmerImageView.kt:228-234 | a bitmap of the requested size when memory suffices, null when allocation runs out of memory |
| `ShimmerState.CanvasFor` | shimmer-imageview/src/main/java/com/wenhui/shimmerimageview/ShimmerImageView.kt:53-55 | the canvas is present exactly when the bitmap is, and draws into that bitmap |
| `ShimmerState.LeadInWidth` | shimmer-imageview/src/main/java/com/wenhui/shimmerimageview/ShimmerImageView.kt:119 | `startWidth` is the width itself without a delay, and width + delay/duration when all are non-negative and the sum fits an Int |
| `ShimmerState.BuildAnimator` | shimmer-imageview/src/main/java/com/wenhui/shimmerimageview/ShimmerImageView.kt:119-130 | the animator ends at the view's width and repeats infinitely in RESTART mode |
| `ShimmerState.SweepStartsAndEndsOffView` | shimmer-imageview/src/main/java/com/wenhui/shimmerimageview/ShimmerImageView.kt:119-121 | for a well-formed configuration the range is [−(2·width + delay/duration), width], the mask starts wholly left of the view, and a cycle lasts duration + delay |
| `ShimmerState.SweepExample` | shimmer-imageview/src/main/java/com/wenhui/shimmerimageview/ShimmerImageView.kt:119-121 | width 200, duration 1000, no delay: range [−400, 200] over 1000, infinite, RESTART |
| `ShimmerState.ZeroDurationRange` | shimmer-imageview/src/main/java/com/wenhui/shimmerimageview/ShimmerImageView.kt:119-120 | duration 0 without delay starts at −2·width; with a delay the lead-in saturates and wraps around |
| `ShimmerState.Initial` | shimmer-imageview/src/main/java/com/wenhui/shimmerimageview/ShimmerImageView.kt:51-76 | a new widget has default specs, is stopped, has no live animator and no pending listener, and satisfies the invariant |
| `ShimmerState.LaidOutBlockSpec` | shimmer-imageview/src/main/java/com/wenhui/shimmerimageview/ShimmerImageView.kt:115-131 | if stopped, changes nothing; if running, references a new animator for the current specs and width, adds it to the live animators and cancels none |
| `ShimmerState.RunAfterLaidOutSpec` | shimmer-imageview/src/main/java/com/wenhui/shimmerimageview/ShimmerImageView.kt:134-147 | laid out: the result is exactly the block's (`LaidOutBlockSpec`), run at once, building an animator only if running, with no listener added; not laid out: exactly one more pending listener and nothing else changes; never touches running, specs, offset or bitmaps, and cancels no orphan |
| `ShimmerState.StartSpec` | shimmer-imageview/src/main/java/com/wenhui/shimmerimageview/ShimmerImageView.kt:106-132 | no-op while running; no-op without a drawable; otherwise running, with the animator built at once when laid out, or one more pending listener and no animator when not |
| `ShimmerState.ListenerSpec` | shimmer-imageview/src/main/java/com/wenhui/shimmerimageview/ShimmerImageView.kt:134-146 | a firing listener unregisters itself; it builds an animator for the current width only if still running; a referenced animator is appended to the orphans, not cancelled; nothing else changes |
| `ShimmerState.StopSpec` | shimmer-imageview/src/main/java/com/wenhui/shimmerimageview/ShimmerImageView.kt:149-157 | stopped, no animator, offset 0, both bitmaps and the canvas null; pending listeners and orphaned animators untouched |
| `ShimmerState.StopIdempotent` | shimmer-imageview/src/main/java/com/wenhui/shimmerimageview/ShimmerImageView.kt:149-157 | stopping twice leaves the same state as stopping once |
| `ShimmerState.ResetSpec` | shimmer-imageview/src/main/java/com/wenhui/shimmerimageview/ShimmerImageView.kt:159-166 | establishes the invariant; the paint's mode becomes the specs' mode; offset 0 and bitmaps null; running is kept when a drawable is present; a restart rebuilds the animator or registers a listener |
| `ShimmerState.SetSpecsSpec` | shimmer-imageview/src/main/java/com/wenhui/shimmerimageview/ShimmerImageView.kt:70-74 | the new specs are stored and the paint uses their mode; offset 0 and bitmaps null; running is kept with a drawable and dropped without one; a laid-out restart builds an animator from the new specs, an unlaid-out one registers one listener; orphans untouched |
| `ShimmerState.OnLayoutSpec` | shimmer-imageview/src/main/java/com/wenhui/shimmerimageview/ShimmerImageView.kt:168-173 | an unchanged layout changes nothing; a changed one resets: offset 0, bitmaps null, running kept with a drawable and dropped without one, the animator rebuilt for the new width or one listener registered; specs and orphans untouched |
| `ShimmerState.ObtainRenderBitmap` | shimmer-imageview/src/main/java/com/wenhui/shimmerimageview/ShimmerImageView.kt:196-197 | the cached render bitmap is returned unchanged; when absent, a successful allocation of the view's size is stored with its canvas and a failed one changes nothing and returns null; the result is always the cached field |
| `ShimmerState.ObtainMaskBitmap` | shimmer-imageview/src/main/java/com/wenhui/shimmerimageview/ShimmerImageView.kt:210-219 | the cached mask is returned unchanged; when absent, the allocation result (the view's size, or null) is stored and returned; only the mask field changes |
| `ShimmerState.DrawMaskToBitmapSpec` | shimmer-imageview/src/main/java/com/wenhui/shimmerimageview/ShimmerImageView.kt:199-208 | only the mask cache changes; a failed allocation with no cached mask leaves the state as it was and draws no pass; a pass exists exactly when a mask and the render canvas exist; it draws that mask at the offset with the paint's mode, clipped to a window as wide and as high as the mask starting at the offset |
| `ShimmerState.DrawSpec` | shimmer-imageview/src/main/java/com/wenhui/shimmerimageview/ShimmerImageView.kt:187-219 | nothing when stopped; only the caches change; a cached bitmap is kept; a missing render bitmap is allocated at the view's size exactly when allocation succeeds, and then a frame is drawn; a missing mask is allocated, at the view's size, exactly when the render bitmap exists and allocation succeeds; a failed render allocation skips the frame; the mask pass is clipped to [offset, offset + mask width] and uses the specs' blend mode |
| `ShimmerState.Step` | shimmer-imageview/src/main/java/com/wenhui/shimmerimageview/ShimmerImageView.kt:125-128 | a tick changes only the offset, sets it to the ticked value when a live animator can produce it, and otherwise leaves it; an offset a tick sets always lies in some live animator's range; a listener event with none registered changes nothing |
| `ShimmerState.StepPreservesInv` | shimmer-imageview/src/main/java/com/wenhui/shimmerimageview/ShimmerImageView.kt:106-219 | every host event keeps the invariant |
| `ShimmerState.RunPreservesInv` | shimmer-imageview/src/main/java/com/wenhui/shimmerimageview/ShimmerImageView.kt:106-219 | every trace of host events keeps the invariant: canvas tied to its bitmap, paint mode tied to the specs, bitmaps only while running |
| `ShimmerState.OrphansOnlyAccumulate` | shimmer-imageview/src/main/java/com/wenhui/shimmerimageview/ShimmerImageView.kt:115-157 | no trace ever cancels an orphaned animator |
| `ShimmerState.OrphansNeedListener` | shimmer-imageview/src/main/java/com/wenhui/shimmerimageview/ShimmerImageView.kt:134-146 | a trace in which no layout listener fires orphans no animator |
| `ShimmerState.StartThenStopLeavesNothingLive` | shimmer-imageview/src/main/java/com/wenhui/shimmerimageview/ShimmerImageView.kt:106-157 | start then stop leaves the widget stopped, both bitmaps released, and no animator that can tick |
| `ShimmerState.StartStopStartLeavesTwoListeners` | shimmer-imageview/src/main/java/com/wenhui/shimmerimageview/ShimmerImageView.kt:106-147 | start, stop, start before the first layout leaves the widget running with two pending listeners and no animator |
| `ShimmerState.StartStopStartOrphansAnimator` | shimmer-imageview/src/main/java/com/wenhui/shimmerimageview/ShimmerImageView.kt:106-157 | for any hosts, when the two listeners left by start, stop, start fire after layout, the first animator is orphaned, survives stop, and a tick from it still moves the stopped widget's offset |
| `ShimmerState.LayoutChangeRebuildsAtNewSize` | shimmer-imageview/src/main/java/com/wenhui/shimmerimageview/ShimmerImageView.kt:159-173 | a changed layout while running keeps running, resets the offset, rebuilds the animator for the new width, and the next frame allocates both bitmaps at the new size |
| `ShimmerView.ShimmerImageView.constructor` | shimmer-imageview/src/main/java/com/wenhui/shimmerimageview/ShimmerImageView.kt:48-77 | the new widget is in the initial state |
| `ShimmerView.ShimmerImageView.StartAnimation` | shimmer-imageview/src/main/java/com/wenhui/shimmerimageview/ShimmerImageView.kt:106-132 | follows `StartSpec` and keeps `Valid()` |
| `ShimmerView.ShimmerImageView.RunAfterLaidOut` | shimmer-imageview/src/main/java/com/wenhui/shimmerimageview/ShimmerImageView.kt:134-147 | follows `RunAfterLaidOutSpec` and keeps `Valid()` |
| `ShimmerView.ShimmerImageView.LaidOutBlock` | shimmer-imageview/src/main/java/com/wenhui/shimmerimageview/ShimmerImageView.kt:115-131 | follows `LaidOutBlockSpec` and keeps `Valid()` |
| `ShimmerView.ShimmerImageView.OnLayoutChange` | shimmer-imageview/src/main/java/com/wenhui/shimmerimageview/ShimmerImageView.kt:140-146 | follows `ListenerSpec` and keeps `Valid()` |
| `ShimmerView.ShimmerImageView.StopAnimation` | shimmer-imageview/src/main/java/com/wenhui/shimmerimageview/ShimmerImageView.kt:149-157 | follows `StopSpec` from any state, and keeps `Valid()` when it held before |
| `ShimmerView.ShimmerImageView.ResetAnimation` | shimmer-imageview/src/main/java/com/wenhui/shimmerimageview/ShimmerImageView.kt:159-166 | follows `ResetSpec` and re-establishes `Valid()`, also when the paint's mode lags the specs |
| `ShimmerView.ShimmerImageView.SetMaskSpecs` | shimmer-imageview/src/main/java/com/wenhui/shimmerimageview/ShimmerImageView.kt:70-74 | follows `SetSpecsSpec` and keeps `Valid()` |
| `ShimmerView.ShimmerImageView.OnLayout` | shimmer-imageview/src/main/java/com/wenhui/shimmerimageview/ShimmerImageView.kt:168-173 | follows `OnLayoutSpec` and keeps `Valid()` |
| `ShimmerView.ShimmerImageView.OnDetachedFromWindow` | shimmer-imageview/src/main/java/com/wenhui/shimmerimageview/ShimmerImageView.kt:182-185 | follows `StopSpec` and keeps `Valid()` |
| `ShimmerView.ShimmerImageView.OnAnimationUpdate` | shimmer-imageview/src/main/java/com/wenhui/shimmerimageview/ShimmerImageView.kt:125-128 | a tick from a live animator sets only the offset, and keeps `Valid()` |
| `ShimmerView.ShimmerImageView.SetRenderMaskBitmap` | shimmer-imageview/src/main/java/com/wenhui/shimmerimageview/ShimmerImageView.kt:53-55 | assigning the render bitmap also sets the canvas derived from it, and nothing else |
| `ShimmerView.ShimmerImageView.DrawMaskUsingBitmap` | shimmer-imageview/src/main/java/com/wenhui/shimmerimageview/ShimmerImageView.kt:187-194 | state and frame follow `DrawSpec`; keeps `Valid()` |
| `ShimmerView.ShimmerImageView.TryObtainRenderMaskBitmap` | shimmer-imageview/src/main/java/com/wenhui/shimmerimageview/ShimmerImageView.kt:196-197 | state and result follow `ObtainRenderBitmap`; keeps `Valid()` |
| `ShimmerView.ShimmerImageView.DrawMaskToBitmap` | shimmer-imageview/src/main/java/com/wenhui/shimmerimageview/ShimmerImageView.kt:199-208 | state and pass follow `DrawMaskToBitmapSpec`; keeps `Valid()` |
| `ShimmerView.ShimmerImageView.GetMaskBitmap` | shimmer-imageview/src/main/java/com/wenhui/shimmerimageview/ShimmerImageView.kt:210-219 | state and result follow `ObtainMaskBitmap`; keeps `Valid()` |

## Left out

- Pixel work is not modelled: the `LinearGradient` shader, the colour filter, `clipRect`,
  `save`/`restore`, `drawBitmap`, and drawing the image into the render canvas. These run
  inside framework calls. Bitmaps are only present or absent with a size; a frame is described
  by the clip window, the mask, its position and the blend mode.
- `ValueAnimator` timing and the `DecelerateInterpolator` curve are framework-owned and
  floating-point. A tick is an event that carries an int in a live animator's range.
- `invalidate()` repaint requests are not recorded.
- When `ViewCompat.isLaidOut` flips, and the order of `onLayout` against layout-change listeners,
  belong to the host. They are inputs (`Host.laidOut`) and separate events.
- Attribute loading in `init` (`obtainStyledAttributes`, lines 79-104) is framework I/O. Only
  `parseMaskMode` from it is modelled; the constructor is the attribute-less one.
- The lazy creation of the `Paint` and its anti-alias flag are left out. The paint's blend mode
  is a field.
- `maskOffsetX` is a `Float` fed from the animator's `Int`. The model keeps the `Int`, which the
  Float holds exactly only up to 2^24 in magnitude.
- `Masks.GradientPositions`: the stops are computed in `real`. The code computes them in
  `Float`, so rounding can move a stop across a boundary that `GradientPositionsOrdered` states
  exactly, and NaN or infinite intensities and drop-offs are not modelled.
- `JvmNumbers.FloatQuotientToInt`: computes the exact truncated quotient. The code divides in
  `Float`, which rounds delays and durations beyond 2^24 first.
- `ShimmerState.CreateBitmap`: models only the caught `OutOfMemoryError`. The
  `IllegalArgumentException` that `Bitmap.createBitmap` throws for a zero or negative size is not
  caught by the widget and is not modelled.
- `ShimmerState.BuildAnimator`: does not model `ValueAnimator.setDuration` throwing for a negative
  total duration.
- The null check on the output `Canvas?` in `draw` is left out; the frame is returned as if the
  canvas were present.
- The demo activities (`MainActivity.kt`, `MainJavaActivity.java`) are UI glue and are not part
  of this model.
- Everything runs on the UI thread, so there is no concurrency to model.
