# apng-controller, modelled in Dafny

This project models the two stateful components of apng-controller, a
browser player for animated PNG files.

**`ApngRenderer`** draws the frames of a decoded APNG on a 2D canvas.
- It composites frames incrementally, following the APNG `fcTL` rules.
- A frame's `dispose_op` is applied lazily, just before the next frame is drawn.
- `blend_op` SOURCE clears the frame's rectangle before drawing.
- Every 16th frame, it memoises a snapshot of the whole canvas, taken after the previous disposal and before that frame is drawn.
- These keyframes speed up seeks backwards and far forwards.

**`ControllerHandle`** is the playback clock shared by all renderers of one animation.
- Elapsed time, scaled by the speed, accumulates in `delay`.
- The accumulated time is spent on frame delays, wrapping around at the last frame.
- `pause`, `resume`, `setSpeed` and single steps back and forth change the transport state.
- Every attached renderer is kept on the same frame.
- Events are dispatched to listeners.

The model is organised in five modules:

- `Canvas` (canvas.dfy) — the canvas API as pure functions on a map from points to pixels.
  - Covers `clearRect`, `getImageData`, `putImageData` and `drawImage`.
  - Pixels are a free term algebra. `Over(dst, src)` is the uninterpreted source-over compositing of `drawImage`, so no equation proved depends on how the browser blends pixels. `getImageData` / `putImageData` are taken to copy pixels exactly.
- `Compositing` (compositing.dfy) — the compositing semantics as a state machine.
  - A state is the canvas plus the disposal still owed by the last frame drawn.
  - `DrawFrame` is one incremental step.
  - `Replay` is the naive reference: every frame drawn in order from a blank canvas.
- `ApngRendering` (apng_renderer.dfy) — the renderer as a class whose fields are the source's fields.
  - The keyframe array is a `map` from slot to snapshot; a missing key is a `null` or unallocated slot.
  - Its invariant `Valid` says two things:
    - the canvas and the pending disposal always equal `Replay` up to `currentFrameNumber`;
    - every filled slot holds the reference canvas before frame `16 k`.
  - So any seek, through the cache or not, is indistinguishable from a naive replay.
- `Controller` (controller_handle.dfy) — the clock as a class.
  - The attached renderers are a sequence of `ApngRenderer` objects.
  - The `EventTarget` is an append-only log of `Event`s.
  - Time, speed and delays are exact reals.
  - The accumulator loop is proved against the recursive function `Advance`.
- `Wrappers` (wrappers.dfy) — `Option`.

After restoring keyframe `k`, `renderFrame` redraws from frame `16 k`
(src/apng_renderer.ts:45-46, 54-55). Slot `k` is captured before frame
`16 k` is drawn, and restoring it clears the pending disposal, so redrawing
frame `16 k` is exactly the next step of the naive replay; `RenderFrame`'s
ensures prove that this order matches it.

## Model

| member | source | states |
|---|---|---|
| Canvas.BlankSurface | src/apng_controller.ts:74-77 | a new canvas covers exactly its `width` x `height` points and every pixel is transparent |
| Canvas.ClearRect | src/apng_renderer.ts:71 | `clearRect` keeps the canvas's set of points (pixels under the rectangle become transparent) |
| Canvas.GetImageData | src/apng_renderer.ts:98 | `getImageData` yields exactly the points of the rectangle, relative to its corner, that lie on the canvas |
| Canvas.PutImageData | src/apng_renderer.ts:92 | `putImageData` keeps the canvas's set of points |
| Canvas.DrawImage | src/apng_renderer.ts:117 | `drawImage` keeps the canvas's set of points |
| Canvas.RestoreRegion | src/apng_renderer.ts:89-93 | putting back the pixels read from a rectangle undoes any change confined to that rectangle |
| Canvas.RestorePoint | src/apng_renderer.ts:89-93 | the pointwise step of that round trip |
| Canvas.SnapshotWholeCanvas | src/apng_renderer.ts:98 | reading the whole canvas gives the canvas itself |
| Canvas.RestoreWholeCanvas | src/apng_renderer.ts:78 | putting a whole-canvas snapshot at the origin makes the canvas equal to the snapshot |
| Canvas.ClearWholeCanvas | src/apng_renderer.ts:71 | clearing the whole canvas gives a blank canvas whatever it showed |
| Compositing.Dispose | src/apng_renderer.ts:85-93 | applying the pending disposal keeps the canvas's set of points |
| Compositing.DrawOnto | src/apng_renderer.ts:102-117 | after drawing, the recorded disposal is consistent (a saved image exactly for op 2, within the rectangle) |
| Compositing.DrawFrame | src/apng_renderer.ts:84-118 | one step keeps the disposal state consistent and the canvas's points |
| Compositing.Replay | src/apng_renderer.ts:42 | the naive replay of the first `count` frames has a consistent disposal state and covers the whole canvas |
| Compositing.DisposalOfFrame | src/apng_renderer.ts:85-93 | the APNG `dispose_op` meanings: PREVIOUS gives back the canvas as it was before the frame; BACKGROUND clears the frame's rectangle on that canvas; any other value leaves the frame as drawn |
| Compositing.DrawStaysInRect | src/apng_renderer.ts:117 | drawing a frame changes no pixel outside its rectangle |
| Compositing.StepIsLocal | src/apng_renderer.ts:84-118 | a step changes no pixel outside the previous and the current frame's rectangles |
| Compositing.SourceBlendOverwrites | src/apng_renderer.ts:114-117 | with `blend_op` SOURCE the rectangle ends up holding only the frame's own pixels |
| Compositing.Resume | src/apng_renderer.ts:77-82 | restoring a snapshot leaves nothing pending and keeps the canvas's points |
| ApngRendering.ClampFrame | src/apng_renderer.ts:36 | the target is `min(target, numFrames - 1)` |
| ApngRendering.FillSlot | src/apng_renderer.ts:95-100 | filling an empty slot with the reference canvas keeps every slot valid |
| ApngRendering.NextReference | src/apng_renderer.ts:84-118 | a step from any state that disposes like the reference at `i` lands exactly on the reference at `i + 1` |
| ApngRendering.ApngRenderer.constructor | src/apng_renderer.ts:10-24 | a fresh renderer is valid: blank canvas, frame -1, nothing pending, every slot empty |
| ApngRendering.ApngRenderer.RenderFrame | src/apng_renderer.ts:35-60 | afterwards `currentFrameNumber` is the clamped target; the canvas and pending disposal equal the naive replay up to it; the renderer stays valid; cached slots never change; rendering the current frame changes nothing |
| ApngRendering.ApngRenderer.FindAvailableKeyFrameIndex | src/apng_renderer.ts:62-68 | the result is the largest filled slot at or below `floor(target / 16)`, or -1 when there is none |
| ApngRendering.ApngRenderer.RenderHeadFrame | src/apng_renderer.ts:70-75 | the canvas is blank and nothing is pending, which is the reference state before frame 0 |
| ApngRendering.ApngRenderer.RenderKeyFrame | src/apng_renderer.ts:77-82 | the canvas is the reference canvas before frame `16 k` and nothing is pending |
| ApngRendering.ApngRenderer.RenderDeltaFrames | src/apng_renderer.ts:42-55 | the `for` loops of `renderFrame`: from a state that disposes like the reference at `first`, drawing `first .. last` reaches the reference at `last + 1` and keeps the cache valid |
| ApngRendering.ApngRenderer.RenderDeltaFrame | src/apng_renderer.ts:84-118 | the new state is one compositing step from the old; it is the reference at `i + 1`; slot `i / 16` is written only when `i` is a multiple of 16 and the slot is empty, and only with the canvas after disposal; the cache stays valid |
| ApngRendering.ApngRenderer.ApplyPendingDisposal | src/apng_renderer.ts:85-93 | the canvas becomes the old state with its disposal applied |
| ApngRendering.ApngRenderer.DrawOver | src/apng_renderer.ts:102-117 | records frame `i`'s disposal (saving the pixels under its rectangle exactly for op 2), clears for SOURCE and draws |
| Controller.NextFrameNumber | src/controller_handle.ts:72 | the next frame, wrapping from the last to the first |
| Controller.PrevFrameNumber | src/controller_handle.ts:61 | the previous frame, wrapping from the first to the last (frame 0 of 5 goes back to 4) |
| Controller.Advance | src/controller_handle.ts:29-32 | the clock ends on a frame index in range, with `0 <= delay < delays[frame]` when it started non-negative; it stays put when the delay is not yet covered |
| Controller.AdvanceSplit | src/controller_handle.ts:27-34 | running the clock on `x` then on `y` more ends where running it on `x + y` does |
| Controller.SplitElapsedTime | src/controller_handle.ts:27-34 | `update(a); update(b)` reaches the same frame and delay as `update(a + b)` at constant speed |
| Controller.ThreeFrameExample | src/controller_handle.ts:27-34 | delays 10, 10, 10: 25 units give frame 2 with 5 spent; 10 more give frame 0 with 5 spent |
| Controller.StepsCancel | src/controller_handle.ts:55-75 | a step back then forward, or forward then back, returns to the starting frame |
| Controller.ControllerHandle.constructor | src/controller_handle.ts:4-12 | no renderers, frame 0, no time accumulated, playing at speed 1, no events |
| Controller.ControllerHandle.AddRenderer | src/controller_handle.ts:14-21 | appends the renderer; adopts its frame count and delays only while there are no frames; renders the current frame on it; all else unchanged |
| Controller.ControllerHandle.RenderAll | src/controller_handle.ts:35 | every attached renderer shows the current frame (clamped to its own length), as the naive replay would |
| Controller.ControllerHandle.Update | src/controller_handle.ts:23-37 | with no frames or when paused, nothing changes; otherwise frame and delay become `Advance` of the old ones plus `deltaTime * speed`, all renderers follow, and exactly one frame-number event is logged |
| Controller.ControllerHandle.SpendDelay | src/controller_handle.ts:29-32 | the accumulator loop ends where `Advance` says |
| Controller.ControllerHandle.Pause | src/controller_handle.ts:39-43 | stops playing, clears the delay, logs one playing event, changes nothing else |
| Controller.ControllerHandle.Resume | src/controller_handle.ts:45-48 | plays again with the delay untouched, logs one playing event |
| Controller.ControllerHandle.SetSpeed | src/controller_handle.ts:50-53 | changes only the speed and logs one speed event |
| Controller.ControllerHandle.PrevFrame | src/controller_handle.ts:55-64 | no-op with no frames; otherwise pauses, clears the delay, steps back with wrap-around, re-renders all, logs playing then frame-number events |
| Controller.ControllerHandle.NextFrame | src/controller_handle.ts:66-75 | the same, stepping forward |

## Left out

- `ApngRenderer.initialize` and `createImageBitmapNullable` (src/apng_renderer.ts:26-33) decode bitmaps asynchronously in the browser. The model takes each frame's bitmap as already decoded, as a map from relative points to pixels.
- Real pixel arithmetic is not modelled: alpha compositing in `drawImage`, and the premultiplied-alpha round trip of `getImageData` / `putImageData`. `Over` is uninterpreted, and image data are copied exactly.
- Floating-point rounding of delays, speed and time is not modelled; they are exact reals.
- `EventTarget` and `CustomEvent` dispatch become the `events` log; listeners are not modelled.
- src/apng_controller.ts is not part of this model. It holds DOM construction, fetching, parsing, the animation-frame tick loop and UI wiring.
- src/index.ts is not part of this model. It is an earlier standalone prototype.
- ApngRendering.ApngRenderer.RenderFrame: requires a target of at least -1. A target of -1 is modelled: no keyframe slot is found, the head frame is cleared, no frame is drawn and `currentFrameNumber` becomes -1. A target of -2 or below leaves `currentFrameNumber` below -1, which breaks the renderer's invariant; a later call can then index a negative frame at src/apng_renderer.ts:102 when no keyframe slot is found. The controller only passes frame numbers of at least 0 (src/controller_handle.ts:20, 35, 62, 73).
- Controller.ControllerHandle.AddRenderer: requires every frame delay of the first renderer with frames to be positive. The source does not check this. An animation with some zero-delay frames is excluded, although the source plays it by skipping those frames; the loop at src/controller_handle.ts:29-32 diverges only when every delay is zero. The precondition is there because the loop's termination measure `Units` counts multiples of the shortest delay, which must be positive.
- Controller.ControllerHandle.Update: requires `deltaTime >= 0`. The time from the animation-frame callback never runs backwards.
- Controller.ControllerHandle.SetSpeed: requires a non-negative speed. A negative speed would drive `delay` below zero, which the clock invariant excludes.
- ApngRendering.ApngRenderer.RenderDeltaFrames: the source's `for` loops are written with their first iteration peeled off before the loop. The frames drawn and their order are the same.
- Controller.ControllerHandle.Update: the accumulator loop lives in the helper `SpendDelay`, and the renderer loop in `RenderAll`. These are the same statements in the same order.
- ApngRendering.ApngRenderer.RenderDeltaFrame: the disposal and drawing halves live in the helpers `ApplyPendingDisposal` and `DrawOver`. These are the same statements in the same order.
- ApngRendering.ApngRenderer.constructor: assumes the canvas is freshly created and so fully transparent. The source's constructor accepts any 2D context (src/apng_renderer.ts:19-24); only its caller creates a new canvas for it (src/apng_controller.ts:74-83).
- Canvas clipping of rectangles partly off the canvas is modelled by dropping off-canvas points. No frame rectangle is required to lie within the canvas.
