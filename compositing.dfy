/**
 * The compositing semantics of an animated PNG as a pure state machine: the
 * state is the surface plus the disposal still owed by the last frame drawn,
 * and `DrawFrame` is one incremental step.  `Replay` is the naive reference
 * that draws frames 0, 1, ... in order on a blank canvas; the renderer is
 * proved to always agree with it.
 */
module Compositing {
  import opened Wrappers
  import opened Canvas

  /** `dispose_op` values of the APNG fcTL chunk. */
  const DisposeOpNone := 0
  const DisposeOpBackground := 1
  const DisposeOpPrevious := 2

  /** `blend_op` value of the APNG fcTL chunk for overwriting the region. */
  const BlendOpSource := 0

  /** A decoded frame: its rectangle on the canvas, its delay, its fcTL
      operations (kept as plain numbers, as decoded), and its bitmap indexed
      from the rectangle's corner. */
  datatype Frame = Frame(rect: Rect, delay: real, disposeOp: int, blendOp: int, bitmap: ImageData)
  {
    /** The bitmap lies within the frame's own rectangle. */
    ghost predicate WellFormed() {
      forall q :: q in bitmap ==> InRect(q, Rect(0, 0, rect.width, rect.height))
    }
  }

  /** The disposal still to be applied before the next frame is drawn: the
      renderer's `currentFrameDisposeOp`, `currentFrameRect` and
      `currentFrameDisposeImage`. */
  datatype Pending = Pending(op: int, rect: Option<Rect>, image: Option<ImageData>)
  {
    /** A disposal that touches the canvas knows its rectangle, and pixels
        are saved exactly for disposal to the previous contents: the pixels
        under that rectangle, indexed from its corner. */
    ghost predicate Consistent() {
      (op == DisposeOpBackground || op == DisposeOpPrevious ==> rect.Some?) &&
      (image.Some? <==> op == DisposeOpPrevious) &&
      (image.Some? ==> forall q :: q in image.value ==> InRect(q, Rect(0, 0, rect.value.width, rect.value.height)))
    }
  }

  const NoPending := Pending(DisposeOpNone, None, None)

  datatype State = State(surface: Surface, pending: Pending)

  /** A fresh canvas with nothing to dispose. */
  function Blank(width: nat, height: nat): State {
    State(BlankSurface(width, height), NoPending)
  }

  /** The surface once the pending disposal has been applied. */
  function Dispose(st: State): (s: Surface)
    requires st.pending.Consistent()
    ensures s.Keys == st.surface.Keys
  {
    var p := st.pending;
    if p.op == DisposeOpBackground then ClearRect(st.surface, p.rect.value)
    else if p.op == DisposeOpPrevious then PutImageData(st.surface, p.image.value, p.rect.value.left, p.rect.value.top)
    else st.surface
  }

  /** Drawing frame `f` on a canvas whose previous disposal has already been
      applied: remember what this frame's disposal needs, clear the rectangle
      for a source blend, then draw the bitmap. */
  function DrawOnto(disposed: Surface, f: Frame): (r: State)
    ensures r.pending.Consistent()
    ensures r.surface.Keys == disposed.Keys
  {
    var saved := if f.disposeOp == DisposeOpPrevious then Some(GetImageData(disposed, f.rect)) else None;
    var cleared := if f.blendOp == BlendOpSource then ClearRect(disposed, f.rect) else disposed;
    State(DrawImage(cleared, f.bitmap, f.rect.left, f.rect.top), Pending(f.disposeOp, Some(f.rect), saved))
  }

  /** One incremental step: apply the previous frame's disposal, then draw
      the frame. */
  function DrawFrame(st: State, f: Frame): (r: State)
    requires st.pending.Consistent()
    ensures r.pending.Consistent()
    ensures r.surface.Keys == st.surface.Keys
  {
    DrawOnto(Dispose(st), f)
  }

  /** The naive reference: the first `count` frames drawn in order on a
      blank `width` x `height` canvas. */
  function Replay(frames: seq<Frame>, width: nat, height: nat, count: nat): (r: State)
    requires count <= |frames|
    ensures r.pending.Consistent()
    ensures r.surface.Keys == CanvasPoints(width, height)
  {
    if count == 0 then Blank(width, height)
    else DrawFrame(Replay(frames, width, height, count - 1), frames[count - 1])
  }

  /** What disposal does to the canvas after frame `f` has been shown, as the
      APNG extension defines `dispose_op`: PREVIOUS reverts the canvas to
      what it was before `f` was drawn, BACKGROUND clears `f`'s rectangle
      on that same canvas, and any other value leaves the canvas as drawn. */
  lemma DisposalOfFrame(st: State, f: Frame)
    requires st.pending.Consistent() && f.WellFormed()
    ensures f.disposeOp == DisposeOpPrevious ==> Dispose(DrawFrame(st, f)) == Dispose(st)
    ensures f.disposeOp == DisposeOpBackground ==> Dispose(DrawFrame(st, f)) == ClearRect(Dispose(st), f.rect)
    ensures f.disposeOp != DisposeOpPrevious && f.disposeOp != DisposeOpBackground ==>
              Dispose(DrawFrame(st, f)) == DrawFrame(st, f).surface
  {
    var disposed := Dispose(st);
    var drawn := DrawFrame(st, f).surface;
    DrawStaysInRect(st, f);
    if f.disposeOp == DisposeOpPrevious {
      RestoreRegion(disposed, drawn, f.rect);
    } else if f.disposeOp == DisposeOpBackground {
      var lhs := Dispose(DrawFrame(st, f));
      var rhs := ClearRect(disposed, f.rect);
      forall p | p in lhs ensures lhs[p] == rhs[p] {
        if !InRect(p, f.rect) {
          assert drawn[p] == disposed[p];
        }
      }
    }
  }

  /** Drawing a frame changes the disposed canvas only inside the frame's
      rectangle. */
  lemma DrawStaysInRect(st: State, f: Frame)
    requires st.pending.Consistent() && f.WellFormed()
    ensures forall p :: p in Dispose(st) && !InRect(p, f.rect) ==> DrawFrame(st, f).surface[p] == Dispose(st)[p]
  {
    forall p | p in Dispose(st) && !InRect(p, f.rect)
      ensures DrawFrame(st, f).surface[p] == Dispose(st)[p]
    {
      var q := Shift(p, -f.rect.left, -f.rect.top);
      assert !InRect(q, Rect(0, 0, f.rect.width, f.rect.height));
      assert q !in f.bitmap;
    }
  }

  /** A step changes no pixel outside the previous frame's rectangle and the
      new frame's rectangle. */
  lemma StepIsLocal(st: State, f: Frame, p: Point)
    requires st.pending.Consistent() && f.WellFormed()
    requires p in st.surface && !InRect(p, f.rect)
    requires st.pending.rect.Some? ==> !InRect(p, st.pending.rect.value)
    ensures DrawFrame(st, f).surface[p] == st.surface[p]
  {
    DrawStaysInRect(st, f);
    if st.pending.op == DisposeOpPrevious {
      var r := st.pending.rect.value;
      assert !InRect(Shift(p, -r.left, -r.top), Rect(0, 0, r.width, r.height));
    }
  }

  /** With the SOURCE blend the frame's rectangle ends up holding exactly the
      frame's own pixels, whatever the canvas showed before. */
  lemma SourceBlendOverwrites(st: State, f: Frame, p: Point)
    requires st.pending.Consistent()
    requires f.blendOp == BlendOpSource && p in st.surface && InRect(p, f.rect)
    ensures var q := Shift(p, -f.rect.left, -f.rect.top);
            DrawFrame(st, f).surface[p] == if q in f.bitmap then Over(Transparent, f.bitmap[q]) else Transparent
  {
  }

  /** A snapshot of the disposed canvas with nothing left pending: what
      restoring a keyframe or clearing the canvas produces. */
  function Resume(st: State): (r: State)
    requires st.pending.Consistent()
    ensures r.pending == NoPending && r.surface.Keys == st.surface.Keys
  {
    State(Dispose(st), NoPending)
  }
}
