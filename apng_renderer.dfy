/**
 * The incremental APNG compositor with its keyframe cache.  The renderer
 * owns its canvas (`surface`), the disposal owed by the last frame drawn,
 * and a write-once cache of whole-canvas snapshots taken every
 * `KeyFrameInterval` frames.  Its invariant says that the canvas and the
 * pending disposal are always those of the naive replay up to
 * `currentFrameNumber`, so no seek, forward or backward, can be told apart
 * from drawing every frame from the start.
 */
module ApngRendering {
  import opened Wrappers
  import opened Canvas
  import opened Compositing

  const KeyFrameInterval := 16

  /** `Math.min(target, numFrames - 1)`: the frame `renderFrame` shows. */
  function ClampFrame(target: int, numFrames: nat): (r: int)
    ensures r <= target && r <= numFrames - 1
    ensures r == target || r == numFrames - 1
  {
    if target < numFrames - 1 then target else numFrames - 1
  }

  /** The snapshot slot `k` must hold: the reference canvas after the
      disposal of frame `16 k - 1`, before frame `16 k` is drawn. */
  ghost function KeyFrameImage(frames: seq<Frame>, width: nat, height: nat, k: nat): ImageData
    requires k * KeyFrameInterval < |frames|
  {
    Dispose(Replay(frames, width, height, k * KeyFrameInterval))
  }

  /** Every filled slot of `cache` holds its snapshot. */
  ghost predicate CacheValid(frames: seq<Frame>, width: nat, height: nat, cache: map<int, ImageData>)
  {
    (forall k :: k in cache ==> 0 <= k && k * KeyFrameInterval < |frames|) &&
    (forall k: nat {:trigger KeyFrameImage(frames, width, height, k)} ::
       k in cache && k * KeyFrameInterval < |frames| ==> cache[k] == KeyFrameImage(frames, width, height, k))
  }

  /** Filling an empty slot with the right snapshot keeps the cache valid. */
  lemma FillSlot(frames: seq<Frame>, width: nat, height: nat, cache: map<int, ImageData>, k: int, img: ImageData)
    requires CacheValid(frames, width, height, cache)
    requires 0 <= k && k * KeyFrameInterval < |frames|
    requires img == KeyFrameImage(frames, width, height, k)
    ensures CacheValid(frames, width, height, cache[k := img])
  {
  }

  /** A step from any state that disposes like the reference state at `i`
      lands exactly on the reference state at `i + 1`. */
  lemma NextReference(frames: seq<Frame>, width: nat, height: nat, i: nat, before: State, after: State)
    requires i < |frames| && before.pending.Consistent()
    requires Dispose(before) == Dispose(Replay(frames, width, height, i))
    requires after == DrawFrame(before, frames[i])
    ensures after == Replay(frames, width, height, i + 1)
    ensures after.pending.Consistent()
    ensures Dispose(after) == Dispose(Replay(frames, width, height, i + 1))
  {
  }

  class ApngRenderer {
    const frames: seq<Frame>
    const width: nat
    const height: nat

    /** The pixels of the canvas the renderer draws on. */
    var surface: Surface
    var currentFrameNumber: int
    var currentFrameDisposeOp: int
    var currentFrameRect: Option<Rect>
    var currentFrameDisposeImage: Option<ImageData>
    /** Slot `k` holds the snapshot taken before frame `k * KeyFrameInterval`;
        a missing key is a slot that is still null (or past the end of the
        array, which JavaScript reads as undefined). */
    var keyFrames: map<int, ImageData>

    /** The canvas together with the disposal still owed. */
    ghost function Shown(): State
      reads this
    {
      State(surface, Pending(currentFrameDisposeOp, currentFrameRect, currentFrameDisposeImage))
    }

    /** The reference state after the first `count` frames. */
    ghost function Reference(count: nat): State
      requires count <= |frames|
    {
      Replay(frames, width, height, count)
    }

    /** Every cached snapshot is the canvas after the disposal of frame
        `k * 16 - 1` and before frame `k * 16` is drawn. */
    ghost predicate KeyFramesValid()
      reads this
    {
      CacheValid(frames, width, height, keyFrames)
    }

    ghost predicate Valid()
      reads this
    {
      -1 <= currentFrameNumber < |frames| &&
      Shown() == Reference(currentFrameNumber + 1) &&
      KeyFramesValid()
    }

    /** The cache only ever gains slots; a filled slot keeps its snapshot. */
    ghost predicate KeyFramesExtend(before: map<int, ImageData>)
      reads this
    {
      forall k :: k in before ==> k in keyFrames && keyFrames[k] == before[k]
    }

    /** A renderer for `frames` on a freshly created `width` x `height`
        canvas, which is fully transparent; the cache starts with every slot
        empty. */
    constructor (frames: seq<Frame>, width: nat, height: nat)
      ensures Valid()
      ensures this.frames == frames && this.width == width && this.height == height
      ensures currentFrameNumber == -1 && keyFrames == map[]
    {
      this.frames := frames;
      this.width := width;
      this.height := height;
      surface := BlankSurface(width, height);
      currentFrameNumber := -1;
      currentFrameDisposeOp := DisposeOpNone;
      currentFrameRect := None;
      currentFrameDisposeImage := None;
      keyFrames := map[];
    }

    /** Leaves the canvas showing frame `min(target, numFrames - 1)` exactly
        as drawing frames 0 .. that frame in order would. */
    method RenderFrame(targetFrameNumber: int)
      requires Valid() && targetFrameNumber >= -1
      modifies this
      ensures Valid()
      ensures currentFrameNumber == ClampFrame(targetFrameNumber, |frames|)
      ensures Shown() == Reference(currentFrameNumber + 1)
      ensures KeyFramesExtend(old(keyFrames))
      ensures old(currentFrameNumber) == currentFrameNumber ==>
                surface == old(surface) && Shown() == old(Shown()) && keyFrames == old(keyFrames)
    {
      var target := ClampFrame(targetFrameNumber, |frames|);
      if currentFrameNumber > target {
        var keyFrameIndex := FindAvailableKeyFrameIndex(target);
        if keyFrameIndex == -1 {
          RenderHeadFrame();
          if target >= 0 {  // for target -1 the source's loop draws nothing
            RenderDeltaFrames(0, target);
          }
        } else {
          RenderKeyFrame(keyFrameIndex);
          var keyFrameNumber := keyFrameIndex * KeyFrameInterval;
          RenderDeltaFrames(keyFrameNumber, target);
        }
      } else if currentFrameNumber < target {
        var keyFrameIndex := FindAvailableKeyFrameIndex(target);
        var keyFrameNumber := keyFrameIndex * KeyFrameInterval;
        if keyFrameIndex == -1 || keyFrameNumber <= currentFrameNumber {
          RenderDeltaFrames(currentFrameNumber + 1, target);
        } else {
          RenderKeyFrame(keyFrameIndex);
          RenderDeltaFrames(keyFrameNumber, target);
        }
      }
      currentFrameNumber := target;
    }

    /** The largest filled slot at or below `floor(target / 16)`, or -1 when
        every such slot is empty. */
    method FindAvailableKeyFrameIndex(targetFrameNumber: int) returns (index: int)
      ensures index == -1 || (0 <= index <= targetFrameNumber / KeyFrameInterval && index in keyFrames)
      ensures forall k :: index < k <= targetFrameNumber / KeyFrameInterval ==> k !in keyFrames
    {
      var i := targetFrameNumber / KeyFrameInterval;
      while i >= 0
        invariant i <= targetFrameNumber / KeyFrameInterval
        invariant forall k :: i < k <= targetFrameNumber / KeyFrameInterval ==> k !in keyFrames
      {
        if i in keyFrames {
          return i;
        }
        i := i - 1;
      }
      return -1;
    }

    /** Clears the whole canvas and forgets the pending disposal. */
    method RenderHeadFrame()
      requires surface.Keys == CanvasPoints(width, height)
      modifies this`surface, this`currentFrameDisposeOp, this`currentFrameRect, this`currentFrameDisposeImage
      ensures Shown() == Blank(width, height)
    {
      ClearWholeCanvas(surface, width, height);
      surface := ClearRect(surface, Rect(0, 0, width, height));
      currentFrameDisposeOp := DisposeOpNone;
      currentFrameRect := None;
      currentFrameDisposeImage := None;
    }

    /** Puts snapshot `keyFrameIndex` back on the canvas and forgets the
        pending disposal. */
    method RenderKeyFrame(keyFrameIndex: int)
      requires KeyFramesValid() && keyFrameIndex in keyFrames
      requires surface.Keys == CanvasPoints(width, height)
      modifies this`surface, this`currentFrameDisposeOp, this`currentFrameRect, this`currentFrameDisposeImage
      ensures 0 <= keyFrameIndex && keyFrameIndex * KeyFrameInterval < |frames|
      ensures Shown() == Resume(Reference(keyFrameIndex * KeyFrameInterval))
    {
      assert keyFrames[keyFrameIndex] == KeyFrameImage(frames, width, height, keyFrameIndex);
      RestoreWholeCanvas(surface, keyFrames[keyFrameIndex]);
      surface := PutImageData(surface, keyFrames[keyFrameIndex], 0, 0);
      currentFrameDisposeOp := DisposeOpNone;
      currentFrameRect := None;
      currentFrameDisposeImage := None;
    }

    /** Draws frames `first .. last` one at a time (the `for` loops of
        `renderFrame`), starting from the reference state at `first` or
        from a snapshot of it with nothing pending. */
    method RenderDeltaFrames(first: int, last: int)
      requires KeyFramesValid() && 0 <= first <= last < |frames|
      requires Shown().pending.Consistent() && Dispose(Shown()) == Dispose(Reference(first))
      modifies this`surface, this`keyFrames
      modifies this`currentFrameDisposeOp, this`currentFrameRect, this`currentFrameDisposeImage
      ensures KeyFramesValid() && KeyFramesExtend(old(keyFrames))
      ensures Shown() == Reference(last + 1)
    {
      RenderDeltaFrame(first);
      for i := first + 1 to last + 1
        invariant KeyFramesValid() && KeyFramesExtend(old(keyFrames))
        invariant Shown() == Reference(i)
      {
        RenderDeltaFrame(i);
      }
    }

    /** One incremental step for frame `i`: the previous frame's disposal,
        then the snapshot for slot `i / 16` if `i` is a multiple of 16 and
        that slot is empty, then frame `i` itself. */
    method RenderDeltaFrame(i: int)
      requires KeyFramesValid() && 0 <= i < |frames|
      requires Shown().pending.Consistent()
      requires Dispose(Shown()) == Dispose(Reference(i))
      modifies this`surface, this`keyFrames
      modifies this`currentFrameDisposeOp, this`currentFrameRect, this`currentFrameDisposeImage
      ensures Shown() == DrawFrame(old(Shown()), frames[i])
      ensures Shown() == Reference(i + 1)
      ensures keyFrames ==
                if i % KeyFrameInterval == 0 && i / KeyFrameInterval !in old(keyFrames)
                then old(keyFrames)[i / KeyFrameInterval := Dispose(old(Shown()))]
                else old(keyFrames)
      ensures KeyFramesValid() && KeyFramesExtend(old(keyFrames))
    {
      ApplyPendingDisposal();
      if i % KeyFrameInterval == 0 {
        var keyFrameIndex := i / KeyFrameInterval;
        if keyFrameIndex !in keyFrames {
          SnapshotWholeCanvas(surface, width, height);
          assert keyFrameIndex * KeyFrameInterval == i;
          assert surface == KeyFrameImage(frames, width, height, keyFrameIndex);
          FillSlot(frames, width, height, keyFrames, keyFrameIndex, surface);
          keyFrames := keyFrames[keyFrameIndex := GetImageData(surface, Rect(0, 0, width, height))];
        }
      }
      ghost var before := old(Shown());
      DrawOver(frames[i]);
      NextReference(frames, width, height, i, before, Shown());
    }

    /** The first part of `renderDeltaFrame`: clear or restore the previous
        frame's rectangle as its disposal demands. */
    method ApplyPendingDisposal()
      requires Shown().pending.Consistent()
      modifies this`surface
      ensures surface == Dispose(old(Shown()))
    {
      if currentFrameDisposeOp == DisposeOpBackground {
        var rect := currentFrameRect.value;
        surface := ClearRect(surface, rect);
      } else if currentFrameDisposeOp == DisposeOpPrevious {
        var rect := currentFrameRect.value;
        var image := currentFrameDisposeImage.value;
        surface := PutImageData(surface, image, rect.left, rect.top);
      }
    }

    /** The last part of `renderDeltaFrame`: record the frame's disposal
        (saving the pixels under its rectangle for PREVIOUS), clear the
        rectangle for a SOURCE blend, and draw the bitmap. */
    method DrawOver(frame: Frame)
      modifies this`surface, this`currentFrameDisposeOp, this`currentFrameRect, this`currentFrameDisposeImage
      ensures Shown() == DrawOnto(old(surface), frame)
    {
      currentFrameDisposeOp := frame.disposeOp;
      currentFrameRect := Some(frame.rect);
      if frame.disposeOp == DisposeOpPrevious {
        currentFrameDisposeImage := Some(GetImageData(surface, frame.rect));
      } else {
        currentFrameDisposeImage := None;
      }

      if frame.blendOp == BlendOpSource {
        surface := ClearRect(surface, frame.rect);
      }
      surface := DrawImage(surface, frame.bitmap, frame.rect.left, frame.rect.top);
    }
  }
}
