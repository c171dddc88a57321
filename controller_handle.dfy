/**
 * The playback clock shared by every renderer of one animation: elapsed time,
 * scaled by the playback speed, accumulates in `delay` and is spent on frame
 * delays, wrapping around at the last frame.  The transport operations (play,
 * pause, speed, single steps) and the renderers they drive are modelled as
 * the object's fields; the browser's `EventTarget` becomes an append-only log
 * of the events dispatched.
 */
module Controller {
  import opened ApngRendering

  /** The custom events the handle dispatches. */
  datatype Event = PlayingUpdated | FrameNumberUpdated | SpeedUpdated

  /** A playback position: the frame shown and the time already spent on it. */
  datatype Position = Position(frame: int, delay: real)

  predicate AllPositive(delays: seq<real>) {
    forall i :: 0 <= i < |delays| ==> delays[i] > 0.0
  }

  /** The shortest delay: every pass of the clock loop spends at least this. */
  function MinDelay(delays: seq<real>): (m: real)
    requires |delays| > 0
    ensures m in delays
    ensures forall i :: 0 <= i < |delays| ==> m <= delays[i]
  {
    if |delays| == 1 then delays[0]
    else
      var rest := MinDelay(delays[1..]);
      assert forall i :: 1 <= i < |delays| ==> delays[i] == delays[1..][i - 1];
      if delays[0] <= rest then delays[0] else rest
  }

  /** How many shortest delays fit in `acc`: the clock loop's variant. */
  function Units(acc: real, m: real): int
    requires m > 0.0
  {
    (acc / m).Floor
  }

  /** Spending a delay of at least `m` uses up at least one unit. */
  lemma UnitsDecrease(acc: real, d: real, m: real)
    requires 0.0 < m <= d <= acc
    ensures 0 <= Units(acc - d, m) < Units(acc, m)
  {
    assert (acc - d) / m == acc / m - d / m;
    assert d / m >= 1.0;
    assert (acc - d) / m >= 0.0;
  }

  /** The frame after `frame`, wrapping from the last frame to the first. */
  function NextFrameNumber(frame: int, numFrames: int): (r: int)
    requires 0 <= frame < numFrames
    ensures 0 <= r < numFrames
    ensures r == if frame == numFrames - 1 then 0 else frame + 1
  {
    (frame + 1) % numFrames
  }

  /** The frame before `frame`, wrapping from the first frame to the last. */
  function PrevFrameNumber(frame: int, numFrames: int): (r: int)
    requires 0 <= frame < numFrames
    ensures 0 <= r < numFrames
    ensures r == if frame == 0 then numFrames - 1 else frame - 1
  {
    (frame + numFrames - 1) % numFrames
  }

  /** What the clock loop computes: while the accumulated time covers the
      current frame's delay, pay that delay and move to the next frame. */
  function Advance(delays: seq<real>, frame: int, acc: real): (r: Position)
    requires AllPositive(delays) && 0 <= frame < |delays|
    ensures 0 <= r.frame < |delays|
    ensures r.delay < delays[r.frame]
    ensures acc >= 0.0 ==> r.delay >= 0.0
    ensures acc < delays[frame] ==> r == Position(frame, acc)
    decreases Units(acc, MinDelay(delays))
  {
    if acc >= delays[frame] then
      UnitsDecrease(acc, delays[frame], MinDelay(delays));
      Advance(delays, NextFrameNumber(frame, |delays|), acc - delays[frame])
    else
      Position(frame, acc)
  }

  /** Running the clock on `x` and then on `y` more ends where running it on
      `x + y` at once does. */
  lemma {:induction false} AdvanceSplit(delays: seq<real>, frame: int, x: real, y: real)
    requires AllPositive(delays) && 0 <= frame < |delays| && y >= 0.0
    ensures var p := Advance(delays, frame, x);
            Advance(delays, p.frame, p.delay + y) == Advance(delays, frame, x + y)
    decreases Units(x, MinDelay(delays))
  {
    if x >= delays[frame] {
      UnitsDecrease(x, delays[frame], MinDelay(delays));
      var next := NextFrameNumber(frame, |delays|);
      AdvanceSplit(delays, next, x - delays[frame], y);
      assert x - delays[frame] + y == x + y - delays[frame];
    }
  }

  /** Two updates of `a` and `b` at the same speed land on the same frame and
      accumulated delay as one update of `a + b`. */
  lemma SplitElapsedTime(delays: seq<real>, frame: int, delay: real, speed: real, a: real, b: real)
    requires AllPositive(delays) && 0 <= frame < |delays|
    requires a >= 0.0 && b >= 0.0 && speed >= 0.0
    ensures var p := Advance(delays, frame, delay + a * speed);
            Advance(delays, p.frame, p.delay + b * speed) == Advance(delays, frame, delay + (a + b) * speed)
  {
    ScaledTime(a, b, speed);
    AdvanceSplit(delays, frame, delay + a * speed, b * speed);
  }

  /** The arithmetic `SplitElapsedTime` needs about scaled durations. */
  lemma ScaledTime(a: real, b: real, speed: real)
    requires b >= 0.0 && speed >= 0.0
    ensures b * speed >= 0.0
    ensures (a + b) * speed == a * speed + b * speed
  {
  }

  /** Three frames of 10 time units: 25 units in, the clock shows frame 2
      with 5 units spent on it; 10 more units wrap it to frame 0. */
  lemma ThreeFrameExample()
    ensures Advance([10.0, 10.0, 10.0], 0, 25.0) == Position(2, 5.0)
    ensures Advance([10.0, 10.0, 10.0], 2, 5.0 + 10.0) == Position(0, 5.0)
  {
    var d := [10.0, 10.0, 10.0];
    assert Advance(d, 2, 5.0) == Position(2, 5.0);
    assert Advance(d, 1, 15.0) == Position(2, 5.0);
    assert Advance(d, 0, 5.0) == Position(0, 5.0);
  }

  /** A step back followed by a step forward, or the other way round,
      returns to the frame it started from. */
  lemma StepsCancel(frame: int, numFrames: int)
    requires 0 <= frame < numFrames
    ensures NextFrameNumber(PrevFrameNumber(frame, numFrames), numFrames) == frame
    ensures PrevFrameNumber(NextFrameNumber(frame, numFrames), numFrames) == frame
  {
  }

  class ControllerHandle {
    var renderers: seq<ApngRenderer>
    var delays: seq<real>
    var delay: real
    var frameNumber: int
    var numFrames: int
    var playing: bool
    var speed: real
    /** Every event dispatched so far, oldest first. */
    var events: seq<Event>

    /** Every attached renderer shows frame `target`, clamped to its own
        frame count, exactly as a naive replay would. */
    ghost predicate Synced(target: int)
      reads this, renderers
    {
      forall i :: 0 <= i < |renderers| ==>
        renderers[i].Valid() && renderers[i].currentFrameNumber == ClampFrame(target, |renderers[i].frames|)
    }

    /** The clock stays on a real frame with less than that frame's delay
        accumulated, and every renderer follows it. */
    ghost predicate Valid()
      reads this, renderers
    {
      numFrames == |delays| && AllPositive(delays) && speed >= 0.0 &&
      0 <= frameNumber && delay >= 0.0 &&
      (numFrames == 0 ==> frameNumber == 0 && delay == 0.0) &&
      (numFrames > 0 ==> frameNumber < numFrames && delay < delays[frameNumber]) &&
      Synced(frameNumber)
    }

    /** No renderer yet, playing at normal speed from frame 0. */
    constructor ()
      ensures Valid()
      ensures renderers == [] && numFrames == 0 && frameNumber == 0 && delay == 0.0
      ensures playing && speed == 1.0 && events == []
    {
      renderers := [];
      delays := [];
      delay := 0.0;
      frameNumber := 0;
      numFrames := 0;
      playing := true;
      speed := 1.0;
      events := [];
    }

    /** Attaches `renderer`; the first renderer with frames fixes the frame
        count and the delays.  The renderer is brought to the current frame. */
    method AddRenderer(renderer: ApngRenderer)
      requires Valid() && renderer.Valid()
      requires numFrames == 0 ==> forall i :: 0 <= i < |renderer.frames| ==> renderer.frames[i].delay > 0.0
      modifies this, renderer
      ensures Valid()
      ensures renderers == old(renderers) + [renderer]
      ensures old(numFrames) == 0 ==>
                numFrames == |renderer.frames| &&
                forall i :: 0 <= i < numFrames ==> delays[i] == renderer.frames[i].delay
      ensures old(numFrames) != 0 ==> numFrames == old(numFrames) && delays == old(delays)
      ensures frameNumber == old(frameNumber) && delay == old(delay) && playing == old(playing)
      ensures speed == old(speed) && events == old(events)
      ensures renderer.currentFrameNumber == ClampFrame(frameNumber, |renderer.frames|)
    {
      renderers := renderers + [renderer];
      if numFrames == 0 {
        numFrames := |renderer.frames|;
        delays := seq(|renderer.frames|, i requires 0 <= i < |renderer.frames| => renderer.frames[i].delay);
      }
      renderer.RenderFrame(frameNumber);
    }

    /** Brings every renderer to `frameNumber`, one after the other. */
    method RenderAll()
      requires frameNumber >= 0
      requires forall i :: 0 <= i < |renderers| ==> renderers[i].Valid()
      modifies renderers
      ensures Synced(frameNumber)
    {
      for j := 0 to |renderers|
        invariant forall i :: 0 <= i < |renderers| ==> renderers[i].Valid()
        invariant forall i :: 0 <= i < j ==>
                    renderers[i].currentFrameNumber == ClampFrame(frameNumber, |renderers[i].frames|)
      {
        renderers[j].RenderFrame(frameNumber);
      }
    }

    /** Lets `deltaTime` pass: while playing, the time scaled by the speed
        advances the clock, every renderer shows the new frame and one
        frame-number event is dispatched. */
    method Update(deltaTime: real)
      requires Valid() && deltaTime >= 0.0
      modifies this, renderers
      ensures Valid()
      ensures renderers == old(renderers) && delays == old(delays) && numFrames == old(numFrames)
      ensures playing == old(playing) && speed == old(speed)
      ensures old(numFrames) == 0 || !old(playing) ==>
                frameNumber == old(frameNumber) && delay == old(delay) && events == old(events)
      ensures old(numFrames) == 0 || !old(playing) ==> unchanged(renderers)
      ensures old(numFrames) != 0 && old(playing) ==>
                Position(frameNumber, delay) == old(Advance(delays, frameNumber, delay + deltaTime * speed)) &&
                events == old(events) + [FrameNumberUpdated]
    {
      if numFrames == 0 {
        return;
      }
      if !playing {
        return;
      }

      ghost var target := Advance(delays, frameNumber, delay + deltaTime * speed);
      assert deltaTime * speed >= 0.0;
      delay := delay + deltaTime * speed;
      var newFrameNumber := SpendDelay();
      assert Position(newFrameNumber, delay) == target;
      frameNumber := newFrameNumber;
      RenderAll();
      events := events + [FrameNumberUpdated];
      assert Position(frameNumber, delay) == target;
    }

    /** The accumulator loop of `update`: pay whole frame delays out of
        `delay`, moving to the next frame (with wrap-around) after each,
        until the current frame's delay is no longer covered. */
    method SpendDelay() returns (newFrameNumber: int)
      requires AllPositive(delays) && numFrames == |delays| && 0 <= frameNumber < numFrames
      requires delay >= 0.0
      modifies this`delay
      ensures Position(newFrameNumber, delay) == Advance(delays, frameNumber, old(delay))
    {
      ghost var goal := Advance(delays, frameNumber, delay);
      newFrameNumber := frameNumber;
      while delay >= delays[newFrameNumber]
        invariant 0 <= newFrameNumber < numFrames && delay >= 0.0
        invariant Advance(delays, newFrameNumber, delay) == goal
        decreases Units(delay, MinDelay(delays))
      {
        UnitsDecrease(delay, delays[newFrameNumber], MinDelay(delays));
        delay := delay - delays[newFrameNumber];
        newFrameNumber := (newFrameNumber + 1) % numFrames;
      }
    }

    /** Stops the clock and forgets the time spent on the current frame. */
    method Pause()
      requires Valid()
      modifies this
      ensures Valid()
      ensures !playing && delay == 0.0
      ensures frameNumber == old(frameNumber) && speed == old(speed) && renderers == old(renderers)
      ensures delays == old(delays) && numFrames == old(numFrames)
      ensures events == old(events) + [PlayingUpdated]
    {
      playing := false;
      delay := 0.0;
      events := events + [PlayingUpdated];
    }

    /** Restarts the clock where it stopped. */
    method Resume()
      requires Valid()
      modifies this
      ensures Valid()
      ensures playing && delay == old(delay)
      ensures frameNumber == old(frameNumber) && speed == old(speed) && renderers == old(renderers)
      ensures delays == old(delays) && numFrames == old(numFrames)
      ensures events == old(events) + [PlayingUpdated]
    {
      playing := true;
      events := events + [PlayingUpdated];
    }

    /** Changes the playback speed and nothing else. */
    method SetSpeed(newSpeed: real)
      requires Valid() && newSpeed >= 0.0
      modifies this
      ensures Valid()
      ensures speed == newSpeed
      ensures playing == old(playing) && delay == old(delay) && frameNumber == old(frameNumber)
      ensures renderers == old(renderers) && delays == old(delays) && numFrames == old(numFrames)
      ensures events == old(events) + [SpeedUpdated]
    {
      speed := newSpeed;
      events := events + [SpeedUpdated];
    }

    /** Pauses and steps one frame back, wrapping to the last frame. */
    method PrevFrame()
      requires Valid()
      modifies this, renderers
      ensures Valid()
      ensures renderers == old(renderers) && delays == old(delays) && numFrames == old(numFrames)
      ensures speed == old(speed)
      ensures old(numFrames) == 0 ==>
                frameNumber == old(frameNumber) && playing == old(playing) && delay == old(delay) &&
                events == old(events)
      ensures old(numFrames) == 0 ==> unchanged(renderers)
      ensures old(numFrames) != 0 ==>
                !playing && delay == 0.0 &&
                frameNumber == PrevFrameNumber(old(frameNumber), numFrames) &&
                events == old(events) + [PlayingUpdated, FrameNumberUpdated]
    {
      if numFrames == 0 {
        return;
      }

      playing := false;
      delay := 0.0;
      events := events + [PlayingUpdated];
      frameNumber := (frameNumber + numFrames - 1) % numFrames;
      RenderAll();
      events := events + [FrameNumberUpdated];
    }

    /** Pauses and steps one frame forward, wrapping to the first frame. */
    method NextFrame()
      requires Valid()
      modifies this, renderers
      ensures Valid()
      ensures renderers == old(renderers) && delays == old(delays) && numFrames == old(numFrames)
      ensures speed == old(speed)
      ensures old(numFrames) == 0 ==>
                frameNumber == old(frameNumber) && playing == old(playing) && delay == old(delay) &&
                events == old(events)
      ensures old(numFrames) == 0 ==> unchanged(renderers)
      ensures old(numFrames) != 0 ==>
                !playing && delay == 0.0 &&
                frameNumber == NextFrameNumber(old(frameNumber), numFrames) &&
                events == old(events) + [PlayingUpdated, FrameNumberUpdated]
    {
      if numFrames == 0 {
        return;
      }

      playing := false;
      delay := 0.0;
      events := events + [PlayingUpdated];
      frameNumber := (frameNumber + 1) % numFrames;
      RenderAll();
      events := events + [FrameNumberUpdated];
    }
  }
}
