/**
 * The client window's presentation state (`GuiWindow`): the frame-pacing throttle, the
 * fullscreen toggle and the slot holding the latest decoded frame.
 *
 * Time is a parameter in whole milliseconds (what `Instant::now()` returned); the
 * window, the GL context and the frame channel are reduced to what the logic reads.
 */
module ClientGui {
  import opened Common

  const TargetFps: nat := 60

  /** `Duration::from_millis(1000 / TARGET_FPS)`, in milliseconds. */
  const FrameDurationMs: nat := 1000 / TargetFps

  /** Integer division rounds the 60 fps frame period down to 16 ms. */
  lemma FrameDurationIs16()
    ensures FrameDurationMs == 16
    ensures FrameDurationMs * TargetFps <= 1000 < (FrameDurationMs + 1) * TargetFps
  {
  }

  /** `StreamFrame`: one decoded RGBA frame. */
  datatype StreamFrame = StreamFrame(data: seq<byte>, width: u32, height: u32)

  /** An opaque handle to the winit window. */
  type WindowId = nat

  /** `Instant::duration_since`: the time from `earlier` to `now`, zero if `earlier` is later. */
  function Elapsed(now: int, earlier: int): nat {
    if now >= earlier then now - earlier else 0
  }

  /**
   * What the throttle relies on: for a positive period, saturating at zero changes
   * nothing, so the elapsed time reaches the period exactly when `now` is that far past
   * `earlier`, and never when the clock appears to run backwards.
   */
  lemma ElapsedReachesPeriod(now: int, earlier: int, period: nat)
    requires period > 0
    ensures Elapsed(now, earlier) >= period <==> now - earlier >= period
    ensures now < earlier ==> Elapsed(now, earlier) < period
  {
  }

  class GuiWindow {
    var window: Option<WindowId>
    var currentFrame: Option<StreamFrame>
    var isFullscreen: bool
    var lastFrameTime: int
    const frameDuration: nat

    /** `GuiWindow::new`, called at time `now`: no window yet, no frame, not fullscreen. */
    constructor (now: int)
      ensures window == None && currentFrame == None && !isFullscreen
      ensures lastFrameTime == now && frameDuration == FrameDurationMs
    {
      window := None;
      currentFrame := None;
      isFullscreen := false;
      lastFrameTime := now;
      frameDuration := FrameDurationMs;
    }

    /** The window part of `resumed`: the created window is stored. */
    method Resumed(w: WindowId)
      modifies this
      ensures window == Some(w)
      ensures currentFrame == old(currentFrame) && isFullscreen == old(isFullscreen)
      ensures lastFrameTime == old(lastFrameTime)
    {
      window := Some(w);
    }

    /** `toggle_fullscreen`: flips the flag when there is a window, and does nothing without one. */
    method ToggleFullscreen()
      modifies this
      ensures isFullscreen == (if old(window).Some? then !old(isFullscreen) else old(isFullscreen))
      ensures window == old(window) && currentFrame == old(currentFrame)
      ensures lastFrameTime == old(lastFrameTime)
    {
      if window.Some? {
        isFullscreen := !isFullscreen;
      }
    }

    /**
     * `should_render` at time `now`: true when at least one frame period has passed since
     * the last render, which then becomes `now`; otherwise nothing changes.
     */
    method ShouldRender(now: int) returns (render: bool)
      modifies this
      ensures render <==> Elapsed(now, old(lastFrameTime)) >= frameDuration
      ensures frameDuration > 0 ==> (render <==> now - old(lastFrameTime) >= frameDuration)
      ensures lastFrameTime == (if render then now else old(lastFrameTime))
      ensures window == old(window) && currentFrame == old(currentFrame)
      ensures isFullscreen == old(isFullscreen)
    {
      if frameDuration > 0 {
        ElapsedReachesPeriod(now, lastFrameTime, frameDuration);
      }
      if Elapsed(now, lastFrameTime) >= frameDuration {
        lastFrameTime := now;
        render := true;
      } else {
        render := false;
      }
    }

    /**
     * The start of `window_event`: `received` is what `frame_rx.try_recv()` gave. A frame
     * replaces the current one; when none was waiting the current one is kept.
     */
    method PollFrame(received: Option<StreamFrame>)
      modifies this
      ensures currentFrame == (if received.Some? then received else old(currentFrame))
      ensures window == old(window) && isFullscreen == old(isFullscreen)
      ensures lastFrameTime == old(lastFrameTime)
    {
      if received.Some? {
        currentFrame := received;
      }
    }
  }

  /** Pressing F11 twice restores the fullscreen flag, with or without a window. */
  method ToggleTwiceRestores(w: GuiWindow)
    modifies w
    ensures w.isFullscreen == old(w.isFullscreen)
    ensures w.window == old(w.window) && w.currentFrame == old(w.currentFrame)
    ensures w.lastFrameTime == old(w.lastFrameTime)
  {
    w.ToggleFullscreen();
    w.ToggleFullscreen();
  }

  /**
   * The times at which `should_render` returns true when it is asked at the times `nows`,
   * starting from the last render time `last`.
   */
  function RenderTimes(last: int, duration: nat, nows: seq<int>): seq<int>
    decreases |nows|
  {
    if nows == [] then []
    else if Elapsed(nows[0], last) >= duration then [nows[0]] + RenderTimes(nows[0], duration, nows[1..])
    else RenderTimes(last, duration, nows[1..])
  }

  /**
   * Frame pacing: the first render comes at least one period after `last`, and any two
   * consecutive renders are at least one frame period apart, whatever the polling times.
   */
  lemma {:induction false} RendersSpaced(last: int, duration: nat, nows: seq<int>)
    requires duration > 0
    ensures var ts := RenderTimes(last, duration, nows);
            (|ts| > 0 ==> ts[0] - last >= duration) &&
            forall k :: 0 < k < |ts| ==> ts[k] - ts[k - 1] >= duration
    decreases |nows|
  {
    if nows != [] {
      if Elapsed(nows[0], last) >= duration {
        RendersSpaced(nows[0], duration, nows[1..]);
        var rest := RenderTimes(nows[0], duration, nows[1..]);
        var ts := [nows[0]] + rest;
        forall k | 0 < k < |ts|
          ensures ts[k] - ts[k - 1] >= duration
        {
          if k > 1 {
            assert ts[k] == rest[k - 1] && ts[k - 1] == rest[k - 2];
          }
        }
      } else {
        RendersSpaced(last, duration, nows[1..]);
      }
    }
  }

  /**
   * The event loop asking `should_render` at each of the times `nows`: the times it
   * answered true are exactly `RenderTimes` from the window's last render time, so they
   * are spaced by at least one frame period.
   */
  method PollRenders(w: GuiWindow, nows: seq<int>) returns (rendered: seq<int>)
    modifies w
    ensures rendered == RenderTimes(old(w.lastFrameTime), w.frameDuration, nows)
    ensures w.frameDuration > 0 && |rendered| > 0 ==> rendered[0] - old(w.lastFrameTime) >= w.frameDuration
    ensures w.frameDuration > 0 ==> forall k :: 0 < k < |rendered| ==> rendered[k] - rendered[k - 1] >= w.frameDuration
    ensures w.lastFrameTime == if rendered == [] then old(w.lastFrameTime) else rendered[|rendered| - 1]
    ensures w.window == old(w.window) && w.currentFrame == old(w.currentFrame)
    ensures w.isFullscreen == old(w.isFullscreen)
  {
    rendered := [];
    var i := 0;
    while i < |nows|
      invariant 0 <= i <= |nows|
      invariant RenderTimes(old(w.lastFrameTime), w.frameDuration, nows) ==
                rendered + RenderTimes(w.lastFrameTime, w.frameDuration, nows[i..])
      invariant w.lastFrameTime == if rendered == [] then old(w.lastFrameTime) else rendered[|rendered| - 1]
      invariant w.window == old(w.window) && w.currentFrame == old(w.currentFrame)
      invariant w.isFullscreen == old(w.isFullscreen)
    {
      assert nows[i..][0] == nows[i] && nows[i..][1..] == nows[i + 1..];
      var render := w.ShouldRender(nows[i]);
      if render {
        rendered := rendered + [nows[i]];
      }
      i := i + 1;
    }
    assert rendered == RenderTimes(old(w.lastFrameTime), w.frameDuration, nows);
    if w.frameDuration > 0 {
      RendersSpaced(old(w.lastFrameTime), w.frameDuration, nows);
    }
  }
}
