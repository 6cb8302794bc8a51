/** The odyexp viewer's scene panel (crates/odyexp-viewer/src/scene_panel.rs):
    its loading / paused / error flags, the dirty flag that decides whether the
    splats are re-rendered, the size of the last render, and the playback
    position of an animation. Rendering, the grid and the field-of-view update
    are outside the model; the camera controller's input handling is reduced
    to whether it moved the camera. */
module OdyScene {
  import opened Wrappers
  import opened RenderSizes
  import opened OdyMessages

  /** A size in whole pixels (`UVec2`). */
  datatype PixelSize = PixelSize(x: u32, y: u32)

  /** `f32::round` (half away from zero) followed by a saturating cast to
      `u32`, for a non-negative size. */
  function RoundToU32(v: real): (r: u32)
    requires v >= 0.0
    ensures r < U32_LIMIT - 1 ==> r as real - 0.5 <= v < r as real + 0.5
    ensures r == U32_LIMIT - 1 ==> v >= r as real - 0.5
  {
    var n := (v + 0.5).Floor;
    if n < U32_LIMIT then n else U32_LIMIT - 1
  }

  /** The margin kept free below the scene. */
  const BOTTOM_MARGIN: real := 50.0

  /** The smallest size, on either axis, that is drawn. */
  const MIN_DRAW_SIZE: real := 8.0

  /** The frame time used on the very first frame: 10 ms. */
  const FIRST_FRAME_SECONDS: real := 0.01

  /** The camera controller's flag that the user moved the camera. */
  class Controls {
    var dirty: bool

    constructor ()
      ensures !dirty
    {
      dirty := false;
    }
  }

  class ScenePanel {
    var frame: real
    var err: Option<ErrorCause>
    var isLoading: bool
    var isPaused: bool
    var lastSize: PixelSize
    var dirty: bool
    var hasDrawn: bool

    /** `ScenePanel::new` (scene_panel.rs:46-63). */
    constructor ()
      ensures frame == 0.0 && err == None && dirty && !isLoading && !isPaused
      ensures lastSize == PixelSize(0, 0) && !hasDrawn
    {
      frame := 0.0;
      err := None;
      isLoading := false;
      isPaused := false;
      lastSize := PixelSize(0, 0);
      dirty := true;
      hasDrawn := false;
    }

    /** `on_message` (scene_panel.rs:133-157): every message makes the panel
        dirty; a new source resets the flags and the error. */
    method OnMessage(m: Message)
      modifies this
      ensures dirty
      ensures frame == old(frame) && lastSize == old(lastSize) && hasDrawn == old(hasDrawn)
      ensures m.NewSource? ==> !isPaused && !isLoading && err == None
      ensures m.StartLoading? ==> isLoading && isPaused == old(isPaused) && err == old(err)
      ensures m.DoneLoading? ==> !isLoading && isPaused == old(isPaused) && err == old(err)
      ensures m.Error? ==> err == Some(m.cause) && isLoading == old(isLoading) && isPaused == old(isPaused)
      ensures m.ViewSplats? ==> isLoading == old(isLoading) && isPaused == old(isPaused) && err == old(err)
    {
      dirty := true;
      match m {
        case NewSource =>
          isPaused := false;
          isLoading := false;
          err := None;
        case DoneLoading =>
          isLoading := false;
        case StartLoading(_) =>
          isLoading := true;
        case ViewSplats(_, _, _) =>
        case Error(cause) =>
          err := Some(cause);
      }
    }

    /** The redraw part of `draw_splats` (scene_panel.rs:65-79): render only
        when dirty, then clear the flag and record the size rendered at. */
    method DrawSplats(size: PixelSize) returns (rendered: bool)
      modifies this`dirty, this`lastSize
      ensures rendered == old(dirty)
      ensures !dirty
      ensures rendered ==> lastSize == size
      ensures !rendered ==> lastSize == old(lastSize)
    {
      rendered := dirty;
      if dirty {
        dirty := false;
        lastSize := size;
      }
    }

    /** `show_splat_options` (scene_panel.rs:96-131) with the user's click on the
        play/pause toggle as a parameter: an animation (more than one frame)
        keeps the panel dirty and, unless loading, can be paused, and advances
        by the frame time while playing. */
    method ShowSplatOptions(numViews: nat, clicked: bool, deltaTime: real)
      modifies this`dirty, this`isPaused, this`frame
      ensures numViews <= 1 ==> dirty == old(dirty) && isPaused == old(isPaused) && frame == old(frame)
      ensures numViews > 1 ==> dirty
      ensures numViews > 1 && !isLoading ==> isPaused == (old(isPaused) != clicked)
      ensures numViews > 1 && isLoading ==> isPaused == old(isPaused)
      ensures frame == if numViews > 1 && !isLoading && !isPaused then old(frame) + deltaTime else old(frame)
    {
      if numViews > 1 {
        dirty := true;
        if !isLoading {
          if clicked {
            isPaused := !isPaused;
          }
          if !isPaused {
            frame := frame + deltaTime;
            dirty := true;
          }
        }
      }
    }

    /** `show` (scene_panel.rs:159-204) for one frame: the available size,
        whether the camera controller saw the user move the camera, the number
        of animation frames, whether a current frame exists, the pause click
        and the time since the last frame (`None` on the first frame). The
        result tells whether the splats were re-rendered. */
    method Show(available: (real, real), controls: Controls, cameraMoved: bool,
                numViews: nat, hasCurrentSplats: bool, clicked: bool, elapsed: real)
      returns (rendered: bool)
      requires available.0 >= 0.0 && available.1 >= 0.0 && elapsed >= 0.0
      modifies this, controls
      ensures hasDrawn
      ensures isLoading == old(isLoading) && err == old(err)
      ensures available.0 < MIN_DRAW_SIZE || available.1 - BOTTOM_MARGIN < MIN_DRAW_SIZE ==>
                !rendered && dirty == old(dirty) && lastSize == old(lastSize) && frame == old(frame)
                && isPaused == old(isPaused) && controls.dirty == old(controls.dirty)
      ensures available.0 >= MIN_DRAW_SIZE && available.1 - BOTTOM_MARGIN >= MIN_DRAW_SIZE ==>
                var size := PixelSize(RoundToU32(available.0), RoundToU32(available.1 - BOTTOM_MARGIN));
                var marked := old(dirty) || old(controls.dirty) || cameraMoved || old(lastSize) != size;
                var animated := numViews > 1 && !isLoading;
                && !controls.dirty
                && (rendered <==> numViews > 0 && hasCurrentSplats && marked)
                && lastSize == (if rendered then size else old(lastSize))
                && dirty == (numViews > 1 || (marked && !rendered))
                && isPaused == (if animated then old(isPaused) != clicked else old(isPaused))
                && frame == (if animated && !isPaused
                             then old(frame) + (if old(hasDrawn) then elapsed else FIRST_FRAME_SECONDS)
                             else old(frame))
    {
      var deltaTime := if hasDrawn then elapsed else FIRST_FRAME_SECONDS;
      hasDrawn := true;
      rendered := false;
      var width := available.0;
      var height := available.1;
      height := height - BOTTOM_MARGIN;
      if width < MIN_DRAW_SIZE || height < MIN_DRAW_SIZE {
        return;
      }
      var size := PixelSize(RoundToU32(width), RoundToU32(height));
      if cameraMoved {
        controls.dirty := true;
      }
      dirty := dirty || controls.dirty;
      controls.dirty := false;
      dirty := dirty || lastSize != size;
      if numViews > 0 {
        if hasCurrentSplats {
          rendered := DrawSplats(size);
        }
        ShowSplatOptions(numViews, clicked, deltaTime);
      }
    }
  }
}
