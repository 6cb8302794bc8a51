/** The brush viewer's scene panel (crates/brush-viewer/src/panels/scene.rs):
    the loading / training / live-update / paused / dirty flags and the
    message that decides what the panel shows, driven by incoming messages and
    by the frame loop; and the selection labels the "Select" buttons write
    into the shown splats. Rendering, the camera controller and the export
    are outside the model. */
module BrushScene {
  import opened Wrappers

  /** The splats on screen: an identity, and the per-splat selection labels
      (one float per splat, so their count is the number of splats). */
  datatype SplatsData = SplatsData(id: nat, selected: seq<real>)

  /** The messages the panel reacts to; every other kind is `Other`. */
  datatype SceneMessage =
    | PickFile
    | DoneLoading(training: bool)
    | StartLoading(training: bool)
    | Splats(iter: nat, splats: SplatsData)
    | Error(description: string)
    | Other

  /** The message the training panel is sent when the pause toggle flips. */
  datatype TrainMessage = Paused(paused: bool)

  /** A camera transform, compared by value: a 3x3 matrix and a translation. */
  datatype Affine = Affine(matrix: seq<real>, translation: seq<real>)

  const IDENTITY: Affine := Affine([1.0, 0.0, 0.0, 0.0, 1.0, 0.0, 0.0, 0.0, 1.0], [0.0, 0.0, 0.0])

  // ---------------------------------------------------------------------------
  // Selection labels

  /** The labels "Select Multi" asks for on `n` splats: with `k = n / 1000`,
      label 2 on `[0, k)`, 1 on `[k, 2k)`, 3 on `[2k, 3k)`, 0 elsewhere. */
  function MultiLabel(n: nat, i: nat): real
  {
    var k := n / 1000;
    if i < k then 2.0 else if i < 2 * k then 1.0 else if i < 3 * k then 3.0 else 0.0
  }

  /** The three blocks of "Select Multi" always fit: `3 * (n / 1000) <= n`. */
  lemma MultiBlocksFit(n: nat)
    ensures 3 * (n / 1000) <= n
  {
    var k := n / 1000;
    assert n == 1000 * k + n % 1000;
  }

  /** `slice_assign` of a constant over `[start, end)`. */
  method FillRange(a: array<real>, start: nat, end: nat, v: real)
    requires start <= end <= a.Length
    modifies a
    ensures forall i :: 0 <= i < a.Length ==> a[i] == if start <= i < end then v else old(a[i])
  {
    var i := start;
    while i < end
      invariant start <= i <= end
      invariant forall j :: 0 <= j < a.Length ==> a[j] == if start <= j < i then v else old(a[j])
    {
      a[i] := v;
      i := i + 1;
    }
  }

  /** "Select Multi" (scene.rs:116-147): zeros, then three successive block
      writes of 2, 1 and 3. */
  method SelectMulti(n: nat) returns (labels: seq<real>)
    ensures |labels| == n
    ensures forall i :: 0 <= i < n ==> labels[i] == MultiLabel(n, i)
  {
    var k := n / 1000;
    MultiBlocksFit(n);
    var s := new real[n](_ => 0.0);
    FillRange(s, 0, k, 2.0);
    FillRange(s, k, 2 * k, 1.0);
    FillRange(s, 2 * k, 3 * k, 3.0);
    labels := s[..];
  }

  /** Each of the three labels is given to exactly `n / 1000` splats, the
      first `3 * (n / 1000)` splats are all labelled, and the rest are not. */
  lemma MultiLabelBlocks(n: nat, i: nat)
    ensures MultiLabel(n, i) != 0.0 <==> i < 3 * (n / 1000)
    ensures MultiLabel(n, i) == 2.0 <==> i < n / 1000
    ensures MultiLabel(n, i) == 1.0 <==> n / 1000 <= i < 2 * (n / 1000)
    ensures MultiLabel(n, i) == 3.0 <==> 2 * (n / 1000) <= i < 3 * (n / 1000)
    ensures i < 3 * (n / 1000) ==> i < n
  {
    MultiBlocksFit(n);
  }

  // ---------------------------------------------------------------------------
  // Camera check

  /** The two fields the camera check and the renderer share. */
  datatype RedrawState = RedrawState(dirty: bool, lastCamTrans: Affine)

  /** The camera check as written (scene.rs:289-296): a camera transform that
      differs from `last_cam_trans` marks the panel dirty, and `last_cam_trans`
      is never updated. */
  function CameraCheckAsWritten(s: RedrawState, cam: Affine): (r: RedrawState)
    ensures r.lastCamTrans == s.lastCamTrans
    ensures r.dirty <==> s.dirty || cam != s.lastCamTrans
  {
    RedrawState(s.dirty || s.lastCamTrans != cam, s.lastCamTrans)
  }

  /** The camera check with the transform recorded, so that only a moved
      camera marks the panel dirty. */
  function CameraCheck(s: RedrawState, cam: Affine): (r: RedrawState)
    ensures r.lastCamTrans == cam
    ensures r.dirty <==> s.dirty || cam != s.lastCamTrans
  {
    RedrawState(s.dirty || s.lastCamTrans != cam, cam)
  }

  /** `draw_splats`' effect on the flag (scene.rs:76-82): a requested repaint
      of a dirty panel renders and clears it. */
  function AfterDraw(s: RedrawState, repaintRequested: bool): (r: RedrawState)
    ensures r.lastCamTrans == s.lastCamTrans
    ensures r.dirty <==> s.dirty && !repaintRequested
  {
    if repaintRequested && s.dirty then s.(dirty := false) else s
  }

  /** As written, once the camera has left the identity the panel is dirty
      on every frame even when the camera stands still: a frame that renders
      and clears the flag is followed by a frame that sets it again. */
  lemma StillCameraRedrawsAsWritten(cam: Affine)
    requires cam != IDENTITY
    ensures var s1 := AfterDraw(CameraCheckAsWritten(RedrawState(true, IDENTITY), cam), true);
            !s1.dirty && CameraCheckAsWritten(s1, cam).dirty
  {
  }

  /** With the transform recorded, a camera that stands still between two
      frames never marks the panel dirty, and a moved one always does. */
  lemma {:induction false} StillCameraStaysClean(s: RedrawState, cams: seq<Affine>, repaints: seq<bool>)
    requires |cams| == |repaints| >= 1
    requires forall i :: 0 <= i < |cams| ==> cams[i] == cams[0]
    requires s.lastCamTrans == cams[0] && !s.dirty
    ensures !Frames(s, cams, repaints).dirty
  {
    if |cams| > 1 {
      StillCameraStaysClean(s, cams[..|cams| - 1], repaints[..|repaints| - 1]);
    }
  }

  /** The redraw state after a run of frames, each a camera check followed by
      a draw. */
  function Frames(s: RedrawState, cams: seq<Affine>, repaints: seq<bool>): (r: RedrawState)
    requires |cams| == |repaints|
    ensures cams != [] ==> r.lastCamTrans == cams[|cams| - 1]
  {
    if cams == [] then s
    else
      var before := Frames(s, cams[..|cams| - 1], repaints[..|repaints| - 1]);
      AfterDraw(CameraCheck(before, cams[|cams| - 1]), repaints[|repaints| - 1])
  }

  // ---------------------------------------------------------------------------
  // The panel

  /** The user's clicks on the splat option buttons in one frame. */
  datatype OptionClicks = OptionClicks(selectAll: bool, selectNone: bool, selectMulti: bool,
                                       pause: bool, live: bool)

  /** What the button row of `show_splat_options` (scene.rs:100-172) leaves
      behind, from the splats, pause and live-update state before it: the
      selection buttons in turn (a later one wins) rewrite the labels and keep
      their count and the splats' identity; while training, the pause toggle
      flips the pause state and sends it, and the live toggle flips live
      update. */
  predicate OptionsShown(before: SplatsData, paused0: bool, live0: bool, isTraining: bool, clicks: OptionClicks,
                         after: Option<SplatsData>, paused: bool, live: bool, sent: Option<TrainMessage>)
  {
    var n := |before.selected|;
    && after.Some? && after.value.id == before.id && |after.value.selected| == n
    && (clicks.selectMulti ==> forall i :: 0 <= i < n ==> after.value.selected[i] == MultiLabel(n, i))
    && (clicks.selectNone && !clicks.selectMulti ==> forall i :: 0 <= i < n ==> after.value.selected[i] == 0.0)
    && (clicks.selectAll && !clicks.selectNone && !clicks.selectMulti ==>
          forall i :: 0 <= i < n ==> after.value.selected[i] == 1.0)
    && (!clicks.selectAll && !clicks.selectNone && !clicks.selectMulti ==> after == Some(before))
    && (isTraining && clicks.pause ==> paused == !paused0 && sent == Some(Paused(paused)))
    && (!(isTraining && clicks.pause) ==> paused == paused0 && sent == None)
    && live == (live0 != (isTraining && clicks.live))
  }

  class ScenePanel {
    var lastMessage: Option<SceneMessage>
    var isLoading: bool
    var isTraining: bool
    var liveUpdate: bool
    var paused: bool
    var dirty: bool
    var lastCamTrans: Affine
    var splats: Option<SplatsData>
    var hasDrawn: bool

    /** The message the panel shows is a Splats or an Error message, and a
        Splats message comes with the splats it carried, so the frame loop's
        `unwrap` of the splats cannot fail. */
    ghost predicate Valid()
      reads this
    {
      && (lastMessage.Some? ==> lastMessage.value.Splats? || lastMessage.value.Error?)
      && (lastMessage.Some? && lastMessage.value.Splats? ==> splats.Some?)
    }

    /** `ScenePanel::new` (scene.rs:45-65). */
    constructor ()
      ensures Valid()
      ensures lastMessage == None && splats == None && !hasDrawn
      ensures liveUpdate && !paused && dirty && !isLoading && !isTraining
      ensures lastCamTrans == IDENTITY
    {
      lastMessage := None;
      isLoading := false;
      isTraining := false;
      liveUpdate := true;
      paused := false;
      dirty := true;
      lastCamTrans := IDENTITY;
      splats := None;
      hasDrawn := false;
    }

    /** `on_message` (scene.rs:220-255). */
    method OnMessage(m: SceneMessage)
      requires Valid()
      modifies this
      ensures Valid()
      ensures lastCamTrans == old(lastCamTrans) && hasDrawn == old(hasDrawn)
      ensures m.PickFile? ==>
                lastMessage == None && splats == None && !paused && !isLoading && !isTraining
                && liveUpdate == old(liveUpdate) && dirty == old(dirty)
      ensures m.DoneLoading? ==>
                !isLoading && lastMessage == old(lastMessage) && splats == old(splats)
                && paused == old(paused) && isTraining == old(isTraining)
                && liveUpdate == old(liveUpdate) && dirty == old(dirty)
      ensures m.StartLoading? ==>
                isTraining == m.training && isLoading && lastMessage == None
                && liveUpdate == (old(liveUpdate) || !m.training)
                && splats == old(splats) && paused == old(paused) && dirty == old(dirty)
      ensures m.Splats? && old(liveUpdate) ==>
                dirty && lastMessage == Some(m) && splats == Some(m.splats)
                && isLoading == old(isLoading) && isTraining == old(isTraining)
                && paused == old(paused) && liveUpdate
      ensures (m.Splats? && !old(liveUpdate)) || m.Other? ==>
                lastMessage == old(lastMessage) && splats == old(splats) && isLoading == old(isLoading)
                && isTraining == old(isTraining) && paused == old(paused)
                && liveUpdate == old(liveUpdate) && dirty == old(dirty)
      ensures m.Error? ==>
                lastMessage == Some(m) && splats == old(splats) && isLoading == old(isLoading)
                && isTraining == old(isTraining) && paused == old(paused)
                && liveUpdate == old(liveUpdate) && dirty == old(dirty)
    {
      match m {
        case PickFile =>
          lastMessage := None;
          splats := None;
          paused := false;
          isLoading := false;
          isTraining := false;
        case DoneLoading(_) =>
          isLoading := false;
        case StartLoading(training) =>
          isTraining := training;
          lastMessage := None;
          isLoading := true;
          if !training {
            liveUpdate := true;
          }
        case Splats(_, data) =>
          if liveUpdate {
            dirty := true;
            lastMessage := Some(m);
            splats := Some(data);
          }
        case Error(_) =>
          lastMessage := Some(m);
        case Other =>
      }
    }

    /** The redraw part of `draw_splats` (scene.rs:67-82): the splats are
        re-rendered only for a requested repaint of a dirty panel, which
        clears the flag. */
    method DrawSplats(repaintRequested: bool) returns (rendered: bool)
      requires splats.Some?
      modifies this`dirty
      ensures rendered <==> repaintRequested && old(dirty)
      ensures dirty <==> old(dirty) && !rendered
    {
      rendered := repaintRequested && dirty;
      if rendered {
        dirty := false;
      }
    }

    /** The camera check at the top of the frame loop, with the transform
        recorded (see `CameraCheck`). */
    method CheckCamera(cam: Affine)
      modifies this`dirty, this`lastCamTrans
      ensures RedrawState(dirty, lastCamTrans) == CameraCheck(RedrawState(old(dirty), old(lastCamTrans)), cam)
    {
      if lastCamTrans != cam {
        dirty := true;
      }
      lastCamTrans := cam;
    }

    /** The button row of `show_splat_options` (scene.rs:100-172): the three
        selection buttons in turn, then, while training, the pause and
        live-update toggles. The result is the message sent to the training
        loop, if any. */
    method ShowSplatOptions(clicks: OptionClicks) returns (sent: Option<TrainMessage>)
      requires splats.Some?
      modifies this`splats, this`paused, this`liveUpdate
      ensures OptionsShown(old(splats.value), old(paused), old(liveUpdate), isTraining, clicks,
                           splats, paused, liveUpdate, sent)
    {
      var data := splats.value;
      var n := |data.selected|;
      if clicks.selectAll {
        data := data.(selected := seq(n, _ => 1.0));
      }
      if clicks.selectNone {
        data := data.(selected := seq(n, _ => 0.0));
      }
      if clicks.selectMulti {
        var labels := SelectMulti(n);
        data := data.(selected := labels);
      }
      splats := Some(data);
      sent := None;
      if isTraining {
        if clicks.pause {
          paused := !paused;
          sent := Some(Paused(paused));
        }
        if clicks.live {
          liveUpdate := !liveUpdate;
        }
      }
    }

    /** One frame of `ui` (scene.rs:257-334) with the user's clicks as
        parameters: nothing happens on an empty scene; otherwise the camera is
        checked, and a shown Splats message draws and offers the splat
        options from the second frame on. The result tells whether the splats
        were re-rendered. */
    method Ui(datasetEmpty: bool, cam: Affine, repaintRequested: bool, clicks: OptionClicks)
      returns (rendered: bool, sent: Option<TrainMessage>)
      requires Valid()
      modifies this
      ensures Valid()
      ensures lastMessage == old(lastMessage) && isLoading == old(isLoading)
              && isTraining == old(isTraining)
      ensures var empty := !old(isLoading) && datasetEmpty && old(lastMessage).None?;
              var showsSplats := !empty && old(lastMessage).Some? && old(lastMessage).value.Splats?;
              var marked := old(dirty) || cam != old(lastCamTrans);
              && (empty ==>
                    !rendered && sent == None && dirty == old(dirty) && lastCamTrans == old(lastCamTrans)
                    && splats == old(splats) && paused == old(paused) && liveUpdate == old(liveUpdate)
                    && hasDrawn == old(hasDrawn))
              && (!empty ==> lastCamTrans == cam && dirty == (marked && !rendered))
              && (rendered <==> showsSplats && old(hasDrawn) && repaintRequested && marked)
              && hasDrawn == (old(hasDrawn) || showsSplats)
              && (showsSplats && old(hasDrawn) ==>
                    OptionsShown(old(splats.value), old(paused), old(liveUpdate), isTraining, clicks,
                                 splats, paused, liveUpdate, sent))
              && (!(showsSplats && old(hasDrawn)) ==>
                    sent == None && splats == old(splats) && paused == old(paused) && liveUpdate == old(liveUpdate))
    {
      rendered := false;
      sent := None;
      if !isLoading && datasetEmpty && lastMessage.None? {
        return;
      }
      CheckCamera(cam);
      if lastMessage.Some? && lastMessage.value.Splats? {
        if hasDrawn {
          rendered := DrawSplats(repaintRequested);
          sent := ShowSplatOptions(clicks);
        }
        hasDrawn := true;
      }
    }
  }
}
