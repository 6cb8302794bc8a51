/** The "View Options" panel's menu of panel checkboxes
    (crates/brush-viewer/src/panels/viewer_options.rs): each box shows
    whether a panel's title is in the open-panel set, and clicking it adds or
    removes that one title. */
module ViewerOptions {
  import opened Panels
  import opened BrushViewer

  /** `show_open_panel_options` (viewer_options.rs:23-38). `clicked` is the
      user's click on the checkbox, which flips it before the set is updated.
      The result is the state the checkbox is drawn in. */
  method ShowOpenPanelOption(p: PanelType, context: ViewerContext, clicked: bool) returns (checked: bool)
    modifies context
    ensures checked == (PanelTitle(p) in context.openPanels)
    ensures clicked ==> checked == (PanelTitle(p) !in old(context.openPanels))
    ensures !clicked ==> context.openPanels == old(context.openPanels)
    ensures forall t :: t != PanelTitle(p) ==> (t in context.openPanels <==> t in old(context.openPanels))
    ensures context.filename == old(context.filename)
  {
    var title := PanelTitle(p);
    checked := title in context.openPanels;
    if clicked {
      checked := !checked;
      if checked {
        context.openPanels := context.openPanels + {title};
      } else {
        context.openPanels := context.openPanels - {title};
      }
    }
  }

  /** The panels the menu offers (viewer_options.rs:52-58): training options
      and presets, and the rerun panel only off the web. */
  method PanelsOffered(wasm: bool) returns (offered: seq<PanelType>)
    ensures |offered| >= 2 && offered[..2] == [TrainingOptions, Presets]
    ensures Rerun in offered <==> !wasm
    ensures forall p :: p in offered ==> p in PanelsToCheck()
    ensures !wasm ==> offered == PanelsToCheck()
    ensures forall i, j :: 0 <= i < j < |offered| ==> offered[i] != offered[j]
  {
    offered := [TrainingOptions, Presets];
    if !wasm {
      offered := offered + [Rerun];
    }
  }
}
