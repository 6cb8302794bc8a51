/** The brush viewer's message streams and panel bookkeeping
    (crates/brush-viewer/src/viewer.rs): the two loading loops that turn a
    data source into viewer messages, the viewer context's open-panel set and
    loaded filename, and the reconciliation of the open-panel set with the
    panes of the tile tree. */
module BrushViewer {
  import opened Wrappers
  import opened Text
  import opened Panels
  import opened DataSources

  // ---------------------------------------------------------------------------
  // Messages

  /** Why a loading stream stopped with an error. */
  datatype ErrorCause =
    | SourceUnreadable    // picking or downloading the source failed
    | SourceTooShort      // fewer than 128 bytes to peek at
    | DownloadPage        // the source is an HTML page, not data
    | UnsupportedFormat   // neither ply nor (where accepted) zip
    | DecodeFailed        // the ply decoder reported an error
    | TrainFailed         // the training loop reported an error

  /** `ViewerMessage`, with splats, datasets and statistics reduced to the
      numbers the viewer reads from them. */
  datatype Message =
    | NewSource
    | StartLoading(training: bool, filename: string)
    | Error(cause: ErrorCause)
    | ViewSplats(frame: nat)
    | Dataset
    | DoneLoading(training: bool)
    | TrainStep(iter: nat)
    | EvalResult(iter: nat)
    | ShowTrainingPanel(show: bool)

  /** One `ViewSplats` per decoded ply frame, in decoding order. */
  function ViewSplatsOf(frames: seq<nat>): (r: seq<Message>)
    ensures |r| == |frames|
    ensures forall i :: 0 <= i < |r| ==> r[i] == ViewSplats(frames[i])
  {
    if frames == [] then [] else [ViewSplats(frames[0])] + ViewSplatsOf(frames[1..])
  }

  /** The ply branch: announce the load, forward every decoded frame, then
      either report completion or stop at the decoder's error. */
  function PlyMessages(training: bool, filename: string, ply: Yielded<nat>): seq<Message>
  {
    [StartLoading(training, filename)] + ViewSplatsOf(ply.items)
      + (if ply.failed then [Error(DecodeFailed)] else [DoneLoading(training)])
  }

  /** The zip branch of the training loop: announce the load, then forward the
      training loop's own messages until it ends or fails. */
  function ZipMessages(filename: string, train: Yielded<Message>): seq<Message>
  {
    [StartLoading(true, filename)] + train.items + (if train.failed then [Error(TrainFailed)] else [])
  }

  /** The messages after `NewSource`, once the source has been read, for a loop
      that accepts zip archives or not. */
  function AfterRead(read: SourceRead, acceptZip: bool, ply: Yielded<nat>, train: Yielded<Message>): seq<Message>
  {
    match read
    case ReadFailed => [Error(SourceUnreadable)]
    case Fetched(data, filename) =>
      match Peek(data)
      case None => [Error(SourceTooShort)]
      case Some(peek) =>
        match Sniff(peek, acceptZip)
        case Ply => PlyMessages(acceptZip, filename, ply)
        case Zip => ZipMessages(filename, train)
        case Html => [Error(DownloadPage)]
        case Unknown => [Error(UnsupportedFormat)]
  }

  /** `process_loading_loop` (viewer.rs:114-169), with its errors mapped to
      `Error` messages as `start_ply_load` does. */
  function ProcessLoadingLoop(read: SourceRead, ply: Yielded<nat>): (r: seq<Message>)
    ensures |r| >= 2 && r[0] == NewSource
    ensures forall i :: 0 <= i < |r| ==> r[i].StartLoading? ==> i == 1 && !r[i].training
    ensures forall i :: 0 <= i < |r| ==> r[i].Error? ==> i == |r| - 1
    ensures forall i :: 0 <= i < |r| ==> r[i].DoneLoading? ==> i == |r| - 1 && !r[i].training
  {
    [NewSource] + AfterRead(read, false, ply, Yielded([], false))
  }

  /** `process_loop` (viewer.rs:171-253), with its errors mapped to `Error`
      messages as `start_data_load` does. The training loop's messages are
      forwarded unchanged, so the stream's shape is stated for training loops
      that do not themselves emit errors. */
  function ProcessLoop(read: SourceRead, ply: Yielded<nat>, train: Yielded<Message>): (r: seq<Message>)
    ensures |r| >= 2 && r[0] == NewSource
    ensures r[1].StartLoading? ==> r[1].training
    ensures (forall m :: m in train.items ==> !m.Error?) ==>
              forall i :: 0 <= i < |r| ==> r[i].Error? ==> i == |r| - 1
  {
    [NewSource] + AfterRead(read, true, ply, train)
  }

  /** A readable ply source yields, in order: `NewSource`, `StartLoading`, one
      `ViewSplats` per frame, then `DoneLoading`, in both loops. */
  lemma PlyMessageOrder(data: seq<byte>, filename: string, frames: seq<nat>, train: Yielded<Message>)
    requires |data| >= PEEK_LEN && StartsWith(data, PLY_MAGIC)
    ensures ProcessLoadingLoop(Fetched(data, filename), Yielded(frames, false)) ==
              [NewSource, StartLoading(false, filename)] + ViewSplatsOf(frames) + [DoneLoading(false)]
    ensures ProcessLoop(Fetched(data, filename), Yielded(frames, false), train) ==
              [NewSource, StartLoading(true, filename)] + ViewSplatsOf(frames) + [DoneLoading(true)]
  {
    var ply := Yielded(frames, false);
    var view := ViewSplatsOf(frames);
    assert ProcessLoadingLoop(Fetched(data, filename), ply) == [NewSource] + PlyMessages(false, filename, ply) by {
      PlyBranch(data, filename, false, ply, Yielded([], false));
    }
    assert ProcessLoop(Fetched(data, filename), ply, train) == [NewSource] + PlyMessages(true, filename, ply) by {
      PlyBranch(data, filename, true, ply, train);
    }
    Regroup(NewSource, StartLoading(false, filename), view, DoneLoading(false));
    Regroup(NewSource, StartLoading(true, filename), view, DoneLoading(true));
  }

  lemma Regroup<T>(first: T, second: T, middle: seq<T>, last: T)
    ensures [first] + ([second] + middle + [last]) == [first, second] + middle + [last]
  {
  }

  /** A readable source that starts with the ply magic takes the ply branch,
      whether zip archives are accepted or not. */
  lemma PlyBranch(data: seq<byte>, filename: string, acceptZip: bool, ply: Yielded<nat>, train: Yielded<Message>)
    requires |data| >= PEEK_LEN && StartsWith(data, PLY_MAGIC)
    ensures AfterRead(Fetched(data, filename), acceptZip, ply, train) == PlyMessages(acceptZip, filename, ply)
  {
    var peek := data[..PEEK_LEN];
    assert PLY_MAGIC <= peek by {
      assert |PLY_MAGIC| == 3;
      assert data[..3] == peek[..3];
    }
    assert Peek(data) == Some(peek);
    assert Sniff(peek, acceptZip) == Ply;
  }

  /** The view-only loop rejects a zip archive as unsupported, where the
      training loop starts training on it. */
  lemma ZipOnlyInTrainingLoop(data: seq<byte>, filename: string, ply: Yielded<nat>, train: Yielded<Message>)
    requires |data| >= PEEK_LEN && StartsWith(data, ZIP_MAGIC)
    ensures ProcessLoadingLoop(Fetched(data, filename), ply) == [NewSource, Error(UnsupportedFormat)]
    ensures ProcessLoop(Fetched(data, filename), ply, train) == [NewSource] + ZipMessages(filename, train)
  {
    var peek := data[..PEEK_LEN];
    assert ZIP_MAGIC <= peek by {
      assert |ZIP_MAGIC| == 2;
      assert data[..2] == peek[..2];
    }
    ZipUnsupportedWithoutTraining(peek);
  }

  // ---------------------------------------------------------------------------
  // Viewer context

  /** The part of `ViewerContext` the viewer's bookkeeping reads and writes:
      the titles of the panels the user wants open, and the loaded file. */
  class ViewerContext {
    var openPanels: set<string>
    var filename: Option<string>

    /** `ViewerContext::new` (viewer.rs:304-318). */
    constructor ()
      ensures openPanels == {PanelTitle(ViewOptions), PanelTitle(Stats)}
      ensures filename == None
    {
      openPanels := {PanelTitle(ViewOptions), PanelTitle(Stats)};
      filename := None;
    }
  }

  // ---------------------------------------------------------------------------
  // Tile tree

  type TileId = nat

  /** What a pane of the tile tree shows. */
  datatype PaneKind = PanelPane(panel: PanelType) | ScenePane

  /** `s` without any occurrence of `id`. */
  function Without(s: seq<TileId>, id: TileId): (r: seq<TileId>)
    ensures forall x :: x in r <==> x in s && x != id
  {
    if s == [] then []
    else (if s[0] == id then [] else [s[0]]) + Without(s[1..], id)
  }

  /** The viewer: its context, the panes of its tile tree, the children of the
      side column and of the root row, and the map from the panel types it has
      built to their panes. Container tiles are the two fixed ids `side` and
      `root`. */
  class Viewer {
    const context: ViewerContext
    const side: TileId
    const root: TileId
    var panes: map<TileId, PaneKind>
    var sideChildren: seq<TileId>
    var rootChildren: seq<TileId>
    var panels: map<PanelType, TileId>
    var nextId: TileId

    /** Every recorded panel has its own pane showing that panel, every child of
        a container is a tile of the tree, and fresh ids lie above every id in
        use. */
    ghost predicate Valid()
      reads this
    {
      && side != root && side !in panes && root !in panes
      && side < nextId && root < nextId
      && (forall id :: id in panes ==> id < nextId)
      && (forall p :: p in panels ==> panels[p] in panes && panes[panels[p]] == PanelPane(p))
      && (forall id :: id in sideChildren ==> id in panes)
      && (forall id :: id in rootChildren ==> id in panes || id == side)
    }

    /** `Viewer::new` (viewer.rs:492-548) without the optional tracing pane:
        a side column of View Options, Stats and the placeholder, next to
        the scene, and no panel recorded as built. */
    constructor (ctx: ViewerContext)
      ensures Valid()
      ensures context == ctx && panels == map[]
      ensures panes.Values == {PanelPane(Dummy), PanelPane(ViewOptions), PanelPane(Stats), ScenePane}
      ensures |sideChildren| == 3 && |rootChildren| == 2 && rootChildren[0] == side
    {
      context := ctx;
      panes := map[0 := PanelPane(Dummy), 1 := PanelPane(ViewOptions), 2 := PanelPane(Stats),
                   4 := ScenePane];
      sideChildren := [1, 2, 0];
      side := 3;
      root := 5;
      rootChildren := [3, 4];
      nextId := 6;
      panels := map[];
      new;
      assert panes.Values == {PanelPane(Dummy), PanelPane(ViewOptions), PanelPane(Stats), ScenePane} by {
        assert panes[0] == PanelPane(Dummy) && panes[1] == PanelPane(ViewOptions);
        assert panes[2] == PanelPane(Stats) && panes[4] == ScenePane;
      }
    }

    /** `check_for_panel_status` (viewer.rs:552-579): build the panel into the
        side column when its title has been opened and it is not built yet;
        remove its pane from the tree when its title has been closed. */
    method CheckForPanelStatus(p: PanelType) returns (changed: bool)
      requires Valid()
      modifies this
      ensures Valid()
      ensures p in panels <==> PanelTitle(p) in context.openPanels
      ensures changed <==> (p in panels) != (p in old(panels))
      ensures forall q :: q != p ==> (q in panels <==> q in old(panels))
      ensures forall q :: q != p && q in panels ==> panels[q] == old(panels[q])
      ensures p in panels && p in old(panels) ==> panels[p] == old(panels[p])
      ensures !changed ==> panes == old(panes) && sideChildren == old(sideChildren)
                           && rootChildren == old(rootChildren)
      ensures changed && p in panels ==> sideChildren == old(sideChildren) + [panels[p]]
      ensures changed && p !in panels ==> panes == old(panes) - {old(panels[p])}
    {
      if PanelTitle(p) in context.openPanels {
        if p !in panels {
          BuildPanel(p);
          return true;
        }
      } else {
        if p in panels {
          RemovePanel(p);
          return true;
        }
      }
      return false;
    }

    /** Inserts a fresh pane for the panel and adds it to the side column
        (viewer.rs:562-569). */
    method BuildPanel(p: PanelType)
      requires Valid() && p !in panels
      modifies this
      ensures Valid()
      ensures p in panels && panels == old(panels)[p := panels[p]]
      ensures panes == old(panes)[panels[p] := PanelPane(p)]
      ensures sideChildren == old(sideChildren) + [panels[p]] && rootChildren == old(rootChildren)
    {
      var id := nextId;
      nextId := nextId + 1;
      panes := panes[id := PanelPane(p)];
      panels := panels[p := id];
      sideChildren := sideChildren + [id];
    }

    /** Removes the panel's pane from the tree, wherever it sits, and forgets
        it (viewer.rs:572-574). */
    method RemovePanel(p: PanelType)
      requires Valid() && p in panels
      modifies this
      ensures Valid()
      ensures panels == old(panels) - {p}
      ensures panes == old(panes) - {old(panels[p])}
      ensures old(panels[p]) !in sideChildren && old(panels[p]) !in rootChildren
    {
      var id := panels[p];
      panes := panes - {id};
      sideChildren := Without(sideChildren, id);
      rootChildren := Without(rootChildren, id);
      panels := panels - {p};
    }

    /** The Dataset branch of `update` (viewer.rs:598-613): the first dataset
        opens the Datasets panel in the root row; any later one changes nothing,
        so the handling is idempotent. */
    method ShowDatasetPanel()
      requires Valid()
      modifies this, context
      ensures Valid()
      ensures Datasets in panels
      ensures old(Datasets in panels) ==>
                panels == old(panels) && panes == old(panes) && rootChildren == old(rootChildren)
                && context.openPanels == old(context.openPanels)
      ensures old(Datasets !in panels) ==>
                panels == old(panels)[Datasets := panels[Datasets]]
                && rootChildren == old(rootChildren) + [panels[Datasets]]
                && context.openPanels == old(context.openPanels) + {PanelTitle(Datasets)}
      ensures sideChildren == old(sideChildren) && context.filename == old(context.filename)
    {
      if Datasets !in panels {
        context.openPanels := context.openPanels + {PanelTitle(Datasets)};
        var id := nextId;
        nextId := nextId + 1;
        panes := panes[id := PanelPane(Datasets)];
        rootChildren := rootChildren + [id];
        panels := panels[Datasets := id];
      }
    }

    /** `update` (viewer.rs:582-647) on the messages drained from the receiver:
        each StartLoading records its filename, each Dataset shows the Datasets
        panel, and afterwards the training-options, presets and rerun panels
        are reconciled with the open-panel set. The result is whether a repaint
        was requested. */
    method Update(messages: seq<Message>) returns (repaint: bool)
      requires Valid()
      modifies this, context
      ensures Valid()
      ensures context.filename == LastFilename(messages, old(context.filename))
      ensures Datasets in panels <==> old(Datasets in panels) || Dataset in messages
      ensures old(Datasets in panels) ==> panels[Datasets] == old(panels[Datasets])
      ensures forall p :: p in PanelsToCheck() ==> (p in panels <==> PanelTitle(p) in context.openPanels)
      ensures forall p :: p !in PanelsToCheck() && p != Datasets ==>
                (p in panels <==> p in old(panels)) && (p in panels ==> panels[p] == old(panels[p]))
      ensures context.openPanels ==
                if old(Datasets in panels) || Dataset !in messages then old(context.openPanels)
                else old(context.openPanels) + {PanelTitle(Datasets)}
      ensures repaint <==>
                (messages != [] || exists p :: p in PanelsToCheck() && ((p in panels) != (p in old(panels))))
    {
      ReceiveMessages(messages);
      var changed := CheckPanels();
      repaint := messages != [] || changed;
    }

    /** The message loop of `update` (viewer.rs:588-640). */
    method ReceiveMessages(messages: seq<Message>)
      requires Valid()
      modifies this, context
      ensures Valid()
      ensures context.filename == LastFilename(messages, old(context.filename))
      ensures Datasets in panels <==> old(Datasets in panels) || Dataset in messages
      ensures old(Datasets in panels) ==> panels[Datasets] == old(panels[Datasets])
      ensures forall p :: p != Datasets ==> (p in panels <==> p in old(panels))
      ensures forall p :: p != Datasets && p in panels ==> panels[p] == old(panels[p])
      ensures context.openPanels ==
                if old(Datasets in panels) || Dataset !in messages then old(context.openPanels)
                else old(context.openPanels) + {PanelTitle(Datasets)}
    {
      var i := 0;
      while i < |messages|
        invariant 0 <= i <= |messages|
        invariant Valid()
        invariant context.filename == LastFilename(messages[..i], old(context.filename))
        invariant Datasets in panels <==> old(Datasets in panels) || Dataset in messages[..i]
        invariant old(Datasets in panels) ==> panels[Datasets] == old(panels[Datasets])
        invariant forall p :: p != Datasets ==> (p in panels <==> p in old(panels))
        invariant forall p :: p != Datasets && p in panels ==> panels[p] == old(panels[p])
        invariant context.openPanels ==
                    if old(Datasets in panels) || Dataset !in messages[..i] then old(context.openPanels)
                    else old(context.openPanels) + {PanelTitle(Datasets)}
      {
        assert messages[..i + 1] == messages[..i] + [messages[i]];
        LastFilenameStep(messages, i, old(context.filename));
        match messages[i] {
          case StartLoading(_, filename) =>
            context.filename := Some(filename);
          case Dataset =>
            ShowDatasetPanel();
          case _ =>
        }
        i := i + 1;
      }
      assert messages[..i] == messages;
    }

    /** The reconciliation at the end of `update` (viewer.rs:642-644): each
        checked panel ends up built exactly when its title is open; the other
        panels keep their panes. The result tells whether any pane changed. */
    method CheckPanels() returns (changed: bool)
      requires Valid()
      modifies this
      ensures Valid()
      ensures forall p :: p in PanelsToCheck() ==> (p in panels <==> PanelTitle(p) in context.openPanels)
      ensures forall p :: p !in PanelsToCheck() ==>
                (p in panels <==> p in old(panels)) && (p in panels ==> panels[p] == old(panels[p]))
      ensures context.openPanels == old(context.openPanels)
      ensures changed <==> exists p :: p in PanelsToCheck() && ((p in panels) != (p in old(panels)))
    {
      changed := false;
      var checks := PanelsToCheck();
      var j := 0;
      ghost var open := context.openPanels;
      while j < |checks|
        invariant 0 <= j <= |checks|
        invariant Valid()
        invariant context.openPanels == open
        invariant CheckedUpTo(checks, j, open, old(panels), panels)
        invariant changed <==> SomeFlipped(checks, j, old(panels), panels)
      {
        ghost var before := panels;
        var c := CheckForPanelStatus(checks[j]);
        CheckStep(checks, j, open, old(panels), before, panels);
        changed := changed || c;
        j := j + 1;
      }
      CheckedAll(checks, open, old(panels), panels);
    }
  }

  /** The panels `update` reconciles on every frame. */
  function PanelsToCheck(): (r: seq<PanelType>)
    ensures Datasets !in r
    ensures forall i, j :: 0 <= i < j < |r| ==> r[i] != r[j]
  {
    [TrainingOptions, Presets, Rerun]
  }

  /** After reconciling `checks[..j]` against the open titles `open`, the
      panel map `after` agrees with `open` on those panels and with `before`
      on every other panel. */
  ghost predicate CheckedUpTo(checks: seq<PanelType>, j: nat, open: set<string>,
                              before: map<PanelType, TileId>, after: map<PanelType, TileId>)
    requires j <= |checks|
  {
    && (forall k :: 0 <= k < j ==> (checks[k] in after <==> PanelTitle(checks[k]) in open))
    && (forall p :: p !in checks[..j] ==> (p in after <==> p in before))
    && (forall p :: p !in checks[..j] && p in after ==> after[p] == before[p])
  }

  /** Some panel among `checks[..j]` was built or removed between `before`
      and `after`. */
  ghost predicate SomeFlipped(checks: seq<PanelType>, j: nat,
                              before: map<PanelType, TileId>, after: map<PanelType, TileId>)
    requires j <= |checks|
  {
    exists k :: 0 <= k < j && ((checks[k] in after) != (checks[k] in before))
  }

  /** One step of the reconciliation loop: reconciling `checks[j]` alone
      extends both the agreement and the flip record by that panel. */
  lemma CheckStep(checks: seq<PanelType>, j: nat, open: set<string>,
                  start: map<PanelType, TileId>, mid: map<PanelType, TileId>, after: map<PanelType, TileId>)
    requires j < |checks|
    requires forall a, b :: 0 <= a < b < |checks| ==> checks[a] != checks[b]
    requires CheckedUpTo(checks, j, open, start, mid)
    requires checks[j] in after <==> PanelTitle(checks[j]) in open
    requires forall q :: q != checks[j] ==> (q in after <==> q in mid)
    requires forall q :: q != checks[j] && q in after ==> after[q] == mid[q]
    ensures CheckedUpTo(checks, j + 1, open, start, after)
    ensures SomeFlipped(checks, j + 1, start, after) <==>
              SomeFlipped(checks, j, start, mid) || ((checks[j] in after) != (checks[j] in mid))
  {
    assert checks[..j + 1] == checks[..j] + [checks[j]];
    assert checks[j] !in checks[..j];
    assert forall k :: 0 <= k < j ==> (checks[k] in after <==> checks[k] in mid);
  }

  /** Once every checked panel is reconciled, the loop's record becomes the
      statement about all of `checks`. */
  lemma CheckedAll(checks: seq<PanelType>, open: set<string>,
                   before: map<PanelType, TileId>, after: map<PanelType, TileId>)
    requires CheckedUpTo(checks, |checks|, open, before, after)
    ensures forall p :: p in checks ==> (p in after <==> PanelTitle(p) in open)
    ensures forall p :: p !in checks ==> (p in after <==> p in before) && (p in after ==> after[p] == before[p])
    ensures SomeFlipped(checks, |checks|, before, after) <==>
              exists p :: p in checks && ((p in after) != (p in before))
  {
    assert checks[..|checks|] == checks;
    if exists p :: p in checks && ((p in after) != (p in before)) {
      var p :| p in checks && ((p in after) != (p in before));
      var k :| 0 <= k < |checks| && checks[k] == p;
    }
  }

  /** The filename of the last StartLoading among `messages`, or `current` when
      there is none. */
  function LastFilename(messages: seq<Message>, current: Option<string>): (r: Option<string>)
    ensures r != current ==> exists i :: 0 <= i < |messages| && messages[i].StartLoading?
                                          && r == Some(messages[i].filename)
  {
    if messages == [] then current
    else
      var last := messages[|messages| - 1];
      if last.StartLoading? then Some(last.filename)
      else LastFilename(messages[..|messages| - 1], current)
  }

  lemma LastFilenameStep(messages: seq<Message>, i: nat, current: Option<string>)
    requires i < |messages|
    ensures messages[..i + 1][..i] == messages[..i]
    ensures LastFilename(messages[..i + 1], current) ==
              if messages[i].StartLoading? then Some(messages[i].filename)
              else LastFilename(messages[..i], current)
  {
    assert messages[..i + 1][..i] == messages[..i];
  }
}
