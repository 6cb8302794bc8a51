# brush: a Dafny model of the render bookkeeping and the viewers

This project models two parts of the brush Gaussian-splatting repository.

**The host side of the splat renderer** (`crates/brush-render/src/render.rs`). The
forward pass projects splats and sorts the visible ones by depth. It counts the screen
tiles each splat touches and lays out one intersection per (tile, splat) pair. It then
sorts those intersections by tile id, cuts them into per-tile bins and hands everything
to the rasterizer. The backward pass rebuilds the same tile grid. It accumulates
per-splat gradients in depth (compact) order and scatters them back to the caller's
(global) order. The GPU kernels are parameters: what a kernel writes is an input
sequence, and the model follows how the host sizes, sorts, scans, slices and indexes
the buffers around it.

**The two viewers** (`crates/brush-viewer`, `crates/odyexp-viewer`).

- The loading loops turn a data source into a stream of viewer messages.
- The brush viewer keeps a tile tree of panes and a set of open panel titles.
- The odyexp viewer keeps a shared context: the loaded file's name, the list of
  animation frames and the playback position.
- Each has a scene panel whose dirty flag decides when splats are re-rendered.
- The string logic is modelled: URL normalisation, the name a downloaded ply file is
  shown under, and the query-string parser.

Modules:

| file | module | part of the source |
|---|---|---|
| wrappers.dfy | Wrappers | `Option` / `Result` |
| render_sizes.dfy | RenderSizes | SH sizes, tile grid, intersection capacity, sort width |
| index_spaces.dfy | IndexSpaces | the global and compact id spaces and the map between them |
| sort_scan.dfy | SortScan | `radix_argsort` and `prefix_sum` as render.rs uses them |
| render_forward.dfy | RenderForward | `render_forward` |
| render_backward.dfy | RenderBackward | `RenderBackwards::backward` |
| text.dfy | Text | the `str` operations the viewers use |
| panels.dfy | Panels | `PanelTypes` and their titles |
| data_sources.dfy | DataSources | URL schemes, peeking, format sniffing |
| brush_viewer.dfy | BrushViewer | brush-viewer `viewer.rs` |
| viewer_options.dfy | ViewerOptions | `panels/viewer_options.rs` |
| brush_scene.dfy | BrushScene | `panels/scene.rs` |
| ody_messages.dfy | OdyMessages | odyexp `ViewerMessage` |
| ody_search.dfy | OdySearch | `parse_search` |
| ody_load.dfy | OdyLoad | odyexp `load.rs` |
| ody_viewer.dfy | OdyViewer | odyexp `viewer.rs` |
| ody_scene.dfy | OdyScene | odyexp `scene_panel.rs` |

Where the code and its design notes disagree, the model follows the code:

- `prefix_sum` is an INCLUSIVE scan: entry `i` counts the tiles of splats `0..=i`. The
  code reads the last entry as the total number of intersections, which only an
  inclusive scan gives. `RenderForward.OffsetOfSplat` derives the exclusive offset
  each splat writes at.
- In the brush scene panel, the camera comparison is modelled twice. One version
  follows the code as written; the corrected one is used everywhere else (see
  "## Findings").

## Model

| member | source | states |
|---|---|---|
| RenderSizes.ShCoeffsForDegree | crates/brush-render/src/render.rs:40-42 | a degree has at least one coefficient per channel |
| RenderSizes.ShDegreeFromCoeffs | crates/brush-render/src/render.rs:44-53 | an accepted count maps to a degree of at most 4; every other count is the panic (`None`) |
| RenderSizes.ShDegreeRoundTrip | crates/brush-render/src/render.rs:40-53 | degree → count → degree is the identity for degrees 0..4 |
| RenderSizes.ShCoeffsRoundTrip | crates/brush-render/src/render.rs:40-53 | a count is accepted iff it is `(d+1)^2` for some d ≤ 4, and then maps back to itself |
| RenderSizes.DivCeil | crates/brush-render/src/render.rs:82-85 | the quotient rounded up: enough blocks to cover `a`, one fewer does not, zero iff `a` is zero |
| RenderSizes.DivCeilIsLeast | crates/brush-render/src/render.rs:82-85 | every block count that covers `a` is at least `DivCeil` |
| RenderSizes.TileBoundsOf | crates/brush-render/src/render.rs:82-85 | the tile grid covers the image on both axes, and no row or column of tiles is superfluous |
| RenderSizes.TileGridCoversImage | crates/brush-render/src/render.rs:82-85 | every pixel lies in a tile of the grid |
| RenderSizes.TileCount | crates/brush-render/src/render.rs:194 | `tile_bounds.x * tile_bounds.y` as a u32, `None` exactly when it overflows |
| RenderSizes.SaturatingMul | crates/brush-render/src/render.rs:204-205 | the exact product, or the usize maximum, never above the product |
| RenderSizes.MaxIntersects | crates/brush-render/src/render.rs:204-206 | the capacity is at most `128 * 65535` and at most points × tiles, and equals one of the two |
| RenderSizes.MaxIntersectsIsMin | crates/brush-render/src/render.rs:204-206 | the capacity is exactly the minimum of the true product and `128 * 65535` |
| RenderSizes.LeadingZeros | crates/brush-render/src/render.rs:227 | `u32::leading_zeros` is at most 32 |
| RenderSizes.SortBits | crates/brush-render/src/render.rs:227 | the sort width is at most 32 bits |
| RenderSizes.SortBitsIsBitLength | crates/brush-render/src/render.rs:225-227 | the tile count fits in `bits` bits, does not fit in fewer, and every smaller power of two is ≤ the count |
| RenderSizes.TileIdsFitSortBits | crates/brush-render/src/render.rs:225-236 | every tile id below the tile count fits in the sort width, so sorting `bits` bits is a full sort |
| IndexSpaces.GlobalFromCompact | crates/brush-render/src/render.rs:87-97 | compact id `c` maps to entry `c` of `global_from_compact_gid`; the gather and projection scatter goes through it |
| IndexSpaces.GlobalFromCompactInjective | crates/brush-render/src/render.rs:87-97 | through a compaction, a visible compact id leads to a splat of the input, and different visible compact ids lead to different splats |
| IndexSpaces.Reached | crates/brush-render/src/render.rs:87-97 | the set of global ids reached is exactly the images of the visible compact ids |
| IndexSpaces.DistinctPermutation | crates/brush-render/src/render.rs:146-159 | a reordering of distinct ids keeps them distinct |
| SortScan.SortByKeyCorrect | crates/brush-render/src/render.rs:151-156 | the reference sort is ordered by key, a permutation, and stable per key |
| SortScan.SortByKeyPayloads | crates/brush-render/src/render.rs:151-156 | the sort neither adds nor drops payloads |
| SortScan.RadixArgsort | crates/brush-render/src/render.rs:229-236 | the first `n` keys come out ascending with their payloads carried along (a permutation of the pairs, stable per key); the entries past `n` are untouched |
| SortScan.PrefixSum | crates/brush-render/src/render.rs:186-189 | entry `i` of the scan is the sum of counts `0..=i` |
| SortScan.LastPrefixIsTotal | crates/brush-render/src/render.rs:191-192 | the last entry of the scan is the total number of intersections |
| RenderForward.DepthSort | crates/brush-render/src/render.rs:123-159 | the visible splats come out sorted by depth and distinct, as a permutation of the projected ones; the map is a compaction of the input ids |
| RenderForward.SortVisible | crates/brush-render/src/render.rs:146-159 | the argsort of the first `num_visible` depths and ids yields a depth-ordered compaction of the visible splats |
| RenderForward.SortedPairsKeepDepth | crates/brush-render/src/render.rs:146-159 | sorting (depth, gid) pairs never separates a depth from its splat |
| RenderForward.CompactFootprints | crates/brush-render/src/render.rs:160-184 | compact splat `c` has the footprint of the global splat it maps to |
| RenderForward.TileCounts | crates/brush-render/src/render.rs:165-184 | the count of each compact splat is its footprint size |
| RenderForward.Tagged | crates/brush-render/src/render.rs:208-223 | one (tile, compact id) intersection per tile of a footprint |
| RenderForward.EmittedLength | crates/brush-render/src/render.rs:165-192 | there is exactly one intersection per tile hit |
| RenderForward.EmittedBounds | crates/brush-render/src/render.rs:208-223 | each intersection names a valid tile and a visible splat |
| RenderForward.CountTilesHit | crates/brush-render/src/render.rs:165-184 | visible splats get their tile counts; the rest of the zeroed buffer stays zero |
| RenderForward.TotalHitsIsEmitted | crates/brush-render/src/render.rs:165-192 | the sum of the zero-filled count buffer is the number of intersections |
| RenderForward.OffsetOfSplat | crates/brush-render/src/render.rs:186-192 | the exclusive offset of a splat is the number of intersections before it |
| RenderForward.CumulativeIsEmitted | crates/brush-render/src/render.rs:186-192 | the inclusive scan at a splat counts the intersections up to it, and stays at the total past the visible splats |
| RenderForward.MapGaussiansToIntersect | crates/brush-render/src/render.rs:208-223 | every intersection within capacity is written at its emission position; entries past the capacity are dropped; buffer entries past the emitted intersections are left untouched |
| RenderForward.WithKeyTagged | crates/brush-render/src/render.rs:208-223 | a splat meets a given tile at most once |
| RenderForward.EmittedTileAscending | crates/brush-render/src/render.rs:208-223 | within one tile the intersections come in strictly ascending compact (depth) order |
| RenderForward.RunIsExact | crates/brush-render/src/render.rs:239-262 | in a sorted id list the entries equal to one entry are exactly its run |
| RenderForward.GetTileBinEdges | crates/brush-render/src/render.rs:239-262 | the bins partition the sorted intersections by tile; a tile that is never hit keeps an empty range |
| RenderForward.BinsAfterRecorded | crates/brush-render/src/render.rs:239-262 | after the threads for the first `i` sorted intersections, every run begun among them has its start, every run ended among them has its end, and unseen tiles keep an empty bin |
| RenderForward.BinsFromRuns | crates/brush-render/src/render.rs:239-262 | recorded run starts and ends make a partition |
| RenderForward.BinInDepthOrder | crates/brush-render/src/render.rs:229-262 | every bin lists its splats front to back |
| RenderForward.BinIntersections | crates/brush-render/src/render.rs:194-265 | the buffers have the capacity's size; the first `min(count, capacity)` intersections are sorted by tile, binned, and depth-ordered within each bin |
| RenderForward.RasterSetup | crates/brush-render/src/render.rs:267-307 | the output image is `[h, w, 1]` packed or `[h, w, 4]` floats; the final-index buffer is bound exactly when not packed |
| RenderForward.SortAndCount | crates/brush-render/src/render.rs:120-189 | the ids come out depth-sorted; the counts are the footprint sizes, zero past the visible splats; the scan counts the intersections up to each splat and its last entry is their total |
| RenderForward.ForwardPasses | crates/brush-render/src/render.rs:120-323 | once the checks pass, the output satisfies `ForwardOutput`: the uniforms, the depth sort, the scan and intersection count, the sorted and binned intersections, and the raster shapes |
| RenderForward.DepthSortedByKeys | crates/brush-render/src/render.rs:146-159 | any ordering of the visible splats by depth that keeps each depth with its splat is a depth-ordered compaction of them |
| RenderForward.RenderForward | crates/brush-render/src/render.rs:55-323 | an invalid SH count, no splats and a tile-count overflow are the errors; otherwise the aux data holds the grid, the depth-sorted compaction, the scan, the intersection count, and bins partitioning the sorted intersections in depth order |
| RenderBackward.ImgSizeFromOutShape | crates/brush-render/src/render.rs:479-480 | the width and height come from dims 1 and 0, exact when they fit in a u32 |
| RenderBackward.BackwardSeesForwardGrid | crates/brush-render/src/render.rs:479-500 | the backward pass recovers the forward image size and tile grid, whatever the channel count |
| RenderBackward.CoeffGradientShape | crates/brush-render/src/render.rs:534-539 | the SH gradient is `[num_points, coeffs, 3]`, and the coefficient count maps back to the degree |
| RenderBackward.CoeffGradientMatchesInput | crates/brush-render/src/render.rs:534-539 | the SH gradient has exactly the shape of the SH input |
| RenderBackward.ContributionTotalAppend | crates/brush-render/src/render.rs:505-532 | the accumulated total splits over concatenated contributions |
| RenderBackward.ContributionOrderIrrelevant | crates/brush-render/src/render.rs:505-532 | the order the atomic adds commit in does not change any total |
| RenderBackward.UntouchedTotalIsZero | crates/brush-render/src/render.rs:505-507 | a splat nothing is added to keeps its zero |
| RenderBackward.AccumulateLocal | crates/brush-render/src/render.rs:505-532 | each local gradient entry is the total of the contributions aimed at that compact splat |
| RenderBackward.ScatterToGlobal | crates/brush-render/src/render.rs:542-590 | each visible splat's value, computed from its global id and its local value, lands at that global id; every global id no visible splat maps to stays zero |
| RenderBackward.RenderBackward | crates/brush-render/src/render.rs:468-620 | every gradient has `num_points` entries and the SH shape matches the input; each visible splat receives, at its global id, the kernel maps applied to that id (standing for the splat's own means, scales, quats, opacity and the camera) and to its accumulated totals; splats never reached get exact zeros |
| Text.BeforeFirst | crates/odyexp-viewer/src/load.rs:50 | the text before the first occurrence of the pattern: a prefix containing no occurrence, followed by the pattern when shorter than the input |
| Text.AfterLast | crates/odyexp-viewer/src/load.rs:51 | the last piece of `rsplit`: a suffix without the separator, preceded by it when shorter |
| Text.SecondLast | crates/odyexp-viewer/src/load.rs:52-55 | the second piece of `rsplit` exists exactly when the separator occurs |
| Text.JoinSplitOn | crates/odyexp-viewer/src/app_context.rs:179 | joining the `&`-pieces back with `&` gives the original text |
| Text.SplitOnce | crates/odyexp-viewer/src/app_context.rs:181 | `split_once` fails exactly when the separator is absent, and otherwise rebuilds the text as key, separator, value |
| Text.TrimStart | crates/odyexp-viewer/src/app_context.rs:178 | all leading `?`s removed: a suffix that does not start with one, and only `?`s were dropped |
| Panels.Discriminant | crates/brush-viewer/src/panels/mod.rs:31-40 | discriminants run from 0 to 6 |
| Panels.FromDiscriminant | crates/brush-viewer/src/panels/mod.rs:31-40 | a discriminant decodes to a panel exactly when it is at most 6 |
| Panels.DiscriminantRoundTrip | crates/brush-viewer/src/panels/mod.rs:31-40 | discriminant encoding and decoding are inverse |
| Panels.DiscriminantsDistinct | crates/brush-viewer/src/panels/mod.rs:31-40 | distinct panels have distinct discriminants |
| Panels.TitleRoundTrip | crates/brush-viewer/src/panels/mod.rs:42-52 | a titled panel is recovered from its title |
| Panels.TitlesDistinct | crates/brush-viewer/src/panels/mod.rs:42-52 | distinct titled panels have distinct titles, so the set of open titles is a set of panels |
| Panels.OnlyDummyUntitled | crates/brush-viewer/src/panels/mod.rs:42-52 | only the dummy panel has no title |
| DataSources.WithScheme | crates/brush-viewer/src/viewer.rs:279-283 | the normalised URL has an http or https scheme |
| DataSources.NormaliseUrl | crates/odyexp-viewer/src/load.rs:41-44 | the URL requested is the normalised URL |
| DataSources.WithSchemeKeepsUrl | crates/brush-viewer/src/viewer.rs:279-283 | a URL with a scheme is left alone; one without gets `https://` in front |
| DataSources.WithSchemeIdempotent | crates/brush-viewer/src/viewer.rs:279-283 | normalising twice is normalising once |
| DataSources.Peek | crates/brush-viewer/src/viewer.rs:121-127 | the peek is the first 128 bytes, `None` when the source is shorter |
| DataSources.Sniff | crates/brush-viewer/src/viewer.rs:192-246 | ply magic gives Ply, the zip magic gives Zip only where zips are accepted, `<!DOCTYPE html>` gives Html, anything else Unknown |
| DataSources.MagicsExclusive | crates/brush-viewer/src/viewer.rs:192-246 | no peek starts with two different magics |
| DataSources.ZipUnsupportedWithoutTraining | crates/brush-viewer/src/viewer.rs:130-163 | outside training a zip archive is an unknown format |
| BrushViewer.ViewSplatsOf | crates/brush-viewer/src/viewer.rs:145-154 | one ViewSplats message per decoded frame, in decoding order |
| BrushViewer.ProcessLoadingLoop | crates/brush-viewer/src/viewer.rs:114-169 | NewSource comes first; StartLoading (not training) comes second when it comes at all; an error or DoneLoading comes last |
| BrushViewer.ProcessLoop | crates/brush-viewer/src/viewer.rs:171-253 | NewSource comes first; a StartLoading in second place is a training load; when the training loop itself emits no error, an error can only come last |
| BrushViewer.PlyMessageOrder | crates/brush-viewer/src/viewer.rs:114-169 | in both loops a readable ply source yields NewSource, StartLoading, one ViewSplats per frame in order, then DoneLoading, flagged as training only in the training loop |
| BrushViewer.ZipOnlyInTrainingLoop | crates/brush-viewer/src/viewer.rs:171-253 | a zip source starts a training load in `process_loop`; the loading loop answers it with an unsupported-format error |
| BrushViewer.ViewerContext.constructor | crates/brush-viewer/src/viewer.rs:304-318 | a new context opens View Options and Stats and has no file |
| BrushViewer.Viewer.constructor | crates/brush-viewer/src/viewer.rs:492-548 | the tree holds the scene, View Options, Stats and the placeholder; the side column has three children and is the root's first child; no panel is recorded as built; the tree is well formed |
| BrushViewer.Viewer.CheckForPanelStatus | crates/brush-viewer/src/viewer.rs:552-579 | afterwards the panel is in the tree iff its title is open; the result reports a change; every other pane is unchanged |
| BrushViewer.Viewer.BuildPanel | crates/brush-viewer/src/viewer.rs:561-569 | a fresh pane showing the panel is added to the tree and appended to the side column; the panel map gains exactly that entry; the tree stays well formed |
| BrushViewer.Viewer.RemovePanel | crates/brush-viewer/src/viewer.rs:571-575 | the panel's pane leaves the tree and both columns, and the panel map loses exactly that entry; the tree stays well formed |
| BrushViewer.Viewer.ShowDatasetPanel | crates/brush-viewer/src/viewer.rs:598-613 | the dataset pane is added once, to the root, and its title opened; a second dataset changes nothing |
| BrushViewer.Viewer.Update | crates/brush-viewer/src/viewer.rs:582-647 | the filename is the last StartLoading's; the dataset pane exists iff it existed or a dataset arrived; every checked panel matches the open titles; the open titles gain the dataset title exactly when the dataset pane is first built; a repaint is requested iff a message arrived or a checked panel was built or removed |
| BrushViewer.Viewer.ReceiveMessages | crates/brush-viewer/src/viewer.rs:583-629 | the filename is the last StartLoading's; the dataset pane exists iff it existed or a dataset arrived, and keeps its pane; no other panel changes |
| BrushViewer.Viewer.CheckPanels | crates/brush-viewer/src/viewer.rs:631-646 | every checked panel is built iff its title is open; every other panel keeps its pane; the open titles are unchanged; the result is true iff some checked panel was built or removed |
| BrushViewer.PanelsToCheck | crates/brush-viewer/src/viewer.rs:631-647 | the reconciled panels never include Datasets, whose pane the Dataset message manages |
| BrushViewer.LastFilename | crates/brush-viewer/src/viewer.rs:592-597 | a filename that changed comes from one of the StartLoading messages |
| BrushViewer.LastFilenameStep | crates/brush-viewer/src/viewer.rs:592-597 | StartLoading sets the filename, every other message keeps it |
| ViewerOptions.ShowOpenPanelOption | crates/brush-viewer/src/panels/viewer_options.rs:23-38 | the box shows whether the title is open; a click toggles just that title |
| ViewerOptions.PanelsOffered | crates/brush-viewer/src/panels/viewer_options.rs:52-58 | training options and presets first, Rerun iff not on wasm, all distinct and all checked by the viewer |
| BrushScene.MultiBlocksFit | crates/brush-viewer/src/panels/scene.rs:116-147 | the three label blocks fit inside the splat count |
| BrushScene.FillRange | crates/brush-viewer/src/panels/scene.rs:120-140 | the range holds the value and the rest of the array is unchanged |
| BrushScene.SelectMulti | crates/brush-viewer/src/panels/scene.rs:116-147 | the labels are zero outside three successive blocks of `n / 1000` splats, labelled 2, 1 and 3 in that order |
| BrushScene.MultiLabelBlocks | crates/brush-viewer/src/panels/scene.rs:116-147 | the label of each splat is 2, 1, 3 or 0 by its block, and each block has `n / 1000` splats |
| BrushScene.CameraCheckAsWritten | crates/brush-viewer/src/panels/scene.rs:289-296 | a camera different from the never-updated last transform always re-dirties the panel |
| BrushScene.CameraCheck | crates/brush-viewer/src/panels/scene.rs:289-296 | a moved camera dirties the panel and becomes the last transform; a still camera changes nothing |
| BrushScene.AfterDraw | crates/brush-viewer/src/panels/scene.rs:76-82 | the panel stays dirty exactly when it was dirty and no repaint was requested; the camera is kept |
| BrushScene.StillCameraRedrawsAsWritten | crates/brush-viewer/src/panels/scene.rs:289-296 | as written, a still camera away from the identity redraws on every frame |
| BrushScene.StillCameraStaysClean | crates/brush-viewer/src/panels/scene.rs:289-296 | corrected, a camera that stands still from a clean state never dirties the panel, over any number of frames |
| BrushScene.Frames | crates/brush-viewer/src/panels/scene.rs:289-296 | the redraw state after a run of frames keeps the last camera seen |
| BrushScene.ScenePanel.constructor | crates/brush-viewer/src/panels/scene.rs:45-65 | a new panel is dirty, live, unpaused, with no message or splats |
| BrushScene.ScenePanel.OnMessage | crates/brush-viewer/src/panels/scene.rs:220-255 | each message's effect on the shown message, the splats and the loading, training, live and paused flags; only a Splats message under live update dirties the panel; a shown Splats message always has its splats |
| BrushScene.ScenePanel.DrawSplats | crates/brush-viewer/src/panels/scene.rs:67-82 | a render happens iff a repaint is requested of a dirty panel, and it clears the flag |
| BrushScene.ScenePanel.CheckCamera | crates/brush-viewer/src/panels/scene.rs:289-296 | the flag and last transform follow the corrected camera check |
| BrushScene.ScenePanel.ShowSplatOptions | crates/brush-viewer/src/panels/scene.rs:100-172 | (`OptionsShown`) the selection buttons write all ones, all zeros or the three Multi blocks into the labels (later buttons win) and keep their count; while training, the pause toggle flips and sends the paused state and the live toggle flips live update |
| BrushScene.ScenePanel.Ui | crates/brush-viewer/src/panels/scene.rs:257-334 | an empty, idle scene changes nothing; otherwise the camera is recorded, the splats are re-rendered iff a Splats message is shown, this is not the first frame, a repaint is requested, and the panel was dirty or the camera moved, and the panel stays dirty iff it was marked and not rendered; a shown Splats message marks the panel as drawn and, from the second frame, applies the option buttons as `OptionsShown` states; otherwise the selection, pause, live flags are kept and nothing is sent |
| OdySearch.DecodeOrEmpty | crates/odyexp-viewer/src/app_context.rs:182-183 | text that fails to decode becomes the empty string |
| OdySearch.Pieces | crates/odyexp-viewer/src/app_context.rs:178-179 | a query has at least one piece |
| OdySearch.Insertions | crates/odyexp-viewer/src/app_context.rs:179-186 | at most one insertion per piece |
| OdySearch.MapOfKeys | crates/odyexp-viewer/src/app_context.rs:184 | the keys of the map are exactly the keys inserted |
| OdySearch.ParseSearch | crates/odyexp-viewer/src/app_context.rs:175-189 | the loop builds the map of the decoded insertions |
| OdySearch.LastInsertionWins | crates/odyexp-viewer/src/app_context.rs:184 | a key maps to the value of its last insertion |
| OdySearch.InsertionOfPiece | crates/odyexp-viewer/src/app_context.rs:180-186 | a piece without `=` adds nothing; one with `=` adds its decoded key and value |
| OdySearch.SplitAtFirstEquals | crates/odyexp-viewer/src/app_context.rs:181 | the split is at the first `=`; later ones belong to the value |
| OdySearch.KeysComeFromPieces | crates/odyexp-viewer/src/app_context.rs:175-189 | every key comes from a piece of the query holding a `=` |
| OdySearch.InsertionSource | crates/odyexp-viewer/src/app_context.rs:179-186 | every insertion is the decoded split of some piece |
| OdySearch.LeadingMarksIgnored | crates/odyexp-viewer/src/app_context.rs:178 | a leading `?` does not change the map |
| OdySearch.EmptyQuery | crates/odyexp-viewer/src/app_context.rs:175-189 | an empty query, or one of only `?`s, gives the empty map |
| OdyLoad.Stripped | crates/odyexp-viewer/src/load.rs:50 | the URL cut at its first `.ply` is a prefix of it |
| OdyLoad.ReadUrl | crates/odyexp-viewer/src/load.rs:40-56 | the requested URL is the normalised one and the name is derived from it |
| OdyLoad.StrippedKeepsScheme | crates/odyexp-viewer/src/load.rs:41-50 | cutting at `.ply` never cuts into the scheme |
| OdyLoad.DisplayNameShape | crates/odyexp-viewer/src/load.rs:49-56 | the name is always the last two `/`-pieces of the stripped URL joined by `/` plus `.ply`: exactly one `/`, ending in `.ply` |
| OdyLoad.NamePieces | crates/odyexp-viewer/src/load.rs:49-56 | the name is built from two slash-free pieces that, each after a `/`, end the stripped URL |
| OdyLoad.ProcessLoadingLoop | crates/odyexp-viewer/src/load.rs:66-114 | NewSource first; StartLoading only second; an error or DoneLoading only last |
| OdyLoad.ViewSplatsOf | crates/odyexp-viewer/src/load.rs:92-101 | one ViewSplats per decoded frame, carrying its up axis, splats and frame number |
| OdyLoad.SniffOutcomes | crates/odyexp-viewer/src/load.rs:66-114 | ply data gives StartLoading, the frames and DoneLoading; an HTML page and anything else give a single error |
| OdyViewer.SettingFallsBack | crates/odyexp-viewer/src/viewer.rs:36-51 | each camera setting is its query parameter when present and numeric, and its default otherwise |
| OdyViewer.NoQueryGivesDefaults | crates/odyexp-viewer/src/viewer.rs:34-51 | without a query every setting is its default |
| OdyViewer.Truncate | crates/odyexp-viewer/src/viewer.rs:135 | truncation keeps a prefix of length `min(n, len)` |
| OdyViewer.ViewSplatsStep | crates/odyexp-viewer/src/viewer.rs:129-139 | frame `f` lands at index `min(f, len)`, keeps the frames before, and playback moves half a frame before it |
| OdyViewer.OtherMessagesKeepContext | crates/odyexp-viewer/src/viewer.rs:140-145 | StartLoading names the file and clears the frames; the other messages keep the context |
| OdyViewer.FrameMessages | crates/odyexp-viewer/src/load.rs:92-101 | the i-th frame message of a load carries frame number i |
| OdyViewer.FramesInOrder | crates/odyexp-viewer/src/viewer.rs:128-145 | frames arriving in order after StartLoading end up in order, under that file |
| OdyViewer.RefinementDropsLater | crates/odyexp-viewer/src/viewer.rs:129-139 | re-sending an earlier frame replaces it and drops every later one |
| OdyViewer.OdyContext.constructor | crates/odyexp-viewer/src/app_context.rs:103-114 | a new context has no file, no frames, playback at 0 and the identity model transform |
| OdyViewer.OdyContext.Apply | crates/odyexp-viewer/src/viewer.rs:128-145 | one message updates the context as `Step` says |
| OdyViewer.Deliveries | crates/odyexp-viewer/src/viewer.rs:147-149 | each message goes to the top panel, the main panel and the toolbar, in that order |
| OdyViewer.Update | crates/odyexp-viewer/src/viewer.rs:119-153 | the context is the run of the messages over the old one, and every message is delivered to the three panels in order |
| OdyScene.RoundToU32 | crates/odyexp-viewer/src/scene_panel.rs:178 | rounding to the nearest pixel count, saturating at the u32 maximum |
| OdyScene.Controls.constructor | crates/odyexp-viewer/src/camera_controller.rs:32-36 | the camera controller starts clean |
| OdyScene.ScenePanel.constructor | crates/odyexp-viewer/src/scene_panel.rs:46-63 | a new panel is dirty, at frame 0, not loading or paused, and has no error or size |
| OdyScene.ScenePanel.OnMessage | crates/odyexp-viewer/src/scene_panel.rs:133-157 | every message dirties the panel; each message's effect on the loading and paused flags and the error |
| OdyScene.ScenePanel.DrawSplats | crates/odyexp-viewer/src/scene_panel.rs:65-79 | a render happens iff the panel is dirty; it clears the flag and records the size |
| OdyScene.ScenePanel.ShowSplatOptions | crates/odyexp-viewer/src/scene_panel.rs:96-131 | an animation keeps the panel dirty, can be paused unless loading, and advances by the frame time while playing |
| OdyScene.ScenePanel.Show | crates/odyexp-viewer/src/scene_panel.rs:159-204 | too small an area changes nothing but the first-frame flag; otherwise the controls are cleaned, the splats are re-rendered iff there is a frame and the panel was dirty, the camera moved or the size changed; the size is recorded iff rendered; the panel stays dirty iff an animation is shown or it was marked and not rendered; pause and playback advance only for an animation that is not loading, the first frame by 10 ms |

## Left out

- The GPU kernels (ProjectSplats, ProjectVisible, MapGaussiansToIntersect's per-thread
  work, Rasterize, RasterizeBackwards, GatherGrads, ProjectBackwards) are not modelled as
  code. Their outputs are parameters, constrained by what the host relies on:
  - distinct visible ids;
  - ascending footprints;
  - tile ids below the tile count.
- The floating-point values are not modelled: projected splats, colours and the
  gradients' float maths. Each gradient buffer is a sequence of reals, one scalar per
  splat.
- RenderBackward.RenderBackward: the gather and projection kernels are maps from a
  splat's global id and its accumulated totals. The per-splat parameters they read at
  that id (means, log scales, quats, raw opacity) and the camera are folded into the
  maps, not modelled as buffers.
- RenderForward.RenderForward: a tile grid whose tile count overflows a u32 is the
  error `TileCountOverflow`, as in a debug build, where the multiplication panics. A
  release build wraps the product and goes on with the wrapped `num_tiles` into
  `max_intersects` and the sort width; that path is not modelled.
- Intersection ids, before and after the tile sort, are plain positions (`nat`) into
  the intersection buffers, not types of their own. Only the global and compact id
  spaces are kept apart by type.
- Tile visibility in the brush viewer's tree is not modelled: the placeholder pane,
  which the source hides, counts as an ordinary pane.
- The GPU radix sort and scan (brush-sort, brush-prefix-sum) are not part of this model.
  `SortScan.RadixArgsort` is a stable insertion sort meeting the contract render.rs
  relies on. The per-digit passes are not modelled.
- RenderForward.BinIntersections: the source passes the unclipped intersection count to
  the sort and the binning. Intersections beyond `max_intersects` have no slot in the
  buffers. The model sorts and bins only the `min(count, capacity)` entries that exist.
  What the GPU does past the capacity is not modelled.
- RenderSizes.ShCoeffsForDegree returns an unbounded count: the u32 overflow for degrees
  of 65535 and above is not modelled. Only degrees 0..4 are used.
- `total_splats` and the other `as u32` casts into the uniforms are taken as exact. Only
  the image-size casts of the backward pass are truncated explicitly.
- Atomic adds in RasterizeBackwards are modelled as sequential adds over exact reals.
  `ContributionOrderIrrelevant` shows their order does not matter. Float rounding, which
  makes the order matter on hardware, is not modelled.
- Buffers created uninitialised (`create_tensor`) are modelled as zero-filled. The
  model only reads entries the kernels write.
- Camera yaw and pitch limits, the field-of-view update, the grid, rendering itself,
  export, and all UI layout and styling are not modelled.
- The tracing pane of the brush viewer is not modelled. `BrushViewer.Viewer.Update`
  does not forward messages to the panes: the order in which the panes' `on_message`
  run is not modelled.
- The datasets panel (`panels/datasets.rs`) is not part of this model. Its title is
  taken to be "Datasets".
- BrushScene.ScenePanel.Ui: the splat renderer and the camera controller are not
  modelled. The camera arrives as a transform per frame and the user's clicks as
  `OptionClicks`. The splats shown are the panel's own, set by `on_message`.
- OdyScene.ScenePanel.Show: the camera controller is reduced to whether the user moved
  the camera this frame. Its `dirty` flag is modelled; the orbit maths is not.
- Network and file I/O are not modelled:
  - the file picker and the download come in as `SourceRead`;
  - the ply decoder and the train loop come in as the frames they yield and whether
    they failed;
  - percent-decoding and float parsing are function parameters.
- Whether a training-message sender is attached is not modelled. The brush scene
  panel's pause and live buttons report the message they send.
- The odyexp loader's `AppMessage` and the viewer's `ViewerMessage` have the same five
  variants and are modelled as one type.
- The brush scene panel's own message type (the splats shown, training pause) is a
  local datatype.

## Findings

| source | as written | input that shows it | evidently intended | confidence | as-written member | corrected member |
|---|---|---|---|---|---|---|
| crates/brush-viewer/src/panels/scene.rs:289-296 | the panel is marked dirty when the camera transform differs from `last_cam_trans`, but `last_cam_trans` is never assigned after construction | any camera transform other than the identity, held still for two frames: every frame re-dirties the panel and re-renders | record the transform when it differs, so that a still camera stops causing redraws | medium, not executed | BrushScene.CameraCheckAsWritten (BrushScene.StillCameraRedrawsAsWritten) | BrushScene.CameraCheck (BrushScene.StillCameraStaysClean) |
