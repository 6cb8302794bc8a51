/** The host side of the backward render pass, `RenderBackwards::backward` in
    crates/brush-render/src/render.rs:465-625. It rebuilds the image size and
    the tile grid from the forward output, then fills zeroed gradient buffers.
    `RasterizeBackwards` adds into per-compact-splat buffers. `GatherGrads`
    and `ProjectBackwards` move those values to the global splat ids.

    Gradients are modelled as one `real` per splat and buffer. The float
    arithmetic of the kernels is a parameter: the contributions
    `RasterizeBackwards` adds, and the maps the gather and projection kernels
    apply. Those maps take the splat's global id besides its accumulated
    values, since the kernels read the splat's own means, log scales, quats
    and raw opacity at that id, together with the camera. */
module RenderBackward {
  import opened Wrappers
  import opened RenderSizes
  import opened IndexSpaces
  import opened RenderForward

  // ---------------------------------------------------------------------------
  // Sizes (render.rs:479-480, 497-502, 534-538)

  /** `uvec2(dims[1] as u32, dims[0] as u32)` of the forward output image; the
      casts truncate to 32 bits. */
  function ImgSizeFromOutShape(dims: seq<nat>): (r: ImgSize)
    requires |dims| >= 2
    ensures dims[1] < U32_LIMIT ==> r.x == dims[1]
    ensures dims[0] < U32_LIMIT ==> r.y == dims[0]
  {
    ImgSize(dims[1] % U32_LIMIT, dims[0] % U32_LIMIT)
  }

  /** The backward pass recovers the image size the forward pass rendered at,
      whatever the channel count, and so rebuilds the same tile grid. */
  lemma BackwardSeesForwardGrid(img: ImgSize, outDim: nat)
    ensures ImgSizeFromOutShape([img.y, img.x, outDim]) == img
    ensures TileBoundsOf(ImgSizeFromOutShape([img.y, img.x, outDim]), TILE_WIDTH) == TileBoundsOf(img, TILE_WIDTH)
  {
  }

  /** The shape of the SH-coefficient gradient, `[num_points,
      sh_coeffs_for_degree(sh_degree), 3]`. */
  function CoeffGradientShape(numPoints: nat, shDegree: u32): (r: seq<nat>)
    ensures |r| == 3 && r[0] == numPoints && r[2] == 3
    ensures shDegree <= MAX_SH_DEGREE ==> r[1] <= 25 && ShDegreeFromCoeffs(r[1] as u32) == Some(shDegree)
  {
    var shape := [numPoints, ShCoeffsForDegree(shDegree), 3];
    if shDegree <= MAX_SH_DEGREE then ShDegreeRoundTrip(shDegree); shape else shape
  }

  /** The SH gradient has exactly the shape of the SH input: the degree stored
      by the forward pass maps back to the input's coefficient count. */
  lemma CoeffGradientMatchesInput(numPoints: nat, coeffsPerChannel: u32)
    requires ShDegreeFromCoeffs(coeffsPerChannel).Some?
    ensures CoeffGradientShape(numPoints, ShDegreeFromCoeffs(coeffsPerChannel).value) == [numPoints, coeffsPerChannel, 3]
  {
    ShCoeffsRoundTrip(coeffsPerChannel);
  }

  // ---------------------------------------------------------------------------
  // RasterizeBackwards: accumulation into zeroed compact-indexed buffers
  // (render.rs:504-532)

  /** The sum of the contributions aimed at compact splat `c`. */
  function ContributionTotal(contribs: seq<(CompactGid, real)>, c: nat): real {
    if contribs == [] then 0.0
    else
      var last := contribs[|contribs| - 1];
      ContributionTotal(contribs[..|contribs| - 1], c) + (if last.0.index == c then last.1 else 0.0)
  }

  lemma {:induction false} ContributionTotalAppend(a: seq<(CompactGid, real)>, b: seq<(CompactGid, real)>, c: nat)
    ensures ContributionTotal(a + b, c) == ContributionTotal(a, c) + ContributionTotal(b, c)
  {
    if b == [] {
      assert a + b == a;
    } else {
      assert (a + b)[..|a + b| - 1] == a + b[..|b| - 1];
      ContributionTotalAppend(a, b[..|b| - 1], c);
    }
  }

  /** The atomic adds may land in any order: the total does not depend on
      which batch of contributions commits first. */
  lemma ContributionOrderIrrelevant(a: seq<(CompactGid, real)>, b: seq<(CompactGid, real)>, c: nat)
    ensures ContributionTotal(a + b, c) == ContributionTotal(b + a, c)
  {
    ContributionTotalAppend(a, b, c);
    ContributionTotalAppend(b, a, c);
  }

  /** A splat nothing is added to keeps its zero. */
  lemma {:induction false} UntouchedTotalIsZero(contribs: seq<(CompactGid, real)>, c: nat)
    requires forall i :: 0 <= i < |contribs| ==> contribs[i].0.index != c
    ensures ContributionTotal(contribs, c) == 0.0
  {
    if contribs != [] {
      UntouchedTotalIsZero(contribs[..|contribs| - 1], c);
    }
  }

  /** Adds every contribution into a zeroed `num_points` buffer at its compact
      id, one after the other. */
  method AccumulateLocal(numPoints: nat, contribs: seq<(CompactGid, real)>) returns (local: seq<real>)
    requires forall i :: 0 <= i < |contribs| ==> contribs[i].0.index < numPoints
    ensures |local| == numPoints
    ensures forall c :: 0 <= c < numPoints ==> local[c] == ContributionTotal(contribs, c)
  {
    var buf := new real[numPoints](_ => 0.0);
    for i := 0 to |contribs|
      invariant forall c :: 0 <= c < numPoints ==> buf[c] == ContributionTotal(contribs[..i], c)
    {
      assert contribs[..i + 1][..i] == contribs[..i];
      var target := contribs[i].0.index;
      buf[target] := buf[target] + contribs[i].1;
    }
    assert contribs[..|contribs|] == contribs;
    local := buf[..];
  }

  // ---------------------------------------------------------------------------
  // GatherGrads and ProjectBackwards: compact -> global (render.rs:534-594)

  /** Each visible compact splat `c` with global id `g =
      global_from_compact_gid[c]` writes `f(g, local[c])` into a zeroed
      `num_points` buffer at `g`. */
  method ScatterToGlobal<T>(globalFromCompactGid: seq<GlobalGid>, numVisible: nat, numPoints: nat,
                            local: seq<T>, f: (GlobalGid, T) -> real) returns (global: seq<real>)
    requires |globalFromCompactGid| == |local| == numPoints
    requires IsCompaction(globalFromCompactGid, numVisible, numPoints)
    ensures |global| == numPoints
    ensures forall c :: 0 <= c < numVisible ==>
              global[globalFromCompactGid[c].index] == f(globalFromCompactGid[c], local[c])
    ensures forall g :: 0 <= g < numPoints && GlobalGid(g) !in Reached(globalFromCompactGid, numVisible) ==>
              global[g] == 0.0
  {
    var buf := new real[numPoints](_ => 0.0);
    for c := 0 to numVisible
      invariant forall d :: 0 <= d < c ==> buf[globalFromCompactGid[d].index] == f(globalFromCompactGid[d], local[d])
      invariant forall g :: 0 <= g < numPoints && GlobalGid(g) !in globalFromCompactGid[..c] ==> buf[g] == 0.0
    {
      assert forall d :: 0 <= d < c ==> globalFromCompactGid[..numVisible][d] != globalFromCompactGid[..numVisible][c];
      assert globalFromCompactGid[..c + 1] == globalFromCompactGid[..c] + [globalFromCompactGid[c]];
      var g := GlobalFromCompact(globalFromCompactGid, CompactGid(c));
      buf[g.index] := f(g, local[c]);
    }
    global := buf[..];
    forall g | 0 <= g < numPoints && GlobalGid(g) !in Reached(globalFromCompactGid, numVisible)
      ensures GlobalGid(g) !in globalFromCompactGid[..numVisible]
    {
      forall d | 0 <= d < numVisible
        ensures globalFromCompactGid[..numVisible][d] != GlobalGid(g)
      {
        assert globalFromCompactGid[d] in Reached(globalFromCompactGid, numVisible);
      }
    }
  }

  // ---------------------------------------------------------------------------
  // The backward pass

  /** What `RasterizeBackwards` adds for each intersection and pixel, one list
      per local buffer. */
  datatype RasterContributions = RasterContributions(
    xy: seq<(CompactGid, real)>,
    conic: seq<(CompactGid, real)>,
    color: seq<(CompactGid, real)>)

  /** The float maps of `GatherGrads` (from the splat's colour and local xy
      gradients, its raw opacity and its mean) and of `ProjectBackwards` (from
      the splat's local xy and conic gradients, its mean, log scales and quat,
      and the camera). Each map is given the splat's global id and stands for
      the kernel's arithmetic on the parameters stored at that id. */
  datatype GradientMaps = GradientMaps(
    coeffs: (GlobalGid, real) -> real,
    opacity: (GlobalGid, real) -> real,
    xyGlobal: (GlobalGid, real) -> real,
    means: (GlobalGid, (real, real)) -> real,
    scales: (GlobalGid, (real, real)) -> real,
    quats: (GlobalGid, (real, real)) -> real)

  datatype Gradients = Gradients(
    coeffsShape: seq<nat>,
    vMeans: seq<real>,
    vScales: seq<real>,
    vQuats: seq<real>,
    vCoeffs: seq<real>,
    vOpacities: seq<real>,
    vXysGlobal: seq<real>)

  predicate ValidContributions(contribs: seq<(CompactGid, real)>, numVisible: nat) {
    forall i :: 0 <= i < |contribs| ==> contribs[i].0.index < numVisible
  }

  function Pairs(a: seq<real>, b: seq<real>): (r: seq<(real, real)>)
    requires |a| == |b|
    ensures |r| == |a| && forall i :: 0 <= i < |a| ==> r[i] == (a[i], b[i])
  {
    seq(|a|, i requires 0 <= i < |a| => (a[i], b[i]))
  }

  /** `backward` for `numPoints` splats rendered with SH degree `shDegree`.
      Only visible splats receive gradients; every other splat's gradient is
      exactly zero in every buffer. */
  method RenderBackward(aux: RenderAux, numPoints: nat, shDegree: u32,
                        raster: RasterContributions, maps: GradientMaps) returns (grads: Gradients)
    requires |aux.globalFromCompactGid| == numPoints
    requires IsCompaction(aux.globalFromCompactGid, aux.numVisible, numPoints)
    requires ValidContributions(raster.xy, aux.numVisible)
    requires ValidContributions(raster.conic, aux.numVisible)
    requires ValidContributions(raster.color, aux.numVisible)
    ensures grads.coeffsShape == CoeffGradientShape(numPoints, shDegree)
    ensures |grads.vMeans| == |grads.vScales| == |grads.vQuats| == numPoints
    ensures |grads.vCoeffs| == |grads.vOpacities| == |grads.vXysGlobal| == numPoints
    ensures forall g :: 0 <= g < numPoints && GlobalGid(g) !in Reached(aux.globalFromCompactGid, aux.numVisible) ==>
              && grads.vMeans[g] == 0.0 && grads.vScales[g] == 0.0 && grads.vQuats[g] == 0.0
              && grads.vCoeffs[g] == 0.0 && grads.vOpacities[g] == 0.0 && grads.vXysGlobal[g] == 0.0
    ensures forall c :: 0 <= c < aux.numVisible ==>
              var gid := aux.globalFromCompactGid[c];
              var g := gid.index;
              var xy := ContributionTotal(raster.xy, c);
              var conic := ContributionTotal(raster.conic, c);
              var color := ContributionTotal(raster.color, c);
              && grads.vCoeffs[g] == maps.coeffs(gid, color)
              && grads.vOpacities[g] == maps.opacity(gid, color)
              && grads.vXysGlobal[g] == maps.xyGlobal(gid, xy)
              && grads.vMeans[g] == maps.means(gid, (xy, conic))
              && grads.vScales[g] == maps.scales(gid, (xy, conic))
              && grads.vQuats[g] == maps.quats(gid, (xy, conic))
  {
    var gfc, nv := aux.globalFromCompactGid, aux.numVisible;
    var vXysLocal := AccumulateLocal(numPoints, raster.xy);
    var vConics := AccumulateLocal(numPoints, raster.conic);
    var vColors := AccumulateLocal(numPoints, raster.color);
    var coeffsShape := CoeffGradientShape(numPoints, shDegree);
    var vCoeffs := ScatterToGlobal(gfc, nv, numPoints, vColors, maps.coeffs);
    var vOpacities := ScatterToGlobal(gfc, nv, numPoints, vColors, maps.opacity);
    var vXysGlobal := ScatterToGlobal(gfc, nv, numPoints, vXysLocal, maps.xyGlobal);
    var projected := Pairs(vXysLocal, vConics);
    var vMeans := ScatterToGlobal(gfc, nv, numPoints, projected, maps.means);
    var vScales := ScatterToGlobal(gfc, nv, numPoints, projected, maps.scales);
    var vQuats := ScatterToGlobal(gfc, nv, numPoints, projected, maps.quats);
    grads := Gradients(coeffsShape, vMeans, vScales, vQuats, vCoeffs, vOpacities, vXysGlobal);
  }
}
