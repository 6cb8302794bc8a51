/** The host side of the forward render pass, `render_forward` in
    crates/brush-render/src/render.rs: a sequence of GPU dispatches, each
    filling a buffer the next one reads, joined by integer bookkeeping.

    The kernels are not modelled. What each one computes is taken as an input
    (`Projection`), and each dispatch becomes a sequential loop over a zeroed
    array that writes what the kernel writes at the indices it writes. */
module RenderForward {
  import opened Wrappers
  import opened RenderSizes
  import opened IndexSpaces
  import opened SortScan

  /** The conditions under which the source panics. */
  datatype ForwardError =
    | InvalidShCoeffs(coeffsPerChannel: u32)
    | NoSplats
    | TileCountOverflow(tileBounds: TileBounds)

  /** What the projection kernels work out from the camera and the splats:
      - `presortGids`: the visible splats, in the order `ProjectSplats` appends
        them to `global_from_presort_gid` (its length is `num_visible`);
      - `depthKey[g]`: the bit pattern of splat `g`'s positive f32 depth,
        which orders like the depth itself;
      - `footprint[g]`: the ids of the tiles splat `g` overlaps, in row-major
        order (`ProjectVisible` counts them, `MapGaussiansToIntersect` lists
        them). */
  datatype Projection = Projection(
    presortGids: seq<GlobalGid>,
    depthKey: seq<nat>,
    footprint: seq<seq<nat>>)

  predicate StrictlyAscending(s: seq<nat>) {
    forall i, j :: 0 <= i < j < |s| ==> s[i] < s[j]
  }

  /** What the kernels guarantee about their output. */
  predicate ProjectionFits(p: Projection, numPoints: nat, numTiles: nat) {
    && |p.presortGids| <= numPoints
    && Distinct(p.presortGids)
    && (forall i :: 0 <= i < |p.presortGids| ==> p.presortGids[i].index < numPoints)
    && |p.depthKey| == numPoints
    && (forall g :: 0 <= g < numPoints ==> p.depthKey[g] < U32_LIMIT)
    && |p.footprint| == numPoints
    && (forall g :: 0 <= g < numPoints ==> StrictlyAscending(p.footprint[g]))
    && (forall g, j :: 0 <= g < numPoints && 0 <= j < |p.footprint[g]| ==> p.footprint[g][j] < numTiles)
  }

  // ---------------------------------------------------------------------------
  // Depth sort (render.rs:123-159)

  /** The depth sort's result: every visible splat exactly once, front to
      back, followed by unused slots. */
  predicate DepthSorted(globalFromCompactGid: seq<GlobalGid>, p: Projection, numPoints: nat)
    requires |p.depthKey| == numPoints
  {
    && |globalFromCompactGid| == numPoints
    && |p.presortGids| <= numPoints
    && multiset(globalFromCompactGid[..|p.presortGids|]) == multiset(p.presortGids)
    && IsCompaction(globalFromCompactGid, |p.presortGids|, numPoints)
    && forall i, j :: 0 <= i < j < |p.presortGids| ==>
         p.depthKey[globalFromCompactGid[i].index] <= p.depthKey[globalFromCompactGid[j].index]
  }

  /** `ProjectSplats` writes the visible splats and their depths into zeroed
      `num_points` buffers; `radix_argsort` then orders the first `num_visible`
      entries by depth over all 32 bits. */
  method DepthSort(numPoints: nat, p: Projection) returns (globalFromCompactGid: seq<GlobalGid>)
    requires |p.presortGids| <= numPoints && Distinct(p.presortGids)
    requires forall i :: 0 <= i < |p.presortGids| ==> p.presortGids[i].index < numPoints
    requires |p.depthKey| == numPoints
    requires forall g :: 0 <= g < numPoints ==> p.depthKey[g] < U32_LIMIT
    ensures DepthSorted(globalFromCompactGid, p, numPoints)
  {
    var numVisible := |p.presortGids|;
    var globalFromPresortGid := new GlobalGid[numPoints](_ => GlobalGid(0));
    var depths := new nat[numPoints](_ => 0);
    for i := 0 to numVisible
      invariant forall k :: 0 <= k < i ==> globalFromPresortGid[k] == p.presortGids[k]
      invariant forall k :: 0 <= k < i ==> depths[k] == p.depthKey[p.presortGids[k].index]
    {
      globalFromPresortGid[i] := p.presortGids[i];
      depths[i] := p.depthKey[p.presortGids[i].index];
    }
    globalFromCompactGid := SortVisible(depths[..], globalFromPresortGid[..], p, numPoints);
  }

  /** The `radix_argsort` call over the first `num_visible` entries of the
      depth and id buffers. */
  method SortVisible(keys: seq<nat>, gids: seq<GlobalGid>, p: Projection, numPoints: nat)
    returns (globalFromCompactGid: seq<GlobalGid>)
    requires |p.presortGids| <= numPoints && Distinct(p.presortGids)
    requires |p.depthKey| == numPoints
    requires |keys| == |gids| == numPoints
    requires forall k :: 0 <= k < |p.presortGids| ==> gids[k] == p.presortGids[k]
    requires forall i :: 0 <= i < |p.presortGids| ==> p.presortGids[i].index < numPoints
    requires forall g :: 0 <= g < numPoints ==> p.depthKey[g] < U32_LIMIT
    requires forall k :: 0 <= k < |p.presortGids| ==> keys[k] == p.depthKey[p.presortGids[k].index]
    ensures DepthSorted(globalFromCompactGid, p, numPoints)
  {
    Pow2Of32();
    var sorted := RadixArgsort(keys, gids, |p.presortGids|, 32);
    globalFromCompactGid := sorted.1;
    DepthSortedByKeys(keys, gids, sorted.0, sorted.1, p, numPoints);
  }

  /** Any ordering of the visible splats by their depths that keeps each
      depth with its splat is the depth order. */
  lemma DepthSortedByKeys(keys: seq<nat>, gids: seq<GlobalGid>, sortedKeys: seq<nat>, out: seq<GlobalGid>,
                          p: Projection, numPoints: nat)
    requires |p.presortGids| <= numPoints && Distinct(p.presortGids)
    requires |p.depthKey| == numPoints
    requires |keys| == |gids| == |sortedKeys| == |out| == numPoints
    requires forall k :: 0 <= k < |p.presortGids| ==> gids[k] == p.presortGids[k]
    requires forall i :: 0 <= i < |p.presortGids| ==> p.presortGids[i].index < numPoints
    requires forall k :: 0 <= k < |p.presortGids| ==> keys[k] == p.depthKey[p.presortGids[k].index]
    requires forall i, j :: 0 <= i < j < |p.presortGids| ==> sortedKeys[i] <= sortedKeys[j]
    requires multiset(Zip(sortedKeys[..|p.presortGids|], out[..|p.presortGids|]))
               == multiset(Zip(keys[..|p.presortGids|], gids[..|p.presortGids|]))
    requires multiset(out[..|p.presortGids|]) == multiset(gids[..|p.presortGids|])
    ensures DepthSorted(out, p, numPoints)
  {
    var n := |p.presortGids|;
    assert multiset(out[..n]) == multiset(p.presortGids) by {
      assert gids[..n] == p.presortGids;
    }
    assert Distinct(out[..n]) by {
      DistinctPermutation(p.presortGids, out[..n]);
    }
    assert forall c :: 0 <= c < n ==> out[c].index < numPoints by {
      forall c | 0 <= c < n
        ensures out[c].index < numPoints
      {
        assert out[..n][c] in multiset(p.presortGids);
      }
    }
    assert forall i :: 0 <= i < n ==> sortedKeys[i] == p.depthKey[out[i].index] by {
      SortedPairsKeepDepth(keys, gids, sortedKeys, out, p.depthKey, n);
    }
  }

  /** Sorting pairs never separates a depth from the splat it belongs to. */
  lemma SortedPairsKeepDepth(keys: seq<nat>, gids: seq<GlobalGid>, sortedKeys: seq<nat>,
                             sortedGids: seq<GlobalGid>, depthKey: seq<nat>, n: nat)
    requires n <= |keys| == |gids| && n <= |sortedKeys| == |sortedGids|
    requires multiset(Zip(sortedKeys[..n], sortedGids[..n])) == multiset(Zip(keys[..n], gids[..n]))
    requires forall i :: 0 <= i < n ==> gids[i].index < |depthKey| && keys[i] == depthKey[gids[i].index]
    ensures forall i :: 0 <= i < n ==> sortedGids[i].index < |depthKey| && sortedKeys[i] == depthKey[sortedGids[i].index]
  {
    forall i | 0 <= i < n
      ensures sortedGids[i].index < |depthKey| && sortedKeys[i] == depthKey[sortedGids[i].index]
    {
      var pair := Zip(sortedKeys[..n], sortedGids[..n])[i];
      assert pair in multiset(Zip(keys[..n], gids[..n]));
      var j :| 0 <= j < n && Zip(keys[..n], gids[..n])[j] == pair;
    }
  }

  // ---------------------------------------------------------------------------
  // Tile-hit counts and intersections (render.rs:164-192, 208-223)

  /** The footprints in compact (depth) order. */
  function CompactFootprints(footprint: seq<seq<nat>>, globalFromCompactGid: seq<GlobalGid>, numVisible: nat): (r: seq<seq<nat>>)
    requires numVisible <= |globalFromCompactGid|
    requires forall c :: 0 <= c < numVisible ==> globalFromCompactGid[c].index < |footprint|
    ensures |r| == numVisible
    ensures forall c :: 0 <= c < numVisible ==> r[c] == footprint[globalFromCompactGid[c].index]
  {
    seq(numVisible, c requires 0 <= c < numVisible => footprint[globalFromCompactGid[c].index])
  }

  /** Number of tiles each compact splat touches. */
  function TileCounts(fpc: seq<seq<nat>>): (r: seq<nat>)
    ensures |r| == |fpc|
    ensures forall c :: 0 <= c < |fpc| ==> r[c] == |fpc[c]|
  {
    seq(|fpc|, c requires 0 <= c < |fpc| => |fpc[c]|)
  }

  /** The intersections of one splat: one (tile id, compact id) pair per tile. */
  function Tagged(tiles: seq<nat>, c: nat): (r: seq<(nat, CompactGid)>)
    ensures |r| == |tiles|
    ensures forall j :: 0 <= j < |tiles| ==> r[j] == (tiles[j], CompactGid(c))
  {
    seq(|tiles|, j requires 0 <= j < |tiles| => (tiles[j], CompactGid(c)))
  }

  /** All intersections in the order the tile mapper lays them out: compact
      splat after compact splat, each splat's tiles in footprint order. */
  function Emitted(fpc: seq<seq<nat>>): seq<(nat, CompactGid)> {
    if fpc == [] then [] else Emitted(fpc[..|fpc| - 1]) + Tagged(fpc[|fpc| - 1], |fpc| - 1)
  }

  /** The intersection list holds exactly one entry per tile hit. */
  lemma {:induction false} EmittedLength(fpc: seq<seq<nat>>)
    ensures |Emitted(fpc)| == Sum(TileCounts(fpc))
  {
    if fpc != [] {
      EmittedLength(fpc[..|fpc| - 1]);
      assert TileCounts(fpc)[..|fpc| - 1] == TileCounts(fpc[..|fpc| - 1]);
    }
  }

  /** Every intersection names a tile of some footprint and a visible splat. */
  lemma {:induction false} EmittedBounds(fpc: seq<seq<nat>>, numTiles: nat)
    requires forall c, j :: 0 <= c < |fpc| && 0 <= j < |fpc[c]| ==> fpc[c][j] < numTiles
    ensures forall i :: 0 <= i < |Emitted(fpc)| ==> Emitted(fpc)[i].0 < numTiles && Emitted(fpc)[i].1.index < |fpc|
  {
    if fpc != [] {
      EmittedBounds(fpc[..|fpc| - 1], numTiles);
    }
  }

  /** `ProjectVisible` writes each visible splat's tile count into the zeroed
      `num_tiles_hit` buffer at its compact id. */
  method CountTilesHit(fpc: seq<seq<nat>>, numPoints: nat) returns (numTilesHit: seq<nat>)
    requires |fpc| <= numPoints
    ensures |numTilesHit| == numPoints
    ensures numTilesHit[..|fpc|] == TileCounts(fpc)
    ensures forall c :: |fpc| <= c < numPoints ==> numTilesHit[c] == 0
  {
    var hits := new nat[numPoints](_ => 0);
    for c := 0 to |fpc|
      invariant forall d :: 0 <= d < c ==> hits[d] == |fpc[d]|
      invariant forall d :: c <= d < numPoints ==> hits[d] == 0
    {
      hits[c] := |fpc[c]|;
    }
    numTilesHit := hits[..];
  }

  lemma {:induction false} SumZeros(s: seq<nat>)
    requires forall i :: 0 <= i < |s| ==> s[i] == 0
    ensures Sum(s) == 0
  {
    if s != [] {
      SumZeros(s[..|s| - 1]);
    }
  }

  /** Splats that were never written add nothing: the total of the zero-filled
      count buffer is the number of intersections of the visible splats. */
  lemma TotalHitsIsEmitted(fpc: seq<seq<nat>>, numTilesHit: seq<nat>)
    requires |fpc| <= |numTilesHit|
    requires numTilesHit[..|fpc|] == TileCounts(fpc)
    requires forall c :: |fpc| <= c < |numTilesHit| ==> numTilesHit[c] == 0
    ensures Sum(numTilesHit) == |Emitted(fpc)|
  {
    assert numTilesHit == numTilesHit[..|fpc|] + numTilesHit[|fpc|..];
    SumAppend(numTilesHit[..|fpc|], numTilesHit[|fpc|..]);
    SumZeros(numTilesHit[|fpc|..]);
    EmittedLength(fpc);
  }

  /** The exclusive offset `cum[c] - hits[c]` of compact splat `c` is the
      number of intersections of the splats before it. */
  lemma OffsetOfSplat(fpc: seq<seq<nat>>, hits: seq<nat>, cum: seq<nat>, c: nat)
    requires |fpc| <= |hits| == |cum| && c < |fpc|
    requires hits[..|fpc|] == TileCounts(fpc)
    requires forall i :: 0 <= i < |cum| ==> cum[i] == Sum(hits[..i + 1])
    ensures cum[c] == |Emitted(fpc[..c])| + hits[c]
  {
    assert hits[..c + 1][..c] == hits[..c];
    assert hits[..c] == TileCounts(fpc[..c]);
    EmittedLength(fpc[..c]);
  }

  /** The inclusive scan at compact splat `c` counts the intersections of
      splats `0..c`; past the visible splats it stays at the total. */
  lemma CumulativeIsEmitted(fpc: seq<seq<nat>>, hits: seq<nat>, cum: seq<nat>, c: nat)
    requires |fpc| <= |hits| == |cum| && c < |cum|
    requires hits[..|fpc|] == TileCounts(fpc)
    requires forall i :: |fpc| <= i < |hits| ==> hits[i] == 0
    requires forall i :: 0 <= i < |cum| ==> cum[i] == Sum(hits[..i + 1])
    ensures c < |fpc| ==> cum[c] == |Emitted(fpc[..c + 1])|
    ensures c >= |fpc| ==> cum[c] == |Emitted(fpc)|
  {
    if c < |fpc| {
      assert hits[..c + 1] == TileCounts(fpc[..c + 1]);
      EmittedLength(fpc[..c + 1]);
    } else {
      TotalHitsIsEmitted(fpc, hits[..c + 1]);
    }
  }

  /** `MapGaussiansToIntersect`: compact splat `c` writes its intersections
      from offset `cum[c] - hits[c]` on; a write at or past the buffer's
      capacity is dropped. */
  method MapGaussiansToIntersect(fpc: seq<seq<nat>>, hits: seq<nat>, cum: seq<nat>,
                                 tileIdFromIsect: array<nat>, compactGidFromIsect: array<CompactGid>)
    requires |fpc| <= |hits| == |cum|
    requires hits[..|fpc|] == TileCounts(fpc)
    requires forall i :: 0 <= i < |cum| ==> cum[i] == Sum(hits[..i + 1])
    requires tileIdFromIsect.Length == compactGidFromIsect.Length
    modifies tileIdFromIsect, compactGidFromIsect
    ensures forall i :: 0 <= i < |Emitted(fpc)| && i < tileIdFromIsect.Length ==>
              (tileIdFromIsect[i], compactGidFromIsect[i]) == Emitted(fpc)[i]
    ensures forall i :: |Emitted(fpc)| <= i < tileIdFromIsect.Length ==>
              tileIdFromIsect[i] == old(tileIdFromIsect[i]) && compactGidFromIsect[i] == old(compactGidFromIsect[i])
  {
    var capacity := tileIdFromIsect.Length;
    for c := 0 to |fpc|
      invariant forall i :: 0 <= i < |Emitted(fpc[..c])| && i < capacity ==>
                  (tileIdFromIsect[i], compactGidFromIsect[i]) == Emitted(fpc[..c])[i]
      invariant forall i :: |Emitted(fpc[..c])| <= i < capacity ==>
                  tileIdFromIsect[i] == old(tileIdFromIsect[i]) && compactGidFromIsect[i] == old(compactGidFromIsect[i])
    {
      OffsetOfSplat(fpc, hits, cum, c);
      var base := cum[c] - hits[c];
      ghost var before := Emitted(fpc[..c]);
      assert fpc[..c + 1][..c] == fpc[..c];
      ghost var after := before + Tagged(fpc[c], c);
      assert Emitted(fpc[..c + 1]) == after;
      for j := 0 to |fpc[c]|
        invariant forall i :: 0 <= i < |before| + j && i < capacity ==>
                    (tileIdFromIsect[i], compactGidFromIsect[i]) == after[i]
        invariant forall i :: |before| + j <= i < capacity ==>
                    tileIdFromIsect[i] == old(tileIdFromIsect[i]) && compactGidFromIsect[i] == old(compactGidFromIsect[i])
      {
        if base + j < capacity {
          tileIdFromIsect[base + j] := fpc[c][j];
          compactGidFromIsect[base + j] := CompactGid(c);
        }
      }
    }
    assert fpc[..|fpc|] == fpc;
  }

  // ---------------------------------------------------------------------------
  // Order of the intersections within one tile

  predicate AscendingIds(s: seq<CompactGid>) {
    forall i, j :: 0 <= i < j < |s| ==> s[i].index < s[j].index
  }

  /** A splat lists each tile at most once, so it meets a given tile at most once. */
  lemma {:induction false} WithKeyTagged(tiles: seq<nat>, c: nat, t: nat)
    requires StrictlyAscending(tiles)
    ensures WithKey(Tagged(tiles, c), t) == if t in tiles then [CompactGid(c)] else []
  {
    if tiles != [] {
      var n := |tiles| - 1;
      var init := tiles[..n];
      assert WithKey(Tagged(tiles, c), t)
             == WithKey(Tagged(init, c), t) + (if tiles[n] == t then [CompactGid(c)] else []) by {
        assert Tagged(tiles, c)[..n] == Tagged(init, c);
      }
      assert StrictlyAscending(init) by {
        assert forall i :: 0 <= i < n ==> init[i] == tiles[i];
      }
      WithKeyTagged(init, c, t);
      assert t in tiles <==> t in init || tiles[n] == t by {
        assert tiles == init + [tiles[n]];
      }
      assert t in init ==> tiles[n] != t by {
        if t in init {
          var k :| 0 <= k < n && init[k] == t;
          assert tiles[k] < tiles[n];
        }
      }
    }
  }

  /** Within one tile, the emitted intersections come in strictly ascending
      compact order, that is, front to back. */
  lemma {:induction false} EmittedTileAscending(fpc: seq<seq<nat>>, t: nat)
    requires forall c :: 0 <= c < |fpc| ==> StrictlyAscending(fpc[c])
    ensures AscendingIds(WithKey(Emitted(fpc), t))
    ensures forall i :: 0 <= i < |WithKey(Emitted(fpc), t)| ==> WithKey(Emitted(fpc), t)[i].index < |fpc|
  {
    if fpc != [] {
      var c := |fpc| - 1;
      var init := fpc[..c];
      var w := WithKey(Emitted(fpc), t);
      var before := WithKey(Emitted(init), t);
      var mine := WithKey(Tagged(fpc[c], c), t);
      assert w == before + mine by {
        assert Emitted(fpc) == Emitted(init) + Tagged(fpc[c], c);
        WithKeyAppend(Emitted(init), Tagged(fpc[c], c), t);
      }
      assert AscendingIds(before) && forall i :: 0 <= i < |before| ==> before[i].index < c by {
        assert forall d :: 0 <= d < |init| ==> init[d] == fpc[d];
        EmittedTileAscending(init, t);
      }
      assert |mine| <= 1 && forall i :: 0 <= i < |mine| ==> mine[i].index == c by {
        WithKeyTagged(fpc[c], c, t);
      }
      forall i, j | 0 <= i < j < |w|
        ensures w[i].index < w[j].index
      {
        assert w[i] == before[i];
        if j < |before| {
          assert w[j] == before[j];
        } else {
          assert w[j] == mine[j - |before|];
        }
      }
      forall i | 0 <= i < |w|
        ensures w[i].index < |fpc|
      {
        if i < |before| {
          assert w[i] == before[i];
        } else {
          assert w[i] == mine[i - |before|];
        }
      }
    }
  }

  /** Taking a prefix of a sequence takes a prefix of its per-key payloads. */
  lemma PrefixWithKey<P>(s: seq<(nat, P)>, n: nat, t: nat)
    requires n <= |s|
    ensures WithKey(s[..n], t) <= WithKey(s, t)
  {
    assert s == s[..n] + s[n..];
    WithKeyAppend(s[..n], s[n..], t);
  }

  // ---------------------------------------------------------------------------
  // Tile bins (render.rs:239-262)

  /** `[start, end)` into the tile-sorted intersections. */
  datatype TileBin = TileBin(start: nat, end: nat)

  predicate IsRunStart(s: seq<nat>, i: nat)
    requires i < |s|
  {
    i == 0 || s[i - 1] != s[i]
  }

  predicate IsRunEnd(s: seq<nat>, i: nat)
    requires i < |s|
  {
    i == |s| - 1 || s[i + 1] != s[i]
  }

  /** Where the run of equal entries through `i` starts. */
  function RunStartOf(s: seq<nat>, i: nat): (r: nat)
    requires i < |s|
    ensures r <= i && IsRunStart(s, r)
    ensures forall k :: r <= k <= i ==> s[k] == s[i]
  {
    if IsRunStart(s, i) then i else RunStartOf(s, i - 1)
  }

  /** Where the run of equal entries through `i` ends (inclusive). */
  function RunEndOf(s: seq<nat>, i: nat): (r: nat)
    requires i < |s|
    ensures i <= r < |s| && IsRunEnd(s, r)
    ensures forall k :: i <= k <= r ==> s[k] == s[i]
    decreases |s| - i
  {
    if IsRunEnd(s, i) then i else RunEndOf(s, i + 1)
  }

  predicate Ascending(s: seq<nat>) {
    forall i, j :: 0 <= i < j < |s| ==> s[i] <= s[j]
  }

  /** The bins split the sorted intersections by tile: position `i` lies in
      tile `t`'s bin exactly when its tile id is `t`, and a tile with no
      intersection keeps the zeroed empty range. */
  predicate BinsPartition(sortedTileIds: seq<nat>, bins: seq<TileBin>) {
    && (forall t :: 0 <= t < |bins| ==> bins[t].start <= bins[t].end <= |sortedTileIds|)
    && (forall t, i :: 0 <= t < |bins| && 0 <= i < |sortedTileIds| ==>
          (sortedTileIds[i] == t <==> bins[t].start <= i < bins[t].end))
    && (forall t :: 0 <= t < |bins| && t !in sortedTileIds ==> bins[t] == TileBin(0, 0))
  }

  /** Entries before the start of a run are smaller than the run's value. */
  lemma BeforeRunStart(s: seq<nat>, i: nat, j: nat)
    requires Ascending(s) && j < i < |s| && IsRunStart(s, i)
    ensures s[j] < s[i]
  {
    assert s[j] <= s[i - 1];
  }

  /** Entries after the end of a run are larger than the run's value. */
  lemma AfterRunEnd(s: seq<nat>, j: nat, i: nat)
    requires Ascending(s) && j < i < |s| && IsRunEnd(s, j)
    ensures s[j] < s[i]
  {
    assert s[j + 1] <= s[i];
  }

  /** In an ascending sequence the entries equal to `s[i]` are exactly its run. */
  lemma RunIsExact(s: seq<nat>, i: nat)
    requires Ascending(s) && i < |s|
    ensures forall k :: 0 <= k < |s| ==> (s[k] == s[i] <==> RunStartOf(s, i) <= k <= RunEndOf(s, i))
  {
    var a, e := RunStartOf(s, i), RunEndOf(s, i);
    forall k | 0 <= k < |s|
      ensures s[k] == s[i] <==> a <= k <= e
    {
      if k < a {
        BeforeRunStart(s, a, k);
      } else if k > e {
        AfterRunEnd(s, e, k);
      }
    }
  }

  /** What the bin loop has recorded after its first `i` steps: the start of
      every run begun so far, the end of every run finished so far, and zeroes
      for the tiles not yet seen. */
  predicate StartsRecorded(s: seq<nat>, bins: seq<TileBin>, i: nat)
    requires i <= |s|
  {
    forall j :: 0 <= j < i && IsRunStart(s, j) ==> s[j] < |bins| && bins[s[j]].start == j
  }

  predicate EndsRecorded(s: seq<nat>, bins: seq<TileBin>, i: nat)
    requires i <= |s|
  {
    forall j :: 0 <= j < i && IsRunEnd(s, j) ==> s[j] < |bins| && bins[s[j]].end == j + 1
  }

  predicate UnseenEmpty(s: seq<nat>, bins: seq<TileBin>, i: nat)
    requires i <= |s|
  {
    forall t :: 0 <= t < |bins| && t !in s[..i] ==> bins[t] == TileBin(0, 0)
  }

  /** What the bin loop has written after its first `i` steps. */
  predicate BinsRecorded(s: seq<nat>, bins: seq<TileBin>, i: nat)
    requires i <= |s|
  {
    StartsRecorded(s, bins, i) && EndsRecorded(s, bins, i) && UnseenEmpty(s, bins, i)
  }

  /** In an ascending sequence, an entry equal to an earlier one neither
      starts a run nor lets that earlier one end a run. */
  lemma SortedRunFacts(s: seq<nat>, i: nat)
    requires Ascending(s) && i < |s|
    ensures forall j :: 0 <= j < i && s[j] == s[i] ==> !IsRunStart(s, i)
    ensures forall j :: 0 <= j < i && s[j] == s[i] ==> !IsRunEnd(s, j)
  {
    forall j | 0 <= j < i && s[j] == s[i]
      ensures !IsRunStart(s, i) && !IsRunEnd(s, j)
    {
      assert s[j] <= s[i - 1] <= s[i];
      assert s[j] <= s[j + 1] <= s[i];
    }
  }

  /** One step of the bin loop keeps what it has recorded. */
  lemma BinStep(s: seq<nat>, bins: seq<TileBin>, i: nat, bin: TileBin)
    requires Ascending(s) && i < |s| && s[i] < |bins|
    requires BinsRecorded(s, bins, i)
    requires bin.start == if IsRunStart(s, i) then i else bins[s[i]].start
    requires bin.end == if IsRunEnd(s, i) then i + 1 else bins[s[i]].end
    ensures BinsRecorded(s, bins[s[i] := bin], i + 1)
  {
    SortedRunFacts(s, i);
    StartStep(s, bins, i, bin);
    EndStep(s, bins, i, bin);
    UnseenStep(s, bins, i, bin);
  }

  lemma StartStep(s: seq<nat>, bins: seq<TileBin>, i: nat, bin: TileBin)
    requires i < |s| && s[i] < |bins|
    requires forall j :: 0 <= j < i && s[j] == s[i] ==> !IsRunStart(s, i)
    requires StartsRecorded(s, bins, i)
    requires bin.start == if IsRunStart(s, i) then i else bins[s[i]].start
    ensures StartsRecorded(s, bins[s[i] := bin], i + 1)
  {
    var t := s[i];
    var next := bins[t := bin];
    forall j | 0 <= j < i + 1 && IsRunStart(s, j)
      ensures s[j] < |next| && next[s[j]].start == j
    {
      if j < i {
        assert s[j] < |bins| && bins[s[j]].start == j;
        if s[j] != t {
          assert next[s[j]] == bins[s[j]];
        } else {
          assert !IsRunStart(s, i);
        }
      }
    }
  }

  lemma EndStep(s: seq<nat>, bins: seq<TileBin>, i: nat, bin: TileBin)
    requires i < |s| && s[i] < |bins|
    requires forall j :: 0 <= j < i && s[j] == s[i] ==> !IsRunEnd(s, j)
    requires EndsRecorded(s, bins, i)
    requires bin.end == if IsRunEnd(s, i) then i + 1 else bins[s[i]].end
    ensures EndsRecorded(s, bins[s[i] := bin], i + 1)
  {
    var t := s[i];
    var next := bins[t := bin];
    forall j | 0 <= j < i + 1 && IsRunEnd(s, j)
      ensures s[j] < |next| && next[s[j]].end == j + 1
    {
      if j < i {
        assert s[j] < |bins| && bins[s[j]].end == j + 1;
        assert s[j] != t;
        assert next[s[j]] == bins[s[j]];
      }
    }
  }

  lemma UnseenStep(s: seq<nat>, bins: seq<TileBin>, i: nat, bin: TileBin)
    requires i < |s| && s[i] < |bins|
    requires UnseenEmpty(s, bins, i)
    ensures UnseenEmpty(s, bins[s[i] := bin], i + 1)
  {
    var t := s[i];
    var next := bins[t := bin];
    assert s[..i + 1] == s[..i] + [t];
    forall u | 0 <= u < |next| && u !in s[..i + 1]
      ensures next[u] == TileBin(0, 0)
    {
      assert u != t && u !in s[..i];
      assert next[u] == bins[u];
    }
  }

  /** One thread of `GetTileBinEdges` for intersection `i`: the first of a run
      writes the bin's start, the last writes its end. */
  function NextBin(s: seq<nat>, i: nat, cur: TileBin): (r: TileBin)
    requires i < |s|
    ensures r.start == if IsRunStart(s, i) then i else cur.start
    ensures r.end == if IsRunEnd(s, i) then i + 1 else cur.end
  {
    TileBin(if IsRunStart(s, i) then i else cur.start, if IsRunEnd(s, i) then i + 1 else cur.end)
  }

  /** The bin table after the threads for the first `i` intersections. */
  function BinsAfter(s: seq<nat>, numTiles: nat, i: nat): (r: seq<TileBin>)
    requires i <= |s| && forall k :: 0 <= k < |s| ==> s[k] < numTiles
    ensures |r| == numTiles
  {
    if i == 0 then seq(numTiles, _ => TileBin(0, 0))
    else
      var before := BinsAfter(s, numTiles, i - 1);
      before[s[i - 1] := NextBin(s, i - 1, before[s[i - 1]])]
  }

  /** After `i` threads, every run that started among them has its start,
      every run that ended among them has its end, and the other bins are
      still empty. */
  lemma {:induction false} BinsAfterRecorded(s: seq<nat>, numTiles: nat, i: nat)
    requires Ascending(s) && i <= |s| && forall k :: 0 <= k < |s| ==> s[k] < numTiles
    ensures BinsRecorded(s, BinsAfter(s, numTiles, i), i)
  {
    if i == 0 {
      NothingRecordedYet(s, BinsAfter(s, numTiles, 0));
    } else {
      var j := i - 1;
      var before := BinsAfter(s, numTiles, j);
      var after := BinsAfter(s, numTiles, i);
      assert after == before[s[j] := NextBin(s, j, before[s[j]])];
      BinsAfterRecorded(s, numTiles, j);
      BinStep(s, before, j, NextBin(s, j, before[s[j]]));
    }
  }

  /** `GetTileBinEdges`: over a zeroed table, the first intersection of each
      run of equal tile ids writes the bin's start and the last writes its end. */
  method GetTileBinEdges(sortedTileIds: seq<nat>, numTiles: nat) returns (tileBins: seq<TileBin>)
    requires Ascending(sortedTileIds)
    requires forall i :: 0 <= i < |sortedTileIds| ==> sortedTileIds[i] < numTiles
    ensures |tileBins| == numTiles
    ensures BinsPartition(sortedTileIds, tileBins)
  {
    var s := sortedTileIds;
    var n := |s|;
    var bins := new TileBin[numTiles](_ => TileBin(0, 0));
    for i := 0 to n
      invariant bins[..] == BinsAfter(s, numTiles, i)
    {
      var t := s[i];
      var bin := TileBin(if i == 0 || s[i - 1] != t then i else bins[t].start,
                         if i == n - 1 || s[i + 1] != t then i + 1 else bins[t].end);
      ghost var before := bins[..];
      bins[t] := bin;
      assert bins[..] == before[t := bin];
    }
    tileBins := bins[..];
    BinsAfterRecorded(s, numTiles, n);
    BinsFromRuns(s, tileBins);
  }

  lemma NothingRecordedYet(s: seq<nat>, bins: seq<TileBin>)
    requires forall t :: 0 <= t < |bins| ==> bins[t] == TileBin(0, 0)
    ensures BinsRecorded(s, bins, 0)
  {
  }

  lemma BinsFromRuns(s: seq<nat>, bins: seq<TileBin>)
    requires Ascending(s)
    requires forall i :: 0 <= i < |s| ==> s[i] < |bins|
    requires BinsRecorded(s, bins, |s|)
    ensures BinsPartition(s, bins)
  {
    forall t | 0 <= t < |bins| && t in s
      ensures bins[t].start <= bins[t].end <= |s|
      ensures forall i :: 0 <= i < |s| ==> (s[i] == t <==> bins[t].start <= i < bins[t].end)
    {
      var i :| 0 <= i < |s| && s[i] == t;
      RunIsExact(s, i);
      assert s[..|s|] == s;
      assert bins[t] == TileBin(RunStartOf(s, i), RunEndOf(s, i) + 1);
    }
  }

  /** The sorted buffer keeps each tile's intersections in emitted order, so
      every bin lists its splats front to back. */
  lemma BinInDepthOrder(fpc: seq<seq<nat>>, sortedTileIds: seq<nat>, sortedCompacts: seq<CompactGid>,
                        n: nat, bins: seq<TileBin>, t: nat)
    requires forall c :: 0 <= c < |fpc| ==> StrictlyAscending(fpc[c])
    requires n <= |Emitted(fpc)| && n <= |sortedTileIds| == |sortedCompacts|
    requires WithKey(Zip(sortedTileIds[..n], sortedCompacts[..n]), t) == WithKey(Emitted(fpc)[..n], t)
    requires t < |bins| && BinsPartition(sortedTileIds[..n], bins)
    ensures forall i, j :: bins[t].start <= i < j < bins[t].end ==> sortedCompacts[i].index < sortedCompacts[j].index
  {
    var s := Zip(sortedTileIds[..n], sortedCompacts[..n]);
    var a, b := bins[t].start, bins[t].end;
    var w := WithKey(s, t);
    assert |w| == b - a && forall i :: a <= i < b ==> sortedCompacts[i] == w[i - a] by {
      WithKeyOfRun(s, t, a, b);
      forall i | a <= i < b
        ensures sortedCompacts[i] == w[i - a]
      {
        assert s[i] == (sortedTileIds[..n][i], sortedCompacts[..n][i]);
      }
    }
    assert AscendingIds(w) by {
      PrefixWithKey(Emitted(fpc), n, t);
      EmittedTileAscending(fpc, t);
      var e := WithKey(Emitted(fpc), t);
      assert w <= e;
      forall i, j | 0 <= i < j < |w|
        ensures w[i].index < w[j].index
      {
        assert w[i] == e[i] && w[j] == e[j];
      }
    }
  }

  // ---------------------------------------------------------------------------
  // Tile sort and binning (render.rs:194-265)

  /** The tile sort and the bins over a buffer of `maxIntersects` entries,
      of which the first `min(num_intersections, max_intersects)` are filled:
      those are sorted by tile id, keep each tile's intersections in emitted
      order, and every bin is the exact range of its tile, front to back. */
  ghost predicate TilesBinned(fpc: seq<seq<nat>>, tileIds: seq<nat>, compacts: seq<CompactGid>, bins: seq<TileBin>,
                        numTiles: nat, maxIntersects: nat)
  {
    var n := Min(|Emitted(fpc)|, maxIntersects);
    && |tileIds| == |compacts| == maxIntersects
    && Ascending(tileIds[..n])
    && (forall t :: WithKey(Zip(tileIds[..n], compacts[..n]), t) == WithKey(Emitted(fpc)[..n], t))
    && |bins| == numTiles
    && BinsPartition(tileIds[..n], bins)
    && (forall t, i, j :: 0 <= t < numTiles && bins[t].start <= i < j < bins[t].end ==>
          compacts[i].index < compacts[j].index)
  }

  /** The scan over the per-splat counts: entry `c` is the number of
      intersections of the first `c + 1` compact splats, and the entries past
      the visible ones repeat the total. */
  predicate CountsScanned(cum: seq<nat>, fpc: seq<seq<nat>>, numPoints: nat) {
    && |cum| == numPoints
    && |fpc| <= numPoints
    && (forall c :: 0 <= c < |fpc| ==> cum[c] == |Emitted(fpc[..c + 1])|)
    && (forall c :: |fpc| <= c < numPoints ==> cum[c] == |Emitted(fpc)|)
  }

  /** Lays out the intersections, sorts them by tile id over `bits` bits and
      builds the bins. Only the first `min(num_intersections, max_intersects)`
      entries exist in the buffers, and only those are sorted and binned. */
  method BinIntersections(fpc: seq<seq<nat>>, hits: seq<nat>, cum: seq<nat>, numTiles: u32, maxIntersects: nat)
    returns (tileIdFromIsect: seq<nat>, compactGidFromIsect: seq<CompactGid>, tileBins: seq<TileBin>)
    requires |fpc| <= |hits| == |cum|
    requires hits[..|fpc|] == TileCounts(fpc)
    requires forall i :: 0 <= i < |cum| ==> cum[i] == Sum(hits[..i + 1])
    requires forall c :: 0 <= c < |fpc| ==> StrictlyAscending(fpc[c])
    requires forall c, j :: 0 <= c < |fpc| && 0 <= j < |fpc[c]| ==> fpc[c][j] < numTiles
    ensures TilesBinned(fpc, tileIdFromIsect, compactGidFromIsect, tileBins, numTiles, maxIntersects)
  {
    var tiles := new nat[maxIntersects](_ => 0);
    var compacts := new CompactGid[maxIntersects](_ => CompactGid(0));
    MapGaussiansToIntersect(fpc, hits, cum, tiles, compacts);
    var n := Min(|Emitted(fpc)|, maxIntersects);
    var bits := SortBits(numTiles);
    EmittedBounds(fpc, numTiles);
    assert Zip(tiles[..][..n], compacts[..][..n]) == Emitted(fpc)[..n];
    forall i | 0 <= i < n
      ensures tiles[..][i] < Pow2(bits)
    {
      TileIdsFitSortBits(numTiles, tiles[i]);
    }
    var sorted := RadixArgsort(tiles[..], compacts[..], n, bits);
    tileIdFromIsect, compactGidFromIsect := sorted.0, sorted.1;
    forall i | 0 <= i < n
      ensures tileIdFromIsect[i] < numTiles
    {
      assert Zip(tileIdFromIsect[..n], compactGidFromIsect[..n])[i] in multiset(Emitted(fpc)[..n]);
    }
    tileBins := GetTileBinEdges(tileIdFromIsect[..n], numTiles);
    forall t | 0 <= t < numTiles
      ensures forall i, j :: tileBins[t].start <= i < j < tileBins[t].end ==>
                compactGidFromIsect[i].index < compactGidFromIsect[j].index
    {
      BinInDepthOrder(fpc, tileIdFromIsect, compactGidFromIsect, n, tileBins, t);
    }
  }

  function Min(a: nat, b: nat): (r: nat)
    ensures r <= a && r <= b && (r == a || r == b)
  {
    if a <= b then a else b
  }

  // ---------------------------------------------------------------------------
  // Rasterize bindings (render.rs:267-307)

  /** The buffers bound to the `Rasterize` dispatch. */
  datatype Binding = Uniforms | CompactGidFromIsect | TileBins | ProjectedSplats | OutImg | FinalIndex

  /** The output image shape and the rasterizer's bindings: one packed channel
      for a u32 image and four floats otherwise; the final-index buffer is
      bound only when the image is not u32, the only case the backward pass
      needs it. */
  method RasterSetup(img: ImgSize, rasterU32: bool) returns (outImgShape: seq<nat>, handles: seq<Binding>)
    ensures outImgShape == [img.y, img.x, if rasterU32 then 1 else 4]
    ensures |handles| == if rasterU32 then 5 else 6
    ensures handles[..5] == [Uniforms, CompactGidFromIsect, TileBins, ProjectedSplats, OutImg]
    ensures FinalIndex in handles <==> !rasterU32
  {
    var outDim := if rasterU32 then 1 else 4;
    outImgShape := [img.y, img.x, outDim];
    handles := [Uniforms, CompactGidFromIsect, TileBins, ProjectedSplats, OutImg];
    if !rasterU32 {
      handles := handles + [FinalIndex];
    }
  }

  // ---------------------------------------------------------------------------
  // The forward pass (render.rs:55-323)

  /** The buffers `render_forward` hands to the backward pass, with the tile
      ids of the sorted intersections kept alongside the compact ids. */
  datatype RenderAux = RenderAux(
    tileBounds: TileBounds,
    shDegree: u32,
    numVisible: nat,
    numIntersections: nat,
    tileBins: seq<TileBin>,
    cumTilesHit: seq<nat>,
    globalFromCompactGid: seq<GlobalGid>,
    compactGidFromIsect: seq<CompactGid>,
    tileIdFromIsect: seq<nat>,
    finalIndexShape: seq<nat>)

  datatype RenderOutput = RenderOutput(outImgShape: seq<nat>, rasterBindings: seq<Binding>, aux: RenderAux)

  /** What a successful forward pass returns: the uniforms; the visible
      splats depth-sorted; the scan of their tile counts, whose entries count
      the intersections splat by splat and whose last entry is their total;
      the tile-sorted intersections that fit the buffer with their bins; and
      the rasterizer's output shape and bindings. */
  ghost predicate ForwardOutput(img: ImgSize, numPoints: usize, coeffsPerChannel: u32, p: Projection,
                                rasterU32: bool, out: RenderOutput)
    requires |p.depthKey| == numPoints && |p.footprint| == numPoints
  {
    var aux := out.aux;
    && aux.tileBounds == TileBoundsOf(img, TILE_WIDTH)
    && Some(aux.shDegree) == ShDegreeFromCoeffs(coeffsPerChannel)
    && aux.numVisible == |p.presortGids|
    && DepthSorted(aux.globalFromCompactGid, p, numPoints)
    && var fpc := CompactFootprints(p.footprint, aux.globalFromCompactGid, aux.numVisible);
       var numTiles := aux.tileBounds.x * aux.tileBounds.y;
       && CountsScanned(aux.cumTilesHit, fpc, numPoints)
       && aux.numIntersections == |Emitted(fpc)|
       && numTiles < U32_LIMIT
       && TilesBinned(fpc, aux.tileIdFromIsect, aux.compactGidFromIsect, aux.tileBins, numTiles,
                      MaxIntersects(numPoints, numTiles))
       && out.outImgShape == [img.y, img.x, if rasterU32 then 1 else 4]
       && aux.finalIndexShape == [img.y, img.x]
       && (FinalIndex in out.rasterBindings <==> !rasterU32)
  }

  /** `render_forward` for `numPoints` splats with `coeffsPerChannel` SH
      coefficients per colour channel, given what the projection kernels
      compute. The source runs the depth sort and the counting before it reads
      the last scan entry (the empty-input panic) and multiplies the tile
      counts (the overflow panic); neither pass can fail, so the checks are
      made first here with the same outcome. */
  method RenderForward(img: ImgSize, numPoints: usize, coeffsPerChannel: u32, p: Projection, rasterU32: bool)
    returns (res: Result<RenderOutput, ForwardError>)
    requires ProjectionFits(p, numPoints, TileBoundsOf(img, TILE_WIDTH).x * TileBoundsOf(img, TILE_WIDTH).y)
    // The three panics, in the order the source reaches them.
    ensures ShDegreeFromCoeffs(coeffsPerChannel).None? ==> res == Err(InvalidShCoeffs(coeffsPerChannel))
    ensures ShDegreeFromCoeffs(coeffsPerChannel).Some? && numPoints == 0 ==> res == Err(NoSplats)
    ensures ShDegreeFromCoeffs(coeffsPerChannel).Some? && numPoints > 0 ==>
              (res.Err? <==> TileCount(TileBoundsOf(img, TILE_WIDTH)).None?)
    ensures res.Err? && res.error.TileCountOverflow? ==> res.error.tileBounds == TileBoundsOf(img, TILE_WIDTH)
    ensures res.Ok? ==> ForwardOutput(img, numPoints, coeffsPerChannel, p, rasterU32, res.value)
  {
    var tileBounds := TileBoundsOf(img, TILE_WIDTH);
    var shDegree := ShDegreeFromCoeffs(coeffsPerChannel);
    if shDegree.None? {
      return Err(InvalidShCoeffs(coeffsPerChannel));
    }
    if numPoints == 0 {
      return Err(NoSplats);
    }
    var numTiles := TileCount(tileBounds);
    if numTiles.None? {
      return Err(TileCountOverflow(tileBounds));
    }
    var out := ForwardPasses(img, numPoints, coeffsPerChannel, shDegree.value, numTiles.value, p, rasterU32);
    res := Ok(out);
  }

  /** The depth sort, the per-splat tile counts and their scan. */
  method SortAndCount(numPoints: usize, p: Projection, numTiles: nat)
    returns (globalFromCompactGid: seq<GlobalGid>, fpc: seq<seq<nat>>, numTilesHit: seq<nat>, cumTilesHit: seq<nat>)
    requires ProjectionFits(p, numPoints, numTiles)
    ensures DepthSorted(globalFromCompactGid, p, numPoints)
    ensures fpc == CompactFootprints(p.footprint, globalFromCompactGid, |p.presortGids|)
    ensures |numTilesHit| == |cumTilesHit| == numPoints && numTilesHit[..|fpc|] == TileCounts(fpc)
    ensures forall i :: 0 <= i < |cumTilesHit| ==> cumTilesHit[i] == Sum(numTilesHit[..i + 1])
    ensures CountsScanned(cumTilesHit, fpc, numPoints)
    ensures numPoints > 0 ==> cumTilesHit[numPoints - 1] == |Emitted(fpc)|
    ensures forall c :: 0 <= c < |fpc| ==> StrictlyAscending(fpc[c])
    ensures forall c, j :: 0 <= c < |fpc| && 0 <= j < |fpc[c]| ==> fpc[c][j] < numTiles
  {
    globalFromCompactGid := DepthSort(numPoints, p);
    var numVisible := |p.presortGids|;
    fpc := CompactFootprints(p.footprint, globalFromCompactGid, numVisible);
    numTilesHit := CountTilesHit(fpc, numPoints);
    cumTilesHit := PrefixSum(numTilesHit);
    forall c | 0 <= c < numPoints
      ensures c < numVisible ==> cumTilesHit[c] == |Emitted(fpc[..c + 1])|
      ensures c >= numVisible ==> cumTilesHit[c] == |Emitted(fpc)|
    {
      CumulativeIsEmitted(fpc, numTilesHit, cumTilesHit, c);
    }
    assert numPoints > 0 ==> cumTilesHit[numPoints - 1] == |Emitted(fpc)| by {
      assert fpc[..numVisible] == fpc;
    }
  }

  /** What follows the checks: the depth sort, the counts and their scan, the
      tile sort and bins, and the rasterizer's setup. */
  method ForwardPasses(img: ImgSize, numPoints: usize, coeffsPerChannel: u32, shDegree: u32, numTiles: u32,
                       p: Projection, rasterU32: bool)
    returns (out: RenderOutput)
    requires numPoints > 0
    requires Some(shDegree) == ShDegreeFromCoeffs(coeffsPerChannel)
    requires numTiles == TileBoundsOf(img, TILE_WIDTH).x * TileBoundsOf(img, TILE_WIDTH).y
    requires ProjectionFits(p, numPoints, numTiles)
    ensures ForwardOutput(img, numPoints, coeffsPerChannel, p, rasterU32, out)
  {
    var tileBounds := TileBoundsOf(img, TILE_WIDTH);
    var globalFromCompactGid, fpc, numTilesHit, cumTilesHit := SortAndCount(numPoints, p, numTiles);
    var numVisible := |p.presortGids|;
    var numIntersections := cumTilesHit[numPoints - 1];
    var maxIntersects := MaxIntersects(numPoints, numTiles);
    var tileIdFromIsect, compactGidFromIsect, tileBins :=
      BinIntersections(fpc, numTilesHit, cumTilesHit, numTiles, maxIntersects);
    var outImgShape, handles := RasterSetup(img, rasterU32);
    var aux := RenderAux(tileBounds, shDegree, numVisible, numIntersections, tileBins, cumTilesHit,
                         globalFromCompactGid, compactGidFromIsect, tileIdFromIsect, [img.y, img.x]);
    out := RenderOutput(outImgShape, handles, aux);
  }
}
