/** The id spaces of the render pipeline (render.rs:87-97) that the model
    keeps apart as types: the global id of a splat in the caller's arrays and
    its compact id after culling and the depth sort. The only way from one to
    the other is the `global_from_compact_gid` map, a sequence indexed by a
    compact id and holding global ids. Intersection ids, before and after the
    tile sort, are plain positions into the intersection buffers. */
module IndexSpaces {

  /** Position of a splat in the caller's input arrays. */
  datatype GlobalGid = GlobalGid(index: nat)

  /** Position of a visible splat after culling and the depth sort. */
  datatype CompactGid = CompactGid(index: nat)

  /** `global_from_compact_gid[c]`: the global id stored for compact id `c`. */
  function GlobalFromCompact(globalFromCompactGid: seq<GlobalGid>, c: CompactGid): (g: GlobalGid)
    requires c.index < |globalFromCompactGid|
    ensures g == globalFromCompactGid[c.index]
  {
    globalFromCompactGid[c.index]
  }

  predicate Distinct<T(==)>(s: seq<T>) {
    forall i, j :: 0 <= i < j < |s| ==> s[i] != s[j]
  }

  /** The first `numVisible` entries of a `global_from_compact_gid` map name
      distinct splats of the input. */
  predicate IsCompaction(globalFromCompactGid: seq<GlobalGid>, numVisible: nat, numPoints: nat) {
    && numVisible <= |globalFromCompactGid|
    && Distinct(globalFromCompactGid[..numVisible])
    && forall c :: 0 <= c < numVisible ==> globalFromCompactGid[c].index < numPoints
  }

  /** Through a compaction, each visible compact id leads to a splat of the
      input, and two different visible compact ids lead to different splats. */
  lemma GlobalFromCompactInjective(globalFromCompactGid: seq<GlobalGid>, numVisible: nat, numPoints: nat,
                                   c: CompactGid, d: CompactGid)
    requires IsCompaction(globalFromCompactGid, numVisible, numPoints)
    requires c.index < numVisible && d.index < numVisible
    ensures GlobalFromCompact(globalFromCompactGid, c).index < numPoints
    ensures GlobalFromCompact(globalFromCompactGid, c) == GlobalFromCompact(globalFromCompactGid, d) <==> c == d
  {
    var visible := globalFromCompactGid[..numVisible];
    if c.index < d.index {
      assert visible[c.index] != visible[d.index];
    } else if d.index < c.index {
      assert visible[d.index] != visible[c.index];
    }
  }

  /** The global ids reached from the visible compact ids. */
  function Reached(globalFromCompactGid: seq<GlobalGid>, numVisible: nat): (r: set<GlobalGid>)
    requires numVisible <= |globalFromCompactGid|
    ensures forall c :: 0 <= c < numVisible ==> globalFromCompactGid[c] in r
    ensures forall g :: g in r ==> exists c :: 0 <= c < numVisible && globalFromCompactGid[c] == g
  {
    set c | 0 <= c < numVisible :: globalFromCompactGid[c]
  }

  /** Distinct elements keep being distinct under any reordering. */
  lemma DistinctPermutation<T>(a: seq<T>, b: seq<T>)
    requires multiset(a) == multiset(b)
    requires Distinct(a)
    ensures Distinct(b)
  {
    forall i, j | 0 <= i < j < |b|
      ensures b[i] != b[j]
    {
      if b[i] == b[j] {
        var x := b[i];
        assert multiset(b)[x] >= 2 by {
          var rest := b[..i] + b[i+1..];
          assert b == b[..i] + [x] + b[i+1..];
          assert x in rest by { assert rest[j - 1] == x; }
          assert multiset(b) == multiset(rest) + multiset{x};
        }
        DistinctCount(a, x);
      }
    }
  }

  lemma {:induction false} DistinctCount<T>(a: seq<T>, x: T)
    requires Distinct(a)
    ensures multiset(a)[x] <= 1
  {
    if a != [] {
      var last := a[|a| - 1];
      var init := a[..|a| - 1];
      assert a == init + [last];
      assert Distinct(init);
      DistinctCount(init, x);
      if x == last {
        assert x !in init by {
          forall i | 0 <= i < |init| ensures init[i] != x { assert a[i] == init[i]; }
        }
      }
    }
  }
}
