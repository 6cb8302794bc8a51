/** The integer size bookkeeping of the forward and backward render passes
    (crates/brush-render/src/render.rs): the spherical-harmonic degree and
    coefficient-count mapping, the tile grid, the intersection-buffer capacity
    and the radix-sort bit width for tile ids. */
module RenderSizes {
  import opened Wrappers

  const U32_LIMIT: nat := 0x1_0000_0000
  const USIZE_LIMIT: nat := 0x1_0000_0000_0000_0000

  /** Rust's `u32` and (64-bit) `usize`. */
  type u32 = x: int | 0 <= x < U32_LIMIT
  type usize = x: int | 0 <= x < USIZE_LIMIT

  /** Side length, in pixels, of a square screen tile (`TILE_WIDTH` of the shader
      helpers; the tile-grid functions below take the width as a parameter). */
  const TILE_WIDTH: u32 := 16

  /** The hard ceiling on the intersection buffer: `128 * 65535`. */
  const MAX_INTERSECTS_CEILING: nat := 128 * 65535

  /** Highest spherical-harmonic degree the renderer accepts. */
  const MAX_SH_DEGREE: nat := 4

  // ---------------------------------------------------------------------------
  // Spherical harmonics

  /** Coefficients per colour channel for an SH degree: `(degree + 1)^2`. */
  function ShCoeffsForDegree(degree: u32): (r: nat)
    ensures r >= 1
  {
    (degree + 1) * (degree + 1)
  }

  /** The inverse mapping; `None` is the source's panic on any count that is not
      the coefficient count of a degree in 0..4. */
  function ShDegreeFromCoeffs(coeffsPerChannel: u32): (r: Option<u32>)
    ensures r.Some? ==> r.value <= MAX_SH_DEGREE
  {
    match coeffsPerChannel
    case 1 => Some(0)
    case 4 => Some(1)
    case 9 => Some(2)
    case 16 => Some(3)
    case 25 => Some(4)
    case _ => None
  }

  /** Every supported degree survives the round trip degree -> count -> degree. */
  lemma ShDegreeRoundTrip(degree: u32)
    requires degree <= MAX_SH_DEGREE
    ensures ShDegreeFromCoeffs(ShCoeffsForDegree(degree) as u32) == Some(degree)
  {
    assert degree == 0 || degree == 1 || degree == 2 || degree == 3 || degree == 4;
  }

  /** A count is accepted exactly when it is the coefficient count of a supported
      degree, and then the degree maps back to that same count. */
  lemma ShCoeffsRoundTrip(coeffsPerChannel: u32)
    ensures ShDegreeFromCoeffs(coeffsPerChannel).Some? <==>
              exists d: u32 :: d <= MAX_SH_DEGREE && ShCoeffsForDegree(d) == coeffsPerChannel
    ensures ShDegreeFromCoeffs(coeffsPerChannel).Some? ==>
              ShCoeffsForDegree(ShDegreeFromCoeffs(coeffsPerChannel).value) == coeffsPerChannel
  {
    if exists d: u32 :: d <= MAX_SH_DEGREE && ShCoeffsForDegree(d) == coeffsPerChannel {
      var d: u32 :| d <= MAX_SH_DEGREE && ShCoeffsForDegree(d) == coeffsPerChannel;
      ShDegreeRoundTrip(d);
    }
    if ShDegreeFromCoeffs(coeffsPerChannel).Some? {
      var d := ShDegreeFromCoeffs(coeffsPerChannel).value;
      assert ShCoeffsForDegree(d) == coeffsPerChannel;
    }
  }

  // ---------------------------------------------------------------------------
  // Tile grid

  /** Rust's `u32::div_ceil`: the quotient rounded up. */
  function DivCeil(a: u32, b: u32): (r: u32)
    requires b > 0
    ensures r * b >= a
    ensures r > 0 ==> (r - 1) * b < a
    ensures r == 0 <==> a == 0
  {
    var q := a / b;
    if a % b > 0 then q + 1 else q
  }

  /** `DivCeil` is the least number of `b`-wide blocks that covers `a`. */
  lemma DivCeilIsLeast(a: u32, b: u32, k: nat)
    requires b > 0
    requires k * b >= a
    ensures k >= DivCeil(a, b)
  {
    var r := DivCeil(a, b);
    if k < r {
      assert k <= r - 1;
      MulMonotone(k, r - 1, b);
    }
  }

  lemma MulMonotone(x: nat, y: nat, b: nat)
    requires x <= y
    ensures x * b <= y * b
  {
  }

  /** Image size in pixels, `(x, y)` = (width, height). */
  datatype ImgSize = ImgSize(x: u32, y: u32)

  /** Number of tiles along each axis, `(x, y)`. */
  datatype TileBounds = TileBounds(x: u32, y: u32)

  /** The tile grid of an image (render.rs:82-85, and again at 497-500 in the
      backward pass). */
  function TileBoundsOf(img: ImgSize, tileWidth: u32): (r: TileBounds)
    requires tileWidth > 0
    ensures r.x * tileWidth >= img.x && r.y * tileWidth >= img.y
    ensures r.x > 0 ==> (r.x - 1) * tileWidth < img.x
    ensures r.y > 0 ==> (r.y - 1) * tileWidth < img.y
  {
    TileBounds(DivCeil(img.x, tileWidth), DivCeil(img.y, tileWidth))
  }

  /** Every pixel lies in a tile of the grid, and every tile of the grid holds
      at least one pixel of the image. */
  lemma TileGridCoversImage(img: ImgSize, tileWidth: u32, px: nat, py: nat)
    requires tileWidth > 0
    requires px < img.x && py < img.y
    ensures px / tileWidth < TileBoundsOf(img, tileWidth).x
    ensures py / tileWidth < TileBoundsOf(img, tileWidth).y
  {
    var tb := TileBoundsOf(img, tileWidth);
    DivBelow(px, tileWidth, tb.x);
    DivBelow(py, tileWidth, tb.y);
  }

  lemma DivBelow(p: nat, w: nat, n: nat)
    requires w > 0 && p < n * w
    ensures p / w < n
  {
    if p / w >= n {
      MulMonotone(n, p / w, w);
    }
  }

  /** `tile_bounds.x * tile_bounds.y` as a `u32` product; `None` is an
      arithmetic overflow (a panic in a debug build). */
  function TileCount(tb: TileBounds): (r: Option<u32>)
    ensures r.Some? <==> tb.x * tb.y < U32_LIMIT
    ensures r.Some? ==> r.value == tb.x * tb.y
  {
    if tb.x * tb.y < U32_LIMIT then Some(tb.x * tb.y) else None
  }

  // ---------------------------------------------------------------------------
  // Intersection capacity

  /** `usize::saturating_mul`. */
  function SaturatingMul(a: usize, b: usize): (r: usize)
    ensures r <= a * b
    ensures r == a * b || r == USIZE_LIMIT - 1
  {
    if a * b < USIZE_LIMIT then a * b else USIZE_LIMIT - 1
  }

  /** The capacity of the intersection buffer (render.rs:204-206). */
  function MaxIntersects(numPoints: usize, numTiles: u32): (r: nat)
    ensures r <= MAX_INTERSECTS_CEILING
    ensures r <= numPoints * numTiles
    ensures r == numPoints * numTiles || r == MAX_INTERSECTS_CEILING
  {
    var m := SaturatingMul(numPoints, numTiles);
    if m < MAX_INTERSECTS_CEILING then m else MAX_INTERSECTS_CEILING
  }

  /** The saturation never shows: the capacity is exactly the smaller of the
      true product and the ceiling. */
  lemma MaxIntersectsIsMin(numPoints: usize, numTiles: u32)
    ensures MaxIntersects(numPoints, numTiles) ==
              if numPoints * numTiles < MAX_INTERSECTS_CEILING then numPoints * numTiles
              else MAX_INTERSECTS_CEILING
  {
  }

  // ---------------------------------------------------------------------------
  // Sort width

  function Pow2(n: nat): (r: nat)
    ensures r >= 1
  {
    if n == 0 then 1 else 2 * Pow2(n - 1)
  }

  lemma {:induction false} Pow2Monotone(a: nat, b: nat)
    requires a <= b
    ensures Pow2(a) <= Pow2(b)
  {
    if a < b {
      Pow2Monotone(a, b - 1);
    }
  }

  lemma {:induction false} Pow2Add(a: nat, b: nat)
    ensures Pow2(a + b) == Pow2(a) * Pow2(b)
  {
    if a > 0 {
      Pow2Add(a - 1, b);
    }
  }

  lemma Pow2Of32()
    ensures Pow2(32) == U32_LIMIT
  {
    assert Pow2(4) == 16;
    Pow2Add(4, 4);
    Pow2Add(8, 8);
    Pow2Add(16, 16);
  }

  /** Bit `i` of `x`. */
  predicate Bit(x: nat, i: nat) {
    (x / Pow2(i)) % 2 == 1
  }

  /** The number of zero bits of `x` counted from bit `k - 1` downwards until
      the first one bit. */
  function LeadingZerosBelow(x: nat, k: nat): (r: nat)
    ensures r <= k
  {
    if k == 0 then 0
    else if Bit(x, k - 1) then 0
    else 1 + LeadingZerosBelow(x, k - 1)
  }

  /** Rust's `u32::leading_zeros`. */
  function LeadingZeros(x: u32): (r: nat)
    ensures r <= 32
  {
    LeadingZerosBelow(x, 32)
  }

  /** The sort width for tile ids: `u32::BITS - num_tiles.leading_zeros()`
      (render.rs:225-227). */
  function SortBits(numTiles: u32): (r: nat)
    ensures r <= 32
  {
    32 - LeadingZeros(numTiles)
  }

  /** The top bit of a `k`-bit number decides whether it reaches `2^(k-1)`. */
  lemma TopBit(x: nat, k: nat)
    requires k > 0 && x < Pow2(k)
    ensures Bit(x, k - 1) ==> Pow2(k - 1) <= x
    ensures !Bit(x, k - 1) ==> x < Pow2(k - 1)
  {
    var p := Pow2(k - 1);
    assert Pow2(k) == 2 * p;
    HalfRange(x, p);
  }

  lemma HalfRange(x: nat, p: nat)
    requires p >= 1 && x < 2 * p
    ensures (x / p) % 2 == 1 ==> p <= x
    ensures (x / p) % 2 != 1 ==> x < p
  {
    if x < p {
      assert x / p == 0;
    } else {
      assert (x - p) / p == 0;
      assert x / p == 1;
    }
  }

  /** The bits left after the leading zeros of the low `k` bits are exactly the
      bit length of `x`. */
  lemma {:induction false} LeadingZerosBelowBound(x: nat, k: nat)
    requires x < Pow2(k)
    ensures x < Pow2(k - LeadingZerosBelow(x, k))
    ensures k - LeadingZerosBelow(x, k) > 0 ==> Pow2(k - LeadingZerosBelow(x, k) - 1) <= x
  {
    if k > 0 {
      TopBit(x, k);
      if !Bit(x, k - 1) {
        LeadingZerosBelowBound(x, k - 1);
      }
    }
  }

  /** `SortBits` is the smallest width that holds the tile count: the count fits
      in `bits` bits and not in `bits - 1`. */
  lemma SortBitsIsBitLength(numTiles: u32)
    ensures numTiles < Pow2(SortBits(numTiles))
    ensures SortBits(numTiles) > 0 ==> Pow2(SortBits(numTiles) - 1) <= numTiles
    ensures forall b: nat :: b < SortBits(numTiles) ==> Pow2(b) <= numTiles
  {
    Pow2Of32();
    LeadingZerosBelowBound(numTiles, 32);
    forall b: nat | b < SortBits(numTiles)
      ensures Pow2(b) <= numTiles
    {
      Pow2Monotone(b, SortBits(numTiles) - 1);
    }
  }

  /** Every tile id `t < num_tiles` fits in the sort width. */
  lemma TileIdsFitSortBits(numTiles: u32, t: nat)
    requires t < numTiles
    ensures t < Pow2(SortBits(numTiles))
  {
    SortBitsIsBitLength(numTiles);
  }
}
