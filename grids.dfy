/**
 * Three-dimensional voxel grids stored flat. Voxel (x, y, z) of a W x H x D
 * grid sits at index x + W*(y + H*z), the order in which an image cursor
 * visits it (x fastest, then y, then z); its unit cube has centre
 * (x + 1/2, y + 1/2, z + 1/2).
 */
module Grids {
  import opened Vectors

  datatype Dims = Dims(w: nat, h: nat, d: nat) {

    function SliceSize(): nat { w * h }

    function Size(): nat { w * h * d }
  }

  /** An integer pixel position, as the `long[]` positions of the source. */
  datatype Pixel = Pixel(x: int, y: int, z: int)

  /** isInBounds: every coordinate lies in [0, dimension). */
  predicate InBounds(dims: Dims, p: Pixel) {
    0 <= p.x < dims.w && 0 <= p.y < dims.h && 0 <= p.z < dims.d
  }

  /** vectorToPixelGrid: each coordinate cast to long, i.e. truncated toward zero. */
  function ToPixel(v: Vec3): Pixel {
    Pixel(Trunc(v.x), Trunc(v.y), Trunc(v.z))
  }

  function Centre(p: Pixel): Vec3 {
    Vec3(p.x as real + 0.5, p.y as real + 0.5, p.z as real + 0.5)
  }

  lemma MulLeftMono(a: nat, b: nat, k: nat)
    requires a <= b
    ensures k * a <= k * b
  {
  }

  /** Mixed-radix digits x < w and y < h encode a number below w*h. */
  lemma DigitsBelow(x: nat, y: nat, w: nat, h: nat)
    requires x < w && y < h
    ensures x + w * y < w * h
  {
    MulLeftMono(y, h - 1, w);
    assert w * (h - 1) == w * h - w;
  }

  function Index(dims: Dims, p: Pixel): (i: nat)
    requires InBounds(dims, p)
    ensures i < dims.Size()
  {
    var m := p.y + dims.h * p.z;
    DigitsBelow(p.y, p.z, dims.h, dims.d);
    DigitsBelow(p.x, m, dims.w, dims.h * dims.d);
    assert dims.w * (dims.h * dims.d) == dims.Size();
    p.x + dims.w * m
  }

  /** Integer division is determined by any quotient and in-range remainder. */
  lemma DivModUnique(n: int, b: int, q: int, r: int)
    requires b > 0 && 0 <= r < b && n == q * b + r
    ensures n / b == q && n % b == r
  {
    var q', r' := n / b, n % b;
    assert n == q' * b + r';
    assert (q - q') * b == r' - r;
    if q > q' {
      assert (q - q') * b >= b by { MulLeftMono(1, q - q', b); }
    } else if q < q' {
      assert (q' - q) * b >= b by { MulLeftMono(1, q' - q, b); }
    }
  }

  /** A quotient by b of a number below b*c is below c. */
  lemma DivBelow(n: nat, b: nat, c: nat)
    requires b > 0 && n < b * c
    ensures n / b < c
  {
    assert n == b * (n / b) + n % b;
    if n / b >= c {
      MulLeftMono(c, n / b, b);
      assert false;
    }
  }

  /** The position an image cursor reports at flat index i. */
  function Coord(dims: Dims, i: nat): (p: Pixel)
    requires i < dims.Size()
    ensures InBounds(dims, p) && Index(dims, p) == i
  {
    var m := i / dims.w;
    CoordFacts(dims, i);
    Pixel(i % dims.w, m % dims.h, m / dims.h)
  }

  /** A grid that holds index i has no zero dimension. */
  lemma NonEmptyDims(dims: Dims, i: nat)
    requires i < dims.Size()
    ensures dims.w > 0 && dims.h > 0 && dims.d > 0
  {
    if dims.w == 0 || dims.h == 0 || dims.d == 0 {
      assert false;
    }
  }

  /** Quotient and remainder by b reassemble n. */
  lemma Reassemble(n: nat, b: nat)
    requires b > 0
    ensures n == b * (n / b) + n % b && 0 <= n % b < b
  {
  }

  lemma CoordFacts(dims: Dims, i: nat)
    requires i < dims.Size()
    ensures dims.w > 0 && dims.h > 0
    ensures InBounds(dims, Pixel(i % dims.w, (i / dims.w) % dims.h, (i / dims.w) / dims.h))
    ensures Index(dims, Pixel(i % dims.w, (i / dims.w) % dims.h, (i / dims.w) / dims.h)) == i
  {
    NonEmptyDims(dims, i);
    var w, h, d := dims.w, dims.h, dims.d;
    assert w * (h * d) == dims.Size();
    var m := i / w;
    DivBelow(i, w, h * d);
    DivBelow(m, h, d);
    Reassemble(i, w);
    Reassemble(m, h);
    var y, z := m % h, m / h;
    var p := Pixel(i % w, y, z);
    assert InBounds(dims, p);
    assert Index(dims, p) == i % w + w * (y + h * z);
  }

  lemma CoordOfIndex(dims: Dims, p: Pixel)
    requires InBounds(dims, p)
    ensures Coord(dims, Index(dims, p)) == p
  {
    var m := p.y + dims.h * p.z;
    DivModUnique(Index(dims, p), dims.w, m, p.x);
    DivModUnique(m, dims.h, p.z, p.y);
  }

  /** The voxels of slice z occupy the flat indices z*W*H .. z*W*H + W*H - 1. */
  lemma SliceOffset(dims: Dims, z: nat, j: nat)
    requires z < dims.d && j < dims.SliceSize()
    ensures z * dims.SliceSize() + j < dims.Size()
    ensures Coord(dims, z * dims.SliceSize() + j).z == z
  {
    var wh := dims.SliceSize();
    MulLeftMono(z + 1, dims.d, wh);
    assert wh * dims.d == dims.Size();
    var i := z * wh + j;
    var p := Pixel(j % dims.w, j / dims.w, z);
    assert j == dims.w * (j / dims.w) + j % dims.w;
    assert j / dims.w < dims.h by {
      if j / dims.w >= dims.h {
        MulLeftMono(dims.h, j / dims.w, dims.w);
      }
    }
    assert InBounds(dims, p);
    assert Index(dims, p) == i;
    CoordOfIndex(dims, p);
  }

  /** The centre of an in-grid voxel is cast back to that voxel. */
  lemma PixelOfCentre(p: Pixel)
    requires p.x >= 0 && p.y >= 0 && p.z >= 0
    ensures ToPixel(Centre(p)) == p
  {
    TruncOfHalfAbove(p.x);
    TruncOfHalfAbove(p.y);
    TruncOfHalfAbove(p.z);
  }

  // ----- The per-slice view of assignEllipsoidID -----

  /** An image interval given by its least and greatest corner, both inclusive. */
  datatype Interval = Interval(min: Pixel, max: Pixel)

  predicate InInterval(p: Pixel, iv: Interval) {
    iv.min.x <= p.x <= iv.max.x && iv.min.y <= p.y <= iv.max.y && iv.min.z <= p.z <= iv.max.z
  }

  /**
   * The slice view as the source writes it: corners {0,0,k} and
   * {dimension(0), dimension(1), k}. The upper corner of an interval view is
   * inclusive, so this reaches one column and one row past the image.
   */
  function SliceIntervalAsWritten(dims: Dims, k: int): Interval {
    Interval(Pixel(0, 0, k), Pixel(dims.w, dims.h, k))
  }

  /** The slice view as evidently intended: upper corner {W-1, H-1, k}. */
  function SliceInterval(dims: Dims, k: int): Interval {
    Interval(Pixel(0, 0, k), Pixel(dims.w - 1, dims.h - 1, k))
  }

  /** The view as written visits pixel (W, 0, k), which lies outside the image. */
  lemma SliceIntervalAsWrittenLeavesImage(dims: Dims, k: int)
    requires dims.h > 0 && 0 <= k < dims.d
    ensures InInterval(Pixel(dims.w, 0, k), SliceIntervalAsWritten(dims, k))
    ensures !InBounds(dims, Pixel(dims.w, 0, k))
  {
  }

  /** The intended view holds exactly the in-bounds voxels of slice k. */
  lemma SliceIntervalIsSlice(dims: Dims, k: int, p: Pixel)
    requires 0 <= k < dims.d
    ensures InInterval(p, SliceInterval(dims, k)) <==> InBounds(dims, p) && p.z == k
  {
  }
}
