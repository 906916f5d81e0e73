/**
 * The volume assembly in `createNifty`: the raw bytes of the `.img` file
 * are reshaped to (slices, depth, width), the slice axis is moved to the
 * end, the first two axes are swapped and the depth axis is flipped,
 * giving a (width, depth, slices) volume; the affine is the diagonal of
 * the voxel size in millimetres.
 */
module Volume {
  import opened Wrappers
  import opened Failures

  /** One sample of the raw file, read as `uint8`. */
  newtype Byte = x: int | 0 <= x < 256

  /** A three-dimensional array as nested sequences, outermost axis first. */
  type Grid<T> = seq<seq<seq<T>>>

  /** `g.shape == (a, b, c)`. */
  ghost predicate HasShape<T>(g: Grid<T>, a: nat, b: nat, c: nat) {
    |g| == a
    && (forall i :: 0 <= i < a ==> |g[i]| == b)
    && (forall i, j :: 0 <= i < a && 0 <= j < b ==> |g[i][j]| == c)
  }

  // ---------------------------------------------------------------------
  // Index arithmetic
  // ---------------------------------------------------------------------

  lemma MulLeftMono(a: nat, b: nat, c: nat)
    requires a <= b
    ensures a * c <= b * c
  {
  }

  /** Row-major position of `(s, d, w)` in an `S x D x W` array lies inside it. */
  lemma FlatIndexInRange(s: nat, d: nat, w: nat, S: nat, D: nat, W: nat)
    requires s < S && d < D && w < W
    ensures d * W + w < D * W
    ensures s * (D * W) + d * W + w < S * (D * W)
  {
    MulLeftMono(d + 1, D, W);
    MulLeftMono(s + 1, S, D * W);
  }

  /** Every position of an `S x D x W` array is the row-major position of exactly one index triple. */
  lemma FlatIndexDecompose(k: nat, D: nat, W: nat)
    requires D > 0 && W > 0
    ensures k == (k / (D * W)) * (D * W) + ((k % (D * W)) / W) * W + (k % (D * W)) % W
    ensures (k % (D * W)) / W < D && (k % (D * W)) % W < W
  {
    var r := k % (D * W);
    assert r < D * W;
    if r / W >= D {
      MulLeftMono(D, r / W, W);
      assert false;
    }
  }

  /** Position `k` of `S` blocks of `n` lies in block `k / n`, one of the `S`. */
  lemma BlockOfIndex(k: nat, S: nat, n: nat)
    requires n > 0 && k < S * n
    ensures k / n < S
  {
    if k / n >= S {
      MulLeftMono(S, k / n, n);
      assert false;
    }
  }

  // ---------------------------------------------------------------------
  // The numpy steps
  // ---------------------------------------------------------------------

  /** `np.reshape(data, (S, D, W))`, row-major. */
  function Reshape<T>(data: seq<T>, S: nat, D: nat, W: nat): (g: Grid<T>)
    requires |data| == S * (D * W)
    ensures HasShape(g, S, D, W)
  {
    seq(S, s requires 0 <= s < S =>
      seq(D, d requires 0 <= d < D =>
        seq(W, w requires 0 <= w < W =>
          FlatIndexInRange(s, d, w, S, D, W);
          data[s * (D * W) + d * W + w])))
  }

  /** `np.moveaxis(g, 0, -1)`: shape `(a, b, c)` becomes `(b, c, a)`. */
  function MoveAxis0ToEnd<T>(g: Grid<T>, a: nat, b: nat, c: nat): (m: Grid<T>)
    requires HasShape(g, a, b, c)
    ensures HasShape(m, b, c, a)
  {
    seq(b, j requires 0 <= j < b =>
      seq(c, k requires 0 <= k < c =>
        seq(a, i requires 0 <= i < a => g[i][j][k])))
  }

  /** `np.transpose(g, (1, 0, 2))`: shape `(a, b, c)` becomes `(b, a, c)`. */
  function Transpose01<T>(g: Grid<T>, a: nat, b: nat, c: nat): (t: Grid<T>)
    requires HasShape(g, a, b, c)
    ensures HasShape(t, b, a, c)
  {
    seq(b, j requires 0 <= j < b =>
      seq(a, i requires 0 <= i < a => g[i][j]))
  }

  /** `np.flip(g, 1)`: the second axis reversed. */
  function Flip1<T>(g: Grid<T>, a: nat, b: nat, c: nat): (f: Grid<T>)
    requires HasShape(g, a, b, c)
    ensures HasShape(f, a, b, c)
  {
    seq(a, i requires 0 <= i < a =>
      seq(b, j requires 0 <= j < b => g[i][b - 1 - j]))
  }

  /** Flipping an axis twice gives back the array. */
  lemma FlipTwice<T>(g: Grid<T>, a: nat, b: nat, c: nat)
    requires HasShape(g, a, b, c)
    ensures Flip1(Flip1(g, a, b, c), a, b, c) == g
  {
    var f := Flip1(Flip1(g, a, b, c), a, b, c);
    forall i | 0 <= i < a
      ensures f[i] == g[i]
    {
      assert |f[i]| == |g[i]| == b;
      forall j | 0 <= j < b
        ensures f[i][j] == g[i][j]
      {
      }
    }
  }

  // ---------------------------------------------------------------------
  // The assembled volume
  // ---------------------------------------------------------------------

  /** `int(len(data) / D / W)`: the number of whole slices in the file. */
  function NumSlices(length: nat, D: nat, W: nat): nat
    requires D > 0 && W > 0
  {
    length / (D * W)
  }

  /**
   * The reshape/moveaxis/transpose/flip chain on the bytes of the raw
   * file, with `D` the image depth and `W` the image width in pixels.
   * A zero size makes the slice count divide by zero; a length that is
   * not a whole number of slices makes `np.reshape` raise.
   */
  function AssembleVolume<T>(data: seq<T>, D: nat, W: nat): Result<Grid<T>, Failure>
  {
    if D == 0 || W == 0 then Err(ZeroPixelDimension)
    else
      var S := NumSlices(|data|, D, W);
      if |data| != S * (D * W) then Err(ReshapeMismatch)
      else
        var r := Reshape(data, S, D, W);
        var m := MoveAxis0ToEnd(r, S, D, W);
        var t := Transpose01(m, D, W, S);
        Ok(Flip1(t, W, D, S))
  }

  /** The chain succeeds exactly when both sizes are positive and the file holds whole slices. */
  lemma AssembleVolumeSucceeds<T>(data: seq<T>, D: nat, W: nat)
    ensures AssembleVolume(data, D, W).Ok? <==> D > 0 && W > 0 && |data| % (D * W) == 0
  {
    if D > 0 && W > 0 {
      assert |data| == (|data| / (D * W)) * (D * W) + |data| % (D * W);
    }
  }

  /**
   * The assembled volume has shape (width, depth, slices), and the voxel
   * at `(w, d, s)` is byte `s*D*W + (D-1-d)*W + w` of the file: slices
   * are consecutive blocks, rows run upwards, columns left to right.
   */
  lemma AssembleVolumeIndex<T>(data: seq<T>, D: nat, W: nat)
    requires AssembleVolume(data, D, W).Ok?
    ensures D > 0 && W > 0
    ensures HasShape(AssembleVolume(data, D, W).value, W, D, |data| / (D * W))
    ensures forall w, d, s :: 0 <= w < W && 0 <= d < D && 0 <= s < |data| / (D * W) ==>
      (FlatIndexInRange(s, D - 1 - d, w, |data| / (D * W), D, W);
       AssembleVolume(data, D, W).value[w][d][s] == data[s * (D * W) + (D - 1 - d) * W + w])
  {
  }

  /**
   * No byte is lost or duplicated: byte `k` of the file is found at
   * exactly the voxel the index map gives for it.
   */
  lemma AssembleVolumeCovers<T>(data: seq<T>, D: nat, W: nat, k: nat)
    requires AssembleVolume(data, D, W).Ok? && k < |data|
    ensures D > 0 && W > 0
    ensures var s, d, w := k / (D * W), D - 1 - (k % (D * W)) / W, (k % (D * W)) % W;
      0 <= d < D && w < W && s < |data| / (D * W)
      && AssembleVolume(data, D, W).value[w][d][s] == data[k]
  {
    var S := |data| / (D * W);
    FlatIndexDecompose(k, D, W);
    var s, d, w := k / (D * W), D - 1 - (k % (D * W)) / W, (k % (D * W)) % W;
    BlockOfIndex(k, S, D * W);
    AssembleVolumeIndex(data, D, W);
    assert D - 1 - d == (k % (D * W)) / W;
  }

  // ---------------------------------------------------------------------
  // The NIfTI image
  // ---------------------------------------------------------------------

  /** A 4x4 matrix with `v` on the diagonal, `np.diag(v)`. */
  function Diag(v: seq<real>): (m: seq<seq<real>>)
    requires |v| == 4
  {
    seq(4, i requires 0 <= i < 4 => seq(4, j requires 0 <= j < 4 => if i == j then v[i] else 0.0))
  }

  /** The matrix applied to a homogeneous coordinate. */
  function Apply(m: seq<seq<real>>, x: seq<real>): (y: seq<real>)
    requires |m| == 4 && |x| == 4 && forall i :: 0 <= i < 4 ==> |m[i]| == 4
    ensures |y| == 4
  {
    seq(4, i requires 0 <= i < 4 => m[i][0] * x[0] + m[i][1] * x[1] + m[i][2] * x[2] + m[i][3] * x[3])
  }

  /** The sform: `np.diag([pixelWidthInMM, pixelDepthInMM, sliceThicknessInMM, 1.0])`. */
  function Affine(pixelWidth: real, pixelDepth: real, slice: real): seq<seq<real>>
  {
    Diag([pixelWidth, pixelDepth, slice, 1.0])
  }

  /**
   * The sform places voxel `(w, d, s)` at `w` pixel widths, `d` pixel
   * depths and `s` slice thicknesses from the origin, in millimetres.
   */
  lemma AffineScalesVoxels(pixelWidth: real, pixelDepth: real, slice: real, w: nat, d: nat, s: nat)
    ensures |Affine(pixelWidth, pixelDepth, slice)| == 4
    ensures forall i :: 0 <= i < 4 ==> |Affine(pixelWidth, pixelDepth, slice)[i]| == 4
    ensures Apply(Affine(pixelWidth, pixelDepth, slice), [w as real, d as real, s as real, 1.0])
      == [w as real * pixelWidth, d as real * pixelDepth, s as real * slice, 1.0]
  {
    var m := Affine(pixelWidth, pixelDepth, slice);
    var y := Apply(m, [w as real, d as real, s as real, 1.0]);
    assert y[0] == w as real * pixelWidth;
    assert y[1] == d as real * pixelDepth;
    assert y[2] == s as real * slice;
  }

  /** `set_data_dtype(np.uint8)` and `set_xyzt_units('mm', 'sec')`. */
  datatype DataType = Uint8
  datatype Header = Header(shape: (nat, nat, nat), dtype: DataType, spatialUnit: string, temporalUnit: string)

  datatype NiftiImage = NiftiImage(data: Grid<Byte>, affine: seq<seq<real>>, header: Header)

  /** The image `createNifty` builds from the raw bytes and the aggregated properties. */
  function BuildNifti(data: seq<Byte>, pixelWidth: real, pixelDepth: real, slice: real, width: nat, depth: nat): (r: Result<NiftiImage, Failure>)
    ensures r.Ok? <==> width > 0 && depth > 0 && |data| % (depth * width) == 0
    ensures r.Ok? ==> HasShape(r.value.data, r.value.header.shape.0, r.value.header.shape.1, r.value.header.shape.2)
  {
    AssembleVolumeSucceeds(data, depth, width);
    match AssembleVolume(data, depth, width)
    case Err(e) => Err(e)
    case Ok(volume) =>
      Ok(NiftiImage(volume, Affine(pixelWidth, pixelDepth, slice),
                    Header((width, depth, NumSlices(|data|, depth, width)), Uint8, "mm", "sec")))
  }

  /** The header records the volume's own shape, in bytes, in millimetres and seconds. */
  lemma BuildNiftiHeader(data: seq<Byte>, pixelWidth: real, pixelDepth: real, slice: real, width: nat, depth: nat)
    requires BuildNifti(data, pixelWidth, pixelDepth, slice, width, depth).Ok?
    ensures var img := BuildNifti(data, pixelWidth, pixelDepth, slice, width, depth).value;
      width > 0 && depth > 0
      && HasShape(img.data, img.header.shape.0, img.header.shape.1, img.header.shape.2)
      && img.header.shape == (width, depth, |data| / (depth * width))
      && img.header.dtype == Uint8 && img.header.spatialUnit == "mm" && img.header.temporalUnit == "sec"
      && img.affine == Diag([pixelWidth, pixelDepth, slice, 1.0])
  {
    AssembleVolumeIndex(data, depth, width);
  }
}
