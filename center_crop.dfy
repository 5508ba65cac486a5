/** `center_crop_im_batch`: crop a 4-D image batch symmetrically along its
    two spatial axes, with Python slice semantics. */
module CenterCrop {
  import opened PyTypes

  /** A torch tensor: its shape and the value at each in-bounds index. */
  datatype Tensor = Tensor(shape: seq<nat>, at: seq<nat> -> int)

  /** The `dims` argument: a tuple or a list of ints. Only a tuple can
      compare equal to `(0, 0)`. */
  datatype Dims = Dims(isTuple: bool, d: seq<int>)

  /** A Python slice bound `i` on an axis of length `n`, normalised: a
      negative bound counts from the end, and the result is clamped to
      `[0, n]`. */
  function Clamp(i: int, n: nat): (r: nat)
    ensures r <= n
    ensures 0 <= i <= n ==> r == i
    ensures i < 0 && i + n >= 0 ==> r == i + n
    ensures i + n < 0 ==> r == 0
    ensures i > n ==> r == n
  {
    if i < 0 then (if i + n < 0 then 0 else i + n)
    else if i > n then n
    else i
  }

  /** An index moved forward by `delta` along `axis`. */
  function Shift(idx: seq<nat>, axis: nat, delta: nat): (r: seq<nat>)
    ensures |r| == |idx|
    ensures axis < |idx| ==> r[axis] == idx[axis] + delta
    ensures forall k :: 0 <= k < |idx| && k != axis ==> r[k] == idx[k]
  {
    if axis < |idx| then idx[axis := idx[axis] + delta] else idx
  }

  /** `x[..., start:stop, ...]` along `axis` of a 4-D tensor. */
  function SliceAxis(x: Tensor, axis: nat, start: int, stop: int): (r: Tensor)
    requires |x.shape| == 4 && axis < 4
    ensures |r.shape| == 4
    ensures forall k :: 0 <= k < 4 && k != axis ==> r.shape[k] == x.shape[k]
    ensures var lo, hi := Clamp(start, x.shape[axis]), Clamp(stop, x.shape[axis]);
      r.shape[axis] == if lo < hi then hi - lo else 0
  {
    var n := x.shape[axis];
    var lo, hi := Clamp(start, n), Clamp(stop, n);
    Tensor(x.shape[axis := if lo < hi then hi - lo else 0],
           idx => x.at(Shift(idx, axis, lo)))
  }

  /** How `d` pixels are split between the two sides: the floor half before,
      the rest after. */
  function CropSides(d: int): (r: (int, int))
    ensures r.0 + r.1 == d
    ensures d >= 0 ==> 0 <= r.0 <= r.1 <= r.0 + 1
    ensures d >= 0 ==> 2 * r.0 <= d < 2 * r.0 + 2
  {
    (d / 2, d - d / 2)
  }

  /** The three assertions at the top of the function. */
  predicate Admitted(batch: Tensor, dims: Dims, order: string) {
    |batch.shape| == 4 && |dims.d| == 2 && order in {"BHCW", "BCHW"}
  }

  /** The function as written: the slice end `-crop_b` is `-0` when
      nothing is cropped at the end, and the channels-last branch tests
      "BHWC", which the assertion has already excluded. */
  function CropAsWritten(batch: Tensor, dims: Dims, order: string): Result<Tensor> {
    if !Admitted(batch, dims, order) then Err(AssertionError)
    else if dims.isTuple && dims.d == [0, 0] then Ok(batch)
    else
      var (ct, cb) := CropSides(dims.d[0]);
      var (cl, cr) := CropSides(dims.d[1]);
      if order == "BCHW" then Ok(SliceAxis(SliceAxis(batch, 2, ct, -cb), 3, cl, -cr))
      else Err(GenericException)
  }

  /** The slice end that keeps the rest of the axis when `crop` is 0. */
  function EndBound(crop: int, n: nat): int {
    if crop == 0 then n else -crop
  }

  /** The spatial crop on axes `h` and `w`, a zero crop keeping its axis. */
  function CropAxes(batch: Tensor, d: seq<int>, h: nat, w: nat): (r: Tensor)
    requires |batch.shape| == 4 && |d| == 2 && h < 4 && w < 4 && h != w
  {
    var (ct, cb) := CropSides(d[0]);
    var (cl, cr) := CropSides(d[1]);
    var inner := SliceAxis(batch, h, ct, EndBound(cb, batch.shape[h]));
    SliceAxis(inner, w, cl, EndBound(cr, inner.shape[w]))
  }

  /** The function as evidently intended: the assertion admits "BHWC" (the
      channels-last order the branch handles), and a zero crop keeps the
      whole axis. */
  function Crop(batch: Tensor, dims: Dims, order: string): Result<Tensor> {
    if !(|batch.shape| == 4 && |dims.d| == 2 && order in {"BHWC", "BCHW"}) then Err(AssertionError)
    else if dims.isTuple && dims.d == [0, 0] then Ok(batch)
    else if order == "BHWC" then Ok(CropAxes(batch, dims.d, 1, 2))
    else Ok(CropAxes(batch, dims.d, 2, 3))
  }

  // ---------------------------------------------------------------------
  // Properties of the function as written

  /** An assertion fails exactly when the batch is not 4-D, `dims` does
      not have two entries, or the order is neither "BHCW" nor "BCHW". */
  lemma AssertionsOutcome(batch: Tensor, dims: Dims, order: string)
    ensures CropAsWritten(batch, dims, order) == Err(AssertionError) <==> !Admitted(batch, dims, order)
    ensures order == "BHWC" ==> CropAsWritten(batch, dims, order) == Err(AssertionError)
  {
  }

  /** `dims == (0, 0)` gives back the batch itself. */
  lemma NoCropIsIdentity(batch: Tensor, order: string)
    requires |batch.shape| == 4 && order in {"BHCW", "BCHW"}
    ensures CropAsWritten(batch, Dims(true, [0, 0]), order) == Ok(batch)
  {
  }

  /** BCHW with both crops positive and within the image: B and C are
      kept, H and W lose `dims`, and each output pixel is the input pixel
      shifted by the top and left crops. */
  lemma {:induction false} CropRemap(batch: Tensor, dims: Dims)
    requires |batch.shape| == 4 && |dims.d| == 2
    requires 0 < dims.d[0] <= batch.shape[2] && 0 < dims.d[1] <= batch.shape[3]
    ensures var r := CropAsWritten(batch, dims, "BCHW");
      && r.Ok?
      && r.value.shape == [batch.shape[0], batch.shape[1], batch.shape[2] - dims.d[0], batch.shape[3] - dims.d[1]]
      && forall b: nat, c: nat, i: nat, j: nat
           | b < batch.shape[0] && c < batch.shape[1]
             && i < batch.shape[2] - dims.d[0] && j < batch.shape[3] - dims.d[1]
           :: r.value.at([b, c, i, j]) == batch.at([b, c, i + dims.d[0] / 2, j + dims.d[1] / 2])
  {
    var (ct, cb) := CropSides(dims.d[0]);
    var (cl, cr) := CropSides(dims.d[1]);
    var inner := SliceAxis(batch, 2, ct, -cb);
    var out := SliceAxis(inner, 3, cl, -cr);
    assert CropAsWritten(batch, dims, "BCHW") == Ok(out);
    assert out.shape == [batch.shape[0], batch.shape[1], batch.shape[2] - dims.d[0], batch.shape[3] - dims.d[1]];
    forall b: nat, c: nat, i: nat, j: nat
      | b < batch.shape[0] && c < batch.shape[1]
        && i < batch.shape[2] - dims.d[0] && j < batch.shape[3] - dims.d[1]
      ensures out.at([b, c, i, j]) == batch.at([b, c, i + ct, j + cl])
    {
      assert Shift([b, c, i, j], 3, cl) == [b, c, i, j + cl];
      assert Shift([b, c, i, j + cl], 2, ct) == [b, c, i + ct, j + cl];
    }
  }

  /** A crop of 0 on one axis (while the other is not) empties that axis:
      its slice end is `-0`. So does a list `[0, 0]`, which is not equal to
      the tuple `(0, 0)`. */
  lemma ZeroCropEmptiesAxis(batch: Tensor, dims: Dims)
    requires |batch.shape| == 4 && |dims.d| == 2
    requires !(dims.isTuple && dims.d == [0, 0])
    ensures dims.d[0] == 0 ==>
      (CropAsWritten(batch, dims, "BCHW").Ok? && CropAsWritten(batch, dims, "BCHW").value.shape[2] == 0)
    ensures dims.d[1] == 0 ==>
      (CropAsWritten(batch, dims, "BCHW").Ok? && CropAsWritten(batch, dims, "BCHW").value.shape[3] == 0)
  {
  }

  /** An input that shows it: cropping only the width of a 1x1x4x4 batch
      leaves no rows. */
  lemma ZeroCropExample(batch: Tensor)
    requires batch.shape == [1, 1, 4, 4]
    ensures CropAsWritten(batch, Dims(true, [0, 2]), "BCHW").Ok?
    ensures CropAsWritten(batch, Dims(true, [0, 2]), "BCHW").value.shape == [1, 1, 0, 2]
  {
    ZeroCropEmptiesAxis(batch, Dims(true, [0, 2]));
  }

  /** "BHCW" passes the assertion and then raises, unless nothing is
      cropped: no branch handles it. */
  lemma BhcwRaises(batch: Tensor, dims: Dims)
    requires |batch.shape| == 4 && |dims.d| == 2
    ensures CropAsWritten(batch, dims, "BHCW") ==
              if dims.isTuple && dims.d == [0, 0] then Ok(batch) else Err(GenericException)
  {
  }

  // ---------------------------------------------------------------------
  // Properties of the intended function

  /** Where the crop is positive on both axes, the intended function agrees
      with the function as written for BCHW. */
  lemma {:induction false} CropAgreesWhenPositive(batch: Tensor, dims: Dims)
    requires |batch.shape| == 4 && |dims.d| == 2
    requires 0 < dims.d[0] && 0 < dims.d[1]
    ensures Crop(batch, dims, "BCHW") == CropAsWritten(batch, dims, "BCHW")
  {
    var (ct, cb) := CropSides(dims.d[0]);
    var (cl, cr) := CropSides(dims.d[1]);
    var inner := SliceAxis(batch, 2, ct, -cb);
    assert EndBound(cb, batch.shape[2]) == -cb;
    assert EndBound(cr, inner.shape[3]) == -cr;
    assert Crop(batch, dims, "BCHW") == Ok(CropAxes(batch, dims.d, 2, 3));
  }

  /** Slicing `start : EndBound(crop)` off an axis long enough removes
      exactly `start + crop` from it. */
  lemma SliceKeepsRest(x: Tensor, axis: nat, start: int, crop: int)
    requires |x.shape| == 4 && axis < 4
    requires 0 <= start && 0 <= crop && start + crop <= x.shape[axis]
    ensures SliceAxis(x, axis, start, EndBound(crop, x.shape[axis])).shape[axis] == x.shape[axis] - start - crop
  {
  }

  /** With 0 <= dims <= the extent of the two axes, each loses exactly its
      crop (a zero crop keeps the axis), the other two axes are kept, and
      every output pixel is the input pixel shifted by the top and left
      crops. */
  lemma {:induction false} CropAxesOutcome(batch: Tensor, d: seq<int>, h: nat, w: nat)
    requires |batch.shape| == 4 && |d| == 2 && h < 4 && w < 4 && h != w
    requires 0 <= d[0] <= batch.shape[h] && 0 <= d[1] <= batch.shape[w]
    ensures var r := CropAxes(batch, d, h, w);
      && |r.shape| == 4
      && r.shape[h] == batch.shape[h] - d[0]
      && r.shape[w] == batch.shape[w] - d[1]
      && (forall k :: 0 <= k < 4 && k != h && k != w ==> r.shape[k] == batch.shape[k])
      && forall idx: seq<nat> :: r.at(idx) == batch.at(Shift(Shift(idx, w, d[1] / 2), h, d[0] / 2))
  {
    var (ct, cb) := CropSides(d[0]);
    var (cl, cr) := CropSides(d[1]);
    var inner := SliceAxis(batch, h, ct, EndBound(cb, batch.shape[h]));
    SliceKeepsRest(batch, h, ct, cb);
    SliceKeepsRest(inner, w, cl, cr);
  }

  /** The intended function in either admitted order crops the H and W
      axes: 1 and 2 for channels-last, 2 and 3 for channels-first. */
  lemma IntendedCrop(batch: Tensor, dims: Dims, order: string)
    requires |batch.shape| == 4 && |dims.d| == 2 && order in {"BHWC", "BCHW"}
    ensures Crop(batch, dims, order).Ok?
    ensures !(dims.isTuple && dims.d == [0, 0]) ==>
      Crop(batch, dims, order).value == CropAxes(batch, dims.d, if order == "BHWC" then 1 else 2, if order == "BHWC" then 2 else 3)
  {
  }

  /** Channels-last batches are cropped on their H and W axes. */
  lemma BhwcCrops(batch: Tensor)
    requires batch.shape == [2, 6, 8, 3]
    ensures Crop(batch, Dims(true, [2, 4]), "BHWC").Ok?
    ensures Crop(batch, Dims(true, [2, 4]), "BHWC").value.shape == [2, 4, 4, 3]
  {
    IntendedCrop(batch, Dims(true, [2, 4]), "BHWC");
    CropAxesOutcome(batch, [2, 4], 1, 2);
  }
}
