/** The behaviour `squeeze` and `unsqueeze` evidently aim at, next to the
    inputs on which the descriptor as written departs from it. */
module Corrected {
  import opened Errors
  import opened Shapes
  import opened MetaTensors

  /** `squeeze(dim)` as intended: without `dim` every dimension of size 1 is
      removed; with `dim` in range and `shape[dim] == 1` exactly that entry is
      removed; otherwise the shape is kept. The caches are refreshed. */
  function SqueezeIntended(t: MetaTensor, dim: Option<int>): (r: MetaTensor)
    ensures dim.None? ==> r.shape == DropOnes(t.shape)
    ensures dim.Some? && 0 <= dim.value < |t.shape| && t.shape[dim.value] == 1 ==>
              |r.shape| == |t.shape| - 1
              && r.shape[..dim.value] == t.shape[..dim.value]
              && r.shape[dim.value..] == t.shape[dim.value + 1..]
    ensures dim.Some? && !(0 <= dim.value < |t.shape| && t.shape[dim.value] == 1) ==> r.shape == t.shape
    ensures r.device == t.device && r.dtype == t.dtype
    ensures r.isShared == t.isShared && r.isMemmap == t.isMemmap
    ensures Coherent(r)
    ensures Product(r.shape) == Product(t.shape)
  {
    var s := t.shape;
    var shape :=
      if dim.None? then DropOnes(s)
      else if 0 <= dim.value < |s| && s[dim.value] == 1 then
        var d := dim.value;
        assert s == s[..d] + [1] + s[d + 1..];
        ProductInsert(s[..d] + s[d + 1..], d, 1);
        assert (s[..d] + s[d + 1..])[..d] == s[..d];
        assert (s[..d] + s[d + 1..])[d..] == s[d + 1..];
        s[..d] + s[d + 1..]
      else s;
    Create(shape, t.device, t.dtype, t.isShared, t.isMemmap)
  }

  /** Squeezing the dimension `unsqueeze` inserted gives back the clone of the
      original descriptor, at every position. */
  lemma SqueezeUndoesUnsqueeze(t: MetaTensor, dim: int)
    requires 0 <= dim <= |t.shape|
    ensures Unsqueeze(t, dim).Ok?
    ensures SqueezeIntended(Unsqueeze(t, dim).value, Some(dim)) == Clone(t)
  {
    var u := Unsqueeze(t, dim).value;
    var r := SqueezeIntended(u, Some(dim));
    assert r.shape == r.shape[..dim] + r.shape[dim..];
    assert u.shape[..dim] + u.shape[dim + 1..] == t.shape;
  }

  /** As written, squeezing dimension 0 of shape (1, 3) gives (1) instead of (3). */
  lemma SqueezeDimDropsLastEntry(dtype: DType)
    ensures Squeeze(CreateDefault([1, 3], dtype), Some(0)).shape == [1]
    ensures SqueezeIntended(CreateDefault([1, 3], dtype), Some(0)).shape == [3]
  {
    var s: seq<nat> := [1, 3];
    assert s[..1] == [1];
    assert s[..0] + s[1..] == [3];
  }

  /** As written, squeezing shape (1, 3) without a dimension gives (3, 1, 3)
      instead of (3). */
  lemma SqueezeAllRepeatsShape(dtype: DType)
    ensures Squeeze(CreateDefault([1, 3], dtype), None).shape == [3, 1, 3]
    ensures SqueezeIntended(CreateDefault([1, 3], dtype), None).shape == [3]
  {
    var s: seq<nat> := [1, 3];
    assert DropOnes(s[1..]) == [3];
    assert DropOnes(s) == [3];
  }

  /** `unsqueeze(dim)` as intended: the same shape, with the cached number of
      dimensions and elements describing it. */
  function UnsqueezeIntended(t: MetaTensor, dim: int): (r: Result<MetaTensor>)
    ensures r.Ok? <==> 0 <= dim <= |t.shape|
    ensures r.Ok? ==> SameSpecs(r.value, Unsqueeze(t, dim).value)
    ensures r.Ok? ==> Coherent(r.value)
    ensures r.Ok? ==> Ndimension(r.value) == |t.shape| + 1 && Numel(r.value) == Product(t.shape)
  {
    var u :- Unsqueeze(t, dim);
    UnsqueezeCaches(t, dim);
    Ok(Clone(u))
  }

  /** As written, `ndimension()` of shape (3, 4) unsqueezed at 0 reports 2
      although the shape (1, 3, 4) has three dimensions. */
  lemma UnsqueezeReportsStaleNdim(dtype: DType)
    ensures Unsqueeze(CreateDefault([3, 4], dtype), 0).Ok?
    ensures Unsqueeze(CreateDefault([3, 4], dtype), 0).value.shape == [1, 3, 4]
    ensures Ndimension(Unsqueeze(CreateDefault([3, 4], dtype), 0).value) == 2
    ensures Ndimension(UnsqueezeIntended(CreateDefault([3, 4], dtype), 0).value) == 3
  {
    var u := Unsqueeze(CreateDefault([3, 4], dtype), 0).value.shape;
    assert u[1..] == [3, 4];
  }
}
