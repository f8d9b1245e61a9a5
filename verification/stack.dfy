/** Stacking descriptors along a new dimension (`_stack_meta` and the
    `torch.stack` override `stack_meta`). */
module Stacking {
  import opened Errors
  import opened Shapes
  import opened MetaTensors

  /** `t` passes the `safe` check against the first shape and the requested dtype. */
  predicate Stackable(t: MetaTensor, shape: seq<nat>, dtype: DType)
  {
    t.shape == shape && t.dtype == dtype
  }

  /** Index of the first descriptor that fails the `safe` check, or `|ts|` when
      all pass: the loop of `_stack_meta` stops there. */
  function FirstUnstackable(ts: seq<MetaTensor>, shape: seq<nat>, dtype: DType): (k: nat)
    ensures k <= |ts|
    ensures forall j :: 0 <= j < k ==> Stackable(ts[j], shape, dtype)
    ensures k < |ts| ==> !Stackable(ts[k], shape, dtype)
  {
    if |ts| == 0 || !Stackable(ts[0], shape, dtype) then 0
    else 1 + FirstUnstackable(ts[1..], shape, dtype)
  }

  /** `_stack_meta(ts, dim, dtype, device, safe)`: an empty list raises
      RuntimeError; with `safe`, the first descriptor whose shape differs from
      the first one raises RuntimeError and the first whose dtype differs from
      `dtype` raises TypeError (the shape is checked first); otherwise the
      result has the first shape with `len(ts)` inserted at `dim` as
      `list.insert` does, the given dtype and device, and no storage flags. */
  function StackMetaWith(ts: seq<MetaTensor>, dim: int, dtype: DType, device: Device, safe: bool): (r: Result<MetaTensor>)
    ensures r == Err(EmptyStack) <==> |ts| == 0
    ensures |ts| > 0 && !safe ==> r.Ok?
    ensures |ts| > 0 && safe ==> (r.Ok? <==> forall i :: 0 <= i < |ts| ==> Stackable(ts[i], ts[0].shape, dtype))
    ensures r.Err? && r.error == StackShapeMismatch ==>
              exists i :: 0 <= i < |ts| && ts[i].shape != ts[0].shape
                          && forall j :: 0 <= j < i ==> Stackable(ts[j], ts[0].shape, dtype)
    ensures r.Err? && r.error == StackDtypeMismatch ==>
              exists i :: 0 <= i < |ts| && ts[i].shape == ts[0].shape && ts[i].dtype != dtype
                          && forall j :: 0 <= j < i ==> Stackable(ts[j], ts[0].shape, dtype)
    ensures r.Err? ==> r.error in {EmptyStack, StackShapeMismatch, StackDtypeMismatch}
    ensures r.Ok? ==> r.value.shape == PyInsert(ts[0].shape, dim, |ts|)
    ensures r.Ok? ==> r.value.dtype == dtype && r.value.device == device
    ensures r.Ok? ==> !r.value.isShared && !r.value.isMemmap && Coherent(r.value)
    ensures r.Ok? ==> r.value.numel == |ts| * Product(ts[0].shape)
  {
    if |ts| == 0 then Err(EmptyStack)
    else
      var shape := ts[0].shape;
      var k := FirstUnstackable(ts, shape, dtype);
      if safe && k < |ts| then
        if ts[k].shape != shape then Err(StackShapeMismatch) else Err(StackDtypeMismatch)
      else
        Ok(Create(PyInsert(shape, dim, |ts|), device, dtype, false, false))
  }

  /** `stack_meta(ts, dim, safe)`, the override of `torch.stack`: the dtype and
      device come from the first descriptor (the defaults are only used for
      an empty list, which `_stack_meta` then rejects). */
  function StackMeta(ts: seq<MetaTensor>, dim: int, safe: bool, defaultDtype: DType): (r: Result<MetaTensor>)
    ensures r == Err(EmptyStack) <==> |ts| == 0
    ensures |ts| > 0 && !safe ==> r.Ok?
    ensures |ts| > 0 && safe ==>
              (r.Ok? <==> forall i :: 0 <= i < |ts| ==> ts[i].shape == ts[0].shape && ts[i].dtype == ts[0].dtype)
    ensures r.Err? && |ts| > 0 ==>
              var k := FirstUnstackable(ts, ts[0].shape, ts[0].dtype);
              k < |ts| && (r.error == StackShapeMismatch <==> ts[k].shape != ts[0].shape)
              && (r.error == StackDtypeMismatch <==> ts[k].shape == ts[0].shape)
    ensures r.Ok? ==> |r.value.shape| == |ts[0].shape| + 1
    ensures r.Ok? ==> var k := InsertPosition(dim, |ts[0].shape|);
              r.value.shape[k] == |ts| && r.value.shape[..k] + r.value.shape[k + 1..] == ts[0].shape
    ensures r.Ok? ==> r.value.dtype == ts[0].dtype && r.value.device == ts[0].device
    ensures r.Ok? ==> !r.value.isShared && !r.value.isMemmap && Coherent(r.value)
  {
    var dtype := if |ts| > 0 then ts[0].dtype else defaultDtype;
    var device := if |ts| > 0 then ts[0].device else Cpu;
    StackMetaWith(ts, dim, dtype, device, safe)
  }

  /** When the `safe` check passes, it does not change the result. */
  lemma SafeStackAgreesWithUnsafe(ts: seq<MetaTensor>, dim: int, defaultDtype: DType)
    requires StackMeta(ts, dim, true, defaultDtype).Ok?
    ensures StackMeta(ts, dim, true, defaultDtype) == StackMeta(ts, dim, false, defaultDtype)
  {
  }

  /** Every successful stack of `m` descriptors of `n` elements each, checked
      or not, describes `m * n` elements. */
  lemma StackNumel(ts: seq<MetaTensor>, dim: int, safe: bool, defaultDtype: DType)
    requires StackMeta(ts, dim, safe, defaultDtype).Ok?
    ensures Numel(StackMeta(ts, dim, safe, defaultDtype).value) == |ts| * Product(ts[0].shape)
  {
  }

  /** Ten descriptors of shape (3, 4) stacked at dimension 1 give (3, 10, 4);
      at dimension -1 the count lands before the last entry, and an index past
      either end is clamped. */
  lemma StackExamples(dtype: DType)
    ensures var ts := seq(10, _ => CreateDefault([3, 4], dtype));
            && StackMeta(ts, 1, false, dtype).Ok?
            && StackMeta(ts, 1, false, dtype).value.shape == [3, 10, 4]
            && StackMeta(ts, -1, true, dtype).value.shape == [3, 10, 4]
            && StackMeta(ts, 7, false, dtype).value.shape == [3, 4, 10]
            && StackMeta(ts, -7, false, dtype).value.shape == [10, 3, 4]
  {
    var ts := seq(10, _ => CreateDefault([3, 4], dtype));
    assert forall i :: 0 <= i < |ts| ==> ts[i].shape == ts[0].shape && ts[i].dtype == ts[0].dtype;
    var s: seq<nat> := [3, 4];
    assert s[..1] + [10] + s[1..] == [3, 10, 4];
    assert s[..2] + [10] + s[2..] == [3, 4, 10];
    assert s[..0] + [10] + s[0..] == [10, 3, 4];
  }
}
