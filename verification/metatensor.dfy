/** The tensor-metadata descriptor `MetaTensor`: a tensor's shape, device,
    dtype and storage flags, with the shape transforms that never touch data.

    The descriptor caches its number of dimensions and of elements when it is
    built; `unsqueeze`, `squeeze` and `permute` replace the shape of a clone
    without refreshing those caches, so they are stored fields here rather
    than values derived from the shape. */
module MetaTensors {
  import opened Errors
  import opened Shapes

  /** A device, compared by name only (`torch.device("cpu")`, `"cuda:0"`, ...). */
  datatype Device = Device(name: string)

  /** A dtype, compared by name only (`torch.float32`, ...). */
  datatype DType = DType(name: string)

  /** The device a descriptor lives on when none is given. */
  const Cpu: Device := Device("cpu")

  const TensorName: string := "Tensor"
  const SharedTensorName: string := "SharedTensor"
  const MemmapTensorName: string := "MemmapTensor"

  datatype MetaTensor = MetaTensor(
    shape: seq<nat>,
    device: Device,
    dtype: DType,
    ndim: nat,         // cached when built: `_ndim`
    numel: nat,        // cached when built: `_numel`
    isShared: bool,
    isMemmap: bool,
    className: string)

  /** The class name a descriptor built with these storage flags gets:
      memory-mapped storage takes precedence over shared memory. */
  function ClassNameFor(isShared: bool, isMemmap: bool): string
  {
    if isMemmap then MemmapTensorName
    else if isShared then SharedTensorName
    else TensorName
  }

  /** The cached sizes describe the current shape. */
  predicate CachesFresh(t: MetaTensor)
  {
    t.ndim == |t.shape| && t.numel == Product(t.shape)
  }

  /** The class name agrees with the storage flags. */
  predicate NameMatchesFlags(t: MetaTensor)
  {
    t.className == ClassNameFor(t.isShared, t.isMemmap)
  }

  /** Every cached field agrees with what it caches. */
  predicate Coherent(t: MetaTensor)
  {
    CachesFresh(t) && NameMatchesFlags(t)
  }

  /** Two descriptors have the same shape, device, dtype and storage flags. */
  predicate SameSpecs(a: MetaTensor, b: MetaTensor)
  {
    a.shape == b.shape && a.device == b.device && a.dtype == b.dtype
    && a.isShared == b.isShared && a.isMemmap == b.isMemmap
  }

  /** `MetaTensor(*shape, device=device, dtype=dtype, _is_shared=..., _is_memmap=...)`
      with integer dimensions. */
  function Create(shape: seq<nat>, device: Device, dtype: DType, isShared: bool, isMemmap: bool): (t: MetaTensor)
    ensures t.shape == shape && t.device == device && t.dtype == dtype
    ensures t.isShared == isShared && t.isMemmap == isMemmap
    ensures t.ndim == |shape|
    ensures t.numel == Product(shape)
    ensures |shape| == 0 ==> t.numel == 1
    ensures isMemmap ==> t.className == MemmapTensorName
    ensures !isMemmap && isShared ==> t.className == SharedTensorName
    ensures !isMemmap && !isShared ==> t.className == TensorName
    ensures Coherent(t)
  {
    MetaTensor(shape, device, dtype, |shape|, Product(shape), isShared, isMemmap,
               ClassNameFor(isShared, isMemmap))
  }

  /** `MetaTensor(*shape)`: on the cpu, with the constructor's default dtype,
      neither shared nor memory-mapped. That default is a Python default
      argument, so it is the value `torch.get_default_dtype()` had when the
      class was defined, not its value at the call. */
  function CreateDefault(shape: seq<nat>, defaultDtype: DType): (t: MetaTensor)
    ensures t.shape == shape && t.device == Cpu && t.dtype == defaultDtype
    ensures !t.isShared && !t.isMemmap && t.className == TensorName
    ensures Coherent(t)
  {
    Create(shape, Cpu, defaultDtype, false, false)
  }

  /** A descriptor has no elements exactly when one of its dimensions is 0: a
      corollary of `Create` storing `Product(shape)` and of `Product`'s contract. */
  lemma CreatedNumelZeroIff(shape: seq<nat>, device: Device, dtype: DType, isShared: bool, isMemmap: bool)
    ensures Create(shape, device, dtype, isShared, isMemmap).numel == 0 <==> 0 in shape
  {
  }

  /** `memmap_()`: switches the storage to memory-mapped and returns the
      descriptor; nothing but that flag and the class name changes. */
  function Memmap(t: MetaTensor): (r: MetaTensor)
    ensures r.isMemmap && r.className == MemmapTensorName
    ensures r.shape == t.shape && r.device == t.device && r.dtype == t.dtype
    ensures r.ndim == t.ndim && r.numel == t.numel && r.isShared == t.isShared
    ensures NameMatchesFlags(r)
    ensures CachesFresh(r) <==> CachesFresh(t)
  {
    t.(isMemmap := true, className := MemmapTensorName)
  }

  /** `share_memory_()`: switches the storage to shared memory and returns the
      descriptor; nothing but that flag and the class name changes. The class
      name then contradicts the flags exactly when the descriptor was already
      memory-mapped. */
  function ShareMemory(t: MetaTensor): (r: MetaTensor)
    ensures r.isShared && r.className == SharedTensorName
    ensures r.shape == t.shape && r.device == t.device && r.dtype == t.dtype
    ensures r.ndim == t.ndim && r.numel == t.numel && r.isMemmap == t.isMemmap
    ensures NameMatchesFlags(r) <==> !t.isMemmap
    ensures CachesFresh(r) <==> CachesFresh(t)
  {
    t.(isShared := true, className := SharedTensorName)
  }

  /** Calling `memmap_()` then `share_memory_()` leaves the class name
      "SharedTensor" on a memory-mapped descriptor; the other order gives
      "MemmapTensor". */
  lemma StorageCallOrderMatters(t: MetaTensor)
    ensures ShareMemory(Memmap(t)).className == SharedTensorName
    ensures Memmap(ShareMemory(t)).className == MemmapTensorName
    ensures SameSpecs(ShareMemory(Memmap(t)), Memmap(ShareMemory(t)))
    ensures !NameMatchesFlags(ShareMemory(Memmap(t)))
    ensures NameMatchesFlags(Memmap(ShareMemory(t)))
  {
  }

  /** `numel()`: the cached element count. */
  function Numel(t: MetaTensor): (r: nat)
    ensures CachesFresh(t) ==> r == Product(t.shape)
  {
    t.numel
  }

  /** `ndimension()`: the cached number of dimensions. */
  function Ndimension(t: MetaTensor): (r: nat)
    ensures CachesFresh(t) ==> r == |t.shape|
  {
    t.ndim
  }

  /** `clone()`: a new descriptor with the same specs, whose caches and class
      name are recomputed from them. */
  function Clone(t: MetaTensor): (r: MetaTensor)
    ensures SameSpecs(r, t)
    ensures Coherent(r)
    ensures r == t <==> Coherent(t)
  {
    Create(t.shape, t.device, t.dtype, t.isShared, t.isMemmap)
  }

  /** Cloning a clone changes nothing. */
  lemma CloneIdempotent(t: MetaTensor)
    ensures Clone(Clone(t)) == Clone(t)
  {
  }

  /** `__getitem__(item)`: the resulting shape is computed by a helper outside
      this model and is passed in as `indexedShape`; the result keeps the
      device, dtype and shared flag and is never memory-mapped. */
  function GetItem(t: MetaTensor, indexedShape: seq<nat>): (r: MetaTensor)
    ensures r.shape == indexedShape && r.device == t.device && r.dtype == t.dtype
    ensures r.isShared == t.isShared && !r.isMemmap
    ensures Coherent(r)
  {
    Create(indexedShape, t.device, t.dtype, t.isShared, false)
  }

  /** `expand(*sizes)`: the new sizes are PREPENDED to the current shape (no
      broadcasting), on the same device and dtype, with both storage flags off. */
  function Expand(t: MetaTensor, sizes: seq<nat>): (r: MetaTensor)
    ensures |r.shape| == |sizes| + |t.shape|
    ensures r.shape[..|sizes|] == sizes && r.shape[|sizes|..] == t.shape
    ensures r.device == t.device && r.dtype == t.dtype
    ensures !r.isShared && !r.isMemmap && r.className == TensorName
    ensures Coherent(r)
    ensures r.numel == Product(sizes) * Product(t.shape)
  {
    ProductAppend(sizes, t.shape);
    Create(sizes + t.shape, t.device, t.dtype, false, false)
  }

  /** Expanding by `a` and then by `b` is expanding once by `b ++ a`. */
  lemma ExpandComposes(t: MetaTensor, a: seq<nat>, b: seq<nat>)
    ensures Expand(Expand(t, a), b) == Expand(t, b + a)
  {
    assert b + (a + t.shape) == (b + a) + t.shape;
  }

  // ---------------------------------------------------------------- unsqueeze

  /** The loop of `unsqueeze`: for `i` in `range(total)`, append 1 when
      `i == dim`, else append the head of `rest` and drop it; indexing an
      exhausted `rest` raises IndexError. */
  function UnsqueezeLoop(i: nat, total: nat, dim: int, rest: seq<nat>, acc: seq<nat>): (r: Result<seq<nat>>)
    ensures r.Err? ==> r.error == IndexOutOfRange
    ensures r.Ok? && i <= total ==> |r.value| == |acc| + (total - i)
    ensures r.Ok? ==> |acc| <= |r.value| && r.value[..|acc|] == acc
    decreases total - i
  {
    if i >= total then Ok(acc)
    else if i == dim then UnsqueezeLoop(i + 1, total, dim, rest, acc + [1])
    else if |rest| == 0 then Err(IndexOutOfRange)
    else UnsqueezeLoop(i + 1, total, dim, rest[1..], acc + [rest[0]])
  }

  /** Once `dim` lies outside the remaining iterations, the loop copies the
      next `total - i` entries of `rest`, or fails if there are fewer. */
  lemma {:induction false} UnsqueezeLoopCopies(i: nat, total: nat, dim: int, rest: seq<nat>, acc: seq<nat>)
    requires i <= total
    requires dim < i || dim >= total
    ensures UnsqueezeLoop(i, total, dim, rest, acc)
            == if |rest| >= total - i then Ok(acc + rest[..total - i]) else Err(IndexOutOfRange)
    decreases total - i
  {
    if i == total {
      assert acc + rest[..0] == acc;
    } else if |rest| > 0 {
      UnsqueezeLoopCopies(i + 1, total, dim, rest[1..], acc + [rest[0]]);
      if |rest| >= total - i {
        assert acc + [rest[0]] + rest[1..][..total - i - 1] == acc + rest[..total - i];
      }
    }
  }

  /** While `dim` is still ahead, the loop inserts a 1 at `dim` among the next
      `total - i - 1` entries of `rest`, or fails if there are fewer. */
  lemma {:induction false} UnsqueezeLoopInserts(i: nat, total: nat, dim: int, rest: seq<nat>, acc: seq<nat>)
    requires i <= dim < total
    ensures UnsqueezeLoop(i, total, dim, rest, acc)
            == if |rest| >= total - i - 1
               then Ok(acc + rest[..dim - i] + [1] + rest[dim - i..total - i - 1])
               else Err(IndexOutOfRange)
    decreases total - i
  {
    if i == dim {
      UnsqueezeLoopCopies(i + 1, total, dim, rest, acc + [1]);
      if |rest| >= total - i - 1 {
        assert acc + rest[..dim - i] + [1] + rest[dim - i..total - i - 1]
            == acc + [1] + rest[..total - i - 1];
      }
    } else if |rest| > 0 {
      UnsqueezeLoopInserts(i + 1, total, dim, rest[1..], acc + [rest[0]]);
      if |rest| >= total - i - 1 {
        assert acc + [rest[0]] + rest[1..][..dim - i - 1] == acc + rest[..dim - i];
        var lo, hi := dim - i - 1, total - i - 2;
        assert 0 <= lo <= hi && hi + 1 <= |rest|;
        assert forall j :: 0 <= j < hi - lo ==> rest[1..][lo..hi][j] == rest[lo + 1..hi + 1][j];
        assert rest[1..][lo..hi] == rest[lo + 1..hi + 1];
      }
    }
  }

  /** The whole `unsqueeze` loop over a shape of length `n`: for
      `0 <= dim <= n` it yields the shape with a 1 inserted at `dim`; for any
      other `dim` it raises IndexError. */
  lemma UnsqueezeLoopResult(s: seq<nat>, dim: int)
    ensures 0 <= dim <= |s| ==> UnsqueezeLoop(0, |s| + 1, dim, s, []) == Ok(s[..dim] + [1] + s[dim..])
    ensures !(0 <= dim <= |s|) ==> UnsqueezeLoop(0, |s| + 1, dim, s, []) == Err(IndexOutOfRange)
  {
    var n := |s|;
    if 0 <= dim <= n {
      UnsqueezeLoopInserts(0, n + 1, dim, s, []);
      assert [] + s[..dim] + [1] + s[dim..n] == s[..dim] + [1] + s[dim..];
    } else {
      UnsqueezeLoopCopies(0, n + 1, dim, s, []);
    }
  }

  /** `unsqueeze(dim)`: inserts a dimension of size 1 at `dim` of a clone.
      Only `0 <= dim <= n` succeeds (a negative `dim` is not counted from the
      end); any other `dim` exhausts the shape and raises IndexError. The
      cached sizes stay those of the original shape. */
  function Unsqueeze(t: MetaTensor, dim: int): (r: Result<MetaTensor>)
    ensures r.Ok? <==> 0 <= dim <= |t.shape|
    ensures r.Err? ==> r.error == IndexOutOfRange
    ensures r.Ok? ==> |r.value.shape| == |t.shape| + 1 && r.value.shape[dim] == 1
    ensures r.Ok? ==> r.value.shape[..dim] + r.value.shape[dim + 1..] == t.shape
    ensures r.Ok? ==> r.value.device == t.device && r.value.dtype == t.dtype
    ensures r.Ok? ==> r.value.isShared == t.isShared && r.value.isMemmap == t.isMemmap
    ensures r.Ok? ==> NameMatchesFlags(r.value)
    ensures r.Ok? ==> r.value.ndim == |t.shape| && r.value.numel == Product(t.shape)
  {
    UnsqueezeLoopResult(t.shape, dim);
    InsertedEntry(t.shape, dim, 1);
    var s :- UnsqueezeLoop(0, |t.shape| + 1, dim, t.shape, []);
    Ok(Clone(t).(shape := s))
  }

  /** After a successful `unsqueeze` the cached element count is still right
      (a dimension of size 1 adds no elements) but `ndimension()` reports one
      dimension fewer than the shape has. */
  lemma UnsqueezeCaches(t: MetaTensor, dim: int)
    requires 0 <= dim <= |t.shape|
    ensures Unsqueeze(t, dim).Ok?
    ensures Numel(Unsqueeze(t, dim).value) == Product(Unsqueeze(t, dim).value.shape)
    ensures Ndimension(Unsqueeze(t, dim).value) == |Unsqueeze(t, dim).value.shape| - 1
    ensures !CachesFresh(Unsqueeze(t, dim).value)
  {
    var u := Unsqueeze(t, dim).value.shape;
    assert u == u[..dim] + [1] + u[dim + 1..];
    ProductInsert(t.shape, dim, 1);
    assert t.shape[..dim] == u[..dim] && t.shape[dim..] == u[dim + 1..];
  }

  // ------------------------------------------------------------------ squeeze

  /** The loop of `squeeze`: for `i` in `range(n)`, when `i == dim` and the head
      of `rest` is 1 skip the iteration WITHOUT dropping the head; otherwise
      append the head and drop it. */
  function SqueezeLoop(i: nat, n: nat, dim: Option<int>, rest: seq<nat>, acc: seq<nat>): (r: seq<nat>)
    requires |rest| + i >= n
    ensures |acc| <= |r| <= |acc| + (if i <= n then n - i else 0)
    decreases n - i
  {
    if i >= n then acc
    else if dim == Some(i as int) && rest[0] == 1 then SqueezeLoop(i + 1, n, dim, rest, acc)
    else SqueezeLoop(i + 1, n, dim, rest[1..], acc + [rest[0]])
  }

  /** The loop only appends: what it has accumulated stays a prefix of the result. */
  lemma {:induction false} SqueezeLoopKeepsAcc(i: nat, n: nat, dim: Option<int>, rest: seq<nat>, acc: seq<nat>)
    requires |rest| + i >= n
    ensures SqueezeLoop(i, n, dim, rest, acc)[..|acc|] == acc
    decreases n - i
  {
    if i < n {
      if dim == Some(i as int) && rest[0] == 1 {
        SqueezeLoopKeepsAcc(i + 1, n, dim, rest, acc);
      } else {
        SqueezeLoopKeepsAcc(i + 1, n, dim, rest[1..], acc + [rest[0]]);
        var r := SqueezeLoop(i + 1, n, dim, rest[1..], acc + [rest[0]]);
        assert r[..|acc|] == r[..|acc| + 1][..|acc|];
        assert (acc + [rest[0]])[..|acc|] == acc;
      }
    }
  }

  /** After the skip the loop is one entry ahead of the iterations left, so it
      copies all of `rest` but its last entry. */
  lemma {:induction false} SqueezeLoopAfterSkip(i: nat, n: nat, dim: Option<int>, rest: seq<nat>, acc: seq<nat>)
    requires i <= n && |rest| == n - i + 1
    requires dim.Some? ==> dim.value < i
    ensures SqueezeLoop(i, n, dim, rest, acc) == acc + rest[..|rest| - 1]
    decreases n - i
  {
    if i < n {
      SqueezeLoopAfterSkip(i + 1, n, dim, rest[1..], acc + [rest[0]]);
      assert acc + [rest[0]] + rest[1..][..|rest| - 2] == acc + rest[..|rest| - 1];
    }
  }

  /** Before the skip the loop copies `rest`, except that when the entry at
      `dim` is 1 it copies all of `rest` but its LAST entry. */
  lemma {:induction false} SqueezeLoopBeforeSkip(i: nat, n: nat, dim: Option<int>, rest: seq<nat>, acc: seq<nat>)
    requires i <= n && |rest| == n - i
    ensures SqueezeLoop(i, n, dim, rest, acc)
            == if dim.Some? && i <= dim.value < n && rest[dim.value - i] == 1
               then acc + rest[..|rest| - 1]
               else acc + rest
    decreases n - i
  {
    if i < n {
      if dim == Some(i as int) && rest[0] == 1 {
        SqueezeLoopAfterSkip(i + 1, n, dim, rest, acc);
      } else {
        SqueezeLoopBeforeSkip(i + 1, n, dim, rest[1..], acc + [rest[0]]);
        assert acc + [rest[0]] + rest[1..] == acc + rest;
        if dim.Some? && i < dim.value < n && rest[dim.value - i] == 1 {
          assert acc + [rest[0]] + rest[1..][..|rest| - 2] == acc + rest[..|rest| - 1];
        }
      }
    }
  }

  /** `squeeze(dim)` as `metatensor.py` computes it, on a clone whose cached sizes
      stay those of the original shape:
      - without `dim`, the shape with its 1s removed FOLLOWED by the whole
        original shape (the loop runs even when `dim` is None);
      - with `dim` in range and `shape[dim] == 1`, the original shape with its
        LAST entry dropped;
      - otherwise (including every negative `dim`) the original shape. */
  function Squeeze(t: MetaTensor, dim: Option<int>): (r: MetaTensor)
    ensures dim.None? ==> r.shape == DropOnes(t.shape) + t.shape
    ensures dim.Some? && 0 <= dim.value < |t.shape| && t.shape[dim.value] == 1
            ==> r.shape == t.shape[..|t.shape| - 1]
    ensures dim.Some? && !(0 <= dim.value < |t.shape| && t.shape[dim.value] == 1)
            ==> r.shape == t.shape
    ensures r.device == t.device && r.dtype == t.dtype
    ensures r.isShared == t.isShared && r.isMemmap == t.isMemmap && NameMatchesFlags(r)
    ensures r.ndim == |t.shape| && r.numel == Product(t.shape)
  {
    var n := |t.shape|;
    var prefix := if dim.None? then DropOnes(t.shape) else [];
    SqueezeLoopBeforeSkip(0, n, dim, t.shape, prefix);
    Clone(t).(shape := SqueezeLoop(0, n, dim, t.shape, prefix))
  }

  /** Squeezing a dimension that is not of size 1 gives back the descriptor's
      clone. */
  lemma SqueezeNoOp(t: MetaTensor, dim: int)
    requires !(0 <= dim < |t.shape| && t.shape[dim] == 1)
    ensures Squeeze(t, Some(dim)) == Clone(t)
  {
  }

  /** Squeezing the dimension `unsqueeze` inserted at the END gives back the
      original shape; this is the only position where the round trip holds
      for every shape. */
  lemma UnsqueezeSqueezeAtEnd(t: MetaTensor)
    ensures Unsqueeze(t, |t.shape|).Ok?
    ensures Squeeze(Unsqueeze(t, |t.shape|).value, Some(|t.shape|)).shape == t.shape
  {
    var u := Unsqueeze(t, |t.shape|).value.shape;
    assert u[..|t.shape|] == t.shape;
  }

  // ------------------------------------------------------------------ permute

  /** `permute(dims)`: a clone whose shape lists `shape[d]` for each `d` in
      `dims`, with Python tuple indexing (negative `d` counts from the end, an
      index outside `-n .. n-1` raises IndexError). `dims` is not checked to
      be a permutation; the cached sizes stay those of the original shape. */
  function Permute(t: MetaTensor, dims: seq<int>): (r: Result<MetaTensor>)
    ensures r.Ok? <==> forall i :: 0 <= i < |dims| ==> InBounds(dims[i], |t.shape|)
    ensures r.Err? ==> r.error == IndexOutOfRange
    ensures r.Ok? ==> |r.value.shape| == |dims|
    ensures r.Ok? ==> forall i :: 0 <= i < |dims| ==> r.value.shape[i] == t.shape[Wrap(dims[i], |t.shape|)]
    ensures r.Ok? ==> r.value.device == t.device && r.value.dtype == t.dtype
    ensures r.Ok? ==> r.value.isShared == t.isShared && r.value.isMemmap == t.isMemmap
    ensures r.Ok? ==> NameMatchesFlags(r.value)
    ensures r.Ok? ==> r.value.ndim == |t.shape| && r.value.numel == Product(t.shape)
  {
    var s :- Gather(t.shape, dims);
    Ok(Clone(t).(shape := s))
  }

  /** Permuting along a permutation of `0 .. n-1` rearranges the dimensions,
      keeps the element count, and so leaves the cached sizes correct. */
  lemma PermuteRearranges(t: MetaTensor, dims: seq<int>)
    requires IsPermutation(dims, |t.shape|)
    ensures Permute(t, dims).Ok?
    ensures multiset(Permute(t, dims).value.shape) == multiset(t.shape)
    ensures Product(Permute(t, dims).value.shape) == Product(t.shape)
    ensures CachesFresh(Permute(t, dims).value)
  {
    GatherPermutation(t.shape, dims);
    ProductMultiset(Permute(t, dims).value.shape, t.shape);
  }

  /** Permuting along `p` and then along an inverse `q` of `p` restores the shape. */
  lemma PermuteInverse(t: MetaTensor, p: seq<int>, q: seq<int>)
    requires |p| == |t.shape| && |q| == |t.shape|
    requires forall i :: 0 <= i < |p| ==> 0 <= p[i] < |t.shape|
    requires forall j :: 0 <= j < |q| ==> 0 <= q[j] < |t.shape| && p[q[j]] == j
    ensures Permute(t, p).Ok?
    ensures Permute(Permute(t, p).value, q).Ok?
    ensures Permute(Permute(t, p).value, q).value.shape == t.shape
  {
    var u := Permute(t, p).value;
    assert forall j :: 0 <= j < |q| ==> InBounds(q[j], |u.shape|);
    var w := Permute(u, q).value;
    forall j | 0 <= j < |q|
      ensures w.shape[j] == t.shape[j]
    {
      assert w.shape[j] == u.shape[q[j]] == t.shape[p[q[j]]];
    }
  }
}
