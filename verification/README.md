# MetaTensor: a verified model of the tensor-metadata descriptor

This project models `MetaTensor` from `torchrl/data/tensordict/metatensor.py`, the
lightweight descriptor of the RL library's tensor containers. A `MetaTensor`
records a tensor's shape, device, dtype and storage flags (shared memory,
memory-mapped) without holding any data. It also implements the shape
transforms `clone`, `expand`, `unsqueeze`, `squeeze` and `permute`, stacking
(`_stack_meta`, `stack_meta`), and the `__torch_function__` override table that
routes `torch.stack` to `stack_meta`.

The model is functional. A descriptor is an immutable `MetaTensor` value with a
`seq<nat>` shape, a `Device` and a `DType` compared by name only, the two storage
flags, the class name, and the cached `ndim` and `numel` stored as fields. They
are stored rather than derived because `unsqueeze`, `squeeze` and `permute`
replace the shape of a clone without refreshing them. The in-place methods
`memmap_` and `share_memory_` return the updated descriptor. Python exceptions
become `Err` values of `Errors.Result`, and `Errors.Raised` gives the exception
class for each.

Modules, one per component:

- `Errors` (errors.dfy): failure values and the `Result` and `Option` wrappers.
- `Shapes` (shapes.dfy): shape arithmetic. This covers the element count
  (`np.prod`, with the empty shape counting 1), Python `list.insert` with its
  index clamping, Python tuple indexing for `permute`, and the lemmas that
  permutations and insertions need.
- `MetaTensors` (metatensor.dfy): the descriptor and its methods. `unsqueeze`
  and `squeeze` are written as their loops are (`UnsqueezeLoop`,
  `SqueezeLoop`). Their closed forms are proved as the contracts of
  `Unsqueeze` and `Squeeze`.
- `Stacking` (stack.dfy): `_stack_meta` and `stack_meta`.
- `Dispatch` (dispatch.dfy): the handler table and `__torch_function__`.
- `Corrected` (corrected.dfy): the intended `squeeze` and `unsqueeze`, next to
  the inputs on which the code departs from them (see Findings).

The model follows the code where it departs from what a reader of torch would
expect:

- `expand(*sizes)` prepends `sizes` to the shape. The class docstring example
  (`torchrl/data/tensordict/metatensor.py:58`) claims that `MetaTensor(3, 4).expand(2, 3, 4)`
  has shape (2, 3, 4), but the code gives (2, 3, 4, 3, 4). It is unclear whether
  the docstring or the code states the intent, so this is recorded here and not
  as a finding. `MetaTensors.Expand` models the code.
- `unsqueeze` and `squeeze` do not count a negative `dim` from the end. A negative
  `dim` makes `unsqueeze` exhaust the shape (IndexError), and `squeeze` leaves the
  shape unchanged.
- `permute` does not check that `dims` is a permutation. It gathers with Python
  tuple indexing, so negative entries count from the end.
- `share_memory_` after `memmap_` leaves the class name "SharedTensor" on a
  memory-mapped descriptor, although a freshly built descriptor with both flags
  is named "MemmapTensor" (`MetaTensors.StorageCallOrderMatters`).

## Model

| member | source | states |
|---|---|---|
| `MetaTensors.Create` | torchrl/data/tensordict/metatensor.py:90-107 | building from integer dims keeps shape, device, dtype and flags; `ndim` is the number of dims; `numel` is their product (1 for the empty shape); class name by precedence memmap > shared > plain; the descriptor is coherent |
| `MetaTensors.CreateDefault` | torchrl/data/tensordict/metatensor.py:63-70 | without keywords the descriptor is on the cpu with the constructor's default dtype (the value `torch.get_default_dtype()` had when the class was defined, a parameter here), has no storage flags and is named "Tensor" |
| `MetaTensors.CreatedNumelZeroIff` | torchrl/data/tensordict/metatensor.py:98 | the cached element count is 0 exactly when some dimension is 0 (a corollary of `Create` and `Shapes.Product`) |
| `MetaTensors.Memmap` | torchrl/data/tensordict/metatensor.py:109-118 | `memmap_` sets only the memmap flag and the class name "MemmapTensor"; everything else is unchanged; the name then agrees with the flags |
| `MetaTensors.ShareMemory` | torchrl/data/tensordict/metatensor.py:120-130 | `share_memory_` sets only the shared flag and the class name "SharedTensor"; the name agrees with the flags exactly when the descriptor was not memory-mapped |
| `MetaTensors.StorageCallOrderMatters` | torchrl/data/tensordict/metatensor.py:101-130 | `memmap_` then `share_memory_` yields "SharedTensor" with both flags set, contradicting the build-time precedence; the other order yields "MemmapTensor" |
| `MetaTensors.Numel` | torchrl/data/tensordict/metatensor.py:138-139 | `numel()` returns the product of the shape whenever the caches describe the shape |
| `MetaTensors.Ndimension` | torchrl/data/tensordict/metatensor.py:141-142 | `ndimension()` returns the length of the shape whenever the caches describe the shape |
| `MetaTensors.Clone` | torchrl/data/tensordict/metatensor.py:144-157 | the clone has equal shape, device, dtype and flags, with fresh caches and class name; it equals the original exactly when the original was coherent |
| `MetaTensors.CloneIdempotent` | torchrl/data/tensordict/metatensor.py:144-157 | cloning a clone gives the same descriptor |
| `MetaTensors.GetItem` | torchrl/data/tensordict/metatensor.py:162-169 | indexing keeps device, dtype and the shared flag and drops the memmap flag; the indexed shape is an input |
| `MetaTensors.Expand` | torchrl/data/tensordict/metatensor.py:187-189 | `expand(d1..dk)` has shape `[d1..dk] ++ shape` with the same device and dtype, both flags reset, and `numel` equal to the product of the sizes times the old element count |
| `MetaTensors.ExpandComposes` | torchrl/data/tensordict/metatensor.py:187-189 | expanding by `a` and then by `b` is one expansion by `b ++ a` |
| `MetaTensors.UnsqueezeLoop` | torchrl/data/tensordict/metatensor.py:201-206 | the loop either raises IndexError or yields the accumulated entries followed by exactly one entry per remaining iteration |
| `MetaTensors.UnsqueezeLoopResult` | torchrl/data/tensordict/metatensor.py:199-206 | the whole loop over a shape of length n yields the shape with a 1 inserted at `dim` when `0 <= dim <= n`, and raises IndexError for every other `dim` (a negative `dim` exhausts the list) |
| `MetaTensors.UnsqueezeLoopCopies` | torchrl/data/tensordict/metatensor.py:201-206 | once `dim` is behind, the loop copies the remaining entries or raises IndexError when they run out |
| `MetaTensors.UnsqueezeLoopInserts` | torchrl/data/tensordict/metatensor.py:201-206 | while `dim` is ahead, the loop inserts 1 at `dim` among the remaining entries or raises IndexError when they run out |
| `MetaTensors.Unsqueeze` | torchrl/data/tensordict/metatensor.py:197-208 | succeeds exactly for `0 <= dim <= n`, else IndexError; the result has length n+1, a 1 at `dim`, and gives the original shape when that entry is deleted; flags come from the clone; `ndim` and `numel` are the length and product of the input's shape |
| `MetaTensors.UnsqueezeCaches` | torchrl/data/tensordict/metatensor.py:197-208 | after `unsqueeze` the cached `numel` still equals the product of the new shape, but `ndimension()` is one less than its length |
| `MetaTensors.SqueezeLoop` | torchrl/data/tensordict/metatensor.py:217-222 | the loop appends at most one entry per remaining iteration (length bounds in its contract) |
| `MetaTensors.SqueezeLoopKeepsAcc` | torchrl/data/tensordict/metatensor.py:217-222 | the loop never removes what was already appended: the accumulated entries stay a prefix of the result |
| `MetaTensors.SqueezeLoopBeforeSkip` | torchrl/data/tensordict/metatensor.py:217-222 | the loop copies the shape, except that when the entry at `dim` is 1 it drops the last entry |
| `MetaTensors.SqueezeLoopAfterSkip` | torchrl/data/tensordict/metatensor.py:217-222 | after skipping without consuming the head, the loop copies all remaining entries but the last |
| `MetaTensors.Squeeze` | torchrl/data/tensordict/metatensor.py:210-224 | without `dim` the result is the shape without its 1s followed by the whole shape; with `shape[dim] == 1` the result is the shape without its last entry; otherwise the shape is unchanged; flags kept; `ndim` and `numel` are the length and product of the input's shape |
| `MetaTensors.SqueezeNoOp` | torchrl/data/tensordict/metatensor.py:210-224 | squeezing a `dim` out of range or of size other than 1 yields the clone |
| `MetaTensors.UnsqueezeSqueezeAtEnd` | torchrl/data/tensordict/metatensor.py:197-224 | squeezing the dimension that `unsqueeze` appended at the end restores the shape |
| `MetaTensors.Permute` | torchrl/data/tensordict/metatensor.py:226-230 | succeeds exactly when every index is a valid tuple index, else IndexError; the result has length `len(dims)` and i-th entry `shape[dims[i]]`; flags and stale caches come from the clone |
| `MetaTensors.PermuteRearranges` | torchrl/data/tensordict/metatensor.py:226-230 | for a permutation of `0..n-1` the result rearranges the shape (same multiset), keeps the product, and leaves the caches correct |
| `MetaTensors.PermuteInverse` | torchrl/data/tensordict/metatensor.py:226-230 | permuting by `p` and then by an inverse of `p` restores the shape |
| `Shapes.Product` | torchrl/data/tensordict/metatensor.py:98 | `np.prod` of the shape: 1 for the empty shape, and 0 exactly when some dimension is 0 |
| `Shapes.ProductAppend` | torchrl/data/tensordict/metatensor.py:98 | the element count of a concatenation of shapes is the product of their counts (used for `expand` and stacking) |
| `Shapes.ProductMultiset` | torchrl/data/tensordict/metatensor.py:98 | two shapes with the same dimensions in any order have the same element count (used for `permute`) |
| `Shapes.Gather` | torchrl/data/tensordict/metatensor.py:228 | the comprehension `[shape[d] for d in dims]` succeeds exactly when all indices are in range and picks the indexed entries |
| `Shapes.GatherPermutation` | torchrl/data/tensordict/metatensor.py:228 | gathering along a permutation yields a rearrangement of the shape |
| `Shapes.DropOnes` | torchrl/data/tensordict/metatensor.py:214 | the filtered shape has no 1s, keeps every other entry with its multiplicity, and has the same product |
| `Shapes.DropOnesSingle` | torchrl/data/tensordict/metatensor.py:214 | a one-entry shape keeps its entry exactly when it is not 1 |
| `Shapes.DropOnesAppend` | torchrl/data/tensordict/metatensor.py:214 | filtering a concatenation filters each part and keeps the parts in order, so the kept entries keep their original order |
| `Shapes.InsertPosition` | torchrl/data/tensordict/metatensor.py:270 | `list.insert` counts a negative index from the end and clamps to `0..n` |
| `Shapes.PyInsert` | torchrl/data/tensordict/metatensor.py:269-270 | the inserted list is one longer, holds the value at the clamped position, gives back the list when that entry is deleted, and multiplies the product by the value |
| `Errors.Raised` | torchrl/data/tensordict/metatensor.py:255-268 | the empty list and a shape mismatch raise RuntimeError; TypeError is raised exactly for a dtype mismatch, and IndexError exactly for an index out of range (:205, :228) |
| `Stacking.FirstUnstackable` | torchrl/data/tensordict/metatensor.py:257-268 | the `safe` loop stops at the first descriptor whose shape or dtype differs; all earlier ones pass |
| `Stacking.StackMetaWith` | torchrl/data/tensordict/metatensor.py:247-271 | the empty-list RuntimeError is raised exactly for an empty list; with `safe`, success exactly when all shapes and dtypes match, else the first mismatch decides between RuntimeError (shape) and TypeError (dtype); without `safe`, success; the shape is the first shape with the count inserted at `dim`; dtype and device as given; no flags; `numel` is the count times the first element count |
| `Stacking.StackMeta` | torchrl/data/tensordict/metatensor.py:274-292 | dtype and device come from the first descriptor; the empty-list error exactly for an empty list; a failed `safe` check raises the shape error or the dtype error as the first failing descriptor's shape differs or not; the count sits at the clamped `dim` and deleting it gives the first shape |
| `Stacking.SafeStackAgreesWithUnsafe` | torchrl/data/tensordict/metatensor.py:257-271 | when the `safe` check passes it does not change the result |
| `Stacking.StackNumel` | torchrl/data/tensordict/metatensor.py:269-271 | every successful stack of m descriptors of n elements, with or without the `safe` check, reports m·n elements |
| `Stacking.StackExamples` | torchrl/data/tensordict/metatensor.py:59-60 | ten (3, 4) descriptors stacked at 1 (or -1) give (3, 10, 4); at 7 give (3, 4, 10); at -7 give (10, 3, 4) |
| `Dispatch.Register` | torchrl/data/tensordict/metatensor.py:22-30 | registering adds or replaces exactly one entry of the table |
| `Dispatch.TorchFunctionOverride` | torchrl/data/tensordict/metatensor.py:171-185 | returns NotImplemented exactly when the function is unregistered or some argument type is not tensor-like; otherwise the registered handler's result |
| `Dispatch.DispatchAsLoaded` | torchrl/data/tensordict/metatensor.py:274-275 | with the table as loaded, `torch.stack` on tensor-like arguments is answered by `stack_meta`, any other function is declined |
| `Dispatch.ForeignTypeDeclines` | torchrl/data/tensordict/metatensor.py:181-184 | one non-tensor argument type makes the override decline whatever is registered |
| `Corrected.SqueezeIntended` | torchrl/data/tensordict/metatensor.py:210-224 | intended `squeeze`: removes all 1s, or exactly the size-1 entry at `dim`; keeps the product; caches fresh |
| `Corrected.SqueezeUndoesUnsqueeze` | torchrl/data/tensordict/metatensor.py:197-224 | the intended `squeeze` at `dim` undoes `unsqueeze` at `dim` for every valid `dim` |
| `Corrected.SqueezeDimDropsLastEntry` | torchrl/data/tensordict/metatensor.py:217-222 | as written, squeezing dim 0 of (1, 3) gives (1); intended gives (3) |
| `Corrected.SqueezeAllRepeatsShape` | torchrl/data/tensordict/metatensor.py:213-223 | as written, squeezing (1, 3) without dim gives (3, 1, 3); intended gives (3) |
| `Corrected.UnsqueezeIntended` | torchrl/data/tensordict/metatensor.py:197-208 | intended `unsqueeze`: same shape as written, with `ndimension()` n+1 and fresh caches |
| `Corrected.UnsqueezeReportsStaleNdim` | torchrl/data/tensordict/metatensor.py:207 | as written, (3, 4) unsqueezed at 0 has shape (1, 3, 4) but `ndimension()` 2 |

## Left out

- The tensor-argument constructor path (`torchrl/data/tensordict/metatensor.py:72-89`) reads attributes of a live torch tensor inside a bare `try/except`. Only the integer-dimension path is modelled.
- `view` (`torchrl/data/tensordict/metatensor.py:232-244`) delegates shape inference to a torch tensor on the meta device. That inference is not part of this model.
- `_to_meta` and `__repr__` allocate a torch tensor or format a string. Neither has shape logic.
- `MetaTensors.GetItem`: the indexed shape comes from `_getitem_batch_size`, which is not part of this model. It is therefore an input, and only the flags and cache behaviour are stated.
- `MetaTensors.Create`: dimensions are naturals and the element count is unbounded. Negative sizes, and the 64-bit wrap-around of `np.prod` on shapes with more than 2^63 elements, are not modelled.
- `is_shared()` and `is_memmap()` are the fields `isShared` and `isMemmap`. They have no member of their own.
- Devices and dtypes are compared by name only. The conversion `torch.device(device)` and `torch.get_default_dtype()` are not modelled; the default dtype is a parameter. Two different values play that role: the constructor's default argument is evaluated once, when the class is defined (`torchrl/data/tensordict/metatensor.py:67`), while `stack_meta` reads the current default on every call (`torchrl/data/tensordict/metatensor.py:283`).
- `Dispatch.TorchFunctionOverride`: `issubclass(t, (torch.Tensor, MetaTensor))` is an input flag per argument type. Packing `*args, **kwargs` is modelled as already-bound stack arguments.
- Object identity is not modelled: `memmap_` and `share_memory_` return `self`, and here they return the updated value.
- `test/test_cost.py` exercises loss modules, target updaters, `hold_out_net` and the multi-step transform. Their implementations are not part of this model, and its checks are gradient and floating-point assertions under random seeds.

## Findings

| source | as written | input that shows it | evidently intended | confidence | as-written member | corrected member |
|---|---|---|---|---|---|---|
| torchrl/data/tensordict/metatensor.py:217-222 | `squeeze(dim)` skips the size-1 entry with `continue` without dropping it from the working list, so the last entry is lost instead | shape (1, 3), `squeeze(0)` gives (1) | remove the entry at `dim`, giving (3) | high; not executed | `Corrected.SqueezeDimDropsLastEntry` | `Corrected.SqueezeIntended` |
| torchrl/data/tensordict/metatensor.py:213-222 | `squeeze()` seeds the result with the shape without its 1s, and then the loop appends every original entry too | shape (1, 3), `squeeze()` gives (3, 1, 3) | the shape without its 1s, (3) | high; not executed | `Corrected.SqueezeAllRepeatsShape` | `Corrected.SqueezeIntended` |
| torchrl/data/tensordict/metatensor.py:207 | `unsqueeze` replaces the clone's shape but keeps the cached `_ndim` | shape (3, 4), `unsqueeze(0).ndimension()` gives 2 | 3, the length of (1, 3, 4) | medium; not executed | `Corrected.UnsqueezeReportsStaleNdim` | `Corrected.UnsqueezeIntended` |
