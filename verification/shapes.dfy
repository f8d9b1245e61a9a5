/** Arithmetic on shapes (sequences of dimension sizes) shared by the
    descriptor operations: the element count `np.prod`, Python `list.insert`
    with its index clamping, Python tuple indexing for `permute`, and the
    facts about them that the descriptor contracts rely on. */
module Shapes {
  import opened Errors

  /** Number of elements of a tensor of shape `s`, as `np.prod` computes it;
      the empty shape (a scalar) has one element, and a shape has no elements
      exactly when one of its dimensions is 0. */
  function Product(s: seq<nat>): (p: nat)
    ensures p == 0 <==> 0 in s
  {
    if |s| == 0 then 1
    else
      assert s == [s[0]] + s[1..];
      s[0] * Product(s[1..])
  }

  /** The element count splits over a concatenation of shapes. */
  lemma {:induction false} ProductAppend(a: seq<nat>, b: seq<nat>)
    ensures Product(a + b) == Product(a) * Product(b)
  {
    if |a| == 0 {
      assert a + b == b;
    } else {
      assert (a + b)[1..] == a[1..] + b;
      ProductAppend(a[1..], b);
      assert Product(a + b) == a[0] * (Product(a[1..]) * Product(b));
      assert a[0] * (Product(a[1..]) * Product(b)) == (a[0] * Product(a[1..])) * Product(b);
    }
  }

  /** Inserting a dimension of size `x` anywhere multiplies the element count by `x`. */
  lemma ProductInsert(s: seq<nat>, k: nat, x: nat)
    requires k <= |s|
    ensures Product(s[..k] + [x] + s[k..]) == x * Product(s)
  {
    var front, back := s[..k], s[k..];
    var a, b := Product(front), Product(back);
    assert Product([x]) == x by {
      assert [x][1..] == [];
    }
    ProductAppend(front, [x]);
    assert Product(front + [x]) == a * x;
    ProductAppend(front + [x], back);
    assert Product(front + [x] + back) == (a * x) * b;
    ProductAppend(front, back);
    assert front + back == s;
    assert Product(s) == a * b;
    MulRotate(a, x, b);
  }

  lemma MulRotate(a: int, x: int, b: int)
    ensures (a * x) * b == x * (a * b)
  {
  }

  /** Rearranging the dimensions does not change the element count. */
  lemma {:induction false} ProductMultiset(a: seq<nat>, b: seq<nat>)
    requires multiset(a) == multiset(b)
    ensures Product(a) == Product(b)
    decreases |a|
  {
    if |a| == 0 {
      assert |multiset(b)| == 0;
    } else {
      var x := a[0];
      assert x in multiset(b);
      var j :| 0 <= j < |b| && b[j] == x;
      var b' := b[..j] + b[j + 1..];
      assert b'[..j] == b[..j];
      assert b'[j..] == b[j + 1..];
      assert b == b'[..j] + [x] + b'[j..];
      ProductInsert(b', j, x);
      assert a == [x] + a[1..];
      assert multiset(a[1..]) == multiset(a) - multiset{x};
      assert multiset(b') == multiset(b) - multiset{x};
      ProductMultiset(a[1..], b');
    }
  }

  /** `s` with every dimension of size 1 removed, in order (the comprehension
      `[i for i in shape if i != 1]`). */
  function DropOnes(s: seq<nat>): (r: seq<nat>)
    ensures |r| <= |s|
    ensures forall i :: 0 <= i < |r| ==> r[i] != 1
    ensures forall x :: x != 1 ==> multiset(r)[x] == multiset(s)[x]
    ensures Product(r) == Product(s)
  {
    if |s| == 0 then []
    else
      var rest := DropOnes(s[1..]);
      assert s == [s[0]] + s[1..];
      assert multiset(s) == multiset{s[0]} + multiset(s[1..]);
      if s[0] == 1 then rest
      else
        assert ([s[0]] + rest)[1..] == rest;
        [s[0]] + rest
  }

  /** A single entry is dropped exactly when it is 1. */
  lemma DropOnesSingle(x: nat)
    ensures DropOnes([x]) == if x == 1 then [] else [x]
  {
    assert [x][1..] == [];
  }

  /** Dropping the 1s of a concatenation drops them from each part and keeps
      the parts in order; with `DropOnesSingle` this fixes the order of the
      kept entries. */
  lemma {:induction false} DropOnesAppend(a: seq<nat>, b: seq<nat>)
    ensures DropOnes(a + b) == DropOnes(a) + DropOnes(b)
    decreases |a|
  {
    if |a| == 0 {
      assert a + b == b;
    } else {
      assert (a + b)[0] == a[0];
      assert (a + b)[1..] == a[1..] + b;
      DropOnesAppend(a[1..], b);
      if a[0] != 1 {
        assert [a[0]] + (DropOnes(a[1..]) + DropOnes(b)) == ([a[0]] + DropOnes(a[1..])) + DropOnes(b);
      }
    }
  }

  /** Position at which Python's `list.insert(i, x)` places `x` in a list of
      length `n`: a negative index counts from the end, and an index still
      below 0 or above `n` is clamped to the nearest end. */
  function InsertPosition(i: int, n: nat): (k: nat)
    ensures k <= n
    ensures 0 <= i <= n ==> k == i
    ensures -(n as int) <= i < 0 ==> k == n + i
    ensures i < -(n as int) ==> k == 0
    ensures i > n ==> k == n
  {
    if i < 0 then (if i + n < 0 then 0 else i + n)
    else if i > n then n
    else i
  }

  /** Deleting the entry inserted at `k` gives back the sequence. */
  lemma InsertedEntry(s: seq<nat>, k: int, x: nat)
    ensures 0 <= k <= |s| ==>
              var u := s[..k] + [x] + s[k..];
              |u| == |s| + 1 && u[k] == x && u[..k] + u[k + 1..] == s
  {
    if 0 <= k <= |s| {
      var u := s[..k] + [x] + s[k..];
      assert u[..k] == s[..k] && u[k + 1..] == s[k..];
      assert s[..k] + s[k..] == s;
    }
  }

  /** Python's `s.insert(i, x)` as a value. */
  function PyInsert(s: seq<nat>, i: int, x: nat): (r: seq<nat>)
    ensures |r| == |s| + 1
    ensures r[InsertPosition(i, |s|)] == x
    ensures r[..InsertPosition(i, |s|)] + r[InsertPosition(i, |s|) + 1..] == s
    ensures Product(r) == x * Product(s)
  {
    var k := InsertPosition(i, |s|);
    InsertedEntry(s, k, x);
    ProductInsert(s, k, x);
    s[..k] + [x] + s[k..]
  }

  /** `d` is a valid Python index into a tuple of length `n`. */
  predicate InBounds(d: int, n: nat)
  {
    -(n as int) <= d < n
  }

  /** The position a valid Python index `d` designates in a tuple of length `n`. */
  function Wrap(d: int, n: nat): (k: nat)
    requires InBounds(d, n)
    ensures k < n
    ensures d >= 0 ==> k == d
    ensures d < 0 ==> k == n + d
  {
    if d < 0 then d + n else d
  }

  /** `[s[d] for d in dims]` with Python tuple indexing: the first index outside
      `-len(s) .. len(s)-1` raises IndexError. */
  function Gather(s: seq<nat>, dims: seq<int>): (r: Result<seq<nat>>)
    ensures r.Ok? <==> forall i :: 0 <= i < |dims| ==> InBounds(dims[i], |s|)
    ensures r.Err? ==> r.error == IndexOutOfRange
    ensures r.Ok? ==> |r.value| == |dims|
    ensures r.Ok? ==> forall i :: 0 <= i < |dims| ==> r.value[i] == s[Wrap(dims[i], |s|)]
  {
    if |dims| == 0 then Ok([])
    else if !InBounds(dims[0], |s|) then Err(IndexOutOfRange)
    else
      var rest :- Gather(s, dims[1..]);
      Ok([s[Wrap(dims[0], |s|)]] + rest)
  }

  /** `dims` lists every position `0 .. n-1` exactly once. */
  ghost predicate IsPermutation(dims: seq<int>, n: nat)
  {
    && |dims| == n
    && (forall i :: 0 <= i < |dims| ==> 0 <= dims[i] < n)
    && (forall i, j :: 0 <= i < j < |dims| ==> dims[i] != dims[j])
    && (forall v :: 0 <= v < n ==> v in dims)
  }

  /** A permutation of `0 .. n-1` holds `n-1` at some position `k`; every
      other position holds a smaller index, and removing position `k` leaves
      a permutation of `0 .. n-2`. */
  lemma RemoveLargest(dims: seq<int>, n: nat) returns (k: nat, d': seq<int>)
    requires n > 0 && IsPermutation(dims, n)
    ensures k < |dims| && dims[k] == n - 1
    ensures forall i :: 0 <= i < |dims| && i != k ==> 0 <= dims[i] < n - 1
    ensures d' == dims[..k] + dims[k + 1..]
    ensures IsPermutation(d', n - 1)
  {
    assert n - 1 in dims;
    k :| 0 <= k < |dims| && dims[k] == n - 1;
    d' := dims[..k] + dims[k + 1..];
    assert forall i :: 0 <= i < |dims| && i != k ==> dims[i] != dims[k];
    RemovedEntries(dims, k, d');
    RemovedStillCovers(dims, n, k, d');
  }

  /** The entries of `dims` with position `k` removed, by position. */
  lemma RemovedEntries(dims: seq<int>, k: nat, d': seq<int>)
    requires k < |dims| && d' == dims[..k] + dims[k + 1..]
    ensures |d'| == |dims| - 1
    ensures forall i :: 0 <= i < k ==> d'[i] == dims[i]
    ensures forall i :: k <= i < |d'| ==> d'[i] == dims[i + 1]
  {
  }

  /** Removing the position of `n-1` from a permutation of `0 .. n-1` keeps
      every smaller index. */
  lemma RemovedStillCovers(dims: seq<int>, n: nat, k: nat, d': seq<int>)
    requires n > 0 && |dims| == n
    requires forall v :: 0 <= v < n ==> v in dims
    requires k < |dims| && dims[k] == n - 1
    requires |d'| == |dims| - 1
    requires forall i :: 0 <= i < k ==> d'[i] == dims[i]
    requires forall i :: k <= i < |d'| ==> d'[i] == dims[i + 1]
    ensures forall v :: 0 <= v < n - 1 ==> v in d'
  {
    forall v | 0 <= v < n - 1
      ensures v in d'
    {
      assert v in dims;
      var m :| 0 <= m < |dims| && dims[m] == v;
      if m < k {
        assert d'[m] == v;
      } else {
        assert d'[m - 1] == v;
      }
    }
  }

  /** If `g'` rearranges all but the last dimension of `s`, then inserting
      that last dimension anywhere in `g'` rearranges all of `s`. */
  lemma LastInserted(s: seq<nat>, g: seq<nat>, g': seq<nat>, k: nat)
    requires |s| > 0 && k <= |g'|
    requires g == g'[..k] + [s[|s| - 1]] + g'[k..]
    requires multiset(g') == multiset(s[..|s| - 1])
    ensures multiset(g) == multiset(s)
  {
    assert g'[..k] + g'[k..] == g';
    assert s[..|s| - 1] + [s[|s| - 1]] == s;
  }

  /** `[s[d] for d in dims]` for indices already known to be in range. */
  ghost function Pick(s: seq<nat>, dims: seq<int>): seq<nat>
    requires forall i :: 0 <= i < |dims| ==> 0 <= dims[i] < |s|
  {
    seq(|dims|, i requires 0 <= i < |dims| => s[dims[i]])
  }

  /** Picking with indices `0 .. n-1` where only position `k` holds `n-1`
      equals picking from the first `n-1` dimensions along the other indices,
      with the last dimension inserted at position `k`. */
  lemma PickSplit(s: seq<nat>, dims: seq<int>, k: nat, d': seq<int>)
    requires |s| > 0 && k < |dims| && dims[k] == |s| - 1
    requires forall i :: 0 <= i < |dims| && i != k ==> 0 <= dims[i] < |s| - 1
    requires d' == dims[..k] + dims[k + 1..]
    ensures forall i :: 0 <= i < |d'| ==> 0 <= d'[i] < |s| - 1
    ensures var g' := Pick(s[..|s| - 1], d');
            Pick(s, dims) == g'[..k] + [s[|s| - 1]] + g'[k..]
  {
    var n := |s|;
    var s' := s[..n - 1];
    assert forall i :: 0 <= i < |d'| ==> d'[i] == (if i < k then dims[i] else dims[i + 1]);
    var g := Pick(s, dims);
    var g' := Pick(s', d');
    var h := g'[..k] + [s[n - 1]] + g'[k..];
    forall i | 0 <= i < |g|
      ensures g[i] == h[i]
    {
      if i < k {
        assert g[i] == s[dims[i]] == s'[d'[i]] == g'[i];
      } else if i > k {
        assert g[i] == s[dims[i]] == s'[d'[i - 1]] == g'[i - 1];
      }
    }
  }

  /** Picking the dimensions of `s` along a permutation only rearranges them. */
  lemma {:induction false} PickPermutation(s: seq<nat>, dims: seq<int>)
    requires IsPermutation(dims, |s|)
    ensures multiset(Pick(s, dims)) == multiset(s)
    decreases |s|
  {
    var n := |s|;
    if n > 0 {
      var k, d' := RemoveLargest(dims, n);
      PickPermutation(s[..n - 1], d');
      PickStep(s, dims, k, d');
    }
  }

  /** The induction step of `PickPermutation`: if picking from the first
      `n-1` dimensions along the other indices rearranges them, picking from
      all `n` dimensions rearranges all of them. */
  lemma PickStep(s: seq<nat>, dims: seq<int>, k: nat, d': seq<int>)
    requires |s| > 0 && k < |dims| && dims[k] == |s| - 1
    requires forall i :: 0 <= i < |dims| && i != k ==> 0 <= dims[i] < |s| - 1
    requires d' == dims[..k] + dims[k + 1..]
    requires forall i :: 0 <= i < |d'| ==> 0 <= d'[i] < |s| - 1
    requires multiset(Pick(s[..|s| - 1], d')) == multiset(s[..|s| - 1])
    ensures multiset(Pick(s, dims)) == multiset(s)
  {
    PickSplit(s, dims, k, d');
    LastInserted(s, Pick(s, dims), Pick(s[..|s| - 1], d'), k);
  }

  /** Gathering the dimensions of `s` along a permutation succeeds and only
      rearranges them. */
  lemma GatherPermutation(s: seq<nat>, dims: seq<int>)
    requires IsPermutation(dims, |s|)
    ensures Gather(s, dims).Ok?
    ensures multiset(Gather(s, dims).value) == multiset(s)
  {
    PickPermutation(s, dims);
    assert Gather(s, dims).value == Pick(s, dims);
  }
}
