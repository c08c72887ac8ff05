/** build_tree: the symbols that occur become the leaves of the heap, at least two of them. */
module GzipLeaves {
  import opened KraftSums
  import opened GzipHeap
  import opened GzipMerge
  import opened GzipForest

  /** The heap holds exactly the symbols of nonzero frequency among the first `n`, and `sum` is the
      sum of their frequencies. */
  ghost predicate Leaves(h: seq<nat>, len: nat, fc: seq<nat>, elems: nat, n: nat, sum: nat) {
    && len < |h| && n <= elems <= |fc| && Contains(Active(h, len), fc[..n], elems, elems)
    && InTree(h, len, |fc|) && (forall a :: a in Active(h, len) ==> a < |fc|) && Sum(Active(h, len), fc) == sum
    && |Active(h, len)| == len
  }

  lemma LeavesStart(h: seq<nat>, fc: seq<nat>, elems: nat)
    requires |h| > 0 && elems <= |fc|
    ensures Leaves(h, 0, fc, elems, 0, 0)
  {
    assert h[1..1] == [];
  }

  /** A new leaf at the end of the heap; `fc'` differs from `fc` at most there. */
  lemma AddLeaf(h: seq<nat>, len: nat, fc: seq<nat>, fc': seq<nat>, elems: nat, n: nat, n': nat, sum: nat, x: nat)
    requires Leaves(h, len, fc, elems, n, sum) && len + 1 < |h| && n <= n' <= elems && x < n' && |fc'| == |fc|
    requires (x < n ==> fc[x] == 0) && fc'[x] != 0 && forall y :: 0 <= y < |fc| && y != x ==> fc'[y] == fc[y]
    requires forall y :: n <= y < n' && y != x ==> fc[y] == 0
    ensures Leaves(h[len + 1 := x], len + 1, fc', elems, n', sum + fc'[x])
  {
    hide Sum, InTree, Active, Contains;
    var a := Active(h, len);
    OneMoreActive(h, len, x);
    ContainsOneMore(a, fc, fc', elems, n, n', x);
    SumSame(a, fc, fc');
    SumRemove(a + multiset{x}, fc', x);
    assert a + multiset{x} - multiset{x} == a;
    LeafInTree(h, len, |fc|, x);
  }

  lemma OneMoreActive(h: seq<nat>, len: nat, x: nat)
    requires len + 1 < |h|
    ensures Active(h[len + 1 := x], len + 1) == Active(h, len) + multiset{x}
  {
    assert h[len + 1 := x][1..len + 2] == h[1..len + 1] + [x];
  }

  lemma ContainsOneMore(a: multiset<nat>, fc: seq<nat>, fc': seq<nat>, elems: nat, n: nat, n': nat, x: nat)
    requires n <= n' <= elems <= |fc| == |fc'| && x < n' && Contains(a, fc[..n], elems, elems)
    requires (x < n ==> fc[x] == 0) && fc'[x] != 0 && forall y :: 0 <= y < |fc| && y != x ==> fc'[y] == fc[y]
    requires forall y :: n <= y < n' && y != x ==> fc[y] == 0
    ensures a[x] == 0 && Contains(a + multiset{x}, fc'[..n'], elems, elems)
  {
    assert a[x] == Mult(fc[..n], elems, elems, x) == 0;
    forall y: nat ensures (a + multiset{x})[y] == Mult(fc'[..n'], elems, elems, y) {
      assert a[y] == Mult(fc[..n], elems, elems, y);
    }
  }

  lemma LeafInTree(h: seq<nat>, len: nat, size: nat, x: nat)
    requires InTree(h, len, size) && len + 1 < |h| && x < size
    ensures InTree(h[len + 1 := x], len + 1, size)
  {
  }

  lemma SkipLeaf(h: seq<nat>, len: nat, fc: seq<nat>, elems: nat, n: nat, n': nat, sum: nat)
    requires Leaves(h, len, fc, elems, n, sum) && n <= n' <= elems && forall y :: n <= y < n' ==> fc[y] == 0
    ensures Leaves(h, len, fc, elems, n', sum)
  {
    hide Sum, InTree, Active;
    forall y: nat ensures Mult(fc[..n'], elems, elems, y) == Mult(fc[..n], elems, elems, y) {
    }
  }

  /** A heap of at most one leaf: all other symbols have frequency zero. */
  lemma OnlyLeaf(h: seq<nat>, len: nat, fc: seq<nat>, elems: nat, sum: nat, x: nat, y: nat)
    requires Leaves(h, len, fc, elems, elems, sum) && len <= 1 && x < elems && y < elems && x != y && fc[x] != 0
    ensures fc[y] == 0
  {
    var a := Active(h, len);
    assert a[x] == Mult(fc[..elems], elems, elems, x) == 1 && a[y] == Mult(fc[..elems], elems, elems, y);
    if fc[y] != 0 {
      assert false;
    }
  }

  /** The first loop of build_tree. */
  method CollectLeaves(heap: array<nat>, depth: array<nat>, fc: array<nat>, dl: array<nat>, elems: nat)
    returns (heapLen: nat, maxCode: int)
    requires heap != depth && heap != dl && heap != fc && depth != dl && depth != fc && dl != fc
    requires elems < heap.Length && elems <= fc.Length == dl.Length && elems <= depth.Length
    requires forall i :: 0 <= i < depth.Length ==> depth[i] < 256
    modifies heap, depth, dl
    ensures heapLen <= elems && Leaves(heap[..], heapLen, fc[..], elems, elems, SeqSum(fc[..][..elems]))
    ensures forall i :: 0 <= i < depth.Length ==> depth[i] < 256
    ensures forall x :: 0 <= x < elems && fc[x] == 0 ==> dl[x] == 0
    ensures -1 <= maxCode < elems && (maxCode >= 0 ==> fc[maxCode] != 0) && (maxCode == -1 <==> heapLen == 0)
    ensures forall x :: maxCode < x < elems ==> fc[x] == 0
  {
    hide Leaves, SeqSum;
    heapLen, maxCode := 0, -1;
    LeavesStart(heap[..], fc[..], elems);
    SumStart(fc[..]);
    for n := 0 to elems
      invariant heapLen <= n && Leaves(heap[..], heapLen, fc[..], elems, n, SeqSum(fc[..][..n]))
      invariant forall i :: 0 <= i < depth.Length ==> depth[i] < 256
      invariant forall x :: 0 <= x < n && fc[x] == 0 ==> dl[x] == 0
      invariant -1 <= maxCode < n && (maxCode >= 0 ==> fc[maxCode] != 0) && (maxCode == -1 <==> heapLen == 0)
      invariant forall x :: maxCode < x < n ==> fc[x] == 0
    {
      ghost var h := heap[..];
      SumNext(fc[..], n);
      if fc[n] != 0 {
        AddLeaf(h, heapLen, fc[..], fc[..], elems, n, n + 1, SeqSum(fc[..][..n]), n);
        heapLen := heapLen + 1;
        heap[heapLen] := n;
        maxCode := n;
        depth[n] := 0;
        assert heap[..] == h[heapLen := n];
      } else {
        SkipLeaf(h, heapLen, fc[..], elems, n, n + 1, SeqSum(fc[..][..n]));
        dl[n] := 0;
      }
    }
  }

  lemma SumStart(fc: seq<nat>)
    ensures SeqSum(fc[..0]) == 0
  {
  }

  lemma SumNext(fc: seq<nat>, n: nat)
    requires n < |fc|
    ensures SeqSum(fc[..n + 1]) == SeqSum(fc[..n]) + fc[n]
  {
    assert fc[..n + 1][..n] == fc[..n];
  }

  /** The frequencies after the forced codes `dummies` got frequency one. */
  ghost function Forced(freq: seq<nat>, dummies: seq<nat>): (r: seq<nat>)
    requires forall i :: 0 <= i < |dummies| ==> dummies[i] < |freq|
    ensures |r| == |freq|
  {
    if dummies == [] then freq else Forced(freq, dummies[..|dummies| - 1])[dummies[|dummies| - 1] := 1]
  }

  ghost function StaticSum(static_: seq<nat>, dummies: seq<nat>): nat
    requires static_ == [] || forall i :: 0 <= i < |dummies| ==> dummies[i] < |static_|
  {
    if static_ == [] || dummies == [] then 0
    else StaticSum(static_, dummies[..|dummies| - 1]) + static_[dummies[|dummies| - 1]]
  }

  /** The heap and the frequencies while codes are forced. */
  ghost predicate Forcing(heap: array<nat>, depth: array<nat>, fc: array<nat>, elems: nat, heapLen: nat, max: int, sum: nat)
    reads heap, depth, fc
  {
    && heap != depth && heap != fc && depth != fc
    && 3 <= elems < heap.Length && elems <= fc.Length && elems <= depth.Length && heapLen <= elems
    && (forall i :: 0 <= i < depth.Length ==> depth[i] < 256)
    && Leaves(heap[..], heapLen, fc[..], elems, elems, sum)
    && -1 <= max < elems && (max >= 0 ==> fc[max] != 0) && (max == -1 <==> heapLen == 0)
    && (forall x :: max < x < elems ==> fc[x] == 0)
  }

  /** One forced code. */
  method ForceOne(heap: array<nat>, depth: array<nat>, fc: array<nat>, elems: nat, heapLen: nat, max0: int, ghost sum: nat)
    returns (code: nat, max: int)
    requires Forcing(heap, depth, fc, elems, heapLen, max0, sum) && heapLen < 2
    modifies heap, depth, fc
    ensures Forcing(heap, depth, fc, elems, heapLen + 1, max, sum + 1)
    ensures code < 3 && code < fc.Length && old(fc[code]) == 0 && fc[..] == old(fc[..])[code := 1]
  {
    hide Leaves;
    ghost var h, f := heap[..], fc[..];
    max, code := max0, 0;
    if max < 2 {
      max := max + 1;
      code := max;
    } else {
      OnlyLeaf(h, heapLen, f, elems, sum, max, 0);
    }
    AddLeaf(h, heapLen, f, f[code := 1], elems, elems, elems, sum, code);
    heap[heapLen + 1] := code;
    fc[code] := 1;
    depth[code] := 0;
    assert heap[..] == h[heapLen + 1 := code] && fc[..] == f[code := 1];
  }

  /** The dummies were unused symbols. */
  ghost predicate Unused(freq: seq<nat>, dummies: seq<nat>) {
    && |freq| >= 3 && (forall i :: 0 <= i < |dummies| ==> dummies[i] < 3 && freq[dummies[i]] == 0)
    && forall i, j :: 0 <= i < j < |dummies| ==> dummies[i] != dummies[j]
  }

  lemma ForcedMore(freq: seq<nat>, dummies: seq<nat>, code: nat)
    requires Unused(freq, dummies) && code < 3 && Forced(freq, dummies)[code] == 0
    ensures Unused(freq, dummies + [code]) && Forced(freq, dummies + [code]) == Forced(freq, dummies)[code := 1]
  {
    assert (dummies + [code])[..|dummies|] == dummies;
    ForcedZero(freq, dummies, code);
  }

  lemma {:induction false} ForcedZero(freq: seq<nat>, dummies: seq<nat>, x: nat)
    requires (forall i :: 0 <= i < |dummies| ==> dummies[i] < |freq|) && x < |freq|
    ensures Forced(freq, dummies)[x] == if x in dummies then 1 else freq[x]
    decreases |dummies|
  {
    if dummies == [] {
    } else {
      ForcedZero(freq, dummies[..|dummies| - 1], x);
      assert dummies == dummies[..|dummies| - 1] + [dummies[|dummies| - 1]];
    }
  }

  /** Two leaves: all other symbols have frequency zero. */
  lemma TwoLeaves(h: seq<nat>, fc: seq<nat>, elems: nat, sum: nat) returns (x: nat, y: nat)
    requires Leaves(h, 2, fc, elems, elems, sum)
    ensures x < elems <= |fc| && y < elems && x != y && fc[x] != 0 && fc[y] != 0
    ensures forall z :: 0 <= z < elems && z != x && z != y ==> fc[z] == 0
  {
    x, y := h[1], h[2];
    var a := Active(h, 2);
    assert h[1..3] == [x, y];
    assert a == multiset{x, y};
    assert a[x] == Mult(fc[..elems], elems, elems, x) && a[y] == Mult(fc[..elems], elems, elems, y);
    forall z | 0 <= z < elems && z != x && z != y ensures fc[z] == 0 {
      assert a[z] == Mult(fc[..elems], elems, elems, z);
    }
  }

  lemma ForcedPrefix(freq: seq<nat>, dummies: seq<nat>, n: nat)
    requires Unused(freq, dummies) && 3 <= n <= |freq|
    ensures Unused(freq[..n], dummies) && Forced(freq, dummies)[..n] == Forced(freq[..n], dummies)
  {
    forall x | 0 <= x < n ensures Forced(freq, dummies)[x] == Forced(freq[..n], dummies)[x] {
      ForcedZero(freq, dummies, x);
      ForcedZero(freq[..n], dummies, x);
    }
  }

  /** What the forced codes add to a cost. */
  lemma {:induction false} ForcedCost(freq: seq<nat>, dummies: seq<nat>, bits: seq<nat>)
    requires Unused(freq, dummies) && |bits| == |freq|
    ensures Cost(Forced(freq, dummies), bits) == Cost(freq, bits) + CostOf(dummies, bits)
    decreases |dummies|
  {
    hide Cost;
    if dummies == [] {
    } else {
      var k := |dummies| - 1;
      ForcedCost(freq, dummies[..k], bits);
      ForcedZero(freq, dummies[..k], dummies[k]);
      CostFrequency(Forced(freq, dummies[..k]), bits, dummies[k], 1);
    }
  }

  ghost function CostOf(dummies: seq<nat>, bits: seq<nat>): nat
    requires forall i :: 0 <= i < |dummies| ==> dummies[i] < |bits|
  {
    if dummies == [] then 0 else CostOf(dummies[..|dummies| - 1], bits) + bits[dummies[|dummies| - 1]]
  }

  lemma {:induction false} CostOfOnes(dummies: seq<nat>, bits: seq<nat>)
    requires forall i :: 0 <= i < |dummies| ==> dummies[i] < |bits| && bits[dummies[i]] == 1
    ensures CostOf(dummies, bits) == |dummies|
    decreases |dummies|
  {
    if dummies == [] {
    } else {
      CostOfOnes(dummies[..|dummies| - 1], bits);
    }
  }

  lemma {:induction false} CostOfStatic(dummies: seq<nat>, bits: seq<nat>, static_: seq<nat>)
    requires static_ != []
    requires forall i :: 0 <= i < |dummies| ==> dummies[i] < |bits| && dummies[i] < |static_| && bits[dummies[i]] == static_[dummies[i]]
    ensures CostOf(dummies, bits) == StaticSum(static_, dummies)
    decreases |dummies|
  {
    if dummies == [] {
    } else {
      CostOfStatic(dummies[..|dummies| - 1], bits, static_);
    }
  }

  lemma StaticMore(static_: seq<nat>, dummies: seq<nat>, code: nat)
    requires static_ == [] || (|static_| >= 3 && code < 3 && forall i :: 0 <= i < |dummies| ==> dummies[i] < 3)
    ensures StaticSum(static_, dummies + [code]) == StaticSum(static_, dummies) + if static_ == [] then 0 else static_[code]
  {
    assert (dummies + [code])[..|dummies|] == dummies;
  }

  /** The loop that forces at least two codes of nonzero frequency. */
  method ForceTwo(heap: array<nat>, depth: array<nat>, fc: array<nat>, elems: nat, static_: seq<nat>, heapLen0: nat, maxCode0: int,
                  ghost sum0: nat)
    returns (heapLen: nat, maxCode: nat, opt: int, stat: int, ghost dummies: seq<nat>)
    requires Forcing(heap, depth, fc, elems, heapLen0, maxCode0, sum0) && (static_ == [] || |static_| >= elems)
    modifies heap, depth, fc
    ensures 2 <= heapLen && |dummies| == heapLen - heapLen0 && (dummies != [] ==> heapLen == 2)
    ensures Unused(old(fc[..]), dummies) && fc[..] == Forced(old(fc[..]), dummies)
    ensures Forcing(heap, depth, fc, elems, heapLen, maxCode, sum0 + |dummies|)
    ensures opt == -|dummies| && stat + StaticSum(static_, dummies) == 0
  {
    hide Forced, StaticSum, Leaves;
    ghost var freq := fc[..];
    heapLen, opt, stat, dummies := heapLen0, 0, 0, [];
    var max := maxCode0;
    NoDummies(freq, static_);
    while heapLen < 2
      invariant heapLen0 <= heapLen && |dummies| == heapLen - heapLen0 && (dummies != [] ==> heapLen <= 2)
      invariant Unused(freq, dummies) && fc[..] == Forced(freq, dummies)
      invariant Forcing(heap, depth, fc, elems, heapLen, max, sum0 + |dummies|)
      invariant opt == -|dummies| && stat + StaticSum(static_, dummies) == 0
    {
      var code;
      code, max := ForceOne(heap, depth, fc, elems, heapLen, max, sum0 + |dummies|);
      ForcedMore(freq, dummies, code);
      StaticMore(static_, dummies, code);
      heapLen := heapLen + 1;
      opt := opt - 1;
      if static_ != [] {
        stat := stat - static_[code];
      }
      dummies := dummies + [code];
    }
    maxCode := max;
  }

  lemma NoDummies(freq: seq<nat>, static_: seq<nat>)
    ensures Forced(freq, []) == freq && StaticSum(static_, []) == 0
  {
  }
}
