/** The node list that build_tree makes: every node once, fathers before sons, by decreasing
    frequency. */
module GzipForest {
  import opened GzipHeap
  import opened GzipMerge
  import opened GzipWeights
  import Huffman

  const HEAP_SIZE := 573

  /** How often node `x` occurs: symbols of nonzero frequency and inner nodes once each. */
  function Mult(freq: seq<nat>, elems: nat, node: nat, x: nat): nat {
    if x < elems then (if x < |freq| && freq[x] != 0 then 1 else 0)
    else if x < node then 1 else 0
  }

  ghost predicate Contains(nodes: multiset<nat>, freq: seq<nat>, elems: nat, node: nat) {
    forall x: nat :: nodes[x] == Mult(freq, elems, node, x)
  }

  /** The father of inner node number `elems + t - 1 - i` is at positions `2i` and `2i + 1`; sons are
      older than their father. */
  ghost predicate Linked(list: seq<nat>, dl: seq<nat>, elems: nat, t: nat) {
    |list| == 2 * t &&
    forall q :: 0 <= q < 2 * t ==>
      var father := elems + t - 1 - q / 2; list[q] < father && list[q] < |dl| && dl[list[q]] == father
  }

  ghost predicate InRange(list: seq<nat>, size: nat) {
    forall q :: 0 <= q < |list| ==> list[q] < size
  }

  ghost predicate Decreasing(list: seq<nat>, fc: seq<nat>)
    requires InRange(list, |fc|)
  {
    forall p, q :: 0 <= p < q < |list| ==> fc[list[q]] <= fc[list[p]]
  }

  /** Everything in the list is at most as frequent as everything in the heap. */
  ghost predicate Below(list: seq<nat>, nodes: multiset<nat>, fc: seq<nat>) {
    forall l, a :: l in list && a in nodes ==> l < |fc| && a < |fc| && fc[l] <= fc[a]
  }

  /** The state of the merging loop after `t` rounds. */
  ghost predicate Merging(list: seq<nat>, nodes: multiset<nat>, fc: seq<nat>, dl: seq<nat>, freq: seq<nat>, elems: nat,
                          t: nat) {
    && |fc| == |dl| == |freq| && elems + t <= |fc| && (forall x :: 0 <= x < elems ==> fc[x] == freq[x])
    && Contains(nodes + multiset(list), freq, elems, elems + t)
    && Linked(list, dl, elems, t) && InRange(list, |fc|)
    && Decreasing(list, fc) && Below(list, nodes, fc)
  }

  lemma NodeBounds(list: seq<nat>, nodes: multiset<nat>, fc: seq<nat>, dl: seq<nat>, freq: seq<nat>, elems: nat, t: nat)
    requires Merging(list, nodes, fc, dl, freq, elems, t)
    ensures |freq| >= elems && forall a :: a in nodes ==> a < elems + t && a !in list && (a < elems ==> freq[a] != 0)
  {
    forall a | a in nodes ensures a < elems + t && a !in list && (a < elems ==> freq[a] != 0) {
      assert (nodes + multiset(list))[a] == Mult(freq, elems, elems + t, a);
      assert multiset(list)[a] == 0;
      assert a in list <==> a in multiset(list);
    }
  }

  /** A round of the loop keeps everything. */
  lemma MergeKeeps(list: seq<nat>, nodes: multiset<nat>, fc: seq<nat>, dl: seq<nat>, freq: seq<nat>, elems: nat, t: nat,
                   n: nat, m: nat, fc': seq<nat>, dl': seq<nat>, nodes': multiset<nat>)
    requires Merging(list, nodes, fc, dl, freq, elems, t) && elems + t < |fc|
    requires Least(n, nodes, fc) && Least(m, nodes - multiset{n}, fc)
    requires fc' == fc[elems + t := fc[n] + fc[m]] && n < |dl| && m < |dl| && dl' == dl[n := elems + t][m := elems + t]
    requires nodes' == nodes - multiset{n} - multiset{m} + multiset{elems + t}
    ensures Merging([m, n] + list, nodes', fc', dl', freq, elems, t + 1)
  {
    hide Contains, Linked, Decreasing, Below;
    NodeBounds(list, nodes, fc, dl, freq, elems, t);
    ContainsMerge(list, nodes, freq, elems, t, n, m);
    LinkedMerge(list, dl, elems, t, n, m);
    assert forall l :: l in list ==> l < elems + t by { ListBelow(list, dl, elems, t); }
    DecreasingMerge(list, nodes, fc, elems + t, n, m);
    BelowMerge(list, nodes, fc, elems + t, n, m);
  }

  lemma ListBelow(list: seq<nat>, dl: seq<nat>, elems: nat, t: nat)
    requires Linked(list, dl, elems, t)
    ensures forall l :: l in list ==> l < elems + t
  {
  }

  lemma DecreasingMerge(list: seq<nat>, nodes: multiset<nat>, fc: seq<nat>, node: nat, n: nat, m: nat)
    requires InRange(list, |fc|) && Decreasing(list, fc) && Below(list, nodes, fc) && node < |fc|
    requires Least(n, nodes, fc) && Least(m, nodes - multiset{n}, fc) && n < node && m < node
    requires forall l :: l in list ==> l < node
    ensures InRange([m, n] + list, |fc|) && Decreasing([m, n] + list, fc[node := fc[n] + fc[m]])
  {
    var list', fc' := [m, n] + list, fc[node := fc[n] + fc[m]];
    assert m in nodes;
    forall p, q | 0 <= p < q < |list'| ensures fc'[list'[q]] <= fc'[list'[p]] {
      if q >= 2 {
        assert list'[q] == list[q - 2] && list[q - 2] in list;
        if p >= 2 {
          assert list'[p] == list[p - 2] && list[p - 2] in list;
        }
      }
    }
  }

  lemma BelowMerge(list: seq<nat>, nodes: multiset<nat>, fc: seq<nat>, node: nat, n: nat, m: nat)
    requires Below(list, nodes, fc) && node < |fc|
    requires Least(n, nodes, fc) && Least(m, nodes - multiset{n}, fc) && n < node && m < node
    requires (forall l :: l in list ==> l < node) && forall a :: a in nodes ==> a < node
    ensures Below([m, n] + list, nodes - multiset{n} - multiset{m} + multiset{node}, fc[node := fc[n] + fc[m]])
  {
    var list', fc' := [m, n] + list, fc[node := fc[n] + fc[m]];
    var nodes' := nodes - multiset{n} - multiset{m} + multiset{node};
    forall l, a | l in list' && a in nodes' ensures l < |fc'| && a < |fc'| && fc'[l] <= fc'[a] {
      assert l == m || l == n || l in list;
      assert m in nodes;
      if a != node {
        assert a in nodes - multiset{n} && a in nodes;
      }
    }
  }

  lemma ContainsMerge(list: seq<nat>, nodes: multiset<nat>, freq: seq<nat>, elems: nat, t: nat, n: nat, m: nat)
    requires Contains(nodes + multiset(list), freq, elems, elems + t) && multiset{n} + multiset{m} <= nodes
    ensures Contains(nodes - multiset{n} - multiset{m} + multiset{elems + t} + multiset([m, n] + list), freq, elems,
                     elems + t + 1)
  {
    var node := elems + t;
    var all := nodes + multiset(list);
    assert multiset([m, n] + list) == multiset([m, n]) + multiset(list);
    assert nodes - multiset{n} - multiset{m} + multiset{node} + multiset([m, n] + list) == all + multiset{node};
    forall x: nat ensures (all + multiset{node})[x] == Mult(freq, elems, node + 1, x) {
      assert all[x] == Mult(freq, elems, node, x);
    }
  }

  lemma LinkedMerge(list: seq<nat>, dl: seq<nat>, elems: nat, t: nat, n: nat, m: nat)
    requires Linked(list, dl, elems, t) && n < |dl| && m < |dl| && n < elems + t && m < elems + t
    requires n !in list && m !in list
    ensures Linked([m, n] + list, dl[n := elems + t][m := elems + t], elems, t + 1)
  {
    var list', dl' := [m, n] + list, dl[n := elems + t][m := elems + t];
    forall q | 0 <= q < 2 * (t + 1)
      ensures var father := elems + t - q / 2; list'[q] < father && list'[q] < |dl'| && dl'[list'[q]] == father
    {
      if q >= 2 {
        assert list'[q] == list[q - 2] && list[q - 2] in list;
        assert (q - 2) / 2 == q / 2 - 1;
      }
    }
  }

  // ---- The loops

  lemma LeavesAreHeap(h: seq<nat>, len: nat, key: nat -> int)
    requires len < |h|
    ensures Heap(h, len, key, len / 2 + 1)
  {
  }

  /** Sub-heaps of increasing size are established. */
  method Heapify(heap: array<nat>, heapLen: nat, freq: array<nat>, depth: array<nat>)
    requires Ready(heap, heapLen, freq, depth)
    modifies heap
    ensures Ready(heap, heapLen, freq, depth)
    ensures Heap(heap[..], heapLen, Keys(freq[..], depth[..]), 1)
    ensures Active(heap[..], heapLen) == Active(old(heap[..]), heapLen)
  {
    hide Heap, Keys, Active, Permuted;
    var n := heapLen / 2;
    LeavesAreHeap(heap[..], heapLen, Keys(freq[..], depth[..]));
    while n >= 1
      invariant 0 <= n <= heapLen / 2 && Ready(heap, heapLen, freq, depth)
      invariant Heap(heap[..], heapLen, Keys(freq[..], depth[..]), n + 1)
      invariant Active(heap[..], heapLen) == Active(old(heap[..]), heapLen)
    {
      ghost var h := heap[..];
      PqDownHeap(heap, heapLen, freq, depth, n);
      PermutedFacts(h, heap[..], heapLen, |h|);
      n := n - 1;
    }
  }

  /** The finished list: the root first. */
  ghost predicate Finished(list: seq<nat>, fc: seq<nat>, dl: seq<nat>, freq: seq<nat>, elems: nat, leaves: nat) {
    && leaves >= 2 && |list| == 2 * leaves - 1 && list[0] == elems + leaves - 2
    && |fc| == |dl| == |freq| && elems + leaves - 1 <= |fc| && (forall x :: 0 <= x < elems ==> fc[x] == freq[x])
    && Linked(list[1..], dl, elems, leaves - 1)
    && Contains(multiset(list), freq, elems, elems + leaves - 1)
    && InRange(list, |fc|) && Decreasing(list, fc)
  }

  lemma FinishList(list: seq<nat>, root: nat, fc: seq<nat>, dl: seq<nat>, freq: seq<nat>, elems: nat, leaves: nat)
    requires leaves >= 2 && Merging(list, multiset{root}, fc, dl, freq, elems, leaves - 1) && root == elems + leaves - 2
    ensures Finished([root] + list, fc, dl, freq, elems, leaves)
  {
    hide Contains, Decreasing, Below;
    assert ([root] + list)[1..] == list;
    assert multiset([root] + list) == multiset{root} + multiset(list);
    RootFirst(list, root, fc);
  }

  lemma RootFirst(list: seq<nat>, root: nat, fc: seq<nat>)
    requires InRange(list, |fc|) && Decreasing(list, fc) && root < |fc| && Below(list, multiset{root}, fc)
    ensures InRange([root] + list, |fc|) && Decreasing([root] + list, fc)
  {
    var l := [root] + list;
    assert root in multiset{root};
    forall p, q | 0 <= p < q < |l| ensures fc[l[q]] <= fc[l[p]] {
      assert l[q] == list[q - 1] && list[q - 1] in list;
    }
  }

  lemma OneActive(h: seq<nat>, x: nat)
    requires 1 < |h| && x in Active(h, 1)
    ensures Active(h, 1) == multiset{x} && h[1] == x
  {
    assert h[1..2] == [h[1]];
  }

  /** What holds between two rounds. */
  ghost predicate Between(heap: array<nat>, heapLen: nat, heapMax: nat, fc: array<nat>, dl: array<nat>, depth: array<nat>,
                          elems: nat, node: nat, freq: seq<nat>)
    reads heap, fc, dl, depth
  {
    && Ready(heap, heapLen, fc, depth) && heap != dl && fc != dl && dl != depth && fc != depth
    && heapLen < heapMax <= heap.Length && elems <= node <= fc.Length == dl.Length
    && Heap(heap[..], heapLen, Keys(fc[..], depth[..]), 1)
    && Merging(heap[..][heapMax..], Active(heap[..], heapLen), fc[..], dl[..], freq, elems, node - elems)
    && (forall a :: a in Active(heap[..], heapLen) ==> a < fc.Length)
    && Sum(Active(heap[..], heapLen), fc[..]) < 0x10000
  }

  /** What the nodes weigh, between two rounds. */
  ghost predicate Spending(heap: array<nat>, heapLen: nat, heapMax: nat, fc: array<nat>, elems: nat, node: nat, goal: nat)
    reads heap, fc
  {
    && heapLen < heap.Length && heapMax <= heap.Length && elems <= node
    && Weighed(heap[..][heapMax..], fc[..], elems, node - elems) && Spent(Active(heap[..], heapLen), fc[..], elems, node - elems, goal)
  }

  /** Combining nodes until one is left; the list ends up in `heap[heapMax..]`. */
  method Combine(heap: array<nat>, leaves: nat, fc: array<nat>, dl: array<nat>, depth: array<nat>, elems: nat)
    returns (heapMax: nat)
    requires Ready(heap, leaves, fc, depth) && heap != dl && fc != dl && dl != depth && fc != depth
    requires heap.Length == HEAP_SIZE && 2 <= leaves <= elems <= 286 && elems + leaves <= fc.Length == dl.Length
    requires Heap(heap[..], leaves, Keys(fc[..], depth[..]), 1)
    requires Contains(Active(heap[..], leaves), fc[..], elems, elems)
    requires (forall a :: a in Active(heap[..], leaves) ==> a < fc.Length) && Sum(Active(heap[..], leaves), fc[..]) < 0x10000
    modifies heap, fc, dl, depth
    ensures heapMax == HEAP_SIZE - (2 * leaves - 1)
    ensures Finished(heap[..][heapMax..], fc[..], dl[..], old(fc[..]), elems, leaves)
    ensures Priced(heap[..][heapMax..], fc[..], elems, leaves, Huffman.Merged(WeightsOf(Active(old(heap[..]), leaves), old(fc[..]))))
    ensures forall i :: 0 <= i < depth.Length ==> depth[i] < 256
    ensures forall x :: 0 <= x < elems && old(fc[x]) == 0 ==> dl[x] == old(dl[x])
  {
    hide Heap, Keys, Active, InTree, Merging, Finished, Contains, Least, Sum, Weighed, Spent, Priced, WeightsOf, Huffman.Merged;
    ghost var freq := fc[..];
    ghost var goal := Huffman.Merged(WeightsOf(Active(heap[..], leaves), freq));
    SpentStart(Active(heap[..], leaves), freq, elems);
    var heapLen, node := leaves, elems;
    heapMax := HEAP_SIZE;
    MergingStarts(Active(heap[..], leaves), freq, dl[..], elems);
    assert heap[..][heapMax..] == [];
    while heapLen >= 2
      invariant 1 <= heapLen <= leaves && node == elems + leaves - heapLen && heapMax == HEAP_SIZE - 2 * (leaves - heapLen)
      invariant Between(heap, heapLen, heapMax, fc, dl, depth, elems, node, freq)
      invariant Spending(heap, heapLen, heapMax, fc, elems, node, goal)
      invariant heapLen < leaves ==> node - 1 in Active(heap[..], heapLen)
      invariant forall x :: 0 <= x < elems && freq[x] == 0 ==> dl[x] == old(dl[x])
    {
      heapLen, heapMax, node := Round(heap, heapLen, heapMax, fc, dl, depth, elems, node, freq, goal);
    }
    OneActive(heap[..], node - 1);
    ghost var list := heap[..][heapMax..];
    FinishList(list, node - 1, fc[..], dl[..], freq, elems, leaves);
    PricedList(list, node - 1, fc[..], elems, leaves, goal);
    heapMax := heapMax - 1;
    heap[heapMax] := heap[1];
    assert heap[..][heapMax..] == [node - 1] + list;
  }

  lemma MergingStarts(nodes: multiset<nat>, freq: seq<nat>, dl: seq<nat>, elems: nat)
    requires Contains(nodes, freq, elems, elems) && |freq| == |dl| && elems <= |freq|
    ensures Merging([], nodes, freq, dl, freq, elems, 0)
  {
    assert nodes + multiset([]) == nodes;
  }

  /** One round of the loop. */
  method Round(heap: array<nat>, heapLen0: nat, heapMax0: nat, fc: array<nat>, dl: array<nat>, depth: array<nat>,
               elems: nat, node0: nat, ghost freq: seq<nat>, ghost goal: nat)
    returns (heapLen: nat, heapMax: nat, node: nat)
    requires Between(heap, heapLen0, heapMax0, fc, dl, depth, elems, node0, freq)
    requires Spending(heap, heapLen0, heapMax0, fc, elems, node0, goal)
    requires 2 <= heapLen0 && heapLen0 + 2 < heapMax0 && elems <= node0 < fc.Length
    modifies heap, fc, dl, depth
    ensures heapLen == heapLen0 - 1 && heapMax == heapMax0 - 2 && node == node0 + 1
    ensures Between(heap, heapLen, heapMax, fc, dl, depth, elems, node, freq)
    ensures Spending(heap, heapLen, heapMax, fc, elems, node, goal)
    ensures node0 in Active(heap[..], heapLen)
    ensures |freq| >= elems && forall x :: 0 <= x < elems && freq[x] == 0 ==> dl[x] == old(dl[x])
  {
    hide Heap, Keys, Active, InTree, Merging, Least, Sum, Weighed, Spent;
    ghost var list, nodes, f, l := heap[..][heapMax0..], Active(heap[..], heapLen0), fc[..], dl[..];
    var n, m := TakeTwo(heap, heapLen0, heapMax0, fc, depth);
    heapLen, heapMax, node := heapLen0 - 1, heapMax0 - 2, node0 + 1;
    RoundKeeps(list, nodes, f, l, freq, elems, node0, n, m);
    RoundSpends(list, nodes, f, elems, node0, n, m, goal);
    ghost var g := heap[..];
    Adopt(heap, heapLen, fc, dl, depth, node0, n, m, heapMax);
    assert heap[..][heapMax..] == g[heapMax..] == [m, n] + list;
  }

  lemma RoundKeeps(list: seq<nat>, nodes: multiset<nat>, f: seq<nat>, l: seq<nat>, freq: seq<nat>, elems: nat, node: nat,
                   n: nat, m: nat)
    requires elems <= node < |f| == |l| && Merging(list, nodes, f, l, freq, elems, node - elems)
    requires Least(n, nodes, f) && Least(m, nodes - multiset{n}, f) && (forall a :: a in nodes ==> a < |f|)
    requires Sum(nodes, f) < 0x10000
    ensures n < node && m < node && f[n] + f[m] < 0x10000 && forall a :: a in nodes - multiset{n} ==> a < node
    ensures |freq| >= elems && (n < elems ==> freq[n] != 0) && (m < elems ==> freq[m] != 0)
    ensures var nodes' := nodes - multiset{n} - multiset{m} + multiset{node};
            var f' := f[node := f[n] + f[m]];
            && Merging([m, n] + list, nodes', f', l[n := node][m := node], freq, elems, node + 1 - elems)
            && (forall a :: a in nodes' ==> a < |f|) && Sum(nodes', f') == Sum(nodes, f) && node in nodes'
  {
    hide Merging, Sum;
    NodeBounds(list, nodes, f, l, freq, elems, node - elems);
    assert m in nodes - multiset{n} && multiset{n, m} <= nodes;
    SumMerge(nodes, f, n, m, node);
    MergeKeeps(list, nodes, f, l, freq, elems, node - elems, n, m, f[node := f[n] + f[m]], l[n := node][m := node],
               nodes - multiset{n} - multiset{m} + multiset{node});
  }

  lemma RoundSpends(list: seq<nat>, nodes: multiset<nat>, f: seq<nat>, elems: nat, node: nat, n: nat, m: nat, goal: nat)
    requires elems <= node < |f| && n < node && m < node && Least(n, nodes, f) && Least(m, nodes - multiset{n}, f)
    requires Weighed(list, f, elems, node - elems) && Spent(nodes, f, elems, node - elems, goal)
    requires forall a :: a in nodes - multiset{n} ==> a < node
    ensures var f' := f[node := f[n] + f[m]];
            && Weighed([m, n] + list, f', elems, node + 1 - elems)
            && Spent(nodes - multiset{n} - multiset{m} + multiset{node}, f', elems, node + 1 - elems, goal)
  {
    hide Weighed, Spent, Least;
    WeighedStep(list, f, elems, node - elems, n, m);
    forall a | a in nodes ensures a < node {
      assert a == n || a in nodes - multiset{n};
    }
    SpentStep(nodes, f, elems, node - elems, goal, n, m);
  }
}
