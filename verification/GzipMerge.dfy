/** The loop of build_tree that combines the two least frequent nodes until one is left. The
    heap and the growing list of nodes sorted by frequency share one array. */
module GzipMerge {
  import opened GzipHeap

  function Max(x: nat, y: nat): nat { if x > y then x else y }

  lemma HeapNewNode(h: seq<nat>, len: nat, key: nat -> int, key': nat -> int, node: nat)
    requires 1 <= len < |h| && Heap(h, len, key, 1)
    requires forall i :: 1 <= i <= len ==> h[i] < node
    requires forall n: nat :: n < node ==> key'(n) == key(n)
    ensures Heap(h[1 := node], len, key', 2)
  {
  }

  lemma KeysExtend(freq: seq<nat>, depth: seq<nat>, node: nat, f: nat, d: nat)
    requires node < |freq| <= |depth|
    ensures forall n: nat :: n < node ==> Keys(freq[node := f], depth[node := d])(n) == Keys(freq, depth)(n)
  {
  }

  /** The nodes in the heap. */
  ghost function Active(h: seq<nat>, len: nat): multiset<nat>
    requires len < |h|
  {
    multiset(h[1..len + 1])
  }

  lemma ActiveMember(h: seq<nat>, len: nat, a: nat)
    requires len < |h|
    ensures a in Active(h, len) <==> exists i :: 1 <= i <= len && h[i] == a
  {
    if a in Active(h, len) {
      var i :| 0 <= i < len && h[1..len + 1][i] == a;
      assert h[i + 1] == a;
    }
    if i :| 1 <= i <= len && h[i] == a {
      assert h[1..len + 1][i - 1] == a;
    }
  }

  lemma ActiveBelow(h: seq<nat>, len: nat, bound: nat)
    requires len < |h|
    ensures (forall i :: 1 <= i <= len ==> h[i] < bound) <==> (forall a :: a in Active(h, len) ==> a < bound)
  {
    if forall a :: a in Active(h, len) ==> a < bound {
      forall i | 1 <= i <= len ensures h[i] < bound {
        ActiveMember(h, len, h[i]);
      }
    }
    if forall i :: 1 <= i <= len ==> h[i] < bound {
      forall a | a in Active(h, len) ensures a < bound {
        ActiveMember(h, len, a);
      }
    }
  }

  /** A heap that loses its last element and gets that one as new root. */
  lemma HeapDropRoot(h: seq<nat>, len: nat, key: nat -> int, size: nat)
    requires 2 <= len < |h| && Heap(h, len, key, 1) && InTree(h, len, size)
    ensures Heap(h[1 := h[len]], len - 1, key, 2) && InTree(h[1 := h[len]], len - 1, size)
    ensures Active(h[1 := h[len]], len - 1) == Active(h, len) - multiset{h[1]} && h[1] in Active(h, len)
  {
    var g := h[1 := h[len]];
    assert h[1..len + 1] == [h[1]] + h[2..len + 1];
    assert h[2..len + 1] == h[2..len] + [h[len]];
    assert g[1..len] == [h[len]] + h[2..len];
  }

  lemma PermutedFacts(h: seq<nat>, g: seq<nat>, len: nat, k: nat)
    requires Permuted(h, g, len) && len < k <= |h|
    ensures |g| == |h| && Active(g, len) == Active(h, len) && g[k..] == h[k..]
  {
    assert g[k..] == g[len + 1..][k - len - 1..];
    assert h[k..] == h[len + 1..][k - len - 1..];
  }

  /** PQREMOVE: the least node leaves the heap. */
  method PqRemove(heap: array<nat>, heapLen: nat, freq: array<nat>, depth: array<nat>, ghost k: nat) returns (top: nat)
    requires Ready(heap, heapLen, freq, depth) && heapLen >= 2 && heapLen < k <= heap.Length
    requires Heap(heap[..], heapLen, Keys(freq[..], depth[..]), 1)
    modifies heap
    ensures top == old(heap[1]) && Ready(heap, heapLen - 1, freq, depth)
    ensures Heap(heap[..], heapLen - 1, Keys(freq[..], depth[..]), 1)
    ensures Active(heap[..], heapLen - 1) == Active(old(heap[..]), heapLen) - multiset{top}
    ensures heap[..][k..] == old(heap[..])[k..]
  {
    hide Heap, Keys, InTree, Active, Permuted;
    ghost var h := heap[..];
    HeapDropRoot(h, heapLen, Keys(freq[..], depth[..]), freq.Length);
    top := heap[1];
    heap[1] := heap[heapLen];
    ghost var g := heap[..];
    assert g == h[1 := h[heapLen]];
    PqDownHeap(heap, heapLen - 1, freq, depth, 1);
    PermutedFacts(g, heap[..], heapLen - 1, k);
    assert g[k..] == h[k..];
  }

  /** The root has the least frequency of all nodes in the heap. */
  lemma LeastFrequency(h: seq<nat>, len: nat, freq: seq<nat>, depth: seq<nat>)
    requires 1 <= len < |h| && Heap(h, len, Keys(freq, depth), 1) && InTree(h, len, |freq|) && |freq| <= |depth|
    requires forall i :: 0 <= i < |depth| ==> depth[i] < 256
    ensures h[1] in Active(h, len)
    ensures forall a :: a in Active(h, len) ==> a < |freq| && freq[h[1]] <= freq[a]
  {
    hide Active;
    ActiveMember(h, len, h[1]);
    forall a | a in Active(h, len) ensures a < |freq| && freq[h[1]] <= freq[a] {
      ActiveMember(h, len, a);
      var i :| 1 <= i <= len && h[i] == a;
      RootIsLeast(h, len, Keys(freq, depth), i);
    }
  }

  /** Entries behind the heap do not matter. */
  lemma HeapLocal(h: seq<nat>, g: seq<nat>, len: nat, key: nat -> int, size: nat)
    requires len < |h| == |g| && (forall i :: 0 <= i <= len ==> g[i] == h[i]) && Heap(h, len, key, 1)
    requires InTree(h, len, size)
    ensures Heap(g, len, key, 1) && InTree(g, len, size) && Active(g, len) == Active(h, len)
  {
    assert g[1..len + 1] == h[1..len + 1];
  }

  ghost predicate Least(n: nat, nodes: multiset<nat>, freq: seq<nat>) {
    n in nodes && n < |freq| && forall a :: a in nodes ==> a < |freq| && freq[n] <= freq[a]
  }

  /** The two least nodes go to the front of the list; the second is still the root. */
  method TakeTwo(heap: array<nat>, heapLen: nat, heapMax: nat, fc: array<nat>, depth: array<nat>)
    returns (n: nat, m: nat)
    requires Ready(heap, heapLen, fc, depth)
    requires 2 <= heapLen && heapLen + 2 < heapMax <= heap.Length
    requires Heap(heap[..], heapLen, Keys(fc[..], depth[..]), 1)
    modifies heap
    ensures Ready(heap, heapLen - 1, fc, depth)
    ensures Heap(heap[..], heapLen - 1, Keys(fc[..], depth[..]), 1) && heap[1] == m
    ensures heap[..][heapMax - 2..] == [m, n] + old(heap[..])[heapMax..]
    ensures Active(heap[..], heapLen - 1) == Active(old(heap[..]), heapLen) - multiset{n}
    ensures Least(n, Active(old(heap[..]), heapLen), fc[..]) && Least(m, Active(heap[..], heapLen - 1), fc[..])
  {
    hide Heap, Keys, InTree, Active;
    ghost var f, d, h := fc[..], depth[..], heap[..];
    LeastFrequency(h, heapLen, f, d);
    n := PqRemove(heap, heapLen, fc, depth, heapMax);
    ghost var g := heap[..];
    LeastFrequency(g, heapLen - 1, f, d);
    m := heap[1];
    heap[heapMax - 1] := n;
    heap[heapMax - 2] := m;
    HeapLocal(g, heap[..], heapLen - 1, Keys(f, d), fc.Length);
    assert heap[..][heapMax - 2..] == [m, n] + g[heapMax..];
  }

  lemma NewNode(h: seq<nat>, len: nat, freq: seq<nat>, depth: seq<nat>, node: nat, f: nat, d: nat)
    requires 1 <= len < |h| && node < |freq| <= |depth| && Heap(h, len, Keys(freq, depth), 1)
    requires forall a :: a in Active(h, len) ==> a < node
    ensures Heap(h[1 := node], len, Keys(freq[node := f], depth[node := d]), 2) && InTree(h[1 := node], len, |freq|)
    ensures Active(h[1 := node], len) == Active(h, len) - multiset{h[1]} + multiset{node}
  {
    hide Heap, Keys;
    ActiveBelow(h, len, node);
    KeysExtend(freq, depth, node, f, d);
    HeapNewNode(h, len, Keys(freq, depth), Keys(freq[node := f], depth[node := d]), node);
    var g := h[1 := node];
    assert g[1..len + 1] == [node] + h[2..len + 1] && h[1..len + 1] == [h[1]] + h[2..len + 1];
  }

  /** The root is replaced by its new father. */
  method Adopt(heap: array<nat>, heapLen: nat, fc: array<nat>, dl: array<nat>, depth: array<nat>,
               node: nat, n: nat, m: nat, ghost k: nat)
    requires Ready(heap, heapLen, fc, depth) && heap != dl && fc != dl && dl != depth && fc != depth
    requires 1 <= heapLen < k <= heap.Length && node < fc.Length == dl.Length && n < node && m < node && heap[1] == m
    requires forall a :: a in Active(heap[..], heapLen) ==> a < node
    requires Heap(heap[..], heapLen, Keys(fc[..], depth[..]), 1) && fc[n] + fc[m] < 0x10000
    modifies heap, fc, dl, depth
    ensures Ready(heap, heapLen, fc, depth)
    ensures Heap(heap[..], heapLen, Keys(fc[..], depth[..]), 1)
    ensures heap[..][k..] == old(heap[..])[k..]
    ensures Active(heap[..], heapLen) == Active(old(heap[..]), heapLen) - multiset{m} + multiset{node}
    ensures fc[..] == old(fc[..])[node := old(fc[n]) + old(fc[m])]
    ensures dl[..] == old(dl[..])[n := node][m := node]
  {
    hide Heap, Keys, InTree, Active, Permuted;
    ghost var h, f, d := heap[..], fc[..], depth[..];
    fc[node] := (fc[n] + fc[m]) % 0x10000;
    depth[node] := (Max(depth[n], depth[m]) + 1) % 256;
    dl[n] := node;
    dl[m] := node;
    NewNode(h, heapLen, f, d, node, fc[node], depth[node]);
    assert fc[..] == f[node := fc[node]] && depth[..] == d[node := depth[node]];
    heap[1] := node;
    ghost var g := heap[..];
    assert g == h[1 := node];
    PqDownHeap(heap, heapLen, fc, depth, 1);
    PermutedFacts(g, heap[..], heapLen, k);
    assert g[k..] == h[k..];
  }

  // ---- Sums over the nodes in the heap

  ghost function Sum(nodes: multiset<nat>, f: seq<nat>): nat
    requires forall a :: a in nodes ==> a < |f|
    decreases |nodes|
  {
    if nodes == multiset{} then 0
    else
      var x := Pick(nodes);
      f[x] + Sum(nodes - multiset{x}, f)
  }

  ghost function Pick(nodes: multiset<nat>): (x: nat)
    requires nodes != multiset{}
    ensures x in nodes
  {
    var x :| x in nodes;
    x
  }

  lemma {:induction false} SumRemove(nodes: multiset<nat>, f: seq<nat>, y: nat)
    requires (forall a :: a in nodes ==> a < |f|) && y in nodes
    ensures Sum(nodes, f) == f[y] + Sum(nodes - multiset{y}, f)
    decreases |nodes|
  {
    hide Pick;
    var x := Pick(nodes);
    if x == y {
    } else {
      SumRemove(nodes - multiset{x}, f, y);
      SumRemove(nodes - multiset{y}, f, x);
      assert nodes - multiset{x} - multiset{y} == nodes - multiset{y} - multiset{x};
    }
  }

  lemma {:induction false} SumSame(nodes: multiset<nat>, f: seq<nat>, g: seq<nat>)
    requires forall a :: a in nodes ==> a < |f| && a < |g| && f[a] == g[a]
    ensures Sum(nodes, f) == Sum(nodes, g)
    decreases |nodes|
  {
    if nodes == multiset{} {
    } else {
      var x := Pick(nodes);
      SumSame(nodes - multiset{x}, f, g);
      SumRemove(nodes, g, x);
    }
  }

  /** Combining two nodes keeps the sum of all frequencies. */
  lemma SumMerge(nodes: multiset<nat>, f: seq<nat>, n: nat, m: nat, node: nat)
    requires multiset{n, m} <= nodes && node < |f| && forall a :: a in nodes ==> a < node
    ensures f[n] + f[m] <= Sum(nodes, f)
    ensures var next := nodes - multiset{n} - multiset{m} + multiset{node};
            (forall a :: a in next ==> a < |f|) && Sum(next, f[node := f[n] + f[m]]) == Sum(nodes, f)
  {
    var rest := nodes - multiset{n} - multiset{m};
    SumRemove(nodes, f, n);
    SumRemove(nodes - multiset{n}, f, m);
    var g := f[node := f[n] + f[m]];
    SumSame(rest, f, g);
    SumRemove(rest + multiset{node}, g, node);
    assert rest + multiset{node} - multiset{node} == rest;
  }
}
