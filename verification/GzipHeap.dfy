/** The in-place heap that build_tree uses, ordered by frequency and subtree depth. */
module GzipHeap {
  /** The heap property from node `from` down; the sons of `i` are `2i` and `2i+1`. */
  ghost predicate Heap(h: seq<nat>, len: nat, key: nat -> int, from: nat)
    requires len < |h|
  {
    forall i :: 2 <= i <= len && from <= i / 2 ==> key(h[i / 2]) <= key(h[i])
  }

  /** The heap property except that the element at `k` may be above its sons. */
  ghost predicate Sifting(h: seq<nat>, len: nat, key: nat -> int, from: nat, k: nat)
    requires len < |h| && 1 <= k <= len
  {
    && (forall i :: 2 <= i <= len && from <= i / 2 && i / 2 != k ==> key(h[i / 2]) <= key(h[i]))
    && (from <= k / 2 ==> forall i :: 2 <= i <= len && i / 2 == k ==> key(h[k / 2]) <= key(h[i]))
  }

  /** Same elements in `1..len`, nothing else touched. */
  ghost predicate Permuted(h: seq<nat>, g: seq<nat>, len: nat) {
    && |h| == |g| && len < |h| && multiset(h[1..len + 1]) == multiset(g[1..len + 1])
    && h[0] == g[0] && h[len + 1..] == g[len + 1..]
  }

  lemma PermutedTrans(f: seq<nat>, g: seq<nat>, h: seq<nat>, len: nat)
    requires Permuted(f, g, len) && Permuted(g, h, len)
    ensures Permuted(f, h, len)
  {
  }

  function Swap(h: seq<nat>, i: nat, j: nat): (r: seq<nat>)
    requires i < |h| && j < |h|
    ensures |r| == |h|
  {
    h[i := h[j]][j := h[i]]
  }

  lemma SwapPermutes(h: seq<nat>, i: nat, j: nat, len: nat)
    requires 1 <= i < j <= len < |h|
    ensures Permuted(h, Swap(h, i, j), len)
  {
    var s, g := h[1..len + 1], Swap(h, i, j);
    assert g[1..len + 1] == s[i - 1 := s[j - 1]][j - 1 := s[i - 1]];
    MultisetSwap(s, i - 1, j - 1);
  }

  lemma MultisetSwap(s: seq<nat>, i: nat, j: nat)
    requires i < j < |s|
    ensures multiset(s[i := s[j]][j := s[i]]) == multiset(s)
  {
    var t := s[i := s[j]][j := s[i]];
    var a, m, z := s[..i], s[i + 1..j], s[j + 1..];
    assert s == a + [s[i]] + m + [s[j]] + z;
    assert t == a + [s[j]] + m + [s[i]] + z;
  }

  /** One step down: the smaller son `j` moves up. */
  lemma SiftStep(h: seq<nat>, len: nat, key: nat -> int, from: nat, k: nat, j: nat)
    requires len < |h| && 1 <= from <= k <= len && Sifting(h, len, key, from, k)
    requires LeastSon(h, len, key, k, j) && key(h[j]) <= key(h[k])
    ensures Sifting(Swap(h, k, j), len, key, from, j) && Permuted(h, Swap(h, k, j), len)
  {
    SwapPermutes(h, k, j, len);
    var g := Swap(h, k, j);
    forall i | 2 <= i <= len && from <= i / 2 && i / 2 != j
      ensures key(g[i / 2]) <= key(g[i])
    {
      if i == k {
        assert key(h[k / 2]) <= key(h[j]);
      } else if i / 2 == k {
        assert i == 2 * k || i == 2 * k + 1;
      } else {
        assert key(h[i / 2]) <= key(h[i]);
      }
    }
    forall i | 2 <= i <= len && i / 2 == j
      ensures key(g[j / 2]) <= key(g[i])
    {
      assert key(h[i / 2]) <= key(h[i]);
    }
  }

  lemma SiftDone(h: seq<nat>, len: nat, key: nat -> int, from: nat, k: nat)
    requires len < |h| && 1 <= from <= k <= len && Sifting(h, len, key, from, k)
    requires Settled(h, len, key, k)
    ensures Heap(h, len, key, from)
  {
  }

  ghost predicate Settled(h: seq<nat>, len: nat, key: nat -> int, k: nat)
    requires len < |h| && 1 <= k <= len
  {
    forall i :: 2 <= i <= len && i / 2 == k ==> key(h[k]) <= key(h[i])
  }

  lemma SiftStarts(h: seq<nat>, len: nat, key: nat -> int, k: nat)
    requires len < |h| && 1 <= k <= len && Heap(h, len, key, k + 1)
    ensures Sifting(h, len, key, k, k) && Permuted(h, h, len)
  {
  }

  lemma NoSons(h: seq<nat>, len: nat, key: nat -> int, k: nat)
    requires len < |h| && 1 <= k <= len < 2 * k
    ensures Settled(h, len, key, k)
  {
  }

  /** `j` is the only or the smaller son of `k`. */
  ghost predicate LeastSon(h: seq<nat>, len: nat, key: nat -> int, k: nat, j: nat)
    requires len < |h| && 1 <= k
  {
    && j / 2 == k && j <= len
    && (2 * k <= len ==> key(h[j]) <= key(h[2 * k])) && (2 * k + 1 <= len ==> key(h[j]) <= key(h[2 * k + 1]))
  }

  lemma LeastSonSettles(h: seq<nat>, len: nat, key: nat -> int, k: nat, j: nat)
    requires len < |h| && 1 <= k <= len && LeastSon(h, len, key, k, j) && key(h[k]) <= key(h[j])
    ensures Settled(h, len, key, k)
  {
    forall i | 2 <= i <= len && i / 2 == k ensures key(h[k]) <= key(h[i]) {
      assert i == 2 * k || i == 2 * k + 1;
    }
  }

  /** The root is smallest. */
  lemma {:induction false} RootIsLeast(h: seq<nat>, len: nat, key: nat -> int, i: nat)
    requires len < |h| && Heap(h, len, key, 1) && 1 <= i <= len
    ensures key(h[1]) <= key(h[i])
  {
    if i <= 1 {
    } else {
      RootIsLeast(h, len, key, i / 2);
    }
  }

  /** SMALLER(tree, n, m) */
  predicate Smaller(fn: nat, dn: nat, fm: nat, dm: nat) {
    fn < fm || (fn == fm && dn <= dm)
  }

  /** Frequency first, then depth, as one number. */
  function Key(f: nat, d: nat): int { 256 * f + d }

  lemma SmallerIsKey(fn: nat, dn: nat, fm: nat, dm: nat)
    requires dn < 256 && dm < 256
    ensures Smaller(fn, dn, fm, dm) <==> Key(fn, dn) <= Key(fm, dm)
  {
  }

  /** The key of each node, from the tree's frequencies and the depths. */
  ghost function Keys(freq: seq<nat>, depth: seq<nat>): nat -> int {
    (n: nat) => if n < |freq| && n < |depth| then Key(freq[n], depth[n]) else 0
  }

  /** All heap entries are nodes of the tree. */
  ghost predicate InTree(h: seq<nat>, len: nat, size: nat) {
    len < |h| && forall i :: 1 <= i <= len ==> h[i] < size
  }

  ghost predicate Ready(heap: array<nat>, heapLen: nat, freq: array<nat>, depth: array<nat>)
    reads heap, freq, depth
  {
    && heap != freq && heap != depth && heapLen < heap.Length && freq.Length <= depth.Length
    && (forall i :: 0 <= i < depth.Length ==> depth[i] < 256)
    && InTree(heap[..], heapLen, freq.Length)
  }

  /** The smaller son of `k`. */
  method SmallerSon(heap: array<nat>, heapLen: nat, freq: array<nat>, depth: array<nat>, k: nat) returns (j: nat)
    requires Ready(heap, heapLen, freq, depth) && 1 <= k && 2 * k <= heapLen
    ensures LeastSon(heap[..], heapLen, Keys(freq[..], depth[..]), k, j)
  {
    j := 2 * k;
    if j < heapLen {
      var s, t := heap[j], heap[j + 1];
      SmallerIsKey(freq[t], depth[t], freq[s], depth[s]);
      if Smaller(freq[t], depth[t], freq[s], depth[s]) {
        j := j + 1;
      }
    }
  }

  /** Whether node `v` need not sink below node `s`. */
  method Stays(freq: array<nat>, depth: array<nat>, v: nat, s: nat) returns (r: bool)
    requires freq.Length <= depth.Length && v < freq.Length && s < freq.Length
    requires forall i :: 0 <= i < depth.Length ==> depth[i] < 256
    ensures var key := Keys(freq[..], depth[..]); r <==> key(v) <= key(s)
  {
    SmallerIsKey(freq[v], depth[v], freq[s], depth[s]);
    r := Smaller(freq[v], depth[v], freq[s], depth[s]);
  }

  lemma LeastSonSame(h: seq<nat>, g: seq<nat>, len: nat, key: nat -> int, k: nat, j: nat, x: nat)
    requires len < |h| && 1 <= k <= len && |g| == |h| && h == g[k := x] && LeastSon(h, len, key, k, j)
    ensures LeastSon(g, len, key, k, j) && g[j] == h[j]
  {
  }

  lemma InTreeSwap(h: seq<nat>, len: nat, size: nat, k: nat, j: nat, x: nat)
    requires InTree(h, len, size) && 1 <= k <= len && 1 <= j <= len
    ensures InTree(Swap(h, k, j), len, size)
    ensures x < size ==> InTree(h[k := x], len, size)
  {
  }

  lemma SiftedIsHeap(g: seq<nat>, len: nat, key: nat -> int, from: nat, k: nat, settled: bool)
    requires len < |g| && 1 <= from <= k <= len && Sifting(g, len, key, from, k)
    requires if settled then Settled(g, len, key, k) else len < 2 * k
    ensures Heap(g, len, key, from)
  {
    hide Heap, Sifting, Settled;
    if !settled {
      NoSons(g, len, key, k);
    }
    SiftDone(g, len, key, from, k);
  }

  /** pqdownheap: the element at `k0` sinks to its place. */
  method PqDownHeap(heap: array<nat>, heapLen: nat, freq: array<nat>, depth: array<nat>, k0: nat)
    requires Ready(heap, heapLen, freq, depth) && 1 <= k0 <= heapLen
    requires Heap(heap[..], heapLen, Keys(freq[..], depth[..]), k0 + 1)
    modifies heap
    ensures Ready(heap, heapLen, freq, depth)
    ensures Heap(heap[..], heapLen, Keys(freq[..], depth[..]), k0)
    ensures Permuted(old(heap[..]), heap[..], heapLen)
  {
    hide Heap, Sifting, Permuted, Settled, Keys, LeastSon, InTree;
    ghost var key, h0, g := Keys(freq[..], depth[..]), heap[..], heap[..];
    var k := k0;
    var v := heap[k];
    assert v < freq.Length by { Bound(heap[..], heapLen, freq.Length, k); }
    SiftStarts(h0, heapLen, key, k0);
    var settled := false;
    while !settled && 2 * k <= heapLen
      invariant k0 <= k <= heapLen && |g| == heap.Length && g[k] == v
      invariant heap[..] == g[k := heap[k]]
      invariant Ready(heap, heapLen, freq, depth) && InTree(g, heapLen, freq.Length)
      invariant Sifting(g, heapLen, key, k0, k) && Permuted(h0, g, heapLen)
      invariant settled ==> Settled(g, heapLen, key, k)
      decreases heapLen - k, !settled
    {
      var j := SmallerSon(heap, heapLen, freq, depth, k);
      LeastSonSame(heap[..], g, heapLen, key, k, j, heap[k]);
      SonRange(g, heapLen, key, k, j);
      Bound(heap[..], heapLen, freq.Length, j);
      settled := Stays(freq, depth, v, heap[j]);
      if settled {
        LeastSonSettles(g, heapLen, key, k, j);
      } else {
        SiftStep(g, heapLen, key, k0, k, j);
        PermutedTrans(h0, g, Swap(g, k, j), heapLen);
        InTreeSwap(g, heapLen, freq.Length, k, j, 0);
        InTreeSwap(heap[..], heapLen, freq.Length, k, j, heap[j]);
        heap[k] := heap[j];
        g := Swap(g, k, j);
        k := j;
      }
    }
    heap[k] := v;
    assert heap[..] == g;
    SiftedIsHeap(g, heapLen, key, k0, k, settled);
  }

  lemma Bound(h: seq<nat>, len: nat, size: nat, i: nat)
    requires InTree(h, len, size) && 1 <= i <= len
    ensures h[i] < size
  {
  }

  lemma SonRange(h: seq<nat>, len: nat, key: nat -> int, k: nat, j: nat)
    requires len < |h| && 1 <= k && LeastSon(h, len, key, k, j)
    ensures k < j <= len
  {
  }
}
