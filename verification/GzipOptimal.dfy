/** Code lengths that were not clamped are those of an optimal prefix code. */
module GzipOptimal {
  import opened BitString
  import C = Canonical
  import opened KraftSums
  import opened GzipMerge
  import opened GzipWeights
  import opened GzipForest
  import opened GzipSlots
  import Huffman

  // ---- Sums

  lemma {:induction false} SumConcat(a: seq<nat>, b: seq<nat>)
    ensures SeqSum(a + b) == SeqSum(a) + SeqSum(b)
    decreases |b|
  {
    if b == [] {
      assert a + b == a;
    } else {
      var k := |b| - 1;
      SumConcat(a, b[..k]);
      assert (a + b)[..|a| + k] == a + b[..k];
    }
  }

  lemma SumFront(s: seq<nat>)
    requires s != []
    ensures SeqSum(s) == s[0] + SeqSum(s[1..])
  {
    SumConcat([s[0]], s[1..]);
    assert [s[0]] + s[1..] == s;
    assert [s[0]][..0] == [];
  }

  lemma {:induction false} SumOfSums(a: seq<nat>, b: seq<nat>, c: seq<nat>)
    requires |a| == |b| == |c| && forall i :: 0 <= i < |a| ==> c[i] == a[i] + b[i]
    ensures SeqSum(c) == SeqSum(a) + SeqSum(b)
    decreases |a|
  {
    if a == [] {
    } else {
      var k := |a| - 1;
      SumOfSums(a[..k], b[..k], c[..k]);
    }
  }

  lemma {:induction false} CostIsSum(freq: seq<nat>, bits: seq<nat>, s: seq<nat>)
    requires |freq| == |bits| == |s| && forall i :: 0 <= i < |s| ==> s[i] == freq[i] * bits[i]
    ensures Cost(freq, bits) == SeqSum(s)
    decreases |s|
  {
    if s == [] {
    } else {
      var k := |s| - 1;
      CostIsSum(freq[..k], bits[..k], s[..k]);
    }
  }

  /** `s` holds the terms of the nodes, and zeros. */
  ghost predicate Terms(nodes: multiset<nat>, g: seq<nat>, n: nat, s: seq<nat>) {
    && (forall x :: x in nodes ==> x < n && nodes[x] == 1) && n <= |g| && |s| == n
    && forall x :: 0 <= x < n ==> s[x] == if x in nodes then g[x] else 0
  }

  /** A sum over nodes as a sum over all indices. */
  lemma {:induction false} SumOfNodes(nodes: multiset<nat>, g: seq<nat>, n: nat, s: seq<nat>)
    requires Terms(nodes, g, n, s)
    ensures (forall x :: x in nodes ==> x < |g|) && Sum(nodes, g) == SeqSum(s)
    decreases n
  {
    hide Sum;
    if n == 0 {
      NoNodes(nodes);
      SumOfNone(g);
    } else {
      var k := n - 1;
      TermsLess(nodes, g, k, s);
      hide Terms;
      if k in nodes {
        SumRemove(nodes, g, k);
        SumOfNodes(nodes - multiset{k}, g, k, s[..k]);
      } else {
        SumOfNodes(nodes, g, k, s[..k]);
      }
    }
  }

  lemma SumOfNone(g: seq<nat>)
    ensures Sum(multiset{}, g) == 0
  {
  }

  lemma TermsLess(nodes: multiset<nat>, g: seq<nat>, k: nat, s: seq<nat>)
    requires Terms(nodes, g, k + 1, s)
    ensures if k in nodes then s[k] == g[k] && Terms(nodes - multiset{k}, g, k, s[..k]) else s[k] == 0 && Terms(nodes, g, k, s[..k])
  {
  }

  lemma NoNodes(nodes: multiset<nat>)
    requires forall x :: x in nodes ==> x < 0
    ensures nodes == multiset{}
  {
    if nodes != multiset{} {
      var x := Pick(nodes);
      assert false;
    }
  }

  // ---- What the leaves cost

  /** Every node of the list is one bit longer than its father. */
  ghost predicate Deep(list: seq<nat>, dl: seq<nat>, elems: nat, leaves: nat, p: nat) {
    && leaves >= 2 && |list| == 2 * leaves - 1 && 1 <= p <= |list| && elems + leaves - 1 <= |dl|
    && (forall q :: 0 <= q < |list| ==> list[q] < elems + leaves - 1) && dl[list[0]] == 0
    && forall q :: 1 <= q < p ==> dl[list[q]] == dl[elems + leaves - 2 - (q - 1) / 2] + 1
  }

  /** Frequency times length, for the first `n` nodes of the list. */
  ghost function ListCost(list: seq<nat>, g: seq<nat>, n: nat): nat
    requires n <= |list| && forall q :: 0 <= q < |list| ==> list[q] < |g|
  {
    if n == 0 then 0 else ListCost(list, g, n - 1) + g[list[n - 1]]
  }

  lemma {:induction false} ListIsNodes(list: seq<nat>, g: seq<nat>, n: nat)
    requires n <= |list| && forall q :: 0 <= q < |list| ==> list[q] < |g|
    ensures forall a :: a in multiset(list[..n]) ==> a < |g|
    ensures Sum(multiset(list[..n]), g) == ListCost(list, g, n)
    decreases n
  {
    hide Sum;
    InListBelow(list, |g|, n);
    if n == 0 {
      assert multiset(list[..0]) == multiset{};
      SumNone(g);
    } else {
      ListIsNodes(list, g, n - 1);
      var before, x := multiset(list[..n - 1]), list[n - 1];
      OneMore(list, n);
      SumAdd(before, g, x);
    }
  }

  lemma SumNone(g: seq<nat>)
    ensures Sum(multiset{}, g) == 0
  {
  }

  lemma InListBelow(list: seq<nat>, size: nat, n: nat)
    requires n <= |list| && forall q :: 0 <= q < |list| ==> list[q] < size
    ensures forall a :: a in multiset(list[..n]) ==> a < size
  {
    forall a | a in multiset(list[..n]) ensures a < size {
      assert a in list[..n];
    }
  }

  lemma OneMore(list: seq<nat>, n: nat)
    requires 0 < n <= |list|
    ensures multiset(list[..n]) == multiset(list[..n - 1]) + multiset{list[n - 1]}
  {
    assert list[..n] == list[..n - 1] + [list[n - 1]];
  }

  lemma SumAdd(nodes: multiset<nat>, g: seq<nat>, x: nat)
    requires (forall a :: a in nodes ==> a < |g|) && x < |g|
    ensures (forall a :: a in nodes + multiset{x} ==> a < |g|) && Sum(nodes + multiset{x}, g) == Sum(nodes, g) + g[x]
  {
    hide Sum;
    SumRemove(nodes + multiset{x}, g, x);
    assert nodes + multiset{x} - multiset{x} == nodes;
  }

  /** Frequency times length of every node. */
  ghost function Products(fc: seq<nat>, dl: seq<nat>): (r: seq<nat>)
    requires |fc| == |dl|
    ensures |r| == |fc|
  {
    seq(|fc|, x requires 0 <= x < |fc| => fc[x] * dl[x])
  }

  /** Frequency times length plus one of the inner nodes. */
  ghost function InnerTerms(fc: seq<nat>, dl: seq<nat>, elems: nat, t: nat): (r: seq<nat>)
    requires |fc| == |dl| >= elems + t
    ensures |r| == t
  {
    seq(t, j requires 0 <= j < t => fc[elems + j] * dl[elems + j] + fc[elems + j])
  }

  /** Sons cost what their fathers cost with one bit more. */
  lemma {:induction false} SonsAndFathers(list: seq<nat>, fc: seq<nat>, dl: seq<nat>, elems: nat, leaves: nat, k: nat)
    requires Deep(list, dl, elems, leaves, |list|) && |fc| == |dl| && Weighed(list[1..], fc, elems, leaves - 1) && k <= leaves - 1
    ensures ListCost(list, Products(fc, dl), 2 * k + 1) == SeqSum(InnerTerms(fc, dl, elems, leaves - 1)[leaves - 1 - k..])
    decreases k
  {
    var t, g, z := leaves - 1, Products(fc, dl), InnerTerms(fc, dl, elems, leaves - 1);
    hide Weighed, Deep, SeqSum;
    DeepRange(list, dl, elems, leaves);
    if k == 0 {
      RootCostsNothing(list, fc, dl, elems, leaves);
      assert z[t..] == [];
      SeqSumZeros(z[t..]);
    } else {
      SonsAndFathers(list, fc, dl, elems, leaves, k - 1);
      FatherAndSons(list, fc, dl, elems, leaves, k - 1);
      var s := z[t - k..];
      assert s[1..] == z[t - (k - 1)..];
      SumFront(s);
    }
  }

  lemma DeepRange(list: seq<nat>, dl: seq<nat>, elems: nat, leaves: nat)
    requires Deep(list, dl, elems, leaves, |list|)
    ensures leaves >= 2 && |list| == 2 * leaves - 1 && forall q :: 0 <= q < |list| ==> list[q] < |dl|
  {
  }

  lemma RootCostsNothing(list: seq<nat>, fc: seq<nat>, dl: seq<nat>, elems: nat, leaves: nat)
    requires Deep(list, dl, elems, leaves, |list|) && |fc| == |dl|
    ensures list != [] && (forall q :: 0 <= q < |list| ==> list[q] < |dl|) && ListCost(list, Products(fc, dl), 1) == 0
  {
    assert fc[list[0]] * 0 == 0;
    assert ListCost(list, Products(fc, dl), 0) == 0;
  }

  lemma FatherAndSons(list: seq<nat>, fc: seq<nat>, dl: seq<nat>, elems: nat, leaves: nat, i: nat)
    requires Deep(list, dl, elems, leaves, |list|) && |fc| == |dl| && Weighed(list[1..], fc, elems, leaves - 1) && i < leaves - 1
    ensures forall q :: 0 <= q < |list| ==> list[q] < |dl|
    ensures ListCost(list, Products(fc, dl), 2 * i + 3)
         == ListCost(list, Products(fc, dl), 2 * i + 1) + InnerTerms(fc, dl, elems, leaves - 1)[leaves - 2 - i]
  {
    var a, b, f := list[2 * i + 1], list[2 * i + 2], elems + leaves - 2 - i;
    assert list[1..][2 * i] == a && list[1..][2 * i + 1] == b;
    assert dl[a] == dl[f] + 1 && dl[b] == dl[f] + 1;
    assert fc[f] == fc[a] + fc[b];
    var l := dl[f] + 1;
    assert fc[a] * l + fc[b] * l == (fc[a] + fc[b]) * l;
    assert fc[f] * l == fc[f] * dl[f] + fc[f];
  }

  /** The nodes of the finished list: the symbols that occur and all inner nodes, once each. */
  lemma ListNodes(list: seq<nat>, fc: seq<nat>, dl: seq<nat>, freq: seq<nat>, elems: nat, leaves: nat)
    requires Finished(list, fc, dl, freq, elems, leaves)
    ensures forall x :: x in multiset(list) ==> x < elems + leaves - 1 && multiset(list)[x] == 1
    ensures leaves >= 2 && |freq| == |fc| >= elems + leaves - 1
    ensures forall x :: 0 <= x < elems + leaves - 1 ==> (x in multiset(list) <==> x >= elems || freq[x] != 0)
  {
    hide Linked, InRange, Decreasing;
    forall x: nat ensures multiset(list)[x] == Mult(freq, elems, elems + leaves - 1, x) {
    }
  }

  ghost function LeafTerms(freq: seq<nat>, g: seq<nat>, elems: nat): (r: seq<nat>)
    requires elems <= |freq| && elems <= |g|
    ensures |r| == elems
  {
    seq(elems, x requires 0 <= x < elems => if freq[x] != 0 then g[x] else 0)
  }

  /** The whole list is the leaves and the inner nodes. */
  lemma LeavesAndInner(list: seq<nat>, fc: seq<nat>, dads: seq<nat>, freq: seq<nat>, elems: nat, leaves: nat, g: seq<nat>)
    requires Finished(list, fc, dads, freq, elems, leaves) && |g| == |fc| && forall q :: 0 <= q < |list| ==> list[q] < |g|
    ensures elems <= |freq| && elems + leaves - 1 <= |g|
    ensures ListCost(list, g, |list|) == SeqSum(LeafTerms(freq, g, elems)) + SeqSum(g[elems..elems + leaves - 1])
  {
    hide Finished, SeqSum, Sum, ListCost;
    ListNodes(list, fc, dads, freq, elems, leaves);
    ListIsNodes(list, g, |list|);
    assert list[..|list|] == list;
    var a, b := LeafTerms(freq, g, elems), g[elems..elems + leaves - 1];
    SumOfNodes(multiset(list), g, elems + leaves - 1, a + b);
    SumConcat(a, b);
  }

  /** What the symbols cost is what the inner nodes weigh. */
  lemma TreeCost(list: seq<nat>, fc: seq<nat>, dads: seq<nat>, dl: seq<nat>, freq: seq<nat>, elems: nat, leaves: nat, lens: seq<nat>,
                 goal: nat)
    requires Finished(list, fc, dads, freq, elems, leaves) && Priced(list, fc, elems, leaves, goal) && |dl| == |fc|
    requires Deep(list, dl, elems, leaves, |list|) && |lens| == elems <= |freq|
    requires forall x :: 0 <= x < elems && freq[x] != 0 ==> lens[x] == dl[x]
    ensures Cost(freq[..elems], lens) == goal
  {
    hide Finished, Deep, Weighed, SeqSum, Cost, ListCost;
    DeepRange(list, dl, elems, leaves);
    var g := Products(fc, dl);
    LeavesAndInner(list, fc, dads, freq, elems, leaves, g);
    FreqKept(list, fc, dads, freq, elems, leaves);
    var t, z := leaves - 1, InnerTerms(fc, dl, elems, leaves - 1);
    SonsAndFathers(list, fc, dl, elems, leaves, t);
    assert z[0..] == z;
    SumOfSums(g[elems..elems + t], fc[elems..elems + t], z);
    LeafCosts(freq, fc, dl, lens, elems);
  }

  lemma LeafCosts(freq: seq<nat>, fc: seq<nat>, dl: seq<nat>, lens: seq<nat>, elems: nat)
    requires |fc| == |dl| && |lens| == elems <= |freq| && elems <= |fc| && (forall x :: 0 <= x < elems ==> fc[x] == freq[x])
    requires forall x :: 0 <= x < elems && freq[x] != 0 ==> lens[x] == dl[x]
    ensures Cost(freq[..elems], lens) == SeqSum(LeafTerms(freq, Products(fc, dl), elems))
  {
    hide Cost, SeqSum;
    var a := LeafTerms(freq, Products(fc, dl), elems);
    forall x | 0 <= x < elems ensures a[x] == freq[..elems][x] * lens[x] {
      if freq[x] == 0 {
        assert 0 * lens[x] == 0;
      }
    }
    CostIsSum(freq[..elems], lens, a);
  }

  lemma FreqKept(list: seq<nat>, fc: seq<nat>, dl: seq<nat>, freq: seq<nat>, elems: nat, leaves: nat)
    requires Finished(list, fc, dl, freq, elems, leaves)
    ensures leaves >= 2 && |fc| == |freq| && forall x :: 0 <= x < elems ==> fc[x] == freq[x]
  {
  }

  // ---- Any other code

  /** The lengths of a prefix code for exactly the symbols that occur, none above `l`. */
  ghost predicate Alternative(freq: seq<nat>, lens: seq<nat>, l: nat) {
    && |lens| == |freq| && (forall x :: 0 <= x < |lens| ==> lens[x] <= l && (lens[x] > 0 <==> freq[x] != 0))
    && C.Kraft(lens, l) <= Pow2(l)
  }

  /** No prefix code, of whatever length, takes fewer bits. */
  ghost predicate Optimal(freq: seq<nat>, lens: seq<nat>)
    requires |freq| == |lens|
  {
    forall other: seq<nat>, l: nat :: Alternative(freq, other, l) ==> Cost(freq, lens) <= Cost(freq, other)
  }

  ghost function ItemsOf(freq: seq<nat>, lens: seq<nat>, n: nat): multiset<Huffman.Item>
    requires n <= |freq| == |lens|
  {
    if n == 0 then multiset{}
    else ItemsOf(freq, lens, n - 1) + if freq[n - 1] != 0 then multiset{Huffman.Item(freq[n - 1], lens[n - 1])} else multiset{}
  }

  /** The frequencies that are not zero. */
  ghost function Occurring(freq: seq<nat>, n: nat): multiset<nat>
    requires n <= |freq|
  {
    if n == 0 then multiset{} else Occurring(freq, n - 1) + if freq[n - 1] != 0 then multiset{freq[n - 1]} else multiset{}
  }

  lemma ItemsStep(freq: seq<nat>, lens: seq<nat>, k: nat)
    requires k < |freq| == |lens|
    ensures freq[k] != 0 ==> ItemsOf(freq, lens, k + 1) == ItemsOf(freq, lens, k) + multiset{Huffman.Item(freq[k], lens[k])}
    ensures freq[k] == 0 ==> ItemsOf(freq, lens, k + 1) == ItemsOf(freq, lens, k)
  {
  }

  lemma CostOneMore(freq: seq<nat>, lens: seq<nat>, k: nat)
    requires k < |freq| == |lens|
    ensures Cost(freq[..k + 1], lens[..k + 1]) == Cost(freq[..k], lens[..k]) + freq[k] * lens[k]
  {
    assert freq[..k + 1][..k] == freq[..k] && lens[..k + 1][..k] == lens[..k];
  }

  lemma {:induction false} ItemsCost(freq: seq<nat>, lens: seq<nat>, n: nat)
    requires n <= |freq| == |lens|
    ensures Huffman.Cost(ItemsOf(freq, lens, n)) == Cost(freq[..n], lens[..n])
    decreases n
  {
    if n == 0 {
      NoItems(0);
    } else {
      hide Huffman.Sum, ItemsOf, Cost;
      var k := n - 1;
      ItemsCost(freq, lens, k);
      CostOneMore(freq, lens, k);
      ItemsStep(freq, lens, k);
      if freq[k] != 0 {
        Huffman.SumPut(ItemsOf(freq, lens, k), Huffman.Price, Huffman.Item(freq[k], lens[k]));
      }
    }
  }

  lemma NoItems(l: nat)
    ensures Huffman.Cost(multiset{}) == 0 && Huffman.Kraft(multiset{}, l) == 0 && Huffman.Weights(multiset{}) == multiset{}
  {
  }

  lemma {:induction false} ItemsWeights(freq: seq<nat>, lens: seq<nat>, n: nat)
    requires n <= |freq| == |lens|
    ensures Huffman.Weights(ItemsOf(freq, lens, n)) == Occurring(freq, n)
    decreases n
  {
    hide Huffman.Weights;
    if n == 0 {
      NoItems(0);
    } else {
      var k := n - 1;
      ItemsWeights(freq, lens, k);
      if freq[k] != 0 {
        Huffman.WeightsPut(ItemsOf(freq, lens, k), Huffman.Item(freq[k], lens[k]));
      } else {
        assert ItemsOf(freq, lens, n) == ItemsOf(freq, lens, k);
      }
    }
  }

  /** The first `n` lengths, the others zero. */
  ghost function Masked(lens: seq<nat>, n: nat): (r: seq<nat>)
    requires n <= |lens|
    ensures |r| == |lens|
  {
    lens[..n] + seq(|lens| - n, _ => 0)
  }

  lemma {:induction false} ItemsShort(freq: seq<nat>, lens: seq<nat>, n: nat, l: nat)
    requires n <= |freq| == |lens| && forall x :: 0 <= x < |lens| ==> lens[x] <= l
    ensures forall x :: x in ItemsOf(freq, lens, n) ==> x.len <= l
    decreases n
  {
    if n == 0 {
    } else {
      ItemsShort(freq, lens, n - 1, l);
    }
  }

  lemma MaskedStep(lens: seq<nat>, k: nat)
    requires k < |lens|
    ensures Masked(lens, k + 1) == Masked(lens, k)[k := lens[k]] && Masked(lens, k)[k] == 0
    ensures lens[k] == 0 ==> Masked(lens, k + 1) == Masked(lens, k)
  {
  }

  lemma {:induction false} ItemsKraft(freq: seq<nat>, lens: seq<nat>, n: nat, l: nat)
    requires n <= |freq| == |lens| && forall x :: 0 <= x < |lens| ==> lens[x] <= l && (lens[x] > 0 <==> freq[x] != 0)
    ensures Huffman.Kraft(ItemsOf(freq, lens, n), l) == C.Kraft(Masked(lens, n), l)
    decreases n
  {
    hide Huffman.Sum, C.Kraft, ItemsOf, Masked;
    if n == 0 {
      NothingYet(freq, lens, l);
    } else {
      var k := n - 1;
      ItemsKraft(freq, lens, k, l);
      MaskedStep(lens, k);
      ItemsStep(freq, lens, k);
      if freq[k] != 0 {
        Huffman.SumPut(ItemsOf(freq, lens, k), (z: Huffman.Item) => Huffman.Space(z, l), Huffman.Item(freq[k], lens[k]));
        KraftUpdate(Masked(lens, k), k, lens[k], l);
      }
    }
  }

  lemma NothingYet(freq: seq<nat>, lens: seq<nat>, l: nat)
    requires |freq| == |lens|
    ensures Huffman.Kraft(ItemsOf(freq, lens, 0), l) == C.Kraft(Masked(lens, 0), l)
  {
    hide C.Kraft;
    NoItems(l);
    assert Masked(lens, 0) == seq(|lens|, _ => 0);
    KraftOfZeros(|lens|, l);
  }

  /** No other code costs less than merging. */
  lemma AlternativeCosts(freq: seq<nat>, other: seq<nat>, l: nat)
    requires Alternative(freq, other, l)
    ensures Huffman.Merged(Occurring(freq, |freq|)) <= Cost(freq, other)
  {
    hide Huffman.Merged, Huffman.Cost, Huffman.Kraft, Huffman.Weights, C.Kraft, ItemsOf, Occurring, Cost;
    var n, ms := |freq|, ItemsOf(freq, other, |freq|);
    ItemsCost(freq, other, n);
    ItemsWeights(freq, other, n);
    ItemsKraft(freq, other, n, l);
    ItemsShort(freq, other, n, l);
    assert freq[..n] == freq && other[..n] == other && Masked(other, n) == other;
    Huffman.LowerBound(ms, l);
  }

  /** The nodes are exactly the symbols below `n` that occur, once each. */
  ghost predicate Exactly(nodes: multiset<nat>, freq: seq<nat>, n: nat)
    requires n <= |freq|
  {
    && (forall x :: x in nodes ==> x < n && nodes[x] == 1) && (forall x :: 0 <= x < n ==> (x in nodes <==> freq[x] != 0))
  }

  /** The leaves weigh what the symbols that occur weigh. */
  lemma {:induction false} LeafWeights(nodes: multiset<nat>, freq: seq<nat>, n: nat)
    requires n <= |freq| && Exactly(nodes, freq, n)
    ensures WeightsOf(nodes, freq) == Occurring(freq, n)
    decreases n
  {
    hide WeightsOf, Occurring, Exactly;
    if n == 0 {
      ExactlyNone(nodes, freq);
      NoWeights(freq);
    } else {
      var k := n - 1;
      OccurringStep(freq, k);
      ExactlyLess(nodes, freq, k);
      if freq[k] != 0 {
        WeightsRemove(nodes, freq, k);
        LeafWeights(nodes - multiset{k}, freq, k);
      } else {
        LeafWeights(nodes, freq, k);
      }
    }
  }

  lemma OccurringStep(freq: seq<nat>, k: nat)
    requires k < |freq|
    ensures freq[k] != 0 ==> Occurring(freq, k + 1) == Occurring(freq, k) + multiset{freq[k]}
    ensures freq[k] == 0 ==> Occurring(freq, k + 1) == Occurring(freq, k)
  {
  }

  lemma ExactlyNone(nodes: multiset<nat>, freq: seq<nat>)
    requires Exactly(nodes, freq, 0)
    ensures nodes == multiset{}
  {
    NoNodes(nodes);
  }

  lemma ExactlyLess(nodes: multiset<nat>, freq: seq<nat>, k: nat)
    requires k < |freq| && Exactly(nodes, freq, k + 1)
    ensures if freq[k] != 0 then k in nodes && Exactly(nodes - multiset{k}, freq, k) else Exactly(nodes, freq, k)
  {
  }

  lemma NoWeights(freq: seq<nat>)
    ensures WeightsOf(multiset{}, freq) == multiset{} && Occurring(freq, 0) == multiset{}
  {
  }

  /** Lengths with the cost of merging are optimal. */
  lemma MergedIsOptimal(freq: seq<nat>, lens: seq<nat>)
    requires |freq| == |lens| && Cost(freq, lens) == Huffman.Merged(Occurring(freq, |freq|))
    ensures Optimal(freq, lens)
  {
    hide Huffman.Merged, Occurring, Cost, C.Kraft;
    forall other: seq<nat>, l: nat | Alternative(freq, other, l) ensures Cost(freq, lens) <= Cost(freq, other) {
      AlternativeCosts(freq, other, l);
    }
  }

  /** The finished tree, if no length was clamped. */
  lemma TreeIsOptimal(list: seq<nat>, fc: seq<nat>, dads: seq<nat>, dl: seq<nat>, freq: seq<nat>, elems: nat, leaves: nat,
                      lens: seq<nat>, nodes: multiset<nat>)
    requires Finished(list, fc, dads, freq, elems, leaves) && |dl| == |fc| && |lens| == elems <= |freq|
    requires Priced(list, fc, elems, leaves, Huffman.Merged(WeightsOf(nodes, freq)))
    requires Deep(list, dl, elems, leaves, |list|) && Contains(nodes, freq, elems, elems)
    requires forall x :: 0 <= x < elems && freq[x] != 0 ==> lens[x] == dl[x]
    ensures Optimal(freq[..elems], lens)
  {
    hide Finished, Priced, Deep, Cost, Occurring, Huffman.Merged, WeightsOf;
    TreeCost(list, fc, dads, dl, freq, elems, leaves, lens, Huffman.Merged(WeightsOf(nodes, freq)));
    LeavesOnly(nodes, freq, elems);
    LeafWeights(nodes, freq, elems);
    OccurringPrefix(freq, elems, elems);
    MergedIsOptimal(freq[..elems], lens);
  }

  lemma LeavesOnly(nodes: multiset<nat>, freq: seq<nat>, elems: nat)
    requires Contains(nodes, freq, elems, elems) && elems <= |freq|
    ensures Exactly(nodes, freq, elems)
  {
    forall x: nat ensures nodes[x] == Mult(freq, elems, elems, x) {
    }
  }

  lemma {:induction false} OccurringPrefix(freq: seq<nat>, elems: nat, n: nat)
    requires n <= elems <= |freq|
    ensures Occurring(freq[..elems], n) == Occurring(freq, n)
    decreases n
  {
    if n == 0 {
    } else {
      OccurringPrefix(freq, elems, n - 1);
    }
  }

  // ---- Lengths that are not clamped

  lemma DeepStart(list: seq<nat>, dl: seq<nat>, elems: nat, leaves: nat)
    requires Proper(list, elems, leaves) && elems + leaves - 1 <= |dl| && dl[list[0]] == 0
    ensures Deep(list, dl, elems, leaves, 1)
  {
  }

  lemma DeepStep(list: seq<nat>, dl: seq<nat>, elems: nat, leaves: nat, p: nat)
    requires Proper(list, elems, leaves) && Deep(list, dl, elems, leaves, p) && p < |list|
    ensures var f := elems + leaves - 2 - (p - 1) / 2;
            0 <= f < |dl| && list[p] < |dl| && Deep(list, dl[list[p] := dl[f] + 1], elems, leaves, p + 1)
  {
    var f := elems + leaves - 2 - (p - 1) / 2;
    var dl' := dl[list[p] := dl[f] + 1];
    forall q | 1 <= q < p + 1 ensures dl'[list[q]] == dl'[elems + leaves - 2 - (q - 1) / 2] + 1 {
      var j := FatherEarlier(list, elems, leaves, (q - 1) / 2);
      assert list[j] != list[p];
    }
  }

  /** The lengths of all nodes of a tree, whatever the limit. */
  lemma Depths(list: seq<nat>, elems: nat, leaves: nat, size: nat) returns (deep: seq<nat>)
    requires Proper(list, elems, leaves) && elems + leaves - 1 <= size
    ensures |deep| == size && Deep(list, deep, elems, leaves, |list|)
  {
    hide Proper, Deep;
    deep := seq(size, _ => 0);
    assert |list| == 2 * leaves - 1 by { ProperSize(list, elems, leaves); }
    ProperSize(list, elems, leaves);
    DeepStart(list, deep, elems, leaves);
    var p := 1;
    while p < |list|
      invariant 1 <= p <= |list| && |deep| == size && Deep(list, deep, elems, leaves, p)
    {
      DeepStep(list, deep, elems, leaves, p);
      deep := deep[list[p] := deep[elems + leaves - 2 - (p - 1) / 2] + 1];
      p := p + 1;
    }
  }

  lemma ProperSize(list: seq<nat>, elems: nat, leaves: nat)
    requires Proper(list, elems, leaves)
    ensures leaves >= 2 && |list| == 2 * leaves - 1 && list[0] < elems + leaves - 1
  {
  }

  function Lesser(x: nat, y: nat): nat { if x < y then x else y }

  /** The first `p` nodes have their depths, cut at the limit; the overflow counts whether any was cut. */
  ghost predicate Cut(list: seq<nat>, dl: seq<nat>, deep: seq<nat>, p: nat, max: nat, overflow: nat) {
    && p <= |list| && (forall q :: 0 <= q < |list| ==> list[q] < |dl| && list[q] < |deep|)
    && (forall q :: 0 <= q < p ==> dl[list[q]] == Lesser(deep[list[q]], max))
    && (overflow == 0 <==> forall q :: 0 <= q < p ==> deep[list[q]] <= max)
  }

  lemma CutStart(list: seq<nat>, dl: seq<nat>, deep: seq<nat>, elems: nat, leaves: nat, max: nat)
    requires Deep(list, deep, elems, leaves, |list|) && elems + leaves - 1 <= |dl| && dl[list[0]] == 0
    ensures Cut(list, dl, deep, 1, max, 0)
  {
  }

  /** One more node, cut or not. */
  lemma CutStep(list: seq<nat>, dl: seq<nat>, deep: seq<nat>, elems: nat, leaves: nat, p: nat, max: nat, overflow: nat)
    requires Proper(list, elems, leaves) && Deep(list, deep, elems, leaves, |list|) && Cut(list, dl, deep, p, max, overflow)
    requires 1 <= p < |list| && elems + leaves - 1 <= |dl|
    ensures var f := elems + leaves - 2 - (p - 1) / 2;
            0 <= f < |dl| && list[p] < |dl| && Cut(list, dl[list[p] := NextLength(dl[f], max)], deep, p + 1, max, NextOverflow(overflow, dl[f], max))
  {
    var f := elems + leaves - 2 - (p - 1) / 2;
    var j := FatherEarlier(list, elems, leaves, (p - 1) / 2);
    assert dl[f] == Lesser(deep[f], max) && deep[list[p]] == deep[f] + 1;
    var dl' := dl[list[p] := NextLength(dl[f], max)];
    forall q | 0 <= q < p ensures dl'[list[q]] == dl[list[q]] {
    }
  }

  /** If an inner node lies below the limit, so does a leaf. */
  lemma {:induction false} DeeperLeaf(list: seq<nat>, deep: seq<nat>, elems: nat, leaves: nat, x: nat, max: nat) returns (y: nat)
    requires Proper(list, elems, leaves) && Deep(list, deep, elems, leaves, |list|) && x in list && deep[x] > max
    ensures y < elems && y in list && deep[y] > max
    decreases x
  {
    if x < elems {
      y := x;
    } else {
      var i := elems + leaves - 2 - x;
      ProperBound(list, elems, leaves, x);
      var son := list[2 * i + 1];
      assert deep[son] == deep[x] + 1;
      y := DeeperLeaf(list, deep, elems, leaves, son, max);
    }
  }

  lemma ProperBound(list: seq<nat>, elems: nat, leaves: nat, x: nat)
    requires Proper(list, elems, leaves) && x in list && x >= elems
    ensures x <= elems + leaves - 2 && (var i := elems + leaves - 2 - x; 2 * i + 1 < |list| && list[2 * i + 1] < x)
  {
  }

  /** The depths of the symbols, zero for those that do not occur. */
  ghost function SymbolDepths(freq: seq<nat>, deep: seq<nat>, elems: nat): (r: seq<nat>)
    requires elems <= |freq| && elems <= |deep|
    ensures |r| == elems
  {
    seq(elems, x requires 0 <= x < elems => if freq[x] != 0 then deep[x] else 0)
  }

  ghost predicate Within(lens: seq<nat>, max: nat) { forall x :: 0 <= x < |lens| ==> lens[x] <= max }

  /** Nothing was cut exactly when the depths of all symbols are within the limit. */
  lemma CutEnd(list: seq<nat>, fc: seq<nat>, dads: seq<nat>, dl: seq<nat>, deep: seq<nat>, freq: seq<nat>, elems: nat, leaves: nat,
               max: nat, overflow: nat, lens: seq<nat>)
    requires Finished(list, fc, dads, freq, elems, leaves) && |lens| == elems <= |freq|
    requires Deep(list, deep, elems, leaves, |list|) && Cut(list, dl, deep, |list|, max, overflow)
    requires forall x :: 0 <= x < elems ==> lens[x] == if freq[x] != 0 && x < |dl| then dl[x] else 0
    ensures elems <= |deep| && (overflow == 0 <==> Within(SymbolDepths(freq, deep, elems), max))
    ensures overflow == 0 ==> lens == SymbolDepths(freq, deep, elems)
  {
    hide Finished, Proper;
    FinishedProper(list, fc, dads, freq, elems, leaves);
    var s := SymbolDepths(freq, deep, elems);
    if overflow == 0 {
      forall x | 0 <= x < elems ensures s[x] <= max && lens[x] == s[x] {
        if freq[x] != 0 {
          var q :| 0 <= q < |list| && list[q] == x;
        }
      }
    } else {
      var q :| 0 <= q < |list| && deep[list[q]] > max;
      var y := DeeperLeaf(list, deep, elems, leaves, list[q], max);
      assert s[y] > max;
    }
  }
}
