/** What the merging loop of build_tree adds up to: the frequencies of the inner nodes are the cost of merging the
    two least weights again and again. */
module GzipWeights {
  import opened KraftSums
  import opened GzipMerge
  import Huffman

  ghost function At(f: seq<nat>, x: nat): nat { if x < |f| then f[x] else 0 }

  /** The frequencies of some nodes. */
  ghost function WeightsOf(nodes: multiset<nat>, f: seq<nat>): (r: multiset<nat>)
    ensures |r| == |nodes|
    decreases |nodes|
  {
    if nodes == multiset{} then multiset{}
    else
      var x := Pick(nodes);
      WeightsOf(nodes - multiset{x}, f) + multiset{At(f, x)}
  }

  lemma {:induction false} WeightsRemove(nodes: multiset<nat>, f: seq<nat>, y: nat)
    requires y in nodes
    ensures WeightsOf(nodes, f) == WeightsOf(nodes - multiset{y}, f) + multiset{At(f, y)}
    decreases |nodes|
  {
    hide Pick, WeightsOf, At;
    var x := Pick(nodes);
    WeightsUnfold(nodes, f);
    if x == y {
    } else {
      var less, more := nodes - multiset{x}, nodes - multiset{y};
      WeightsRemove(less, f, y);
      WeightsRemove(more, f, x);
      assert less - multiset{y} == more - multiset{x};
      Reorder(WeightsOf(nodes, f), WeightsOf(less, f), WeightsOf(more, f), WeightsOf(less - multiset{y}, f), At(f, x), At(f, y));
    }
  }

  lemma WeightsUnfold(nodes: multiset<nat>, f: seq<nat>)
    requires nodes != multiset{}
    ensures WeightsOf(nodes, f) == WeightsOf(nodes - multiset{Pick(nodes)}, f) + multiset{At(f, Pick(nodes))}
  {
    hide Pick;
  }

  lemma Reorder(a: multiset<nat>, b: multiset<nat>, c: multiset<nat>, w: multiset<nat>, u: nat, v: nat)
    requires a == b + multiset{u} && b == w + multiset{v} && c == w + multiset{u}
    ensures a == c + multiset{v}
  {
  }

  lemma {:induction false} WeightsSame(nodes: multiset<nat>, f: seq<nat>, g: seq<nat>)
    requires forall a :: a in nodes ==> At(f, a) == At(g, a)
    ensures WeightsOf(nodes, f) == WeightsOf(nodes, g)
    decreases |nodes|
  {
    hide At;
    if nodes == multiset{} {
    } else {
      WeightsSame(nodes - multiset{Pick(nodes)}, f, g);
    }
  }

  lemma {:induction false} NodeOfWeight(nodes: multiset<nat>, f: seq<nat>, w: nat) returns (x: nat)
    requires w in WeightsOf(nodes, f)
    ensures x in nodes && At(f, x) == w
    decreases |nodes|
  {
    hide At;
    x := Pick(nodes);
    if At(f, x) == w {
    } else {
      x := NodeOfWeight(nodes - multiset{x}, f, w);
    }
  }

  ghost predicate Inside(nodes: multiset<nat>, n: nat) { forall a :: a in nodes ==> a < n }

  lemma LeastWeight(n: nat, nodes: multiset<nat>, f: seq<nat>, node: nat)
    requires Least(n, nodes, f) && Inside(nodes, node) && node <= |f|
    ensures Huffman.Least(At(f, n), WeightsOf(nodes, f))
  {
    hide WeightsOf;
    WeightsRemove(nodes, f, n);
    forall w | w in WeightsOf(nodes, f) ensures At(f, n) <= w {
      var x := NodeOfWeight(nodes, f, w);
    }
  }

  /** A round of the loop is a step of merging. */
  lemma RoundMerges(nodes: multiset<nat>, f: seq<nat>, n: nat, m: nat, node: nat)
    requires Least(n, nodes, f) && Least(m, nodes - multiset{n}, f) && node < |f| && Inside(nodes, node)
    ensures n < |f| && m < |f|
    ensures Huffman.Merged(WeightsOf(nodes, f))
         == f[n] + f[m] + Huffman.Merged(WeightsOf(nodes - multiset{n} - multiset{m} + multiset{node}, f[node := f[n] + f[m]]))
  {
    hide WeightsOf, Huffman.Merged, Huffman.Least, Least, Inside, At;
    var less := nodes - multiset{n};
    LeastBelow(n, nodes, f, node);
    LeastBelow(m, less, f, node);
    var g := f[node := f[n] + f[m]];
    RoundWeights(nodes, f, g, n, m, node);
    LeastWeight(n, nodes, f, node);
    LeastWeight(m, less, f, node);
    AtIs(f, n, m, g, node);
    RoundMergesTo(WeightsOf(nodes, f), WeightsOf(less, f), WeightsOf(less - multiset{m}, f),
                  WeightsOf(less - multiset{m} + multiset{node}, g), At(f, n), At(f, m), At(g, node));
  }

  lemma RoundMergesTo(w: multiset<nat>, w1: multiset<nat>, w2: multiset<nat>, v: multiset<nat>, a: nat, b: nat, c: nat)
    requires w == w1 + multiset{a} && w1 == w2 + multiset{b} && v == w2 + multiset{c} && c == a + b
    requires Huffman.Least(a, w) && Huffman.Least(b, w1)
    ensures Huffman.Merged(w) == c + Huffman.Merged(v)
  {
    hide Huffman.Merged, Huffman.Least;
    MergeStep(w, w1, w2, v, a, b);
  }

  lemma AtIs(f: seq<nat>, n: nat, m: nat, g: seq<nat>, node: nat)
    requires n < |f| && m < |f| && node < |g|
    ensures At(f, n) == f[n] && At(f, m) == f[m] && At(g, node) == g[node]
  {
  }

  lemma LeastBelow(n: nat, nodes: multiset<nat>, f: seq<nat>, node: nat)
    requires Least(n, nodes, f) && Inside(nodes, node)
    ensures n in nodes && n < node && Inside(nodes - multiset{n}, node)
  {
  }

  lemma MergeStep(w: multiset<nat>, w1: multiset<nat>, w2: multiset<nat>, v: multiset<nat>, a: nat, b: nat)
    requires w == w1 + multiset{a} && w1 == w2 + multiset{b} && v == w2 + multiset{a + b}
    requires Huffman.Least(a, w) && Huffman.Least(b, w1)
    ensures Huffman.Merged(w) == a + b + Huffman.Merged(v)
  {
    hide Huffman.Merged, Huffman.Least;
    Less(w, w1, w2, v, a, b);
    Huffman.MergedStep(w, a, b);
  }

  lemma RoundWeights(nodes: multiset<nat>, f: seq<nat>, g: seq<nat>, n: nat, m: nat, node: nat)
    requires n in nodes && m in nodes - multiset{n} && node < |f| == |g| && Inside(nodes, node)
    requires forall a :: 0 <= a < node ==> g[a] == f[a]
    ensures var less := nodes - multiset{n};
            var rest := less - multiset{m};
            && WeightsOf(nodes, f) == WeightsOf(less, f) + multiset{At(f, n)}
            && WeightsOf(less, f) == WeightsOf(rest, f) + multiset{At(f, m)}
            && WeightsOf(rest + multiset{node}, g) == WeightsOf(rest, f) + multiset{At(g, node)}
  {
    hide WeightsOf;
    var less := nodes - multiset{n};
    var rest := less - multiset{m};
    WeightsRemove(nodes, f, n);
    WeightsRemove(less, f, m);
    WeightsSame(rest, f, g);
    assert rest + multiset{node} - multiset{node} == rest;
    WeightsRemove(rest + multiset{node}, g, node);
  }

  lemma Less(w: multiset<nat>, w1: multiset<nat>, w2: multiset<nat>, v: multiset<nat>, a: nat, b: nat)
    requires w == w1 + multiset{a} && w1 == w2 + multiset{b} && v == w2 + multiset{a + b}
    ensures w - multiset{a} == w1 && v == w - multiset{a} - multiset{b} + multiset{a + b}
  {
    assert w - multiset{a} == w1 && w1 - multiset{b} == w2;
  }

  // ---- The whole loop

  /** Every inner node weighs what its two sons weigh. */
  ghost predicate Weighed(list: seq<nat>, fc: seq<nat>, elems: nat, t: nat) {
    && |list| == 2 * t && elems + t <= |fc| && (forall q :: 0 <= q < 2 * t ==> list[q] < elems + t)
    && forall i :: 0 <= i < t ==> fc[elems + t - 1 - i] == fc[list[2 * i]] + fc[list[2 * i + 1]]
  }

  /** `goal` is what the inner nodes weigh and what merging the other nodes will cost. */
  ghost predicate Spent(nodes: multiset<nat>, fc: seq<nat>, elems: nat, t: nat, goal: nat) {
    && elems + t <= |fc|
    && goal == SeqSum(fc[elems..elems + t]) + Huffman.Merged(WeightsOf(nodes, fc))
  }

  lemma WeighedStep(list: seq<nat>, fc: seq<nat>, elems: nat, t: nat, n: nat, m: nat)
    requires Weighed(list, fc, elems, t) && elems + t < |fc| && n < elems + t && m < elems + t
    ensures Weighed([m, n] + list, fc[elems + t := fc[n] + fc[m]], elems, t + 1)
  {
    var list', fc' := [m, n] + list, fc[elems + t := fc[n] + fc[m]];
    forall i | 0 <= i < t + 1 ensures fc'[elems + t - i] == fc'[list'[2 * i]] + fc'[list'[2 * i + 1]] {
      if i > 0 {
        assert list'[2 * i] == list[2 * (i - 1)] && list'[2 * i + 1] == list[2 * (i - 1) + 1];
      }
    }
  }

  lemma SpentStep(nodes: multiset<nat>, fc: seq<nat>, elems: nat, t: nat, goal: nat, n: nat, m: nat)
    requires Spent(nodes, fc, elems, t, goal) && elems + t < |fc| && Inside(nodes, elems + t)
    requires Least(n, nodes, fc) && Least(m, nodes - multiset{n}, fc)
    ensures Spent(nodes - multiset{n} - multiset{m} + multiset{elems + t}, fc[elems + t := fc[n] + fc[m]], elems, t + 1, goal)
  {
    hide WeightsOf, Huffman.Merged, Least, SeqSum;
    RoundMerges(nodes, fc, n, m, elems + t);
    SumGrows(fc, elems, t, fc[n] + fc[m]);
  }

  lemma SumGrows(fc: seq<nat>, elems: nat, t: nat, w: nat)
    requires elems + t < |fc|
    ensures SeqSum(fc[elems + t := w][elems..elems + t + 1]) == SeqSum(fc[elems..elems + t]) + w
  {
    var s := fc[elems + t := w][elems..elems + t + 1];
    assert s[..t] == fc[elems..elems + t] && s[t] == w;
  }

  lemma SpentStart(nodes: multiset<nat>, fc: seq<nat>, elems: nat)
    requires elems <= |fc|
    ensures Spent(nodes, fc, elems, 0, Huffman.Merged(WeightsOf(nodes, fc))) && Weighed([], fc, elems, 0)
  {
    assert fc[elems..elems] == [];
  }

  lemma SpentEnd(root: nat, fc: seq<nat>, elems: nat, t: nat, goal: nat)
    requires Spent(multiset{root}, fc, elems, t, goal)
    ensures elems + t <= |fc| && goal == SeqSum(fc[elems..elems + t])
  {
    Huffman.MergedNone(WeightsOf(multiset{root}, fc));
  }

  /** The finished list, the root first: what all inner nodes weigh is `goal`. */
  ghost predicate Priced(list: seq<nat>, fc: seq<nat>, elems: nat, leaves: nat, goal: nat) {
    && leaves >= 1 && list != [] && Weighed(list[1..], fc, elems, leaves - 1) && goal == SeqSum(fc[elems..elems + leaves - 1])
  }

  lemma PricedList(list: seq<nat>, root: nat, fc: seq<nat>, elems: nat, leaves: nat, goal: nat)
    requires leaves >= 1 && Weighed(list, fc, elems, leaves - 1) && Spent(multiset{root}, fc, elems, leaves - 1, goal)
    ensures Priced([root] + list, fc, elems, leaves, goal)
  {
    hide WeightsOf, Huffman.Merged, SeqSum;
    assert ([root] + list)[1..] == list;
    SpentEnd(root, fc, elems, leaves - 1, goal);
  }
}
