/** build_tree: from frequencies to a complete canonical code of bounded length, and its exact
    cost. */
module GzipTree {
  import opened BitString
  import opened Canonical
  import opened KraftSums
  import opened GzipHeap
  import opened GzipMerge
  import opened GzipForest
  import opened GzipSlots
  import opened GzipRepair
  import opened GzipBitlen
  import opened GzipReassign
  import opened GzipCodes
  import opened GzipLeaves
  import opened GzipWeights
  import opened GzipOptimal
  import Huffman

  /** The lengths use up the code space and give a code to exactly the symbols that occur. */
  ghost predicate GoodLengths(lens: seq<nat>, freq: seq<nat>, max: nat) {
    && |lens| <= |freq| && Kraft(lens, max) == Pow2(max)
    && forall x :: 0 <= x < |lens| ==> lens[x] <= max && (lens[x] > 0 <==> freq[x] != 0)
  }

  lemma StartRepair(c: seq<nat>, lens: seq<nat>, d: Desc, overflow: nat)
    requires GoodDesc(d) && |lens| == d.elems && Tallied(c, lens) && overflow > 0
    requires 2 * Kraft(lens, d.maxLength) == 2 * Pow2(d.maxLength) + overflow
    requires 2 * Count(lens, d.maxLength) > overflow
    ensures Repairing(c, d.maxLength, overflow, Total(c, d.maxLength))
  {
    hide Kraft, Count, Total, KraftC, Pow2;
    KraftCIsKraft(c, lens, d.maxLength);
    TotalBound(c, lens, d.maxLength);
  }

  /** After the repair the lengths that match the counts are good. */
  lemma EndRepair(c0: seq<nat>, lens0: seq<nat>, c: seq<nat>, lens: seq<nat>, max: nat, n: nat)
    requires Tallied(c0, lens0) && |lens| == |lens0| && Repairing(c, max, 0, n)
    requires forall x :: 0 <= x < |lens| ==> lens0[x] <= max && lens[x] <= max
    requires forall b :: 1 <= b <= max ==> Count(lens, b) == c[b]
    requires forall b :: max < b <= MAX_BITS ==> c[b] == c0[b]
    ensures Kraft(lens, max) == Pow2(max) && Tallied(c, lens)
  {
    hide Kraft, Count, Total, KraftC, Pow2;
    KraftCIsKraft(c, lens, max);
    forall b | max < b <= MAX_BITS ensures c[b] == Count(lens, b) {
      NoneLonger(lens0, b);
      NoneLonger(lens, b);
    }
  }

  lemma SameStatic(freq: seq<nat>, lens: seq<nat>, lens': seq<nat>, d: Desc)
    requires |freq| == |lens| == |lens'| <= d.extraBase + |d.extra| && (d.static_ == [] || |lens| <= |d.static_|)
    requires forall x :: 0 <= x < |lens| ==> (lens[x] == 0 <==> lens'[x] == 0)
    ensures StaticCost(freq, lens, d) == StaticCost(freq, lens', d)
  {
    if d.static_ != [] {
      assert PerSymbol(lens, d.static_, d) == PerSymbol(lens', d.static_, d);
    }
  }

  /** gen_bitlen */
  method GenBitlen(heap: array<nat>, heapMax: nat, fc: array<nat>, dl: array<nat>, blCount: array<nat>, d: Desc,
                   maxCode: nat, ghost freq: seq<nat>, ghost leaves: nat, ghost nodes: multiset<nat>)
    returns (opt: int, stat: int, ghost over: nat, ghost depths: seq<nat>)
    requires GoodDesc(d) && blCount.Length == MAX_BITS + 1 && heap.Length == HEAP_SIZE && heapMax < HEAP_SIZE
    requires heap != dl && heap != blCount && fc != dl && fc != blCount && dl != blCount
    requires Finished(heap[..][heapMax..], fc[..], dl[..], freq, d.elems, leaves)
    requires Priced(heap[..][heapMax..], fc[..], d.elems, leaves, Huffman.Merged(WeightsOf(nodes, freq)))
    requires Contains(nodes, freq, d.elems, d.elems)
    requires maxCode < d.elems && forall x :: maxCode < x < d.elems ==> freq[x] == 0
    requires forall x :: 0 <= x < d.elems && freq[x] == 0 ==> dl[x] == 0
    modifies dl, blCount
    ensures |freq| == dl.Length >= d.elems
    ensures GoodLengths(dl[..][..d.elems], freq, d.maxLength) && Tallied(blCount[..], dl[..][..d.elems])
    ensures opt == DynamicCost(freq[..d.elems], dl[..][..d.elems], d)
    ensures stat == StaticCost(freq[..d.elems], dl[..][..d.elems], d)
    ensures |depths| == d.elems && Optimal(freq[..d.elems], depths)
    ensures Settled(dl[..][..d.elems], depths, d.maxLength, over)
  {
    hide Finished, Accounts, Kraft, Count, Total, LeafCount, DynamicCost, StaticCost, Tallied, Handed, Repairing;
    hide Priced, Deep, Contains, Optimal, WeightsOf, Huffman.Merged, Short, Cut, Within;
    ghost var list, dads := heap[..][heapMax..], dl[..];
    ListFacts(list, fc[..], dads, freq, d.elems, leaves);
    ghost var f := freq[..d.elems];
    var overflow;
    ghost var lens, deep;
    overflow, opt, stat, lens, deep := FirstPass(heap, heapMax, fc, dl, blCount, d, maxCode, freq, leaves);
    over := overflow;
    AccountsSay(lens, f, d, blCount[..], opt, stat);
    assert dl[..][..d.elems] == lens;
    depths := SymbolDepths(freq, deep, d.elems);
    TreeIsOptimal(list, fc[..], dads, deep, freq, d.elems, leaves, depths, nodes);
    CutEnd(list, fc[..], dads, dl[..], deep, freq, d.elems, leaves, d.maxLength, overflow, lens);
    if overflow == 0 {
      return;
    }
    ghost var c0, before := blCount[..], dl[..];
    StartRepair(c0, lens, d, overflow);
    Repair(blCount, d.maxLength, overflow, Total(c0, d.maxLength));
    RepairTotal(blCount[..], d.maxLength, Total(c0, d.maxLength));
    StartHanding(list, fc[..], dads, freq, d.elems, leaves, before, lens, d.maxLength);
    ListCodes(list, fc[..], dads, freq, d.elems, leaves, maxCode);
    assert forall q :: heapMax <= q < HEAP_SIZE ==> heap[q] == list[q - heapMax];
    opt := Reassign(heap, heapMax, fc, dl, blCount, d, maxCode, opt, f, lens);
    ghost var final := dl[..][..d.elems];
    EndRepair(c0, lens, blCount[..], final, d.maxLength, Total(c0, d.maxLength));
    FinishedProper(list, fc[..], dads, freq, d.elems, leaves);
    SameStatic(f, lens, final, d);
    LongestUsed(blCount[..], final, d.maxLength, Total(c0, d.maxLength));
  }

  /** The overflow of the first pass: none exactly when the Huffman tree is not deeper than the limit, and then its
      depths are the lengths; none, too, if no length reaches the limit. */
  ghost predicate Settled(lens: seq<nat>, depths: seq<nat>, max: nat, over: nat) {
    (over == 0 <==> Within(depths, max)) && (over == 0 ==> lens == depths) && (Short(lens, max) ==> over == 0)
  }

  /** No symbol has a code of maximal length. */
  ghost predicate Short(lens: seq<nat>, max: nat) { forall x :: 0 <= x < |lens| ==> lens[x] < max }

  /** After a repair some symbol has one. */
  lemma LongestUsed(c: seq<nat>, lens: seq<nat>, max: nat, n: nat)
    requires Repairing(c, max, 0, n) && Tallied(c, lens)
    ensures !Short(lens, max)
  {
    hide Total, KraftC, Pow2;
    var x := NthOfLength(lens, max, 0);
  }

  lemma AccountsSay(lens: seq<nat>, freq: seq<nat>, d: Desc, counts: seq<nat>, opt: int, stat: int)
    requires Accounts(lens, freq, d, counts, opt, stat)
    ensures |lens| == |freq| == d.elems <= d.extraBase + |d.extra| && (d.static_ == [] || d.elems <= |d.static_|)
    ensures Tallied(counts, lens) && opt == DynamicCost(freq, lens, d) && stat == StaticCost(freq, lens, d)
  {
  }

  lemma RepairTotal(c: seq<nat>, max: nat, n: nat)
    requires Repairing(c, max, 0, n)
    ensures max < |c| && Total(c, max) == n
  {
  }

  lemma StartHanding(list: seq<nat>, fc: seq<nat>, dads: seq<nat>, freq: seq<nat>, elems: nat, leaves: nat, dl: seq<nat>,
                     lens: seq<nat>, max: nat)
    requires Finished(list, fc, dads, freq, elems, leaves) && |lens| == elems <= |dl| && |freq| >= elems
    requires forall x :: 0 <= x < elems && freq[x] != 0 ==> 1 <= lens[x] == dl[x] <= max
    requires forall x :: 0 <= x < elems && freq[x] == 0 ==> lens[x] == 0 && dl[x] == 0
    ensures Handed(list, elems, |list|, dl, lens, seq(elems, _ => 0), max)
  {
    hide Finished;
    FinishedProper(list, fc, dads, freq, elems, leaves);
    forall q | 0 <= q < |list| && list[q] < elems ensures 1 <= dl[list[q]] == lens[list[q]] {
      assert list[q] in list;
    }
  }

  lemma ListCodes(list: seq<nat>, fc: seq<nat>, dads: seq<nat>, freq: seq<nat>, elems: nat, leaves: nat, maxCode: nat)
    requires Finished(list, fc, dads, freq, elems, leaves)
    requires maxCode < elems && forall x :: maxCode < x < elems ==> freq[x] == 0
    ensures forall q :: 0 <= q < |list| ==> (list[q] <= maxCode <==> list[q] < elems)
    ensures forall x :: 0 <= x < elems ==> fc[x] == freq[x]
  {
    FinishedProper(list, fc, dads, freq, elems, leaves);
    forall q | 0 <= q < |list| ensures list[q] <= maxCode <==> list[q] < elems {
      assert list[q] in list;
    }
  }

  // ---- Forced codes take one bit, which is not counted

  /** A complete code of two symbols has lengths one and one. */
  lemma TwoCodes(lens: seq<nat>, max: nat, x: nat, y: nat)
    requires x < |lens| && y < |lens| && x != y && max >= 1 && 1 <= lens[x] <= max && 1 <= lens[y] <= max
    requires forall z :: 0 <= z < |lens| && z != x && z != y ==> lens[z] == 0
    requires Kraft(lens, max) == Pow2(max)
    ensures lens[x] == 1 && lens[y] == 1
  {
    hide Kraft;
    var zeros: seq<nat> := seq(|lens|, _ => 0);
    KraftOfZeros(|lens|, max);
    KraftUpdate(zeros, x, lens[x], max);
    KraftUpdate(zeros[x := lens[x]], y, lens[y], max);
    assert zeros[x := lens[x]][y := lens[y]] == lens;
    var p := Pow2(max - 1);
    assert Pow2(max) == 2 * p;
    Pow2Monotone(max - lens[x], max - 1);
    Pow2Monotone(max - lens[y], max - 1);
    if lens[x] > 1 {
      Halved(max, lens[x]);
      assert false;
    }
    if lens[y] > 1 {
      Halved(max, lens[y]);
      assert false;
    }
  }

  lemma Halved(max: nat, l: nat)
    requires 2 <= l <= max
    ensures Pow2(max - l) < Pow2(max - 1)
  {
    Pow2Monotone(max - l, max - 2);
    assert Pow2(max - 1) == 2 * Pow2(max - 2);
  }

  /** Subtracting the forced codes leaves the cost of the symbols that really occur. */
  lemma ForcedAccounts(freq: seq<nat>, dummies: seq<nat>, lens: seq<nat>, d: Desc)
    requires GoodDesc(d) && |freq| == |lens| == d.elems && Unused(freq, dummies)
    requires forall i :: 0 <= i < |dummies| ==> lens[dummies[i]] == 1
    ensures DynamicCost(Forced(freq, dummies), lens, d) == DynamicCost(freq, lens, d) + |dummies|
    ensures StaticCost(Forced(freq, dummies), lens, d) == StaticCost(freq, lens, d) + StaticSum(d.static_, dummies)
  {
    hide Cost, CostOf, StaticSum;
    var b := PerSymbol(lens, lens, d);
    ForcedCost(freq, dummies, b);
    CostOfOnes(dummies, b);
    if d.static_ != [] {
      var s := PerSymbol(lens, d.static_, d);
      ForcedCost(freq, dummies, s);
      CostOfStatic(dummies, s, d.static_);
    } else {
      NoStatic(dummies);
    }
  }

  lemma NoStatic(dummies: seq<nat>)
    ensures StaticSum([], dummies) == 0
  {
  }

  // ---- Lengths behind the last used symbol are zero

  lemma {:induction false} CountTrailing(lens: seq<nat>, k: nat, b: nat)
    requires k <= |lens| && b > 0 && forall x :: k <= x < |lens| ==> lens[x] == 0
    ensures Count(lens[..k], b) == Count(lens, b)
    decreases |lens|
  {
    if k == |lens| {
      assert lens[..k] == lens;
    } else {
      var m := |lens| - 1;
      CountTrailing(lens[..m], k, b);
      assert lens[..m][..k] == lens[..k];
    }
  }

  lemma {:induction false} KraftTrailing(lens: seq<nat>, k: nat, m: nat)
    requires k <= |lens| && forall x :: k <= x < |lens| ==> lens[x] == 0
    ensures Kraft(lens[..k], m) == Kraft(lens, m)
    decreases m
  {
    if m == 0 {
    } else {
      KraftTrailing(lens, k, m - 1);
      CountTrailing(lens, k, m);
    }
  }

  /** What gen_codes needs of the lengths up to the last used symbol. */
  lemma Truncated(lens: seq<nat>, freq: seq<nat>, c: seq<nat>, max: nat, maxCode: nat)
    requires GoodLengths(lens, freq, max) && max <= MAX_BITS && maxCode < |lens| && Tallied(c, lens)
    requires forall x :: maxCode < x < |lens| ==> lens[x] == 0
    ensures Complete(lens[..maxCode + 1]) && Feasible(lens[..maxCode + 1]) && Tallied(c, lens[..maxCode + 1])
  {
    hide Kraft, Count, Pow2;
    var t := lens[..maxCode + 1];
    forall b | 1 <= b <= MAX_BITS ensures c[b] == Count(t, b) {
      CountTrailing(lens, maxCode + 1, b);
    }
    KraftTrailing(lens, maxCode + 1, max);
    KraftScales(t, max, MAX_BITS);
  }

  // ---- build_tree

  ghost predicate Separate(heap: array<nat>, depth: array<nat>, blCount: array<nat>, fc: array<nat>, dl: array<nat>) {
    && heap != depth && heap != blCount && heap != fc && heap != dl && depth != blCount && depth != fc && depth != dl
    && blCount != fc && blCount != dl && fc != dl
  }

  ghost predicate Sized(heap: array<nat>, depth: array<nat>, blCount: array<nat>, fc: array<nat>, dl: array<nat>, d: Desc)
    reads depth
  {
    && Separate(heap, depth, blCount, fc, dl) && GoodDesc(d) && heap.Length == HEAP_SIZE && blCount.Length == MAX_BITS + 1
    && 2 * d.elems <= fc.Length == dl.Length <= depth.Length && forall i :: 0 <= i < depth.Length ==> depth[i] < 256
  }

  /** The tree built for the frequencies `freq`: lengths up to `maxCode`, and reversed codes. */
  ghost predicate Built(freq: seq<nat>, lens: seq<nat>, fc: seq<nat>, max: nat) {
    && 0 < |lens| <= |freq| && |lens| <= |fc| && Complete(lens) && lens[|lens| - 1] > 0
    && (forall x :: 0 <= x < |freq| && freq[x] != 0 ==> x < |lens| && lens[x] > 0)
    && (forall x :: 0 <= x < |lens| ==> lens[x] <= max && (lens[x] > 0 ==> fc[x] == Reverse(Code(lens, x), lens[x])))
  }

  /** From the heap of leaves to lengths. */
  method Grow(heap: array<nat>, depth: array<nat>, blCount: array<nat>, fc: array<nat>, dl: array<nat>, d: Desc, heapLen: nat,
              maxCode: nat, ghost sum: nat)
    returns (opt: int, stat: int, ghost over: nat, ghost depths: seq<nat>)
    requires Sized(heap, depth, blCount, fc, dl, d) && 2 <= heapLen && sum < 0x10000
    requires Forcing(heap, depth, fc, d.elems, heapLen, maxCode, sum)
    requires forall x :: 0 <= x < d.elems && fc[x] == 0 ==> dl[x] == 0
    modifies heap, depth, blCount, fc, dl
    ensures forall i :: 0 <= i < depth.Length ==> depth[i] < 256
    ensures var lens, freq := dl[..][..d.elems], old(fc[..]);
            && GoodLengths(lens, freq, d.maxLength) && Tallied(blCount[..], lens)
            && opt == DynamicCost(freq[..d.elems], lens, d) && stat == StaticCost(freq[..d.elems], lens, d)
            && |depths| == d.elems && Optimal(freq[..d.elems], depths) && Settled(lens, depths, d.maxLength, over)
  {
    hide Leaves, Heap, Keys, Active, InTree, Contains, Sum, Finished, GoodLengths, Tallied, DynamicCost, StaticCost, GoodDesc;
    hide Priced, Optimal, WeightsOf, Huffman.Merged, Settled;
    ghost var freq := fc[..];
    LeavesReady(heap[..], heapLen, freq, d.elems, sum);
    SmallDesc(d);
    Heapify(heap, heapLen, fc, depth);
    ghost var nodes := Active(heap[..], heapLen);
    var heapMax := Combine(heap, heapLen, fc, dl, depth, d.elems);
    opt, stat, over, depths := GenBitlen(heap, heapMax, fc, dl, blCount, d, maxCode, freq, heapLen, nodes);
  }

  lemma LeavesReady(h: seq<nat>, len: nat, fc: seq<nat>, elems: nat, sum: nat)
    requires Leaves(h, len, fc, elems, elems, sum)
    ensures InTree(h, len, |fc|) && Contains(Active(h, len), fc, elems, elems)
    ensures (forall a :: a in Active(h, len) ==> a < |fc|) && Sum(Active(h, len), fc) == sum
  {
    hide Active, InTree, Sum;
    forall x: nat ensures Mult(fc[..elems], elems, elems, x) == Mult(fc, elems, elems, x) {
    }
  }

  lemma SmallDesc(d: Desc)
    requires GoodDesc(d)
    ensures 3 <= d.elems <= 286 && 1 <= d.maxLength <= MAX_BITS
    ensures d.elems <= d.extraBase + |d.extra| && (d.static_ == [] || |d.static_| >= d.elems)
  {
  }

  /** With two leaves the forced codes have one bit each. */
  lemma DummiesTakeOneBit(h: seq<nat>, freq: seq<nat>, dummies: seq<nat>, elems: nat, sum: nat, lens: seq<nat>, max: nat)
    requires Unused(freq, dummies) && |lens| == elems && GoodLengths(lens, Forced(freq, dummies), max) && max >= 1
    requires Leaves(h, 2, Forced(freq, dummies), elems, elems, sum)
    ensures forall i :: 0 <= i < |dummies| ==> dummies[i] < elems ==> lens[dummies[i]] == 1
  {
    hide Leaves, Forced, Kraft;
    var fc := Forced(freq, dummies);
    var x, y := TwoLeaves(h, fc, elems, sum);
    TwoCodes(lens, max, x, y);
    forall i | 0 <= i < |dummies| ensures dummies[i] < elems ==> lens[dummies[i]] == 1 {
      ForcedZero(freq, dummies, dummies[i]);
    }
  }

  /** The costs of the forced frequencies, corrected, are the costs of the given frequencies. */
  lemma Corrected(h: seq<nat>, heapLen: nat, freq: seq<nat>, dummies: seq<nat>, sum: nat, lens: seq<nat>, d: Desc)
    requires GoodDesc(d) && Unused(freq, dummies) && d.elems <= |freq| && |lens| == d.elems
    requires GoodLengths(lens, Forced(freq, dummies), d.maxLength) && (dummies != [] ==> heapLen == 2)
    requires Leaves(h, heapLen, Forced(freq, dummies), d.elems, d.elems, sum)
    ensures forall x :: 0 <= x < d.elems && freq[x] != 0 ==> lens[x] > 0
    ensures DynamicCost(Forced(freq, dummies)[..d.elems], lens, d) == DynamicCost(freq[..d.elems], lens, d) + |dummies|
    ensures StaticCost(Forced(freq, dummies)[..d.elems], lens, d)
         == StaticCost(freq[..d.elems], lens, d) + StaticSum(d.static_, dummies)
  {
    hide Leaves, Forced, Kraft, DynamicCost, StaticCost;
    if dummies != [] {
      DummiesTakeOneBit(h, freq, dummies, d.elems, sum, lens, d.maxLength);
    }
    ForcedPrefix(freq, dummies, d.elems);
    ForcedAccounts(freq[..d.elems], dummies, lens, d);
    forall x | 0 <= x < d.elems && freq[x] != 0 ensures lens[x] > 0 {
      ForcedZero(freq, dummies, x);
    }
  }

  lemma IsBuilt(freq: seq<nat>, full: seq<nat>, forced: seq<nat>, fc: seq<nat>, max: nat, maxCode: nat)
    requires |full| == |freq| <= |fc| && maxCode < |full| && GoodLengths(full, forced, max)
    requires forall x :: 0 <= x < |freq| && freq[x] != 0 ==> full[x] > 0
    requires (forall x :: maxCode < x < |full| ==> forced[x] == 0) && forced[maxCode] != 0
    requires var t := full[..maxCode + 1];
             Complete(t) && forall x :: 0 <= x <= maxCode && t[x] > 0 ==> fc[x] == Reverse(Code(t, x), t[x])
    ensures Built(freq, full[..maxCode + 1], fc, max)
  {
    hide Complete, Kraft, Code, Reverse;
  }

  /** build_tree */
  method BuildTree(heap: array<nat>, depth: array<nat>, blCount: array<nat>, fc: array<nat>, dl: array<nat>, d: Desc)
    returns (maxCode: nat, opt: int, stat: int, ghost over: nat, ghost depths: seq<nat>)
    requires Sized(heap, depth, blCount, fc, dl, d) && SeqSum(fc[..][..d.elems]) + 2 < 0x10000
    modifies heap, depth, blCount, fc, dl
    ensures Sized(heap, depth, blCount, fc, dl, d) && maxCode < d.elems
    ensures var freq, full := old(fc[..])[..d.elems], dl[..][..d.elems];
            && Built(freq, full[..maxCode + 1], fc[..], d.maxLength)
            && (forall x :: maxCode < x < d.elems ==> full[x] == 0)
            && opt == DynamicCost(freq, full, d) && stat == StaticCost(freq, full, d)
            && |depths| == d.elems && (TwoOccur(freq) ==> Optimal(freq, depths)) && Settled(full, depths, d.maxLength, over)
            && (TwoOccur(freq) && over == 0 ==> Optimal(freq, full))
  {
    hide Leaves, Tallied, DynamicCost, StaticCost, Complete, Feasible, SeqSum, Forced, GoodDesc, GoodLengths, Built, Code, Reverse,
         StaticSum, Optimal, Settled, TwoOccur;
    ghost var freq := fc[..];
    SmallDesc(d);
    var heapLen, max := CollectLeaves(heap, depth, fc, dl, d.elems);
    FewOccur(heap[..], heapLen, freq, d.elems, SeqSum(freq[..d.elems]));
    ghost var sum := SeqSum(freq[..d.elems]);
    var o, s;
    ghost var dummies;
    heapLen, maxCode, o, s, dummies := ForceTwo(heap, depth, fc, d.elems, d.static_, heapLen, max, sum);
    ghost var h, forced := heap[..], fc[..];
    if dummies == [] {
      NoDummies(freq, d.static_);
    }
    StillZero(freq, dummies);
    opt, stat, over, depths := Grow(heap, depth, blCount, fc, dl, d, heapLen, maxCode, sum + |dummies|);
    ghost var full := dl[..][..d.elems];
    SettledSays(full, depths, d.maxLength, over);
    Corrected(h, heapLen, freq, dummies, sum + |dummies|, full, d);
    NothingAbove(full, forced, d.maxLength, maxCode);
    Truncated(full, forced, blCount[..], d.maxLength, maxCode);
    assert full[..maxCode + 1] == dl[..][..maxCode + 1];
    GenCodes(fc, dl, blCount, maxCode);
    IsBuilt(freq[..d.elems], full, forced, fc[..], d.maxLength, maxCode);
    opt, stat := opt + o, stat + s;
  }

  lemma SettledSays(lens: seq<nat>, depths: seq<nat>, max: nat, over: nat)
    requires Settled(lens, depths, max, over)
    ensures over == 0 ==> lens == depths
  {
  }

  /** At least two symbols occur. */
  ghost predicate TwoOccur(freq: seq<nat>) {
    exists x, y :: 0 <= x < y < |freq| && freq[x] != 0 && freq[y] != 0
  }

  lemma FewOccur(h: seq<nat>, len: nat, fc: seq<nat>, elems: nat, sum: nat)
    requires Leaves(h, len, fc, elems, elems, sum)
    ensures elems <= |fc| && (TwoOccur(fc[..elems]) ==> len >= 2)
  {
    LeavesSizes(h, len, fc, elems, sum);
    hide Leaves;
    if TwoOccur(fc[..elems]) && len < 2 {
      var x, y :| 0 <= x < y < elems && fc[..elems][x] != 0 && fc[..elems][y] != 0;
      OnlyLeaf(h, len, fc, elems, sum, x, y);
    }
  }

  lemma LeavesSizes(h: seq<nat>, len: nat, fc: seq<nat>, elems: nat, sum: nat)
    requires Leaves(h, len, fc, elems, elems, sum)
    ensures elems <= |fc|
  {
  }

  lemma StillZero(freq: seq<nat>, dummies: seq<nat>)
    requires Unused(freq, dummies)
    ensures forall x :: 0 <= x < |freq| && Forced(freq, dummies)[x] == 0 ==> freq[x] == 0
  {
    hide Forced;
    forall x | 0 <= x < |freq| && Forced(freq, dummies)[x] == 0 ensures freq[x] == 0 {
      ForcedZero(freq, dummies, x);
    }
  }

  lemma NothingAbove(lens: seq<nat>, freq: seq<nat>, max: nat, maxCode: nat)
    requires GoodLengths(lens, freq, max) && forall x :: maxCode < x < |lens| ==> freq[x] == 0
    ensures |lens| <= |freq| && forall x :: maxCode < x < |lens| ==> lens[x] == 0
  {
  }
}
