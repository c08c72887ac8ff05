/** gen_bitlen: after a repair, lengths are handed out again, the longest to the least frequent
    symbols, so that they match bl_count. */
module GzipReassign {
  import opened Canonical
  import opened KraftSums
  import opened GzipForest
  import opened GzipRepair
  import opened GzipBitlen

  /** Symbols behind position `k` of the list have got new lengths `given`; of those with `bits`
      bits, `n` are still to be handed out. */
  ghost predicate Handed(list: seq<nat>, elems: nat, k: nat, dl: seq<nat>, lens: seq<nat>, given: seq<nat>, max: nat) {
    && |given| == |lens| == elems <= |dl| && k <= |list|
    && (forall p, q :: 0 <= p < q < |list| ==> list[p] != list[q])
    && (forall q :: 0 <= q < k && list[q] < elems ==> given[list[q]] == 0 && 1 <= dl[list[q]] == lens[list[q]])
    && (forall q :: k <= q < |list| && list[q] < elems ==> 1 <= given[list[q]] == dl[list[q]] <= max)
    && (forall x :: 0 <= x < elems && x !in list ==> given[x] == 0 && dl[x] == 0)
  }

  ghost predicate Matching(given: seq<nat>, c: seq<nat>, bits: nat, n: nat, max: nat) {
    && |c| == MAX_BITS + 1 && max <= MAX_BITS && 1 <= bits <= max
    && (forall b :: bits < b <= max ==> Count(given, b) == c[b])
    && Count(given, bits) + n == c[bits]
    && (forall b :: 1 <= b < bits ==> Count(given, b) == 0)
  }

  lemma HandOne(list: seq<nat>, elems: nat, k: nat, dl: seq<nat>, lens: seq<nat>, given: seq<nat>, max: nat, bits: nat)
    requires Handed(list, elems, k, dl, lens, given, max) && k > 0 && list[k - 1] < elems && 1 <= bits <= max
    ensures var x := list[k - 1];
            given[x] == 0 && dl[x] >= 1 && Handed(list, elems, k - 1, dl[x := bits], lens, given[x := bits], max)
  {
    var x := list[k - 1];
    assert x in list;
    forall q | 0 <= q < |list| && q != k - 1 ensures list[q] != x {
    }
  }

  lemma MatchOne(given: seq<nat>, c: seq<nat>, bits: nat, n: nat, max: nat, x: nat)
    requires Matching(given, c, bits, n, max) && n > 0 && x < |given| && given[x] == 0
    ensures Matching(given[x := bits], c, bits, n - 1, max)
  {
    hide Count;
    var given' := given[x := bits];
    forall b | 1 <= b <= max ensures Count(given', b) == Count(given, b) + if b == bits then 1 else 0 {
      CountUpdate(given, x, bits, b);
    }
  }

  lemma ShorterNext(given: seq<nat>, c: seq<nat>, bits: nat, max: nat)
    requires Matching(given, c, bits, 0, max) && bits > 1
    ensures Matching(given, c, bits - 1, c[bits - 1], max)
  {
  }

  lemma {:induction false} NoLeaf(list: seq<nat>, elems: nat, k: nat, q: nat)
    requires q < k <= |list| && LeafCount(list, elems, k) == 0
    ensures list[q] >= elems
    decreases k
  {
    if q >= k - 1 {
    } else {
      NoLeaf(list, elems, k - 1, q);
    }
  }

  /** When everything is handed out, the new lengths are the lengths and match the counts. */
  lemma AllHanded(list: seq<nat>, elems: nat, k: nat, dl: seq<nat>, lens: seq<nat>, given: seq<nat>, c: seq<nat>, max: nat)
    requires Handed(list, elems, k, dl, lens, given, max) && Matching(given, c, 1, 0, max) && LeafCount(list, elems, k) == 0
    ensures dl[..elems] == given && forall b :: 1 <= b <= max ==> Count(given, b) == c[b]
    ensures forall x :: 0 <= x < elems ==> given[x] <= max && (given[x] > 0 <==> x in list)
  {
    forall x | 0 <= x < elems ensures dl[x] == given[x] <= max && (given[x] > 0 <==> x in list) {
      if x in list {
        var q :| 0 <= q < |list| && list[q] == x;
        if q < k {
          NoLeaf(list, elems, k, q);
        }
      }
    }
  }

  lemma CostChange(freq: seq<nat>, lens: seq<nat>, d: Desc, x: nat, v: nat)
    requires |freq| == |lens| <= d.extraBase + |d.extra| && x < |lens| && lens[x] >= 1 && v >= 1
    ensures DynamicCost(freq, lens[x := v], d) == DynamicCost(freq, lens, d) + (v - lens[x]) * freq[x]
  {
    hide Cost;
    var w := v + ExtraBits(d, x);
    var old_ := PerSymbol(lens, lens, d);
    assert PerSymbol(lens[x := v], lens[x := v], d) == old_[x := w];
    CostUpdate(freq, old_, x, w);
    assert freq[x] * w - freq[x] * old_[x] == freq[x] * (w - old_[x]);
  }

  /** The loop that hands the lengths out, scanning the list from its end. */
  method Reassign(heap: array<nat>, heapMax: nat, fc: array<nat>, dl: array<nat>, blCount: array<nat>, d: Desc, maxCode: nat,
                  opt0: int, ghost freq: seq<nat>, ghost lens: seq<nat>)
    returns (opt: int)
    requires GoodDesc(d) && heap.Length == HEAP_SIZE && heapMax < HEAP_SIZE && blCount.Length == MAX_BITS + 1
    requires heap != dl && fc != dl && dl != blCount && maxCode < d.elems <= dl.Length && d.elems <= fc.Length
    requires |freq| == d.elems && forall x :: 0 <= x < d.elems ==> fc[x] == freq[x]
    requires Handed(heap[..][heapMax..], d.elems, HEAP_SIZE - heapMax, dl[..], lens, seq(d.elems, _ => 0), d.maxLength)
    requires forall q :: heapMax <= q < HEAP_SIZE ==> (heap[q] <= maxCode <==> heap[q] < d.elems)
    requires Total(blCount[..], d.maxLength) == LeafCount(heap[..][heapMax..], d.elems, HEAP_SIZE - heapMax)
    requires opt0 == DynamicCost(freq, dl[..][..d.elems], d)
    modifies dl
    ensures opt == DynamicCost(freq, dl[..][..d.elems], d)
    ensures forall b :: 1 <= b <= d.maxLength ==> Count(dl[..][..d.elems], b) == blCount[b]
    ensures forall x :: 0 <= x < d.elems ==> dl[x] <= d.maxLength && (dl[x] > 0 <==> x in heap[..][heapMax..])
  {
    hide Handed, Matching, Count, Total, LeafCount, DynamicCost;
    ghost var list, c, elems, max := heap[..][heapMax..], blCount[..], d.elems, d.maxLength;
    ghost var given: seq<nat> := seq(d.elems, _ => 0);
    opt := opt0;
    var h := HEAP_SIZE;
    MatchStart(c, elems, max);
    var bits := d.maxLength;
    while true
      invariant 1 <= bits <= max && heapMax <= h <= HEAP_SIZE
      invariant Handed(list, elems, h - heapMax, dl[..], lens, given, max)
      invariant Matching(given, c, bits, c[bits], max)
      invariant LeafCount(list, elems, h - heapMax) == c[bits] + Total(c, bits - 1)
      invariant opt == DynamicCost(freq, dl[..][..elems], d)
      decreases bits
    {
      var n := blCount[bits];
      h, opt, given := HandOut(heap, heapMax, fc, dl, d, maxCode, opt, h, bits, n, freq, lens, given, c);
      if bits == 1 {
        break;
      }
      ShorterNext(given, c, bits, max);
      bits := bits - 1;
      TotalTop(c, bits);
    }
    TotalNone(c);
    AllHanded(list, elems, h - heapMax, dl[..], lens, given, c, max);
  }

  lemma MatchStart(c: seq<nat>, elems: nat, max: nat)
    requires |c| == MAX_BITS + 1 && 1 <= max <= MAX_BITS
    ensures Matching(seq(elems, _ => 0), c, max, c[max], max) && Total(c, max) == c[max] + Total(c, max - 1)
  {
    hide Count;
    var z: seq<nat> := seq(elems, _ => 0);
    forall b | 1 <= b <= max ensures Count(z, b) == 0 {
      CountOfZeros(elems, b);
    }
  }

  lemma TotalTop(c: seq<nat>, m: nat)
    requires 1 <= m < |c|
    ensures Total(c, m) == c[m] + Total(c, m - 1)
  {
  }

  lemma TotalNone(c: seq<nat>)
    requires |c| > 0
    ensures Total(c, 0) == 0
  {
  }

  /** The inner loop: `n` symbols get `bits` bits. */
  method HandOut(heap: array<nat>, heapMax: nat, fc: array<nat>, dl: array<nat>, d: Desc, maxCode: nat, opt0: int, h0: nat,
                 bits: nat, n0: nat, ghost freq: seq<nat>, ghost lens: seq<nat>, ghost given0: seq<nat>, ghost c: seq<nat>)
    returns (h: nat, opt: int, ghost given: seq<nat>)
    requires GoodDesc(d) && heap.Length == HEAP_SIZE && heapMax <= h0 <= HEAP_SIZE && 1 <= bits <= d.maxLength
    requires heap != dl && fc != dl && maxCode < d.elems <= dl.Length && d.elems <= fc.Length && |c| == MAX_BITS + 1
    requires |freq| == d.elems && forall x :: 0 <= x < d.elems ==> fc[x] == freq[x]
    requires forall q :: heapMax <= q < HEAP_SIZE ==> (heap[q] <= maxCode <==> heap[q] < d.elems)
    requires Handed(heap[..][heapMax..], d.elems, h0 - heapMax, dl[..], lens, given0, d.maxLength)
    requires Matching(given0, c, bits, n0, d.maxLength)
    requires LeafCount(heap[..][heapMax..], d.elems, h0 - heapMax) == n0 + Total(c, bits - 1)
    requires opt0 == DynamicCost(freq, dl[..][..d.elems], d)
    modifies dl
    ensures heapMax <= h <= h0
    ensures Handed(heap[..][heapMax..], d.elems, h - heapMax, dl[..], lens, given, d.maxLength)
    ensures Matching(given, c, bits, 0, d.maxLength)
    ensures LeafCount(heap[..][heapMax..], d.elems, h - heapMax) == Total(c, bits - 1)
    ensures opt == DynamicCost(freq, dl[..][..d.elems], d)
  {
    hide Handed, Matching, Total, DynamicCost, GoodDesc;
    ghost var list, elems, max := heap[..][heapMax..], d.elems, d.maxLength;
    h, opt, given := h0, opt0, given0;
    var n := n0;
    DescSizes(d);
    while n != 0
      invariant 0 <= n && heapMax <= h <= h0
      invariant Handed(list, elems, h - heapMax, dl[..], lens, given, max)
      invariant Matching(given, c, bits, n, max)
      invariant LeafCount(list, elems, h - heapMax) == n + Total(c, bits - 1)
      invariant opt == DynamicCost(freq, dl[..][..elems], d)
      decreases h
    {
      h := h - 1;
      var m := heap[h];
      assert list[h - heapMax] == m;
      if m > maxCode {
        HandNone(list, elems, h + 1 - heapMax, dl[..], lens, given, max);
        continue;
      }
      ghost var before := dl[..];
      HandOne(list, elems, h + 1 - heapMax, before, lens, given, max, bits);
      HandedSizes(list, elems, h + 1 - heapMax, before, lens, given, max);
      MatchOne(given, c, bits, n, max, m);
      CostChange(freq, before[..elems], d, m, bits);
      if dl[m] != bits {
        opt := opt + (bits - dl[m]) * fc[m];
        dl[m] := bits;
      }
      assert dl[..] == before[m := bits];
      assert dl[..][..elems] == before[..elems][m := bits];
      given := given[m := bits];
      n := n - 1;
    }
  }

  lemma DescSizes(d: Desc)
    requires GoodDesc(d)
    ensures d.elems <= d.extraBase + |d.extra| && d.maxLength <= MAX_BITS
  {
  }

  lemma HandedSizes(list: seq<nat>, elems: nat, k: nat, dl: seq<nat>, lens: seq<nat>, given: seq<nat>, max: nat)
    requires Handed(list, elems, k, dl, lens, given, max)
    ensures |given| == elems <= |dl|
  {
  }

  lemma HandNone(list: seq<nat>, elems: nat, k: nat, dl: seq<nat>, lens: seq<nat>, given: seq<nat>, max: nat)
    requires Handed(list, elems, k, dl, lens, given, max) && k > 0 && list[k - 1] >= elems
    ensures Handed(list, elems, k - 1, dl, lens, given, max)
  {
  }
}
