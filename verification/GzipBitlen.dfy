/** gen_bitlen: code lengths from the node list, the repair of lengths that are too large, and
    the exact cost in bits. */
module GzipBitlen {
  import opened BitString
  import opened Canonical
  import opened KraftSums
  import opened GzipForest
  import opened GzipSlots
  import opened GzipPass
  import opened GzipRepair
  import opened GzipOptimal

  /** A tree_desc: number of symbols, length limit, extra bits of the symbols from `extraBase` on,
      and the lengths of the static code, if there is one. */
  datatype Desc = Desc(elems: nat, maxLength: nat, extra: seq<nat>, extraBase: nat, static_: seq<nat>)

  ghost predicate GoodDesc(d: Desc) {
    && 3 <= d.elems <= 286 && 1 <= d.maxLength <= MAX_BITS && d.elems <= Pow2(d.maxLength)
    && d.elems <= d.extraBase + |d.extra| && (d.static_ == [] || |d.static_| >= d.elems)
    && (forall x :: 0 <= x < 3 ==> ExtraBits(d, x) == 0)
  }

  function ExtraBits(d: Desc, n: nat): nat
    requires n < d.extraBase + |d.extra|
  {
    if n >= d.extraBase then d.extra[n - d.extraBase] else 0
  }

  /** What one symbol costs: nothing if it is not used, else its length in `base` and its extra bits. */
  ghost function PerSymbol(lens: seq<nat>, base: seq<nat>, d: Desc): (r: seq<nat>)
    requires |lens| <= |base| && |lens| <= d.extraBase + |d.extra|
    ensures |r| == |lens|
  {
    seq(|lens|, x requires 0 <= x < |lens| => if lens[x] == 0 then 0 else base[x] + ExtraBits(d, x))
  }

  /** The bits that all symbols take, coded with `lens`. */
  ghost function DynamicCost(freq: seq<nat>, lens: seq<nat>, d: Desc): nat
    requires |freq| == |lens| <= d.extraBase + |d.extra|
  {
    Cost(freq, PerSymbol(lens, lens, d))
  }

  /** The bits that the symbols with a length take in the static code. */
  ghost function StaticCost(freq: seq<nat>, lens: seq<nat>, d: Desc): nat
    requires |freq| == |lens| <= d.extraBase + |d.extra| && (d.static_ == [] || |lens| <= |d.static_|)
  {
    if d.static_ == [] then 0 else Cost(freq, PerSymbol(lens, d.static_, d))
  }

  lemma CostStep(freq: seq<nat>, lens: seq<nat>, d: Desc, x: nat, v: nat)
    requires |freq| == |lens| <= d.extraBase + |d.extra| && (d.static_ == [] || |lens| <= |d.static_|)
    requires x < |lens| && lens[x] == 0 && v > 0
    ensures DynamicCost(freq, lens[x := v], d) == DynamicCost(freq, lens, d) + freq[x] * (v + ExtraBits(d, x))
    ensures d.static_ != [] ==>
              StaticCost(freq, lens[x := v], d) == StaticCost(freq, lens, d) + freq[x] * (d.static_[x] + ExtraBits(d, x))
  {
    hide Cost;
    var w := v + ExtraBits(d, x);
    assert PerSymbol(lens[x := v], lens[x := v], d) == PerSymbol(lens, lens, d)[x := w];
    CostUpdate(freq, PerSymbol(lens, lens, d), x, w);
    if d.static_ != [] {
      var u := d.static_[x] + ExtraBits(d, x);
      assert PerSymbol(lens[x := v], d.static_, d) == PerSymbol(lens, d.static_, d)[x := u];
      CostUpdate(freq, PerSymbol(lens, d.static_, d), x, u);
    }
  }

  lemma CostStart(freq: seq<nat>, d: Desc)
    requires |freq| <= d.extraBase + |d.extra| && (d.static_ == [] || |freq| <= |d.static_|)
    ensures DynamicCost(freq, seq(|freq|, _ => 0), d) == 0 && StaticCost(freq, seq(|freq|, _ => 0), d) == 0
  {
    var z: seq<nat> := seq(|freq|, _ => 0);
    CostOfZeros(freq, PerSymbol(z, z, d));
    if d.static_ != [] {
      CostOfZeros(freq, PerSymbol(z, d.static_, d));
    }
  }

  /** bl_count holds the number of codes of each length. */
  ghost predicate Tallied(c: seq<nat>, lens: seq<nat>) {
    |c| == MAX_BITS + 1 && c[0] == 0 && forall b :: 1 <= b <= MAX_BITS ==> c[b] == Count(lens, b)
  }

  lemma TalliedStep(c: seq<nat>, lens: seq<nat>, x: nat, v: nat)
    requires Tallied(c, lens) && x < |lens| && lens[x] == 0 && 1 <= v <= MAX_BITS
    ensures Tallied(c[v := c[v] + 1], lens[x := v])
  {
    hide Count;
    var c', lens' := c[v := c[v] + 1], lens[x := v];
    forall b | 1 <= b <= MAX_BITS ensures c'[b] == Count(lens', b) {
      CountUpdate(lens, x, v, b);
    }
  }

  lemma TalliedStart(n: nat)
    ensures Tallied(seq(MAX_BITS + 1, _ => 0), seq(n, _ => 0))
  {
    hide Count;
    var lens: seq<nat> := seq(n, _ => 0);
    forall b | 1 <= b <= MAX_BITS ensures Count(lens, b) == 0 {
      CountOfZeros(n, b);
    }
  }

  // ---- First pass

  /** The accounts of the first pass. */
  ghost predicate Accounts(lens: seq<nat>, freq: seq<nat>, d: Desc, counts: seq<nat>, opt: int, stat: int) {
    && |lens| == |freq| == d.elems <= d.extraBase + |d.extra| && (d.static_ == [] || d.elems <= |d.static_|)
    && Tallied(counts, lens) && opt == DynamicCost(freq, lens, d) && stat == StaticCost(freq, lens, d)
  }

  lemma AccountsStep(lens: seq<nat>, freq: seq<nat>, d: Desc, counts: seq<nat>, opt: int, stat: int, x: nat, v: nat)
    requires Accounts(lens, freq, d, counts, opt, stat) && x < d.elems && lens[x] == 0 && 1 <= v <= MAX_BITS
    ensures |counts| == MAX_BITS + 1
    ensures Accounts(lens[x := v], freq, d, counts[v := counts[v] + 1], opt + freq[x] * (v + ExtraBits(d, x)),
                     if d.static_ == [] then stat else stat + freq[x] * (d.static_[x] + ExtraBits(d, x)))
  {
    hide DynamicCost, Cost, Count;
    TalliedStep(counts, lens, x, v);
    CostStep(freq, lens, d, x, v);
  }

  /** Clears bl_count. */
  method ClearCounts(blCount: array<nat>)
    requires blCount.Length == MAX_BITS + 1
    modifies blCount
    ensures blCount[..] == seq(MAX_BITS + 1, _ => 0)
  {
    for bits := 0 to MAX_BITS + 1
      invariant forall b :: 0 <= b < bits ==> blCount[b] == 0
    {
      blCount[bits] := 0;
    }
  }

  /** How many of the first `k` nodes of the list are symbols. */
  ghost function LeafCount(list: seq<nat>, elems: nat, k: nat): nat
    requires k <= |list|
  {
    if k == 0 then 0 else LeafCount(list, elems, k - 1) + if list[k - 1] < elems then 1 else 0
  }

  /** One node of the first pass, the one at position `p` of the list. */
  method Visit(n: nat, fc: array<nat>, dl: array<nat>, blCount: array<nat>, d: Desc, maxCode: nat, overflow0: nat, opt0: int,
               stat0: int, ghost freq: seq<nat>, ghost list: seq<nat>, ghost dads: seq<nat>, ghost lens0: seq<nat>,
               ghost leaves: nat, ghost p: nat, ghost free0: seq<nat>, ghost over0: seq<nat>, ghost at0: nat, ghost deep: seq<nat>)
    returns (overflow: nat, opt: int, stat: int, ghost lens: seq<nat>, ghost free: seq<nat>, ghost over: seq<nat>, ghost at: nat)
    requires GoodDesc(d) && fc != dl && fc != blCount && dl != blCount && blCount.Length == MAX_BITS + 1
    requires p < |list| && n == list[p] && maxCode < d.elems && (n <= maxCode <==> n < d.elems)
    requires |dads| == dl.Length && n < |dads| && dads[n] == d.elems + leaves - 2 - (p - 1) / 2
    requires |freq| == d.elems <= fc.Length && (n < d.elems ==> fc[n] == freq[n])
    requires Pass(list, dads, dl[..], lens0, d.elems, leaves, p, d.maxLength, free0, over0, at0, overflow0)
    requires Accounts(lens0, freq, d, blCount[..], opt0, stat0)
    requires Total(blCount[..], d.maxLength) == LeafCount(list, d.elems, p)
    requires Proper(list, d.elems, leaves) && Deep(list, deep, d.elems, leaves, |list|) && d.elems + leaves - 1 <= dl.Length
    requires 1 <= p && Cut(list, dl[..], deep, p, d.maxLength, overflow0)
    modifies dl, blCount
    ensures Total(blCount[..], d.maxLength) == LeafCount(list, d.elems, p + 1)
    ensures Pass(list, dads, dl[..], lens, d.elems, leaves, p + 1, d.maxLength, free, over, at, overflow)
    ensures Accounts(lens, freq, d, blCount[..], opt, stat)
    ensures Cut(list, dl[..], deep, p + 1, d.maxLength, overflow)
  {
    hide Pass, Accounts, Total, Deep, Proper, Cut;
    CutStep(list, dl[..], deep, d.elems, leaves, p, d.maxLength, overflow0);
    ghost var before, counts, max := dl[..], blCount[..], d.maxLength;
    ghost var f := d.elems + leaves - 2 - (p - 1) / 2;
    free, over := PassStep(list, dads, before, lens0, d.elems, leaves, p, max, free0, over0, at0, overflow0);
    LengthRange(list, dads, before, lens0, d.elems, leaves, p, max, free0, over0, at0, overflow0);
    overflow, opt, stat, lens := overflow0, opt0, stat0, lens0;
    at := NextAt(at0, before[f], max);
    var bits := dl[dl[n]] + 1;
    if bits > d.maxLength {
      bits := d.maxLength;
      overflow := overflow + 1;
    }
    dl[n] := bits;
    assert dl[..] == before[n := bits];
    if n > maxCode {
      return;
    }
    opt, stat := Charge(n, bits, fc[n], blCount, d, opt, stat, freq, lens);
    lens := lens[n := bits];
  }

  /** A symbol of frequency `f` got `bits` bits: it is counted and its cost added. */
  method Charge(n: nat, bits: nat, f: nat, blCount: array<nat>, d: Desc, opt0: int, stat0: int, ghost freq: seq<nat>,
                ghost lens: seq<nat>)
    returns (opt: int, stat: int)
    requires GoodDesc(d) && blCount.Length == MAX_BITS + 1 && n < d.elems && 1 <= bits <= d.maxLength
    requires |freq| == d.elems == |lens| && f == freq[n] && lens[n] == 0
    requires Accounts(lens, freq, d, blCount[..], opt0, stat0)
    modifies blCount
    ensures Accounts(lens[n := bits], freq, d, blCount[..], opt, stat)
    ensures Total(blCount[..], d.maxLength) == Total(old(blCount[..]), d.maxLength) + 1
  {
    hide Accounts, Total, KraftC;
    ghost var counts := blCount[..];
    AddOne(counts, bits, d.maxLength);
    AccountsStep(lens, freq, d, counts, opt0, stat0, n, bits);
    blCount[bits] := blCount[bits] + 1;
    assert blCount[..] == counts[bits := counts[bits] + 1];
    var xbits := 0;
    if n >= d.extraBase {
      xbits := d.extra[n - d.extraBase];
    }
    opt, stat := opt0 + f * (bits + xbits), stat0;
    if d.static_ != [] {
      stat := stat + f * (d.static_[n] + xbits);
    }
  }

  /** The first pass over the node list: lengths are clamped to the limit and counted. */
  method FirstPass(heap: array<nat>, heapMax: nat, fc: array<nat>, dl: array<nat>, blCount: array<nat>, d: Desc,
                   maxCode: nat, ghost freq: seq<nat>, ghost leaves: nat)
    returns (overflow: nat, opt: int, stat: int, ghost lens: seq<nat>, ghost deep: seq<nat>)
    requires GoodDesc(d) && blCount.Length == MAX_BITS + 1 && heap.Length == HEAP_SIZE && heapMax < HEAP_SIZE
    requires heap != dl && heap != blCount && fc != dl && fc != blCount && dl != blCount
    requires Finished(heap[..][heapMax..], fc[..], dl[..], freq, d.elems, leaves)
    requires maxCode < d.elems && forall x :: maxCode < x < d.elems ==> freq[x] == 0
    modifies dl, blCount
    ensures |lens| == d.elems && 2 * Kraft(lens, d.maxLength) == 2 * Pow2(d.maxLength) + overflow
    ensures overflow > 0 ==> 2 * Count(lens, d.maxLength) > overflow
    ensures |freq| == dl.Length >= d.elems
    ensures forall x :: 0 <= x < d.elems && freq[x] != 0 ==> 1 <= lens[x] == dl[x] <= d.maxLength
    ensures forall x :: 0 <= x < d.elems && freq[x] == 0 ==> lens[x] == 0 && dl[x] == old(dl[x])
    ensures Accounts(lens, freq[..d.elems], d, blCount[..], opt, stat)
    ensures Total(blCount[..], d.maxLength) == LeafCount(heap[..][heapMax..], d.elems, HEAP_SIZE - heapMax)
    ensures |deep| == fc.Length && Deep(heap[..][heapMax..], deep, d.elems, leaves, HEAP_SIZE - heapMax)
    ensures Cut(heap[..][heapMax..], dl[..], deep, HEAP_SIZE - heapMax, d.maxLength, overflow)
  {
    hide Finished, Pass, Accounts, Kraft, Count, Total, LeafCount, Deep, Proper, Cut;
    ghost var list, dads, max := heap[..][heapMax..], dl[..], d.maxLength;
    ClearCounts(blCount);
    NoCodes(blCount[..], d.maxLength);
    ghost var free, over, at := [], [], 0;
    lens, free, over := PassStart(list, fc[..], dads, freq, d.elems, leaves, max);
    FinishedSizes(list, fc[..], dads, freq, d.elems, leaves);
    ListFacts(list, fc[..], dads, freq, d.elems, leaves);
    AccountsStart(freq[..d.elems], d);
    overflow, opt, stat := 0, 0, 0;
    dl[heap[heapMax]] := 0;
    assert dl[..] == dads[list[0] := 0];
    FinishedProper(list, fc[..], dads, freq, d.elems, leaves);
    deep := Depths(list, d.elems, leaves, fc.Length);
    CutStart(list, dl[..], deep, d.elems, leaves, max);
    var h := heapMax + 1;
    while h < HEAP_SIZE
      invariant heapMax < h <= HEAP_SIZE
      invariant Pass(list, dads, dl[..], lens, d.elems, leaves, h - heapMax, max, free, over, at, overflow)
      invariant Accounts(lens, freq[..d.elems], d, blCount[..], opt, stat)
      invariant Total(blCount[..], d.maxLength) == LeafCount(list, d.elems, h - heapMax)
      invariant Cut(list, dl[..], deep, h - heapMax, max, overflow)
    {
      assert list[h - heapMax] == heap[h];
      NodeFacts(list, fc[..], dads, freq, d.elems, leaves, maxCode, h - heapMax);
      overflow, opt, stat, lens, free, over, at := Visit(heap[h], fc, dl, blCount, d, maxCode, overflow, opt, stat,
        freq[..d.elems], list, dads, lens, leaves, h - heapMax, free, over, at, deep);
      h := h + 1;
    }
    PassEnd(list, dads, dl[..], lens, d.elems, leaves, max, free, over, at, overflow);
  }

  lemma ListFacts(list: seq<nat>, fc: seq<nat>, dl: seq<nat>, freq: seq<nat>, elems: nat, leaves: nat)
    requires Finished(list, fc, dl, freq, elems, leaves)
    ensures |freq| == |fc| >= elems && list != [] && LeafCount(list, elems, 1) == 0
  {
    assert LeafCount(list, elems, 1) == LeafCount(list, elems, 0) == 0;
  }

  lemma NodeFacts(list: seq<nat>, fc: seq<nat>, dl: seq<nat>, freq: seq<nat>, elems: nat, leaves: nat, maxCode: nat, p: nat)
    requires Finished(list, fc, dl, freq, elems, leaves) && 1 <= p < |list|
    requires maxCode < elems && forall x :: maxCode < x < elems ==> freq[x] == 0
    ensures list[p] < |dl| && (list[p] <= maxCode <==> list[p] < elems)
    ensures dl[list[p]] == elems + leaves - 2 - (p - 1) / 2 && (list[p] < elems ==> fc[list[p]] == freq[list[p]])
  {
    FinishedProper(list, fc, dl, freq, elems, leaves);
    assert list[p] in list;
  }

  lemma AccountsStart(freq: seq<nat>, d: Desc)
    requires |freq| == d.elems <= d.extraBase + |d.extra| && (d.static_ == [] || d.elems <= |d.static_|)
    ensures Accounts(seq(d.elems, _ => 0), freq, d, seq(MAX_BITS + 1, _ => 0), 0, 0)
  {
    CostStart(freq, d);
    TalliedStart(d.elems);
  }

  lemma LengthRange(list: seq<nat>, dads: seq<nat>, dl: seq<nat>, lens: seq<nat>, elems: nat, leaves: nat, p: nat, max: nat,
                    free: seq<nat>, over: seq<nat>, at: nat, overflow: nat)
    requires Pass(list, dads, dl, lens, elems, leaves, p, max, free, over, at, overflow) && p < |list|
    ensures var f := elems + leaves - 2 - (p - 1) / 2; 0 <= f < |dl| && dl[f] <= max && max >= 1
  {
    FatherDone(list, dads, dl, lens, elems, leaves, p, max, at);
  }
}
