/** The header of a dynamic block: build_bl_tree and send_all_trees, and that a decoder reads back
    both codes. */
module GzipHeader {
  import opened Basics
  import opened BitString
  import opened Canonical
  import opened Rfc1951
  import opened TreeCode
  import opened KraftSums
  import opened GzipBits
  import opened GzipBitlen
  import opened GzipTree
  import opened GzipTreeCode

  const MAX_BL_BITS := 7

  /** bl_desc */
  const BL_DESC := Desc(BL_CODES, MAX_BL_BITS, BL_EXTRA, 0, [])
  const BL_EXTRA: seq<nat> := seq(BL_CODES, (s: nat) => ClExtra(s))

  // ---- The lengths of the code length code

  /** Where a symbol stands in BL_ORDER. */
  const RANK: seq<nat> := [3, 17, 15, 13, 11, 9, 7, 5, 4, 6, 8, 10, 12, 14, 16, 18, 0, 1, 2]

  /** First the repetitions and the length zero, then the lengths from eight outward in both directions. */
  lemma OrderOutward(r: nat)
    requires r < BL_CODES
    ensures BL_ORDER[r] == if r < 3 then 16 + r else if r == 3 then 0 else if r % 2 == 0 then 6 + r / 2 else 9 - r / 2
  {
  }

  lemma RankOfOrder(r: nat)
    requires r < BL_CODES
    ensures |BL_ORDER| == |RANK| == BL_CODES && BL_ORDER[r] < BL_CODES && RANK[BL_ORDER[r]] == r
  {
    var o := BL_ORDER[r];
    assert RANK[o] == r;
  }

  lemma OrderOfRank(s: nat)
    requires s < BL_CODES
    ensures |BL_ORDER| == |RANK| == BL_CODES && RANK[s] < BL_CODES && BL_ORDER[RANK[s]] == s
  {
    var r := RANK[s];
    assert BL_ORDER[r] == s;
  }

  lemma Ranks()
    ensures |RANK| == |BL_ORDER| == BL_CODES
    ensures forall r :: 0 <= r < BL_CODES ==> BL_ORDER[r] < BL_CODES && RANK[BL_ORDER[r]] == r
    ensures forall s :: 0 <= s < BL_CODES ==> RANK[s] < BL_CODES && BL_ORDER[RANK[s]] == s
  {
    hide RANK, BL_ORDER;
    RankOfOrder(0);
    forall r | 0 <= r < BL_CODES ensures BL_ORDER[r] < BL_CODES && RANK[BL_ORDER[r]] == r {
      RankOfOrder(r);
    }
    forall s | 0 <= s < BL_CODES ensures RANK[s] < BL_CODES && BL_ORDER[RANK[s]] == s {
      OrderOfRank(s);
    }
  }

  /** Lengths from rank `k` on are zero and need not be sent. */
  ghost predicate ZeroFrom(cl: seq<nat>, k: nat)
    requires |cl| == BL_CODES
  {
    forall r :: k <= r < BL_CODES ==> cl[BL_ORDER[r]] == 0
  }

  ghost function TriplesBits(cl: seq<nat>, k: nat): (r: seq<bool>)
    requires |cl| == BL_CODES && k <= BL_CODES
    ensures |r| == 3 * k
  {
    if k == 0 then [] else TriplesBits(cl, k - 1) + Bits(cl[BL_ORDER[k - 1]], 3)
  }

  ghost function InOrder(cl: seq<nat>, k: nat): (r: seq<nat>)
    requires |cl| == BL_CODES && k <= BL_CODES
  {
    seq(k, i requires 0 <= i < k => cl[BL_ORDER[i]])
  }

  lemma {:induction false} TriplesReadOnto(cl: seq<nat>, k: nat, bits: seq<bool>, m: nat, us: seq<nat>, rest: seq<bool>)
    requires |cl| == BL_CODES && k <= BL_CODES && forall s :: 0 <= s < BL_CODES ==> cl[s] < 8
    requires ReadTriples(bits, m) == Some((us, rest))
    ensures ReadTriples(TriplesBits(cl, k) + bits, k + m) == Some((InOrder(cl, k) + us, rest))
    decreases k
  {
    hide Bits, Value, Pow2, BL_ORDER, ReadTriples;
    if k == 0 {
      assert [] + bits == bits && InOrder(cl, 0) + us == us;
    } else {
      RankOfOrder(k - 1);
      var v := cl[BL_ORDER[k - 1]];
      var b := Bits(v, 3) + bits;
      TripleReads(v, bits, m, us, rest);
      TriplesReadOnto(cl, k - 1, b, m + 1, [v] + us, rest);
      assert TriplesBits(cl, k - 1) + (Bits(v, 3) + bits) == TriplesBits(cl, k) + bits;
      assert InOrder(cl, k - 1) + ([v] + us) == InOrder(cl, k) + us;
    }
  }

  lemma TripleReads(v: nat, bits: seq<bool>, m: nat, us: seq<nat>, rest: seq<bool>)
    requires v < 8 && ReadTriples(bits, m) == Some((us, rest))
    ensures ReadTriples(Bits(v, 3) + bits, m + 1) == Some(([v] + us, rest))
  {
    hide Bits, Value;
    var b := Bits(v, 3) + bits;
    assert b[..3] == Bits(v, 3) && b[3..] == bits;
    ThreeBits(v);
  }

  lemma ThreeBits(v: nat)
    requires v < 8
    ensures Value(Bits(v, 3)) == v
  {
    assert Pow2(3) == 8;
    ValueOfBits(v, 3);
  }

  lemma {:induction false} SentAt(cl: seq<nat>, k: nat, s: nat, rank: nat)
    requires |cl| == BL_CODES && k <= BL_CODES && s < BL_CODES && rank <= RANK[s]
    requires ZeroFrom(cl, k)
    ensures SentLength(InOrder(cl, k), s, rank) == cl[s]
    decreases BL_CODES - rank
  {
    hide BL_ORDER, RANK;
    Ranks();
    if rank < k && BL_ORDER[rank] != s {
      SentAt(cl, k, s, rank + 1);
    }
  }

  lemma OrderUndone(cl: seq<nat>, k: nat)
    requires |cl| == BL_CODES && k <= BL_CODES && ZeroFrom(cl, k)
    ensures Unordered(InOrder(cl, k)) == cl
  {
    hide BL_ORDER, InOrder, SentLength, RANK;
    Ranks();
    forall s | 0 <= s < BL_CODES ensures Unordered(InOrder(cl, k))[s] == cl[s] {
      SentAt(cl, k, s, 0);
    }
  }

  // ---- The header

  ghost predicate GoodHeader(ll: seq<nat>, dd: seq<nat>, cl: seq<nat>, k: nat) {
    && 257 <= |ll| <= L_CODES && 1 <= |dd| <= D_CODES && |cl| == BL_CODES && 4 <= k <= BL_CODES && Feasible(cl)
    && (forall s :: 0 <= s < BL_CODES ==> cl[s] < 8) && ZeroFrom(cl, k)
    && ClCodable(cl, Symbols(ll)) && ClCodable(cl, Symbols(dd))
    && (forall i :: 0 <= i < |ll| ==> ll[i] < 16) && (forall i :: 0 <= i < |dd| ==> dd[i] < 16)
  }

  /** The bits that send_all_trees sends. */
  ghost function TreesBits(ll: seq<nat>, dd: seq<nat>, cl: seq<nat>, k: nat): seq<bool>
    requires GoodHeader(ll, dd, cl, k)
  {
    Bits(|ll| - 257, 5) + Bits(|dd| - 1, 5) + Bits(k - 4, 4) + TriplesBits(cl, k)
    + SymbolsBits(cl, Symbols(ll)) + SymbolsBits(cl, Symbols(dd))
  }

  lemma BothExpand(ll: seq<nat>, dd: seq<nat>)
    requires (forall i :: 0 <= i < |ll| ==> ll[i] < 16) && (forall i :: 0 <= i < |dd| ==> dd[i] < 16)
    ensures ExpandCl([], Symbols(ll) + Symbols(dd)) == Some(ll + dd)
  {
    hide Symbols, ExpandCl;
    SymbolsExpand(ll, []);
    assert [] + ll == ll;
    SymbolsExpand(dd, ll);
    ExpandAppend([], Symbols(ll), Symbols(dd));
  }

  lemma BothRead(ll: seq<nat>, dd: seq<nat>, cl: seq<nat>, k: nat, rest: seq<bool>)
    requires GoodHeader(ll, dd, cl, k)
    ensures ReadLengths(cl, SymbolsBits(cl, Symbols(ll)) + SymbolsBits(cl, Symbols(dd)) + rest, |ll| + |dd|, [])
         == Some((ll + dd, rest))
  {
    hide Symbols, ExpandCl, ReadLengths, SymbolsBits, Feasible, GoodSymbol;
    BothExpand(ll, dd);
    SymbolsBitsAppend(cl, Symbols(ll), Symbols(dd));
    BothCodable(cl, Symbols(ll), Symbols(dd));
    LengthsRead(cl, Symbols(ll) + Symbols(dd), [], ll + dd, rest);
  }

  lemma BothCodable(cl: seq<nat>, a: seq<ClSymbol>, b: seq<ClSymbol>)
    requires ClCodable(cl, a) && ClCodable(cl, b)
    ensures ClCodable(cl, a + b)
  {
  }

  lemma CountsRead(x: nat, y: nat, z: nat, more: seq<bool>)
    requires x < 32 && y < 32 && z < 16
    ensures var bits := Bits(x, 5) + Bits(y, 5) + Bits(z, 4) + more;
            |bits| >= 14 && Value(bits[..5]) == x && Value(bits[5..10]) == y && Value(bits[10..14]) == z && bits[14..] == more
  {
    hide Bits, Value;
    assert Pow2(4) == 16 && Pow2(5) == 32;
    ValueOfBits(x, 5);
    ValueOfBits(y, 5);
    ValueOfBits(z, 4);
    var bits := Bits(x, 5) + Bits(y, 5) + Bits(z, 4) + more;
    assert bits[..5] == Bits(x, 5) && bits[5..10] == Bits(y, 5) && bits[10..14] == Bits(z, 4) && bits[14..] == more;
  }

  lemma CodeLengthsRead(cl: seq<nat>, k: nat, rest: seq<bool>)
    requires |cl| == BL_CODES && k <= BL_CODES && forall s :: 0 <= s < BL_CODES ==> cl[s] < 8
    requires ZeroFrom(cl, k)
    ensures var c := ReadTriples(TriplesBits(cl, k) + rest, k); c.Some? && Unordered(c.value.0) == cl && c.value.1 == rest
  {
    hide TriplesBits, BL_ORDER, InOrder, Unordered;
    TriplesReadOnto(cl, k, rest, 0, [], rest);
    assert InOrder(cl, k) + [] == InOrder(cl, k);
    OrderUndone(cl, k);
  }

  /** A decoder reads back both codes. */
  lemma TreesRead(ll: seq<nat>, dd: seq<nat>, cl: seq<nat>, k: nat, rest: seq<bool>)
    requires GoodHeader(ll, dd, cl, k)
    ensures ReadTrees(TreesBits(ll, dd, cl, k) + rest) == Some((ll, dd, rest))
  {
    hide Bits, Value, TriplesBits, SymbolsBits, ReadTriples, ReadLengths, Unordered, Feasible, Symbols, GoodSymbol;
    hide BL_ORDER;
    var x, y, z := Bits(|ll| - 257, 5), Bits(|dd| - 1, 5), Bits(k - 4, 4);
    var t, u, v := TriplesBits(cl, k), SymbolsBits(cl, Symbols(ll)), SymbolsBits(cl, Symbols(dd));
    var more := u + v + rest;
    assert TreesBits(ll, dd, cl, k) + rest == x + y + z + (t + more);
    CountsRead(|ll| - 257, |dd| - 1, k - 4, t + more);
    CodeLengthsRead(cl, k, more);
    BothRead(ll, dd, cl, k, rest);
    assert (ll + dd)[..|ll|] == ll && (ll + dd)[|ll|..] == dd;
  }

  /** The lengths of the code length code, in order. */
  method SendTriples(bw: BitWriter, cl: seq<nat>, k: nat)
    requires bw.Valid() && |cl| == BL_CODES && k <= BL_CODES && forall s :: 0 <= s < BL_CODES ==> cl[s] < 8
    modifies bw, bw.outbuf
    ensures bw.Valid() && bw.Sent() == old(bw.Sent()) + TriplesBits(cl, k)
  {
    hide Bits, Pow2, ByteBits, BL_ORDER;
    ghost var sent := bw.Sent();
    assert sent + TriplesBits(cl, 0) == sent;
    for rank := 0 to k
      invariant bw.Valid() && bw.Sent() == sent + TriplesBits(cl, rank)
    {
      RankOfOrder(rank);
      assert Pow2(3) == 8 by { EightIs(); }
      bw.SendBits(cl[BL_ORDER[rank]], 3);
      ghost var t, b := TriplesBits(cl, rank), Bits(cl[BL_ORDER[rank]], 3);
      assert sent + t + b == sent + (t + b);
    }
  }

  lemma EightIs()
    ensures Pow2(3) == 8 && Pow2(4) == 16 && Pow2(5) == 32
  {
  }

  /** send_all_trees */
  method SendAllTrees(bw: BitWriter, ltree: seq<nat>, dtree: seq<nat>, codes: seq<nat>, cl: seq<nat>, lcodes: nat, dcodes: nat,
                      blcodes: nat)
    requires bw.Valid() && lcodes >= 1 && dcodes >= 1 && Scannable(ltree, lcodes - 1) && Scannable(dtree, dcodes - 1)
    requires ltree[lcodes] == NO_LENGTH && dtree[dcodes] == NO_LENGTH && Coded(codes, cl)
    requires GoodHeader(ltree[..lcodes], dtree[..dcodes], cl, blcodes)
    modifies bw, bw.outbuf
    ensures bw.Valid() && bw.Sent() == old(bw.Sent()) + TreesBits(ltree[..lcodes], dtree[..dcodes], cl, blcodes)
  {
    hide Bits, Pow2, ByteBits, TriplesBits, SymbolsBits, Feasible, Symbols, GoodSymbol, BL_ORDER, Coded;
    ghost var sent := bw.Sent();
    SendCounts(bw, lcodes - 257, dcodes - 1, blcodes - 4);
    SendTriples(bw, cl, blcodes);
    SendTree(bw, ltree, lcodes - 1, codes, cl);
    SendTree(bw, dtree, dcodes - 1, codes, cl);
    Regroup(sent, Bits(lcodes - 257, 5) + Bits(dcodes - 1, 5) + Bits(blcodes - 4, 4), TriplesBits(cl, blcodes),
                SymbolsBits(cl, Symbols(ltree[..lcodes])), SymbolsBits(cl, Symbols(dtree[..dcodes])));
  }

  method SendCounts(bw: BitWriter, x: nat, y: nat, z: nat)
    requires bw.Valid() && x < 32 && y < 32 && z < 16
    modifies bw, bw.outbuf
    ensures bw.Valid() && bw.Sent() == old(bw.Sent()) + (Bits(x, 5) + Bits(y, 5) + Bits(z, 4))
  {
    hide Bits, Pow2, ByteBits;
    EightIs();
    ghost var sent := bw.Sent();
    bw.SendBits(x, 5);
    bw.SendBits(y, 5);
    bw.SendBits(z, 4);
    assert sent + Bits(x, 5) + Bits(y, 5) + Bits(z, 4) == sent + (Bits(x, 5) + Bits(y, 5) + Bits(z, 4));
  }

  // ---- What the symbols cost

  /** Counting symbols counts their bits. */
  lemma {:induction false} SymbolsCost(cl: seq<nat>, ss: seq<ClSymbol>)
    requires |cl| == BL_CODES && ClCodable(cl, ss)
    ensures Cost(ClFreq(seq(BL_CODES, _ => 0), ss), PerSymbol(cl, cl, BL_DESC)) == |SymbolsBits(cl, ss)|
    decreases |ss|
  {
    hide Cost, PerSymbol, SymbolBits, GoodSymbol, Tick;
    var zeros: seq<nat> := seq(BL_CODES, _ => 0);
    var b := PerSymbol(cl, cl, BL_DESC);
    if ss == [] {
      CostNoFreq(zeros, b);
    } else {
      var k := |ss| - 1;
      SymbolsCost(cl, ss[..k]);
      TickCost(ClFreq(zeros, ss[..k]), b, ss[k].sym);
      SymbolCost(cl, ss[k]);
    }
  }

  lemma SymbolCost(cl: seq<nat>, s: ClSymbol)
    requires |cl| == BL_CODES && s.sym < BL_CODES && cl[s.sym] > 0
    ensures PerSymbol(cl, cl, BL_DESC)[s.sym] == |SymbolBits(cl, s)|
  {
  }

  /** Every symbol that was counted has a nonzero frequency. */
  lemma {:induction false} CountedOnce(freq: seq<nat>, ss: seq<ClSymbol>, i: nat)
    requires (forall j :: 0 <= j < |ss| ==> ss[j].sym < |freq|) && i < |ss|
    ensures ClFreq(freq, ss)[ss[i].sym] > 0
    decreases |ss|
  {
    var k := |ss| - 1;
    if i >= k {
    } else {
      CountedOnce(freq, ss[..k], i);
    }
  }

  lemma {:induction false} CountedSum(freq: seq<nat>, ss: seq<ClSymbol>)
    requires forall j :: 0 <= j < |ss| ==> ss[j].sym < |freq|
    ensures SeqSum(ClFreq(freq, ss)) == SeqSum(freq) + |ss|
    decreases |ss|
  {
    hide SeqSum;
    if ss == [] {
    } else {
      var k := |ss| - 1;
      CountedSum(freq, ss[..k]);
      var f := ClFreq(freq, ss[..k]);
      SeqSumUpdate(f, ss[k].sym, f[ss[k].sym] + 1);
    }
  }

  lemma {:induction false} RunsShort(lens: seq<nat>, n: nat, prev: int, count: nat)
    requires n <= |lens| && (n == |lens| ==> count == 0) && (count > 0 ==> n < |lens|)
    ensures |Runs(lens, n, prev, count)| <= count + |lens| - n
    decreases |lens| - n
  {
    hide Emit, MaxCount, MinCount;
    if n >= |lens| {
    } else {
      var cur := lens[n];
      if count + 1 < MaxCount(cur, prev) && cur == Next(lens, n) && n + 1 < |lens| {
        RunsShort(lens, n + 1, prev, count + 1);
      } else {
        EmitShort(cur, prev, count + 1);
        RunsShort(lens, n + 1, cur, 0);
      }
    }
  }

  lemma EmitShort(cur: nat, prev: int, count: nat)
    ensures |Emit(cur, prev, count)| <= count
  {
  }

  // ---- build_bl_tree

  lemma {:induction false} ClFreqPrefix(freq: seq<nat>, n: nat, ss: seq<ClSymbol>)
    requires n <= |freq| && forall j :: 0 <= j < |ss| ==> ss[j].sym < n
    ensures ClFreq(freq, ss)[..n] == ClFreq(freq[..n], ss)
    decreases |ss|
  {
    if ss == [] {
    } else {
      ClFreqPrefix(freq, n, ss[..|ss| - 1]);
    }
  }

  /** The frequencies that build_bl_tree counts are those of all symbols to be sent. */
  lemma Scanned(bfc: seq<nat>, a: seq<ClSymbol>, b: seq<ClSymbol>)
    requires |bfc| >= BL_CODES && forall x :: 0 <= x < BL_CODES ==> bfc[x] == 0
    requires (forall i :: 0 <= i < |a| ==> a[i].sym < BL_CODES) && (forall i :: 0 <= i < |b| ==> b[i].sym < BL_CODES)
    ensures forall i :: 0 <= i < |a + b| ==> (a + b)[i].sym < BL_CODES
    ensures var freq := ClFreq(ClFreq(bfc, a), b)[..BL_CODES];
            && freq == ClFreq(seq(BL_CODES, _ => 0), a + b) && SeqSum(freq) == |a| + |b|
            && (forall i :: 0 <= i < |a + b| ==> freq[(a + b)[i].sym] > 0)
  {
    hide ClFreq, SeqSum;
    ClFreqAppend(bfc, a, b);
    ClFreqPrefix(bfc, BL_CODES, a + b);
    var zeros: seq<nat> := seq(BL_CODES, _ => 0);
    assert bfc[..BL_CODES] == zeros;
    CountedSum(zeros, a + b);
    SeqSumZeros(zeros);
    forall i | 0 <= i < |a + b| ensures ClFreq(zeros, a + b)[(a + b)[i].sym] > 0 {
      CountedOnce(zeros, a + b, i);
    }
  }

  lemma ScanBound(lens: seq<nat>)
    ensures |Symbols(lens)| <= |lens|
  {
    RunsShort(lens, 0, -1, 0);
  }

  /** Codes do not depend on zero lengths behind them. */
  lemma CodeTrailing(lens: seq<nat>, k: nat, x: nat)
    requires x < k <= |lens| && lens[x] > 0 && forall y :: k <= y < |lens| ==> lens[y] == 0
    ensures Code(lens[..k], x) == Code(lens, x)
  {
    FirstTrailing(lens, k, lens[x]);
    assert lens[..k][..x] == lens[..x];
  }

  lemma {:induction false} FirstTrailing(lens: seq<nat>, k: nat, b: nat)
    requires k <= |lens| && forall y :: k <= y < |lens| ==> lens[y] == 0
    ensures FirstCode(lens[..k], b) == FirstCode(lens, b)
    decreases b
  {
    if b <= 1 {
    } else {
      FirstTrailing(lens, k, b - 1);
      CountTrailing(lens, k, b - 1);
    }
  }

  /** The code length code, all of its lengths taken. */
  lemma WholeTree(freq: seq<nat>, full: seq<nat>, maxCode: nat, fc: seq<nat>)
    requires |freq| == |full| == BL_CODES && maxCode < BL_CODES && Built(freq, full[..maxCode + 1], fc, MAX_BL_BITS)
    requires |fc| >= BL_CODES && forall x :: maxCode < x < BL_CODES ==> full[x] == 0
    ensures Coded(fc, full) && forall x :: 0 <= x < BL_CODES ==> full[x] < 8 && (freq[x] > 0 ==> full[x] > 0)
  {
    hide Complete, Feasible, Code, Reverse;
    var t := full[..maxCode + 1];
    forall x | 0 <= x < BL_CODES && full[x] > 0 ensures fc[x] == Reverse(Code(full, x), full[x]) {
      assert t[x] == full[x];
      CodeTrailing(full, maxCode + 1, x);
    }
    WholeFeasible(full, maxCode + 1);
  }

  lemma WholeFeasible(full: seq<nat>, k: nat)
    requires k <= |full| && Complete(full[..k]) && forall x :: k <= x < |full| ==> full[x] == 0
    ensures Feasible(full)
  {
    hide Kraft, Pow2;
    KraftTrailing(full, k, MAX_BITS);
    forall n | 0 <= n < |full| ensures full[n] <= MAX_BITS {
      if n < k {
        assert full[n] == full[..k][n];
      }
    }
  }

  /** The loop over bl_order: the rank of the last length that is not zero, or 2. */
  method LastIndex(bdl: array<nat>) returns (k: int)
    requires bdl.Length >= BL_CODES
    ensures 2 <= k < BL_CODES && forall r :: k < r < BL_CODES ==> BL_ORDER[r] < BL_CODES && bdl[..][BL_ORDER[r]] == 0
  {
    hide BL_ORDER, RANK;
    Ranks();
    k := BL_CODES - 1;
    while k >= 3
      invariant 2 <= k < BL_CODES && forall r :: k < r < BL_CODES ==> bdl[BL_ORDER[r]] == 0
    {
      if bdl[BL_ORDER[k]] != 0 {
        break;
      }
      k := k - 1;
    }
  }

  /** A nonzero length is sent as itself before it is repeated. */
  lemma {:induction false} SentItself(lens: seq<nat>, n: nat, prev: int, count: nat, j: nat) returns (i: nat)
    requires n <= j < |lens| && 0 < lens[j] < 16 && prev <= 0 && forall x :: 0 <= x < |lens| ==> lens[x] < 16
    ensures i < |Runs(lens, n, prev, count)| && 1 <= Runs(lens, n, prev, count)[i].sym <= 15
    decreases |lens| - n
  {
    var cur := lens[n];
    if count + 1 < MaxCount(cur, prev) && cur == Next(lens, n) {
      var j' := if n == j then n + 1 else j;
      i := SentItself(lens, n + 1, prev, count + 1, j');
    } else if cur != 0 {
      assert Emit(cur, prev, count + 1)[0] == ClSymbol(cur, 0);
      i := 0;
    } else {
      var more := SentItself(lens, n + 1, 0, 0, j);
      i := |Emit(cur, prev, count + 1)| + more;
    }
  }

  /** At least four lengths are sent, since some length of a code is not zero. */
  lemma EnoughLengths(ll: seq<nat>, cl: seq<nat>, bdl: seq<nat>, k: int, j: nat)
    requires |bdl| >= BL_CODES && cl == bdl[..BL_CODES] && 2 <= k < BL_CODES && j < |ll| && 0 < ll[j] < 16
    requires (forall x :: 0 <= x < |ll| ==> ll[x] < 16) && ClCodable(cl, Symbols(ll))
    requires forall r :: k < r < BL_CODES ==> BL_ORDER[r] < BL_CODES && bdl[BL_ORDER[r]] == 0
    ensures k >= 3
  {
    hide BL_ORDER, RANK, Runs;
    var i := SentItself(ll, 0, -1, 0, j);
    var c := Symbols(ll)[i].sym;
    Ranks();
    LaterRank(c);
    assert cl[c] > 0 && bdl[c] == cl[c];
  }

  lemma LaterRank(c: nat)
    requires 1 <= c <= 15
    ensures |RANK| == BL_CODES && RANK[c] >= 4
  {
  }

  lemma CodableWhole(full: seq<nat>, freq: seq<nat>, ll: seq<nat>, dd: seq<nat>)
    requires |full| == |freq| == BL_CODES && forall x :: 0 <= x < BL_CODES ==> freq[x] > 0 ==> full[x] > 0
    requires (forall i :: 0 <= i < |ll| ==> ll[i] < 16) && (forall i :: 0 <= i < |dd| ==> dd[i] < 16)
    requires var ss := Symbols(ll) + Symbols(dd); forall i :: 0 <= i < |ss| ==> ss[i].sym < BL_CODES && freq[ss[i].sym] > 0
    ensures ClCodable(full, Symbols(ll)) && ClCodable(full, Symbols(dd))
  {
    hide GoodSymbol, Runs;
    var a, b := Symbols(ll), Symbols(dd);
    MaxPositive(if ll == [] then 0 else ll[0], -1);
    MaxPositive(if dd == [] then 0 else dd[0], -1);
    RunsGood(ll, 0, -1, 0);
    RunsGood(dd, 0, -1, 0);
    forall i | 0 <= i < |a| ensures GoodSymbol(a[i]) && a[i].sym < |full| && full[a[i].sym] > 0 {
      assert (a + b)[i] == a[i] && a[i] in a;
    }
    forall i | 0 <= i < |b| ensures GoodSymbol(b[i]) && b[i].sym < |full| && full[b[i].sym] > 0 {
      assert (a + b)[|a| + i] == b[i] && b[i] in b;
    }
  }

  /** The size of the header. */
  lemma HeaderCost(ll: seq<nat>, dd: seq<nat>, cl: seq<nat>, k: nat)
    requires GoodHeader(ll, dd, cl, k)
    ensures forall i :: 0 <= i < |Symbols(ll) + Symbols(dd)| ==> (Symbols(ll) + Symbols(dd))[i].sym < BL_CODES
    ensures |TreesBits(ll, dd, cl, k)|
         == DynamicCost(ClFreq(seq(BL_CODES, _ => 0), Symbols(ll) + Symbols(dd)), cl, BL_DESC) + 3 * k + 5 + 5 + 4
  {
    hide Cost, PerSymbol, ClFreq, Symbols, SymbolsBits, GoodSymbol, Feasible, Bits, TriplesBits, BL_ORDER;
    var a, b := Symbols(ll), Symbols(dd);
    BothCodable(cl, a, b);
    SymbolsCost(cl, a + b);
    SymbolsBitsAppend(cl, a, b);
  }

  /** What build_bl_tree works on. */
  ghost predicate TreesReady(ldl: seq<nat>, lmax: nat, ddl: seq<nat>, dmax: nat) {
    Scannable(ldl, lmax) && Scannable(ddl, dmax) && 256 <= lmax < L_CODES && dmax < D_CODES
  }

  lemma BlDesc()
    ensures GoodDesc(BL_DESC) && BL_DESC.elems == BL_CODES && BL_DESC.maxLength == MAX_BL_BITS
    ensures |BL_DESC.extra| == BL_CODES && BL_DESC.extraBase == 0 && BL_DESC.static_ == []
  {
    assert Pow2(7) == 128;
  }

  /** build_bl_tree */
  method BuildBlTree(heap: array<nat>, depth: array<nat>, blCount: array<nat>, bfc: array<nat>, bdl: array<nat>, ldl: array<nat>,
                     lmax: nat, ddl: array<nat>, dmax: nat)
    returns (maxBlindex: nat, opt: int)
    requires Sized(heap, depth, blCount, bfc, bdl, BL_DESC) && TreesReady(ldl[..], lmax, ddl[..], dmax)
    requires ldl != ddl && ldl !in {heap, depth, blCount, bfc, bdl} && ddl !in {heap, depth, blCount, bfc, bdl}
    requires ldl[END_BLOCK] > 0
    requires forall x :: 0 <= x < BL_CODES ==> bfc[x] == 0
    modifies heap, depth, blCount, bfc, bdl, ldl, ddl
    ensures Sized(heap, depth, blCount, bfc, bdl, BL_DESC) && maxBlindex < BL_CODES
    ensures ldl[..] == old(ldl[..])[lmax + 1 := NO_LENGTH] && ddl[..] == old(ddl[..])[dmax + 1 := NO_LENGTH]
    ensures var ll, dd, cl := ldl[..][..lmax + 1], ddl[..][..dmax + 1], bdl[..][..BL_CODES];
            && Coded(bfc[..], cl) && GoodHeader(ll, dd, cl, maxBlindex + 1) && opt == |TreesBits(ll, dd, cl, maxBlindex + 1)|
  {
    hide Symbols, ClFreq, SeqSum, Built, DynamicCost, StaticCost, Coded, ClCodable, GoodDesc, Feasible, BL_ORDER, Settled;
    BlDesc();
    ghost var zeros := bfc[..];
    ghost var l0, d0 := ldl[..], ddl[..];
    ScanTree(ldl, lmax, bfc);
    ScanTree(ddl, dmax, bfc);
    ghost var ll, dd := ldl[..][..lmax + 1], ddl[..][..dmax + 1];
    assert ll == l0[..lmax + 1] && dd == d0[..dmax + 1];
    Scanned(zeros, Symbols(ll), Symbols(dd));
    ScanBound(ll);
    ScanBound(dd);
    ghost var freq := bfc[..][..BL_CODES];
    var maxCode, stat;
    ghost var over, depths;
    maxCode, opt, stat, over, depths := BuildTree(heap, depth, blCount, bfc, bdl, BL_DESC);
    var last := LastIndex(bdl);
    ghost var cl := bdl[..][..BL_CODES];
    WholeTree(freq, cl, maxCode, bfc[..]);
    CodableWhole(cl, freq, ll, dd);
    EnoughLengths(ll, cl, bdl[..], last, END_BLOCK);
    maxBlindex := last;
    HeaderIs(ll, dd, cl, maxBlindex + 1, bfc[..], bdl[..]);
    HeaderCost(ll, dd, cl, maxBlindex + 1);
    opt := opt + 3 * (maxBlindex + 1) + 5 + 5 + 4;
  }

  lemma HeaderIs(ll: seq<nat>, dd: seq<nat>, cl: seq<nat>, k: nat, bfc: seq<nat>, bdl: seq<nat>)
    requires 257 <= |ll| <= L_CODES && 1 <= |dd| <= D_CODES && |bdl| >= BL_CODES && cl == bdl[..BL_CODES] && 4 <= k <= BL_CODES
    requires Coded(bfc, cl) && forall s :: 0 <= s < BL_CODES ==> cl[s] < 8
    requires forall r :: k <= r < BL_CODES ==> BL_ORDER[r] < BL_CODES && bdl[BL_ORDER[r]] == 0
    requires ClCodable(cl, Symbols(ll)) && ClCodable(cl, Symbols(dd))
    requires (forall i :: 0 <= i < |ll| ==> ll[i] < 16) && (forall i :: 0 <= i < |dd| ==> dd[i] < 16)
    ensures GoodHeader(ll, dd, cl, k)
  {
    hide ClCodable, Symbols, Feasible;
  }
}
