/** The trees of a block: what flush_block builds before it chooses an encoding, with the exact
    size of each encoding. */
module GzipPlan {
  import opened BitString
  import opened Canonical
  import opened Rfc1951
  import opened TokenCode
  import opened TreeCode
  import opened KraftSums
  import opened GzipBitlen
  import opened GzipOptimal
  import opened GzipTree
  import opened GzipTreeCode
  import opened GzipHeader
  import opened GzipTally
  import opened BlockCode

  /** The tree of a symbol set: all lengths `full`, of which those up to `max` matter. */
  ghost predicate Tree(freq: seq<nat>, full: seq<nat>, max: nat, fc: seq<nat>) {
    && max < |full| == |freq| && Built(freq, full[..max + 1], fc, MAX_BITS) && forall x :: max < x < |full| ==> full[x] == 0
  }

  /** The lengths are the depths of a tree that no prefix code beats, if two symbols occur and the tree is not too deep. */
  ghost predicate BestOf(freq: seq<nat>, full: seq<nat>) {
    |freq| == |full| && (TwoOccur(freq) ==>
      exists depths: seq<nat> :: |depths| == |freq| && Optimal(freq, depths) && (Within(depths, MAX_BITS) ==> full == depths))
  }

  /** The same for lengths without the zeros behind them. */
  ghost predicate Best(freq: seq<nat>, lens: seq<nat>) {
    |lens| <= |freq| && BestOf(freq, lens + seq(|freq| - |lens|, _ => 0))
  }

  lemma BestFront(freq: seq<nat>, full: seq<nat>, max: nat)
    requires BestOf(freq, full) && max < |full| && forall x :: max < x < |full| ==> full[x] == 0
    ensures Best(freq, full[..max + 1])
  {
    assert full == full[..max + 1] + seq(|freq| - (max + 1), _ => 0);
  }

  lemma IsBest(freq: seq<nat>, full: seq<nat>, depths: seq<nat>, over: nat)
    requires |full| == |freq| == |depths| && (TwoOccur(freq) ==> Optimal(freq, depths)) && Settled(full, depths, MAX_BITS, over)
    ensures BestOf(freq, full)
  {
    hide Optimal, TwoOccur, Within;
  }

  /** Symbols that occur have codes. */
  lemma TreeCodes(freq: seq<nat>, full: seq<nat>, max: nat, fc: seq<nat>)
    requires Tree(freq, full, max, fc)
    ensures Coded(fc, full[..max + 1]) && forall x :: 0 <= x < |freq| && freq[x] != 0 ==> x <= max && full[x] > 0
    ensures forall x :: 0 <= x <= max ==> full[x] < 16
  {
    hide Kraft, Code, Reverse;
    var t := full[..max + 1];
    assert forall x :: 0 <= x <= max ==> t[x] == full[x];
  }

  lemma BestTree(freq: seq<nat>, full: seq<nat>, max: nat, fc: seq<nat>)
    requires Tree(freq, full, max, fc) && BestOf(freq, full)
    ensures Best(freq, full[..max + 1])
  {
    hide Built, BestOf, Best;
    BestFront(freq, full, max);
  }

  lemma TokensCoded(ts: seq<Token>, l: seq<nat>, d: seq<nat>, lmax: nat, dmax: nat)
    requires GoodTokens(ts) && |l| == L_CODES && |d| == D_CODES && lmax < L_CODES && dmax < D_CODES
    requires forall x :: 0 <= x < L_CODES && LitFreq(ts)[x] != 0 ==> x <= lmax && l[x] > 0
    requires forall x :: 0 <= x < D_CODES && DistFreq(ts)[x] != 0 ==> x <= dmax && d[x] > 0
    ensures AllCoded(l, d, ts) && forall i :: 0 <= i < |ts| ==> Codable(l[..lmax + 1], d[..dmax + 1], ts[i])
    ensures END_BLOCK <= lmax && l[END_BLOCK] > 0
  {
    hide LitSymbol, DistCode, LitFreq, DistFreq;
    forall i | 0 <= i < |ts|
      ensures LitFreq(ts)[LitSymbol(ts[i])] != 0 && (ts[i].Match? ==> DistFreq(ts)[DistCode(ts[i].dist)] != 0)
    {
      FreqCounts(ts, i);
    }
    EndCounts(ts);
  }

  /** The two accounts kept by build_tree are the sizes of the tokens in both encodings. */
  lemma Sizes(ts: seq<Token>, l: seq<nat>, d: seq<nat>, lmax: nat, dmax: nat)
    requires AllCoded(l, d, ts) && l[END_BLOCK] > 0 && END_BLOCK <= lmax < L_CODES && dmax < D_CODES
    requires forall i :: 0 <= i < |ts| ==> Codable(l[..lmax + 1], d[..dmax + 1], ts[i])
    ensures |LENGTH_EXTRA| == 29 && |DIST_EXTRA| == 30
    ensures DynamicCost(LitFreq(ts), l, LITERAL_DESC) + DynamicCost(DistFreq(ts), d, DISTANCE_DESC)
         == |TokensBits(l[..lmax + 1], d[..dmax + 1], ts)| + l[END_BLOCK]
    ensures forall i :: 0 <= i < |ts| ==> Codable(FixedLengths(), FixedDistances(), ts[i])
    ensures StaticCost(LitFreq(ts), l, LITERAL_DESC) + StaticCost(DistFreq(ts), d, DISTANCE_DESC)
         == |TokensBits(FixedLengths(), FixedDistances(), ts)| + FixedLengths()[END_BLOCK]
  {
    hide LitSymbol, DistCode, LENGTH_EXTRA, DIST_EXTRA, Cost, LitFreq, DistFreq, PerSymbol, TokensSize, TokensBits;
    TableSizes();
    FixedCodable(ts);
    hide FixedLengths, FixedDistances;
    BlockCost(l, d, l, d, ts);
    TokensBitsSize(l[..lmax + 1], d[..dmax + 1], l, d, ts);
    BlockCost(l, d, FixedLengths(), FixedDistances(), ts);
    TokensBitsSize(FixedLengths(), FixedDistances(), FixedLengths(), FixedDistances(), ts);
    NotEmpty(FixedLengths(), FixedDistances());
  }

  lemma NotEmpty(a: seq<nat>, b: seq<nat>)
    requires |a| > 0 && |b| > 0
    ensures a != [] && b != []
  {
  }

  lemma FixedCodable(ts: seq<Token>)
    requires GoodTokens(ts)
    ensures forall i :: 0 <= i < |ts| ==> Codable(FixedLengths(), FixedDistances(), ts[i])
  {
    hide LengthCode, DistCode;
  }

  /** What flush_block knows when it chooses an encoding. */
  ghost predicate Planned(ts: seq<Token>, lfc: seq<nat>, ldl: seq<nat>, dfc: seq<nat>, ddl: seq<nat>, bfc: seq<nat>, bdl: seq<nat>,
                          lmax: nat, dmax: nat, maxBl: nat, opt: int, stat: int)
  {
    && TreesReady(ldl, lmax, ddl, dmax) && ldl[lmax + 1] == NO_LENGTH && ddl[dmax + 1] == NO_LENGTH && |bdl| >= BL_CODES
    && maxBl < BL_CODES && GoodTokens(ts) && StaticGood(ts)
    && (var ll, dd, cl := ldl[..lmax + 1], ddl[..dmax + 1], bdl[..BL_CODES];
        && Coded(lfc, ll) && Coded(dfc, dd) && Coded(bfc, cl) && DynamicGood(ll, dd, cl, maxBl + 1, ts)
        && 3 + opt == |DynamicBlock(ll, dd, cl, maxBl + 1, ts, false)|)
    && 3 + stat == |StaticBlock(ts, false)|
  }

  /** Both trees give the sizes and the codes of the tokens. */
  lemma BothTrees(ts: seq<Token>, l: seq<nat>, lmax: nat, lfc: seq<nat>, d: seq<nat>, dmax: nat, dfc: seq<nat>)
    requires GoodTokens(ts) && Tree(LitFreq(ts), l, lmax, lfc) && Tree(DistFreq(ts), d, dmax, dfc)
    ensures |LENGTH_EXTRA| == 29 && |DIST_EXTRA| == 30 && END_BLOCK <= lmax < |l| == L_CODES && dmax < |d| == D_CODES
    ensures Coded(lfc, l[..lmax + 1]) && Coded(dfc, d[..dmax + 1]) && l[END_BLOCK] > 0
    ensures (forall x :: 0 <= x <= lmax ==> l[x] < 16) && (forall x :: 0 <= x <= dmax ==> d[x] < 16)
    ensures forall i :: 0 <= i < |ts| ==> Codable(l[..lmax + 1], d[..dmax + 1], ts[i])
    ensures DynamicCost(LitFreq(ts), l, LITERAL_DESC) + DynamicCost(DistFreq(ts), d, DISTANCE_DESC)
         == |TokensBits(l[..lmax + 1], d[..dmax + 1], ts)| + l[END_BLOCK]
    ensures forall i :: 0 <= i < |ts| ==> Codable(FixedLengths(), FixedDistances(), ts[i])
    ensures StaticCost(LitFreq(ts), l, LITERAL_DESC) + StaticCost(DistFreq(ts), d, DISTANCE_DESC)
         == |TokensBits(FixedLengths(), FixedDistances(), ts)| + FixedLengths()[END_BLOCK]
  {
    hide LitFreq, DistFreq, Built, Coded, Codable, LENGTH_EXTRA, DIST_EXTRA, DynamicCost, StaticCost, FixedLengths, FixedDistances,
         TokensBits, AllCoded;
    TableSizes();
    TreeCodes(LitFreq(ts), l, lmax, lfc);
    TreeCodes(DistFreq(ts), d, dmax, dfc);
    TokensCoded(ts, l, d, lmax, dmax);
    Sizes(ts, l, d, lmax, dmax);
  }

  /** The arrays that build_tree works on. */
  ghost predicate Apart(heap: array<nat>, depth: array<nat>, blCount: array<nat>, lfc: array<nat>, ldl: array<nat>, dfc: array<nat>,
                        ddl: array<nat>, bfc: array<nat>, bdl: array<nat>)
    reads depth
  {
    && Sized(heap, depth, blCount, lfc, ldl, LITERAL_DESC) && Sized(heap, depth, blCount, dfc, ddl, DISTANCE_DESC)
    && Sized(heap, depth, blCount, bfc, bdl, BL_DESC)
    && lfc != dfc && lfc != ddl && lfc != bfc && lfc != bdl && ldl != dfc && ldl != ddl && ldl != bfc && ldl != bdl
    && dfc != bfc && dfc != bdl && ddl != bfc && ddl != bdl
  }

  /** build_tree for both alphabets. */
  method BuildBoth(heap: array<nat>, depth: array<nat>, blCount: array<nat>, lfc: array<nat>, ldl: array<nat>, dfc: array<nat>,
                   ddl: array<nat>, bfc: array<nat>, bdl: array<nat>, ghost ts: seq<Token>)
    returns (lmax: nat, dmax: nat, opt: int, stat: int)
    requires Apart(heap, depth, blCount, lfc, ldl, dfc, ddl, bfc, bdl) && GoodTokens(ts) && |ts| < LIT_BUFSIZE
    requires lfc[..][..L_CODES] == LitFreq(ts) && dfc[..][..D_CODES] == DistFreq(ts)
    modifies heap, depth, blCount, lfc, ldl, dfc, ddl
    ensures Apart(heap, depth, blCount, lfc, ldl, dfc, ddl, bfc, bdl)
    ensures |LENGTH_EXTRA| == 29 && |DIST_EXTRA| == 30
    ensures var l, d := ldl[..][..L_CODES], ddl[..][..D_CODES];
            && Tree(LitFreq(ts), l, lmax, lfc[..]) && Tree(DistFreq(ts), d, dmax, dfc[..])
            && opt == DynamicCost(LitFreq(ts), l, LITERAL_DESC) + DynamicCost(DistFreq(ts), d, DISTANCE_DESC)
            && stat == StaticCost(LitFreq(ts), l, LITERAL_DESC) + StaticCost(DistFreq(ts), d, DISTANCE_DESC)
            && BestOf(LitFreq(ts), l) && BestOf(DistFreq(ts), d)
  {
    hide LitFreq, DistFreq, Built, LENGTH_EXTRA, DIST_EXTRA, DynamicCost, StaticCost, GoodDesc, SeqSum, FixedLengths, FixedDistances;
    hide GoodTokens, Settled, BestOf, TwoOccur, Optimal;
    Descriptions();
    FreqSums(ts);
    var o, s;
    ghost var over, depths;
    lmax, opt, stat, over, depths := BuildTree(heap, depth, blCount, lfc, ldl, LITERAL_DESC);
    ghost var l, lc := ldl[..][..L_CODES], lfc[..];
    IsBest(LitFreq(ts), l, depths, over);
    dmax, o, s, over, depths := BuildTree(heap, depth, blCount, dfc, ddl, DISTANCE_DESC);
    IsBest(DistFreq(ts), ddl[..][..D_CODES], depths, over);
    assert ldl[..][..L_CODES] == l && lfc[..] == lc;
    opt, stat := opt + o, stat + s;
  }

  lemma PlanIs(ts: seq<Token>, lfc: seq<nat>, l0: seq<nat>, ldl: seq<nat>, dfc: seq<nat>, d0: seq<nat>, ddl: seq<nat>, bfc: seq<nat>,
               bdl: seq<nat>, lmax: nat, dmax: nat, maxBl: nat, opt: int, stat: int, head: int)
    requires GoodTokens(ts) && L_CODES < |l0| && D_CODES < |d0| && |bdl| >= BL_CODES && maxBl < BL_CODES
    requires Tree(LitFreq(ts), l0[..L_CODES], lmax, lfc) && Tree(DistFreq(ts), d0[..D_CODES], dmax, dfc)
    requires |LENGTH_EXTRA| == 29 && |DIST_EXTRA| == 30
    requires opt == DynamicCost(LitFreq(ts), l0[..L_CODES], LITERAL_DESC) + DynamicCost(DistFreq(ts), d0[..D_CODES], DISTANCE_DESC)
    requires stat == StaticCost(LitFreq(ts), l0[..L_CODES], LITERAL_DESC) + StaticCost(DistFreq(ts), d0[..D_CODES], DISTANCE_DESC)
    requires ldl == l0[lmax + 1 := NO_LENGTH] && ddl == d0[dmax + 1 := NO_LENGTH] && Coded(bfc, bdl[..BL_CODES])
    requires GoodHeader(ldl[..lmax + 1], ddl[..dmax + 1], bdl[..BL_CODES], maxBl + 1)
    requires head == |TreesBits(ldl[..lmax + 1], ddl[..dmax + 1], bdl[..BL_CODES], maxBl + 1)|
    ensures Planned(ts, lfc, ldl, dfc, ddl, bfc, bdl, lmax, dmax, maxBl, opt + head, stat)
  {
    hide LitFreq, DistFreq, Built, Coded, Codable, LENGTH_EXTRA, DIST_EXTRA, DynamicCost, StaticCost, FixedLengths, FixedDistances,
         TokensBits, GoodHeader, Tree, Feasible, Kind, Codeword, TreesBits;
    BothTrees(ts, l0[..L_CODES], lmax, lfc, d0[..D_CODES], dmax, dfc);
    assert ldl[..lmax + 1] == l0[..L_CODES][..lmax + 1] && ddl[..dmax + 1] == d0[..D_CODES][..dmax + 1];
    AreReady(l0, lmax, ldl, d0, dmax, ddl);
    CodedFeasible(lfc, ldl[..lmax + 1]);
    CodedFeasible(dfc, ddl[..dmax + 1]);
  }

  lemma CodedFeasible(fc: seq<nat>, lens: seq<nat>)
    requires Coded(fc, lens)
    ensures Feasible(lens)
  {
  }

  lemma AreReady(l0: seq<nat>, lmax: nat, ldl: seq<nat>, d0: seq<nat>, dmax: nat, ddl: seq<nat>)
    requires END_BLOCK <= lmax < L_CODES < |l0| && dmax < D_CODES < |d0|
    requires ldl == l0[lmax + 1 := NO_LENGTH] && ddl == d0[dmax + 1 := NO_LENGTH]
    requires (forall x :: 0 <= x <= lmax ==> l0[..L_CODES][x] < 16) && (forall x :: 0 <= x <= dmax ==> d0[..D_CODES][x] < 16)
    ensures TreesReady(ldl, lmax, ddl, dmax) && TreesReady(l0, lmax, d0, dmax)
  {
    assert forall x :: 0 <= x <= lmax ==> l0[x] == l0[..L_CODES][x];
    assert forall x :: 0 <= x <= dmax ==> d0[x] == d0[..D_CODES][x];
  }

  /** All three trees. */
  method BuildTrees(heap: array<nat>, depth: array<nat>, blCount: array<nat>, lfc: array<nat>, ldl: array<nat>, dfc: array<nat>,
                    ddl: array<nat>, bfc: array<nat>, bdl: array<nat>, ghost ts: seq<Token>)
    returns (lmax: nat, dmax: nat, maxBlindex: nat, opt: int, stat: int)
    requires Apart(heap, depth, blCount, lfc, ldl, dfc, ddl, bfc, bdl) && GoodTokens(ts) && |ts| < LIT_BUFSIZE
    requires lfc[..][..L_CODES] == LitFreq(ts) && dfc[..][..D_CODES] == DistFreq(ts)
    requires forall x :: 0 <= x < BL_CODES ==> bfc[x] == 0
    modifies heap, depth, blCount, lfc, ldl, dfc, ddl, bfc, bdl
    ensures Apart(heap, depth, blCount, lfc, ldl, dfc, ddl, bfc, bdl)
    ensures Planned(ts, lfc[..], ldl[..], dfc[..], ddl[..], bfc[..], bdl[..], lmax, dmax, maxBlindex, opt, stat)
    ensures lmax < ldl.Length && dmax < ddl.Length && Best(LitFreq(ts), ldl[..lmax + 1]) && Best(DistFreq(ts), ddl[..dmax + 1])
  {
    hide LitFreq, DistFreq, Built, Coded, Codable, LENGTH_EXTRA, DIST_EXTRA, DynamicCost, StaticCost, FixedLengths, FixedDistances,
         TokensBits, GoodHeader, Tree, GoodDesc, Planned, TreesReady, TreesBits, BestOf, Best;
    lmax, dmax, opt, stat := BuildBoth(heap, depth, blCount, lfc, ldl, dfc, ddl, bfc, bdl, ts);
    Descriptions();
    ghost var l0, d0, lc, dc := ldl[..], ddl[..], lfc[..], dfc[..];
    BothTrees(ts, l0[..L_CODES], lmax, lc, d0[..D_CODES], dmax, dc);
    BestTree(LitFreq(ts), l0[..L_CODES], lmax, lc);
    BestTree(DistFreq(ts), d0[..D_CODES], dmax, dc);
    AreReady(l0, lmax, l0[lmax + 1 := NO_LENGTH], d0, dmax, d0[dmax + 1 := NO_LENGTH]);
    assert ldl[END_BLOCK] == l0[..L_CODES][END_BLOCK];
    var head;
    maxBlindex, head := BuildBlTree(heap, depth, blCount, bfc, bdl, ldl, lmax, ddl, dmax);
    PlanIs(ts, lc, l0, ldl[..], dc, d0, ddl[..], bfc[..], bdl[..], lmax, dmax, maxBlindex, opt, stat, head);
    assert lfc[..] == lc && dfc[..] == dc;
    assert ldl[..lmax + 1] == l0[..L_CODES][..lmax + 1] && ddl[..dmax + 1] == d0[..D_CODES][..dmax + 1];
    opt := opt + head;
  }
}
