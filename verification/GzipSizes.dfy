/** The sizes that flush_block compares fit 32 bits, so that counting them in an unsigned long of that width loses
    nothing. */
module GzipSizes {
  import opened Basics
  import opened Canonical
  import opened Rfc1951
  import opened TreeCode
  import opened GzipTreeCode
  import opened GzipHeader
  import opened TokenCode
  import opened GzipTally
  import opened BlockCode
  import opened GzipPlan

  // ---- The tokens

  lemma ExtraBounds()
    ensures |LENGTH_EXTRA| == 29 && forall c :: 0 <= c < 29 ==> LENGTH_EXTRA[c] <= 5
    ensures |DIST_EXTRA| == 30 && forall d :: 0 <= d < 30 ==> DIST_EXTRA[d] <= 13
  {
  }

  lemma TokenBound(ll: seq<nat>, dd: seq<nat>, t: Token)
    requires Codable(ll, dd, t)
    requires (forall i :: 0 <= i < |ll| ==> ll[i] < 16) && forall i :: 0 <= i < |dd| ==> dd[i] < 16
    ensures |TokenBits(ll, dd, t)| <= 48
  {
    hide LENGTH_EXTRA, DIST_EXTRA, LENGTH_BASE, DIST_BASE;
    ExtraBounds();
  }

  lemma {:induction false} TokensBound(ll: seq<nat>, dd: seq<nat>, ts: seq<Token>)
    requires forall i :: 0 <= i < |ts| ==> Codable(ll, dd, ts[i])
    requires (forall i :: 0 <= i < |ll| ==> ll[i] < 16) && forall i :: 0 <= i < |dd| ==> dd[i] < 16
    ensures |TokensBits(ll, dd, ts)| <= 48 * |ts|
    decreases |ts|
  {
    hide TokenBits, Codable;
    if ts == [] {
    } else {
      TokensBound(ll, dd, ts[..|ts| - 1]);
      TokenBound(ll, dd, ts[|ts| - 1]);
    }
  }

  // ---- The trees

  /** Every run-length symbol stands for at least one length. */
  lemma {:induction false} ExpandCount(acc: seq<nat>, ss: seq<ClSymbol>)
    requires ExpandCl(acc, ss).Some?
    ensures |acc| + |ss| <= |ExpandCl(acc, ss).value|
    decreases |ss|
  {
    if ss == [] {
    } else {
      var a := ApplyCl(acc, ss[0]).value;
      ExpandCount(a, ss[1..]);
      assert ExpandCl(acc, ss[..1]).Some?;
    }
  }

  lemma SymbolCount(lens: seq<nat>)
    requires forall i :: 0 <= i < |lens| ==> lens[i] < 16
    ensures |Symbols(lens)| <= |lens|
  {
    hide Symbols, ExpandCl;
    SymbolsExpand(lens, []);
    ExpandCount([], Symbols(lens));
    assert [] + lens == lens;
  }

  lemma {:induction false} SymbolsBound(cl: seq<nat>, ss: seq<ClSymbol>)
    requires ClCodable(cl, ss) && forall i :: 0 <= i < |cl| ==> cl[i] < 8
    ensures |SymbolsBits(cl, ss)| <= 14 * |ss|
    decreases |ss|
  {
    if ss == [] {
    } else {
      SymbolsBound(cl, ss[..|ss| - 1]);
    }
  }

  lemma TreesBound(ll: seq<nat>, dd: seq<nat>, cl: seq<nat>, k: nat)
    requires GoodHeader(ll, dd, cl, k)
    ensures |TreesBits(ll, dd, cl, k)| <= 0x2000
  {
    hide Symbols, SymbolsBits, ClCodable, Feasible, ZeroFrom;
    SymbolCount(ll);
    SymbolCount(dd);
    SymbolsBound(cl, Symbols(ll));
    SymbolsBound(cl, Symbols(dd));
  }

  // ---- The block

  /** Both sizes of a block that fits the buffers. */
  lemma PlanFits(ts: seq<Token>, lfc: seq<nat>, ldl: seq<nat>, dfc: seq<nat>, ddl: seq<nat>, bfc: seq<nat>, bdl: seq<nat>, lmax: nat,
                 dmax: nat, maxBl: nat, opt: int, stat: int)
    requires Planned(ts, lfc, ldl, dfc, ddl, bfc, bdl, lmax, dmax, maxBl, opt, stat) && |ts| < LIT_BUFSIZE
    ensures 0 <= opt < 0x8_0000 && 0 <= stat < 0x8_0000
  {
    hide Coded, GoodTokens, StaticGood, DynamicGood, StaticBlock, DynamicBlock;
    var ll, dd, cl := ldl[..lmax + 1], ddl[..dmax + 1], bdl[..BL_CODES];
    DynamicBound(ll, dd, cl, maxBl + 1, ts);
    StaticBlockBound(ts);
  }

  lemma DynamicBound(ll: seq<nat>, dd: seq<nat>, cl: seq<nat>, k: nat, ts: seq<Token>)
    requires DynamicGood(ll, dd, cl, k, ts) && |ts| < LIT_BUFSIZE
    ensures 3 <= |DynamicBlock(ll, dd, cl, k, ts, false)| < 0x8_0000
  {
    hide Codable, TokensBits, TreesBits, Feasible, ClCodable, Symbols, ZeroFrom;
    TreesBound(ll, dd, cl, k);
    TokensBound(ll, dd, ts);
  }

  lemma StaticBlockBound(ts: seq<Token>)
    requires StaticGood(ts) && |ts| < LIT_BUFSIZE
    ensures 3 <= |StaticBlock(ts, false)| < 0x8_0000
  {
    hide Codable, TokensBits;
    TokensBound(FixedLengths(), FixedDistances(), ts);
  }

  // ---- The data

  /** The bytes of a block that fits the buffers. */
  lemma {:induction false} DataBound(out: seq<byte>, ts: seq<Token>)
    requires GoodTokens(ts) && Expand(out, ts).Some?
    ensures |Expand(out, ts).value| <= |out| + 258 * |ts|
    decreases |ts|
  {
    if ts == [] {
    } else {
      assert GoodToken(ts[0]);
      DataBound(Apply(out, ts[0]).value, ts[1..]);
    }
  }
}
