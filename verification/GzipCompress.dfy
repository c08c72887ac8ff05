/** compress_block: the buffered tokens are sent with two given codes. */
module GzipCompress {
  import opened BitString
  import opened Canonical
  import opened Rfc1951
  import opened TokenCode
  import opened GzipBits
  import opened GzipTally
  import opened GzipTables
  import opened GzipTreeCode

  /** The tables of ct_init. */
  datatype Tables = Tables(lengthCode: seq<nat>, baseLength: seq<nat>, distCode: seq<nat>, baseDist: seq<nat>)

  ghost predicate GoodTables(tab: Tables) {
    && |tab.lengthCode| == 256 && |tab.baseLength| == LENGTH_CODES && |tab.distCode| == 512 && |tab.baseDist| == D_CODES
    && (forall lc :: 0 <= lc < 256 ==> tab.lengthCode[lc] == LengthCode(lc + 3))
    && (forall c :: 0 <= c < 28 ==> tab.baseLength[c] == LENGTH_BASE[c] - 3)
    && (forall d :: 0 <= d < 0x8000 ==> DCode(tab.distCode, d) == DistCode(d + 1))
    && (forall c :: 0 <= c < D_CODES ==> tab.baseDist[c] == DIST_BASE[c] - 1)
  }

  /** The buffers hold the tokens; all flags have been saved. */
  ghost predicate Buffered(lBuf: seq<nat>, dBuf: seq<nat>, flagBuf: seq<nat>, ts: seq<Token>) {
    && |ts| <= |lBuf| && |Dists(ts)| <= |dBuf| && lBuf[..|ts|] == Lcs(ts) && dBuf[..|Dists(ts)|] == Dists(ts)
    && Saved(flagBuf, Flags(ts))
  }

  lemma LengthParts(tab: Tables, len: nat)
    requires GoodTables(tab) && 3 <= len <= 258
    ensures var c := LengthCode(len);
            && |LENGTH_EXTRA| == 29 && tab.lengthCode[len - 3] == c && LENGTH_EXTRA[c] <= 16
            && (LENGTH_EXTRA[c] != 0 ==> tab.baseLength[c] <= len - 3 && len - 3 - tab.baseLength[c] == len - LENGTH_BASE[c])
            && len - LENGTH_BASE[c] < Pow2(LENGTH_EXTRA[c])
  {
    hide LengthCode, DistCode, DCode, Pow2, LENGTH_BASE, LENGTH_EXTRA, DIST_BASE;
    TableSizes();
    LengthFits(len);
    LengthTable(LengthCode(len));
    LastExtra();
  }

  lemma LastExtra()
    ensures LENGTH_EXTRA[28] == 0
  {
  }

  lemma DistParts(tab: Tables, dist: nat)
    requires GoodTables(tab) && 1 <= dist <= 32768
    ensures var d := DistCode(dist);
            && |DIST_EXTRA| == 30 && DCode(tab.distCode, dist - 1) == d && DIST_EXTRA[d] <= 16
            && tab.baseDist[d] <= dist - 1 && dist - 1 - tab.baseDist[d] == dist - DIST_BASE[d]
            && dist - DIST_BASE[d] < Pow2(DIST_EXTRA[d])
  {
    hide LengthCode, DistCode, DCode, Pow2, LENGTH_BASE, DIST_BASE, DIST_EXTRA;
    TableSizes();
    DistFits(dist);
    DistTable(DistCode(dist));
    assert DCode(tab.distCode, dist - 1) == DistCode(dist - 1 + 1);
  }

  /** Extra bits are sent only if there are any. */
  method SendExtra(bw: BitWriter, v: nat, base: nat, extra: nat, ghost x: nat)
    requires bw.Valid() && extra <= 16 && x < Pow2(extra) && (extra != 0 ==> base <= v && v - base == x)
    modifies bw, bw.outbuf
    ensures bw.Valid() && bw.Sent() == old(bw.Sent()) + Bits(x, extra)
  {
    hide Bits, Pow2, ByteBits;
    if extra != 0 {
      bw.SendBits(v - base, extra);
    } else {
      NoneIsNone(x);
      assert bw.Sent() + [] == bw.Sent();
    }
  }

  /** A match: the length code, its extra bits, the distance code, its extra bits. */
  method SendMatch(bw: BitWriter, tab: Tables, lcodes: seq<nat>, ll: seq<nat>, dcodes: seq<nat>, dd: seq<nat>, lc: nat, dist: nat,
                   ghost t: Token)
    requires bw.Valid() && GoodTables(tab) && Coded(lcodes, ll) && Coded(dcodes, dd) && Codable(ll, dd, t)
    requires t.Match? && lc == t.len - 3 && dist == t.dist - 1
    modifies bw, bw.outbuf
    ensures bw.Valid() && bw.Sent() == old(bw.Sent()) + TokenBits(ll, dd, t)
  {
    hide Bits, Pow2, ByteBits, Codeword, Coded, LengthCode, DistCode, DCode, LENGTH_BASE, LENGTH_EXTRA, DIST_BASE, DIST_EXTRA;
    TableSizes();
    ghost var sent := bw.Sent();
    LengthParts(tab, t.len);
    DistParts(tab, t.dist);
    ghost var c0, d0 := LengthCode(t.len), DistCode(t.dist);
    MatchBits(ll, dd, t);
    var code := tab.lengthCode[lc];
    SendCode(bw, lcodes, ll, code + LITERALS + 1);
    SendExtra(bw, lc, tab.baseLength[code], LENGTH_EXTRA[code], t.len - LENGTH_BASE[c0]);
    code := DCode(tab.distCode, dist);
    SendCode(bw, dcodes, dd, code);
    SendExtra(bw, dist, tab.baseDist[code], DIST_EXTRA[code], t.dist - DIST_BASE[d0]);
    Regroup(sent, Codeword(ll, LitSymbol(t)), Bits(t.len - LENGTH_BASE[c0], LENGTH_EXTRA[c0]), Codeword(dd, d0),
                 Bits(t.dist - DIST_BASE[d0], DIST_EXTRA[d0]));
  }

  lemma MatchBits(ll: seq<nat>, dd: seq<nat>, t: Token)
    requires Codable(ll, dd, t) && t.Match?
    ensures var c, d := LengthCode(t.len), DistCode(t.dist);
            && LENGTH_BASE[c] <= t.len && DIST_BASE[d] <= t.dist
            && TokenBits(ll, dd, t) == Codeword(ll, LitSymbol(t)) + Bits(t.len - LENGTH_BASE[c], LENGTH_EXTRA[c])
                                       + Codeword(dd, d) + Bits(t.dist - DIST_BASE[d], DIST_EXTRA[d])
  {
    hide Bits, Pow2, Codeword, LengthCode, DistCode, LENGTH_BASE, LENGTH_EXTRA, DIST_BASE, DIST_EXTRA;
    TableSizes();
    LengthFits(t.len);
    DistFits(t.dist);
  }

  lemma NextToken(lBuf: seq<nat>, dBuf: seq<nat>, flagBuf: seq<nat>, ts: seq<Token>, n: nat, fx: nat, flag: nat)
    requires Buffered(lBuf, dBuf, flagBuf, ts) && GoodTokens(ts) && n < |ts| && Unpacking(Flags(ts), n, fx, flag)
    ensures n % 8 == 0 ==> fx < |flagBuf|
    ensures n < |lBuf| && lBuf[n] == Lc(ts[n])
    ensures ts[n].Match? ==> |Dists(ts[..n])| < |dBuf| && dBuf[|Dists(ts[..n])|] == ts[n].dist - 1
    ensures |Dists(ts[..n + 1])| == |Dists(ts[..n])| + if ts[n].Match? then 1 else 0
    ensures var f, g := if n % 8 == 0 then flagBuf[fx] else flag, if n % 8 == 0 then fx + 1 else fx;
            (f % 2 == 1 <==> ts[n].Match?) && Unpacking(Flags(ts), n + 1, g, f / 2)
  {
    hide Saved, Unpacking, Dists;
    NextFlag(flagBuf, Flags(ts), n, fx, flag);
    DistAt(ts, n);
    assert lBuf[n] == lBuf[..|ts|][n];
    assert ts[..n + 1] == ts[..n] + [ts[n]];
    DistsAppend(ts[..n], ts[n]);
    if ts[n].Match? {
      assert dBuf[|Dists(ts[..n])|] == dBuf[..|Dists(ts)|][|Dists(ts[..n])|];
    }
  }

  lemma MoreTokens(ll: seq<nat>, dd: seq<nat>, ts: seq<Token>, n: nat, sent: seq<bool>)
    requires n < |ts| && forall i :: 0 <= i < |ts| ==> Codable(ll, dd, ts[i])
    ensures sent + TokensBits(ll, dd, ts[..n]) + TokenBits(ll, dd, ts[n]) == sent + TokensBits(ll, dd, ts[..n + 1])
  {
    hide TokenBits, Codable;
    assert ts[..n + 1][..n] == ts[..n];
    var a, b := TokensBits(ll, dd, ts[..n]), TokenBits(ll, dd, ts[n]);
    assert sent + a + b == sent + (a + b);
  }

  lemma StartUnpacking(fl: seq<bool>)
    ensures Unpacking(fl, 0, 0, 0)
  {
  }

  lemma NoneSent(ll: seq<nat>, dd: seq<nat>, ts: seq<Token>, sent: seq<bool>)
    ensures sent == sent + TokensBits(ll, dd, ts[..0]) && Dists(ts[..0]) == []
  {
  }

  lemma LiteralBits(ll: seq<nat>, dd: seq<nat>, t: Token)
    requires Codable(ll, dd, t) && t.Literal?
    ensures Lc(t) < |ll| && ll[Lc(t)] > 0 && TokenBits(ll, dd, t) == Codeword(ll, Lc(t))
  {
  }

  /** compress_block */
  method CompressBlock(bw: BitWriter, tab: Tables, lBuf: seq<nat>, dBuf: seq<nat>, flagBuf: seq<nat>, lastLit: nat,
                       lcodes: seq<nat>, ll: seq<nat>, dcodes: seq<nat>, dd: seq<nat>, ghost ts: seq<Token>)
    requires bw.Valid() && GoodTables(tab) && Coded(lcodes, ll) && Coded(dcodes, dd) && END_BLOCK < |ll| && ll[END_BLOCK] > 0
    requires lastLit == |ts| && Buffered(lBuf, dBuf, flagBuf, ts) && GoodTokens(ts)
    requires forall i :: 0 <= i < |ts| ==> Codable(ll, dd, ts[i])
    modifies bw, bw.outbuf
    ensures bw.Valid() && bw.Sent() == old(bw.Sent()) + (TokensBits(ll, dd, ts) + Codeword(ll, END_BLOCK))
  {
    hide Bits, Pow2, ByteBits, Codeword, Coded, LengthCode, DistCode, TokenBits, TokensBits, GoodTables, Buffered, Codable, Dists,
         Unpacking, Flags, Lc;
    ghost var sent := bw.Sent();
    var lx, dx, fx, flag := 0, 0, 0, 0;
    StartUnpacking(Flags(ts));
    NoneSent(ll, dd, ts, sent);
    while lx < lastLit
      invariant lx <= lastLit && Unpacking(Flags(ts), lx, fx, flag) && dx == |Dists(ts[..lx])|
      invariant bw.Valid() && bw.Sent() == sent + TokensBits(ll, dd, ts[..lx])
    {
      NextToken(lBuf, dBuf, flagBuf, ts, lx, fx, flag);
      if lx % 8 == 0 {
        flag, fx := flagBuf[fx], fx + 1;
      }
      ghost var t := ts[lx];
      var lc := lBuf[lx];
      MoreTokens(ll, dd, ts, lx, sent);
      if flag % 2 == 0 {
        LiteralBits(ll, dd, t);
        SendCode(bw, lcodes, ll, lc);
      } else {
        GoodMatch(t);
        SendMatch(bw, tab, lcodes, ll, dcodes, dd, lc, dBuf[dx], t);
        dx := dx + 1;
      }
      lx := lx + 1;
      flag := flag / 2;
    }
    assert ts[..lx] == ts;
    SendCode(bw, lcodes, ll, END_BLOCK);
    assert sent + TokensBits(ll, dd, ts) + Codeword(ll, END_BLOCK) == sent + (TokensBits(ll, dd, ts) + Codeword(ll, END_BLOCK));
  }

  lemma GoodMatch(t: Token)
    requires GoodToken(t) && t.Match?
    ensures Lc(t) == t.len - 3 && t.dist >= 1
  {
  }
}
