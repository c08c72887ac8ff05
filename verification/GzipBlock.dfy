/** The block coder: ct_init, init_block, ct_tally and flush_block. */
module GzipBlock {
  import opened Basics
  import opened BitString
  import opened Canonical
  import opened Rfc1951
  import opened TokenCode
  import opened KraftSums
  import opened GzipBits
  import opened GzipBitlen
  import opened GzipForest
  import opened GzipTally
  import opened GzipTables
  import opened GzipTreeCode
  import opened GzipHeader
  import opened GzipCompress
  import opened GzipPlan
  import opened GzipSizes
  import opened GzipSend
  import opened BlockCode
  import opened GzipChoice

  /** ulg has 32 bits. */
  const ULG := 0x1_0000_0000

  function Wrap(x: nat): nat { x % ULG }

  lemma WrapAdd(c: nat, x: nat, n: nat)
    requires c == Wrap(x)
    ensures Wrap(c + n) == Wrap(x + n)
  {
  }

  /** The buffers hold the tokens tallied so far. */
  ghost predicate Tallying(lBuf: seq<nat>, dBuf: seq<nat>, flagBuf: seq<nat>, lastLit: nat, lastDist: nat, lastFlags: nat, flags: nat,
                           flagBit: nat, ts: seq<Token>)
  {
    && lastLit == |ts| <= |lBuf| && lastDist == |Dists(ts)| <= |dBuf| && lBuf[..lastLit] == Lcs(ts) && dBuf[..lastDist] == Dists(ts)
    && Packed(flagBuf, lastFlags, flags, flagBit, Flags(ts))
  }

  /** The frequencies of the tokens tallied so far. */
  ghost predicate Counting(lfc: seq<nat>, dfc: seq<nat>, bfc: seq<nat>, ts: seq<Token>) {
    && GoodTokens(ts) && |lfc| >= L_CODES && |dfc| >= D_CODES && |bfc| >= BL_CODES
    && lfc[..L_CODES] == LitFreq(ts) && dfc[..D_CODES] == DistFreq(ts) && forall x :: 0 <= x < BL_CODES ==> bfc[x] == 0
  }

  lemma TallyingStart(lBuf: seq<nat>, dBuf: seq<nat>, flagBuf: seq<nat>)
    ensures Tallying(lBuf, dBuf, flagBuf, 0, 0, 0, 0, 1, [])
  {
    PackStart(flagBuf);
  }

  /** ct_tally on the buffers. */
  lemma TallyingStep(lBuf: seq<nat>, dBuf: seq<nat>, flagBuf: seq<nat>, lastLit: nat, lastDist: nat, lastFlags: nat, flags: nat,
                     flagBit: nat, ts: seq<Token>, t: Token)
    requires Tallying(lBuf, dBuf, flagBuf, lastLit, lastDist, lastFlags, flags, flagBit, ts) && GoodToken(t)
    requires lastLit < |lBuf| == |dBuf| == 8 * |flagBuf|
    ensures lastDist < |dBuf| && lastFlags < |flagBuf|
    ensures var ts', l := ts + [t], lBuf[lastLit := Lc(t)];
            var d, n := if t.Match? then dBuf[lastDist := t.dist - 1] else dBuf, lastDist + if t.Match? then 1 else 0;
            var f := flags + if t.Match? then flagBit else 0;
            if (lastLit + 1) % 8 == 0 then Tallying(l, d, flagBuf[lastFlags := f], lastLit + 1, n, lastFlags + 1, 0, 1, ts')
            else Tallying(l, d, flagBuf, lastLit + 1, n, lastFlags, f, flagBit * 2 % 256, ts')
  {
    hide Dists, Packed, Lc;
    DistsAppend(ts, t);
    PackedLast(flagBuf, lastFlags, flags, flagBit, Flags(ts));
    PackStep(flagBuf, lastFlags, flags, flagBit, Flags(ts), t.Match?);
    assert Flags(ts + [t]) == Flags(ts) + [t.Match?];
    assert Lcs(ts + [t]) == Lcs(ts) + [Lc(t)];
    assert lBuf[lastLit := Lc(t)][..lastLit + 1] == lBuf[..lastLit] + [Lc(t)];
    if t.Match? {
      assert dBuf[lastDist := t.dist - 1][..lastDist + 1] == dBuf[..lastDist] + [t.dist - 1];
    }
  }

  lemma PackedLast(buf: seq<nat>, last: nat, flags: nat, bit: nat, fl: seq<bool>)
    requires Packed(buf, last, flags, bit, fl)
    ensures last == |fl| / 8
  {
  }

  lemma TallyingEnd(lBuf: seq<nat>, dBuf: seq<nat>, flagBuf: seq<nat>, lastLit: nat, lastDist: nat, lastFlags: nat, flags: nat,
                    flagBit: nat, ts: seq<Token>)
    requires Tallying(lBuf, dBuf, flagBuf, lastLit, lastDist, lastFlags, flags, flagBit, ts) && lastLit < 8 * |flagBuf|
    ensures lastFlags < |flagBuf| && Buffered(lBuf, dBuf, flagBuf[lastFlags := flags], ts) && lastLit == |ts|
  {
    hide Dists, Packed, Saved;
    PackedLast(flagBuf, lastFlags, flags, flagBit, Flags(ts));
    PackEnd(flagBuf, lastFlags, flags, flagBit, Flags(ts));
  }

  lemma CountingStep(lfc: seq<nat>, dfc: seq<nat>, bfc: seq<nat>, ts: seq<Token>, t: Token)
    requires Counting(lfc, dfc, bfc, ts) && GoodToken(t)
    ensures var x := LitSymbol(t);
            var l, d := lfc[x := lfc[x] + 1], if t.Match? then dfc[DistCode(t.dist) := dfc[DistCode(t.dist)] + 1] else dfc;
            Counting(l, d, bfc, ts + [t])
  {
    hide LitSymbol, DistCode, LitFreq, DistFreq;
    FreqAppend(ts, t);
    var x := LitSymbol(t);
    assert lfc[x := lfc[x] + 1][..L_CODES] == Tick(lfc[..L_CODES], x);
    if t.Match? {
      var y := DistCode(t.dist);
      assert dfc[y := dfc[y] + 1][..D_CODES] == Tick(dfc[..D_CODES], y);
    }
  }

  lemma CountingStart(lfc: seq<nat>, dfc: seq<nat>, bfc: seq<nat>)
    requires |lfc| >= L_CODES && |dfc| >= D_CODES && |bfc| >= BL_CODES && forall x :: 0 <= x < BL_CODES ==> bfc[x] == 0
    requires forall x :: 0 <= x < L_CODES ==> lfc[x] == if x == END_BLOCK then 1 else 0
    requires forall x :: 0 <= x < D_CODES ==> dfc[x] == 0
    ensures Counting(lfc, dfc, bfc, [])
  {
  }

  method Clear(a: array<nat>, n: nat)
    requires n <= a.Length
    modifies a
    ensures forall i :: 0 <= i < n ==> a[i] == 0
    ensures forall i :: n <= i < a.Length ==> a[i] == old(a[i])
  {
    for i := 0 to n
      invariant forall j :: 0 <= j < i ==> a[j] == 0
      invariant forall j :: n <= j < a.Length ==> a[j] == old(a[j])
    {
      a[i] := 0;
    }
  }

  /** The buffers of ct_tally. */
  method BufferToken(lBuf: array<nat>, dBuf: array<nat>, flagBuf: array<nat>, lastLit0: nat, lastDist0: nat, lastFlags0: nat,
                     flags0: nat, flagBit0: nat, dist: nat, lc: nat, ghost ts: seq<Token>, ghost t: Token)
    returns (lastLit: nat, lastDist: nat, lastFlags: nat, flags: nat, flagBit: nat)
    requires lBuf != dBuf && lBuf != flagBuf && dBuf != flagBuf && lBuf.Length == dBuf.Length == 8 * flagBuf.Length
    requires GoodToken(t) && lc == Lc(t) && dist == (if t.Match? then t.dist else 0) && lastLit0 < lBuf.Length
    requires Tallying(lBuf[..], dBuf[..], flagBuf[..], lastLit0, lastDist0, lastFlags0, flags0, flagBit0, ts)
    modifies lBuf, dBuf, flagBuf
    ensures lastLit == lastLit0 + 1
    ensures Tallying(lBuf[..], dBuf[..], flagBuf[..], lastLit, lastDist, lastFlags, flags, flagBit, ts + [t])
  {
    hide Tallying;
    lastLit, lastDist, lastFlags, flags, flagBit := lastLit0, lastDist0, lastFlags0, flags0, flagBit0;
    ghost var l, d, f := lBuf[..], dBuf[..], flagBuf[..];
    TallyingStep(l, d, f, lastLit, lastDist, lastFlags, flags, flagBit, ts, t);
    lBuf[lastLit] := lc;
    assert lBuf[..] == l[lastLit := lc];
    lastLit := lastLit + 1;
    if dist != 0 {
      var less: nat := dist - 1;
      dBuf[lastDist] := less;
      assert dBuf[..] == d[lastDist := less];
      lastDist := lastDist + 1;
      flags := flags + flagBit;
    }
    flagBit := flagBit * 2 % 256;
    if lastLit % 8 == 0 {
      flagBuf[lastFlags] := flags;
      assert flagBuf[..] == f[lastFlags := flags];
      lastFlags := lastFlags + 1;
      flags := 0;
      flagBit := 1;
    }
  }

  /** The loops of init_block. */
  method ClearFreqs(lfc: array<nat>, dfc: array<nat>, bfc: array<nat>)
    requires lfc.Length >= L_CODES && dfc.Length >= D_CODES && bfc.Length >= BL_CODES && lfc != dfc && lfc != bfc && dfc != bfc
    modifies lfc, dfc, bfc
    ensures Counting(lfc[..], dfc[..], bfc[..], [])
  {
    hide Counting;
    Clear(lfc, L_CODES);
    Clear(dfc, D_CODES);
    Clear(bfc, BL_CODES);
    lfc[END_BLOCK] := 1;
    CountingStart(lfc[..], dfc[..], bfc[..]);
  }

  /** ct_init: the tables and the static trees. */
  method CtInit() returns (tab: Tables, slc: seq<nat>, sll: seq<nat>, sdc: seq<nat>, sdl: seq<nat>, blCount: array<nat>)
    ensures GoodTables(tab) && StaticTrees(slc, sll, sdc, sdl) && fresh(blCount) && blCount.Length == MAX_BITS + 1
  {
    hide LengthCode, DistCode, DCode, LENGTH_BASE, DIST_BASE, FixedLengths, FixedDistances, Reverse, Code;
    TableSizes();
    blCount := new nat[MAX_BITS + 1](_ => 0);
    var lengthCode, baseLength := LengthTables();
    var distCode, baseDist := DistTables();
    tab := Tables(lengthCode, baseLength, distCode, baseDist);
    slc, sll := StaticLiterals(blCount);
    sdc, sdl := StaticDistances();
    FixedCoded(slc, sdc);
  }

  /** All arrays of the coder: their sizes, and that they are different. */
  ghost predicate Arrays(lBuf: array<nat>, dBuf: array<nat>, flagBuf: array<nat>, heap: array<nat>, depth: array<nat>,
                         blCount: array<nat>, lfc: array<nat>, ldl: array<nat>, dfc: array<nat>, ddl: array<nat>, bfc: array<nat>,
                         bdl: array<nat>)
    reads depth
  {
    && lBuf.Length == LIT_BUFSIZE && dBuf.Length == DIST_BUFSIZE && flagBuf.Length == LIT_BUFSIZE / 8
    && lBuf != dBuf && lBuf != flagBuf && dBuf != flagBuf
    && lBuf !in {heap, depth, blCount, lfc, ldl, dfc, ddl, bfc, bdl}
    && dBuf !in {heap, depth, blCount, lfc, ldl, dfc, ddl, bfc, bdl}
    && flagBuf !in {heap, depth, blCount, lfc, ldl, dfc, ddl, bfc, bdl}
    && Apart(heap, depth, blCount, lfc, ldl, dfc, ddl, bfc, bdl)
  }

  method NewTrees(blCount: array<nat>)
    returns (heap: array<nat>, depth: array<nat>, lfc: array<nat>, ldl: array<nat>, dfc: array<nat>, ddl: array<nat>, bfc: array<nat>,
             bdl: array<nat>)
    requires blCount.Length == MAX_BITS + 1
    ensures Apart(heap, depth, blCount, lfc, ldl, dfc, ddl, bfc, bdl) && fresh({heap, depth, lfc, ldl, dfc, ddl, bfc, bdl})
  {
    hide GoodDesc;
    heap, depth := new nat[HEAP_SIZE](_ => 0), new nat[2 * L_CODES + 1](_ => 0);
    lfc, ldl := new nat[HEAP_SIZE](_ => 0), new nat[HEAP_SIZE](_ => 0);
    dfc, ddl := new nat[2 * D_CODES + 1](_ => 0), new nat[2 * D_CODES + 1](_ => 0);
    bfc, bdl := new nat[2 * BL_CODES + 1](_ => 0), new nat[2 * BL_CODES + 1](_ => 0);
    Descriptions();
    BlDesc();
  }

  method NewArrays(blCount: array<nat>)
    returns (lBuf: array<nat>, dBuf: array<nat>, flagBuf: array<nat>, heap: array<nat>, depth: array<nat>, lfc: array<nat>,
             ldl: array<nat>, dfc: array<nat>, ddl: array<nat>, bfc: array<nat>, bdl: array<nat>)
    requires blCount.Length == MAX_BITS + 1
    ensures Arrays(lBuf, dBuf, flagBuf, heap, depth, blCount, lfc, ldl, dfc, ddl, bfc, bdl)
    ensures fresh({lBuf, dBuf, flagBuf, heap, depth, lfc, ldl, dfc, ddl, bfc, bdl})
  {
    hide Apart;
    heap, depth, lfc, ldl, dfc, ddl, bfc, bdl := NewTrees(blCount);
    lBuf, dBuf, flagBuf := new nat[LIT_BUFSIZE](_ => 0), new nat[DIST_BUFSIZE](_ => 0), new nat[LIT_BUFSIZE / 8](_ => 0);
  }

  /** The loop of ct_tally: about how many bytes the block needs. */
  method OutLength(lastLit: nat, dfc: seq<nat>, ghost ts: seq<Token>) returns (n: nat)
    requires |dfc| >= D_CODES && GoodTokens(ts) && lastLit == |ts| && dfc[..D_CODES] == DistFreq(ts)
    ensures n == Guess(ts) / 8
  {
    hide DIST_EXTRA, DistanceGuess, DistanceGuesses, DistFreq, Guess;
    n := lastLit * 8;
    ghost var f, q := DistFreq(ts), DistanceGuesses();
    for dcode := 0 to D_CODES
      invariant n == lastLit * 8 + Cost(f[..dcode], q[..dcode])
    {
      assert f[..dcode + 1][..dcode] == f[..dcode] && q[..dcode + 1][..dcode] == q[..dcode];
      assert dfc[dcode] == f[dcode] && q[dcode] == DistanceGuess(dcode);
      n := n + dfc[dcode] * DistanceGuess(dcode);
    }
    assert f[..D_CODES] == f && q[..D_CODES] == q;
    GuessIs(ts);
    n := n / 8;
  }

  /** The block ends with a full buffer, or every 4096 tokens if few are matches and half the size seems to be saved. */
  ghost predicate MustFlush(ts: seq<Token>, inLength: nat)
    requires GoodTokens(ts)
  {
    || |ts| == LIT_BUFSIZE - 1 || |Dists(ts)| == DIST_BUFSIZE
    || (|ts| % 0x1000 == 0 && |Dists(ts)| < |ts| / 2 && Guess(ts) / 8 < inLength / 2)
  }

  /** The end of ct_tally. */
  method Flushes(lastLit: nat, lastDist: nat, dfc: seq<nat>, inLength: nat, ghost ts: seq<Token>) returns (flush: bool)
    requires |dfc| >= D_CODES && GoodTokens(ts) && lastLit == |ts| && lastDist == |Dists(ts)| && dfc[..D_CODES] == DistFreq(ts)
    ensures (flush <==> MustFlush(ts, inLength)) && (!flush ==> lastLit != LIT_BUFSIZE - 1)
  {
    hide Guess, DistFreq, Dists;
    if lastLit % 0x1000 == 0 {
      var outLength := OutLength(lastLit, dfc, ts);
      if lastDist < lastLit / 2 && outLength < inLength / 2 {
        return true;
      }
    }
    return lastLit == LIT_BUFSIZE - 1 || lastDist == DIST_BUFSIZE;
  }

  /** The counts of ct_tally. */
  method CountToken(lfc: array<nat>, dfc: array<nat>, tab: Tables, dist: nat, lc: nat, ghost bfc: seq<nat>, ghost ts: seq<Token>,
                    ghost t: Token)
    requires GoodTables(tab) && GoodToken(t) && lc == Lc(t) && dist == (if t.Match? then t.dist else 0)
    requires lfc != dfc && Counting(lfc[..], dfc[..], bfc, ts)
    modifies lfc, dfc
    ensures Counting(lfc[..], dfc[..], bfc, ts + [t])
  {
    hide GoodTables, LengthCode, DistCode, Counting, LENGTH_EXTRA, LENGTH_BASE, DIST_EXTRA, DIST_BASE, Pow2, DCode;
    TableSizes();
    CountingStep(lfc[..], dfc[..], bfc, ts, t);
    ghost var l, d := lfc[..], dfc[..];
    CountingSays(l, d, bfc, ts);
    if dist == 0 {
      lfc[lc] := lfc[lc] + 1;
      assert lfc[..] == l[lc := l[lc] + 1] && dfc[..] == d;
    } else {
      LengthParts(tab, t.len);
      DistParts(tab, t.dist);
      TablesSizes(tab);
      var x, y := tab.lengthCode[lc] + LITERALS + 1, DCode(tab.distCode, dist - 1);
      lfc[x] := lfc[x] + 1;
      dfc[y] := dfc[y] + 1;
      assert lfc[..] == l[x := l[x] + 1] && dfc[..] == d[y := d[y] + 1];
    }
  }

  lemma TablesSizes(tab: Tables)
    requires GoodTables(tab)
    ensures |tab.lengthCode| == 256 && |tab.baseLength| == LENGTH_CODES && |tab.distCode| == 512 && |tab.baseDist| == D_CODES
  {
  }

  /** What the choice in flush_block knows: the sizes in bytes are those of real blocks. */
  lemma StaticFits(ts: seq<Token>, stored: nat)
    requires GoodTokens(ts) && StaticGood(ts) && |ts| < LIT_BUFSIZE && stored + 4 <= (|StaticBlock(ts, false)| + 7) / 8
    ensures stored <= 0xffff
  {
    hide TokensBits, Codeword, Kind, Codable, TokensSize;
    TokensBitsSize(FixedLengths(), FixedDistances(), FixedLengths(), FixedDistances(), ts);
    StaticBound(ts);
  }

  /** The block to be sent has the codes of the trees. */
  ghost predicate PieceFor(p: Piece, ldl: seq<nat>, ddl: seq<nat>, bdl: seq<nat>, lmax: nat, dmax: nat, maxBl: nat) {
    && GoodCodes(p.codes, p.tokens) && lmax < |ldl| && dmax < |ddl| && BL_CODES <= |bdl|
    && p.codes == Codes(ldl[..lmax + 1], ddl[..dmax + 1], bdl[..BL_CODES], maxBl + 1)
  }

  lemma PlanSizes(ts: seq<Token>, lfc: seq<nat>, ldl: seq<nat>, dfc: seq<nat>, ddl: seq<nat>, bfc: seq<nat>, bdl: seq<nat>, lmax: nat,
                  dmax: nat, maxBl: nat, opt: int, stat: int, p: Piece)
    requires Planned(ts, lfc, ldl, dfc, ddl, bfc, bdl, lmax, dmax, maxBl, opt, stat)
    requires p.tokens == ts && PieceFor(p, ldl, ddl, bdl, lmax, dmax, maxBl)
    ensures |StaticBits(p)| == 3 + stat && |DynamicBits(p)| == 3 + opt
    ensures StaticGood(ts) && |StaticBlock(ts, p.eof)| == 3 + stat
  {
    hide GoodTokens, StaticGood, DynamicGood, StaticBlock, DynamicBlock, Best, Coded;
    SameSize(ts, p.eof);
    SameDynamicSize(p.codes.ll, p.codes.dd, p.codes.cl, p.codes.k, ts, p.eof);
  }

  lemma PlanPiece(ts: seq<Token>, lfc: seq<nat>, ldl: seq<nat>, dfc: seq<nat>, ddl: seq<nat>, bfc: seq<nat>, bdl: seq<nat>, lmax: nat,
                  dmax: nat, maxBl: nat, opt: int, stat: int, data: seq<byte>, inWindow: bool, eof: bool) returns (p: Piece)
    requires Planned(ts, lfc, ldl, dfc, ddl, bfc, bdl, lmax, dmax, maxBl, opt, stat) && GoodTokens(ts)
    requires lmax < |ldl| && dmax < |ddl| && Best(LitFreq(ts), ldl[..lmax + 1]) && Best(DistFreq(ts), ddl[..dmax + 1])
    ensures p.tokens == ts && p.data == data && p.inWindow == inWindow && p.eof == eof && PieceFor(p, ldl, ddl, bdl, lmax, dmax, maxBl)
  {
    hide GoodTokens, StaticGood, DynamicGood, StaticBlock, DynamicBlock, Best, Coded;
    p := Piece(ts, data, inWindow, eof, Codes(ldl[..lmax + 1], ddl[..dmax + 1], bdl[..BL_CODES], maxBl + 1), []);
  }

  lemma SameDynamicSize(ll: seq<nat>, dd: seq<nat>, cl: seq<nat>, k: nat, ts: seq<Token>, eof: bool)
    requires DynamicGood(ll, dd, cl, k, ts)
    ensures |DynamicBlock(ll, dd, cl, k, ts, eof)| == |DynamicBlock(ll, dd, cl, k, ts, false)|
  {
    hide DynamicGood, TreesBits, TokensBits, Codeword;
  }

  lemma MoreChosen(p: Piece, blk: seq<bool>, opt: int, stat: int)
    requires GoodCodes(p.codes, p.tokens) && |StaticBits(p)| == 3 + stat && |DynamicBits(p)| == 3 + opt
    requires var s, d := (stat + 3 + 7) / 8, (opt + 3 + 7) / 8;
             if p.inWindow && |p.data| + 4 <= s && |p.data| + 4 <= d then IsStored(p.(bits := blk))
             else blk == if s <= d then StaticBits(p) else DynamicBits(p)
    ensures Chosen(p.(bits := blk))
  {
    hide GoodCodes, IsStored, StaticBlock, DynamicBlock, Chosen;
    Choice(p.(bits := blk), (stat + 3 + 7) / 8, (opt + 3 + 7) / 8);
  }

  lemma SameSize(ts: seq<Token>, eof: bool)
    requires StaticGood(ts)
    ensures |StaticBlock(ts, eof)| == |StaticBlock(ts, false)|
  {
  }

  lemma FixedCoded(lc: seq<nat>, dc: seq<nat>)
    requires |lc| == L_CODES + 2 && |dc| == D_CODES
    requires forall n :: 0 <= n < L_CODES + 2 ==> lc[n] == Reverse(Code(FixedLengths(), n), FixedLengths()[n])
    requires forall n :: 0 <= n < D_CODES ==> dc[n] == Reverse(Code(FixedDistances(), n), 5)
    ensures StaticTrees(lc, FixedLengths(), dc, FixedDistances())
  {
    hide Feasible, Complete, Code, Reverse;
    FixedFeasible();
    FixedRange();
  }

  class Coder {
    const bw: BitWriter
    const lBuf: array<nat>
    const dBuf: array<nat>
    const flagBuf: array<nat>
    const heap: array<nat>
    const depth: array<nat>
    const blCount: array<nat>
    const lfc: array<nat>
    const ldl: array<nat>
    const dfc: array<nat>
    const ddl: array<nat>
    const bfc: array<nat>
    const bdl: array<nat>
    const tab: Tables
    const slc: seq<nat>
    const sll: seq<nat>
    const sdc: seq<nat>
    const sdl: seq<nat>
    var lastLit: nat
    var lastDist: nat
    var lastFlags: nat
    var flags: nat
    var flagBit: nat
    var optLen: int
    var staticLen: int
    var compressedLen: nat
    ghost var tokens: seq<Token>
    ghost var log: seq<Piece>

    ghost function Repr(): set<object> {
      {this, bw, bw.outbuf, lBuf, dBuf, flagBuf, heap, depth, blCount, lfc, ldl, dfc, ddl, bfc, bdl}
    }

    /** What never changes. */
    ghost predicate Shape()
      reads depth
    {
      && Arrays(lBuf, dBuf, flagBuf, heap, depth, blCount, lfc, ldl, dfc, ddl, bfc, bdl)
      && GoodTables(tab) && StaticTrees(slc, sll, sdc, sdl)
    }

    ghost predicate Valid()
      reads this, Repr()
    {
      && Shape() && bw.Valid() && |tokens| < LIT_BUFSIZE && optLen == 0 && staticLen == 0
      && Tallying(lBuf[..], dBuf[..], flagBuf[..], lastLit, lastDist, lastFlags, flags, flagBit, tokens)
      && Counting(lfc[..], dfc[..], bfc[..], tokens)
      && compressedLen == Wrap(|bw.Sent()|) && Logged(log, bw.Sent())
    }

    constructor ()
      ensures Valid() && tokens == [] && log == [] && bw.Sent() == [] && bw.Bytes() == [] && fresh(Repr())
    {
      hide GoodTables, StaticTrees, Tallying, Counting, ByteBits, Bits, Arrays, BitWriter.Valid;
      var tables, lc, ll, dc, dl, counts := CtInit();
      var b1, b2, b3, h, d, c1, l1, c2, l2, c3, l3 := NewArrays(counts);
      heap, depth, lfc, ldl, dfc, ddl, bfc, bdl := h, d, c1, l1, c2, l2, c3, l3;
      blCount := counts;
      lBuf, dBuf, flagBuf := b1, b2, b3;
      bw := new BitWriter();
      tab, slc, sll, sdc, sdl := tables, lc, ll, dc, dl;
      compressedLen, log := 0, [];
      new;
      InitBlock();
    }

    /** init_block */
    method InitBlock()
      requires Shape() && bw.Valid() && compressedLen == Wrap(|bw.Sent()|) && Logged(log, bw.Sent())
      modifies this, lfc, dfc, bfc
      ensures Valid() && tokens == [] && log == old(log) && bw.Sent() == old(bw.Sent()) && bw.Bytes() == old(bw.Bytes())
      ensures compressedLen == old(compressedLen)
    {
      hide Shape, Tallying, Counting, BitWriter.Valid, ByteBits, Bits, Logged;
      Sizes();
      ClearFreqs(lfc, dfc, bfc);
      optLen, staticLen, lastLit, lastDist, lastFlags, flags, flagBit := 0, 0, 0, 0, 0, 0, 1;
      tokens := [];
      TallyingStart(lBuf[..], dBuf[..], flagBuf[..]);
    }

    lemma Sizes()
      requires Shape()
      ensures lfc.Length >= L_CODES && dfc.Length >= D_CODES && bfc.Length >= BL_CODES
      ensures lfc != dfc && lfc != bfc && dfc != bfc && depth !in {lfc, dfc, bfc}
      ensures lBuf !in {lfc, dfc, bfc} && dBuf !in {lfc, dfc, bfc} && flagBuf !in {lfc, dfc, bfc}
    {
    }

    lemma Basics()
      requires Valid()
      ensures lastLit == |tokens| && bw.Valid() && compressedLen == Wrap(|bw.Sent()|) && Logged(log, bw.Sent())
    {
    }

    lemma BufferSizes()
      requires Shape()
      ensures lBuf.Length == LIT_BUFSIZE && dBuf.Length == DIST_BUFSIZE && flagBuf.Length == LIT_BUFSIZE / 8
      ensures lBuf != dBuf && lBuf != flagBuf && dBuf != flagBuf && depth !in {lBuf, dBuf, flagBuf} && GoodTables(tab)
    {
    }

    /** The first part of ct_tally: one more token in the buffers and in the counts. */
    method AddToken(dist: nat, lc: nat, ghost t: Token)
      requires Valid() && GoodToken(t) && lc == Lc(t) && dist == (if t.Match? then t.dist else 0) && lastLit < LIT_BUFSIZE - 1
      modifies this, lBuf, dBuf, flagBuf, lfc, dfc
      ensures Valid() && tokens == old(tokens) + [t] && bw.Sent() == old(bw.Sent()) && compressedLen == old(compressedLen)
      ensures log == old(log)
    {
      hide Shape, Tallying, Counting, BitWriter.Valid, ByteBits, Bits, Lc, Logged;
      Sizes();
      BufferSizes();
      lastLit, lastDist, lastFlags, flags, flagBit :=
        BufferToken(lBuf, dBuf, flagBuf, lastLit, lastDist, lastFlags, flags, flagBit, dist, lc, tokens, t);
      CountToken(lfc, dfc, tab, dist, lc, bfc[..], tokens, t);
      tokens := tokens + [t];
      TallyingSays(lBuf[..], dBuf[..], flagBuf[..], lastLit, lastDist, lastFlags, flags, flagBit, tokens);
    }

    /** ct_tally: whether the block must be flushed. */
    method Tally(dist: nat, lc: nat, inLength: nat, ghost t: Token) returns (flush: bool)
      requires Valid() && GoodToken(t) && lc == Lc(t) && dist == (if t.Match? then t.dist else 0) && lastLit < LIT_BUFSIZE - 1
      modifies this, lBuf, dBuf, flagBuf, lfc, dfc
      ensures Valid() && tokens == old(tokens) + [t] && (!flush ==> lastLit < LIT_BUFSIZE - 1)
      ensures GoodTokens(tokens) && (flush <==> MustFlush(tokens, inLength))
      ensures bw.Sent() == old(bw.Sent()) && compressedLen == old(compressedLen) && log == old(log)
    {
      hide Shape, Tallying, Counting, BitWriter.Valid, BitWriter.Sent, GoodTokens, Lc, MustFlush, Dists, Logged;
      AddToken(dist, lc, t);
      TallyingSays(lBuf[..], dBuf[..], flagBuf[..], lastLit, lastDist, lastFlags, flags, flagBit, tokens);
      CountingSays(lfc[..], dfc[..], bfc[..], tokens);
      flush := Flushes(lastLit, lastDist, dfc[..], inLength, tokens);
    }

    lemma AllSizes()
      requires Shape()
      ensures lBuf.Length == LIT_BUFSIZE && dBuf.Length == DIST_BUFSIZE && lBuf != dBuf
      ensures flagBuf.Length == LIT_BUFSIZE / 8 && Apart(heap, depth, blCount, lfc, ldl, dfc, ddl, bfc, bdl)
      ensures flagBuf !in {lBuf, dBuf, heap, depth, blCount, lfc, ldl, dfc, ddl, bfc, bdl}
      ensures lBuf !in {heap, depth, blCount, lfc, ldl, dfc, ddl, bfc, bdl} && dBuf !in {heap, depth, blCount, lfc, ldl, dfc, ddl, bfc, bdl}
    {
    }

    /** The stored encoding. */
    method SendAsStored(buf: seq<byte>, eof: bool, ghost out: seq<byte>) returns (ghost blk: seq<bool>)
      requires bw.Valid() && compressedLen == Wrap(|bw.Sent()|) && |buf| <= 0xffff
      modifies this`compressedLen, bw, bw.outbuf
      ensures bw.Valid() && compressedLen == Wrap(|bw.Sent()|) && bw.Sent() == old(bw.Sent()) + blk
      ensures BlockReads(blk, |old(bw.Sent())|, out, eof, out + buf) && |blk| <= 8 * (|buf| + 4) + 10
      ensures exists pad: nat :: pad < 8 && blk == StoredBlock(buf, pad, eof)
    {
      hide BitWriter.Valid, BitWriter.Sent, BlockReads, StoredBlock, Wrap;
      ghost var sent := bw.Sent();
      ghost var pad := SendStored(bw, buf, eof);
      blk := StoredBlock(buf, pad, eof);
      StoredReads(buf, pad, eof, |sent|, out);
      StoredSize(buf, pad, eof);
      StoredCount(compressedLen, |sent|, pad, |buf|);
      compressedLen := Wrap(compressedLen + 3 + 7) / 8 * 8;
      compressedLen := Wrap(compressedLen + (|buf| + 4) * 8);
    }

    /** The static encoding. */
    method SendAsStatic(eof: bool, ghost out: seq<byte>, ghost out': seq<byte>) returns (ghost blk: seq<bool>)
      requires Shape() && bw.Valid() && Buffered(lBuf[..], dBuf[..], flagBuf[..], tokens) && lastLit == |tokens|
      requires compressedLen == Wrap(|bw.Sent()|) && Expand(out, tokens) == Some(out') && GoodTokens(tokens) && StaticGood(tokens)
      requires staticLen + 3 == |StaticBlock(tokens, eof)|
      modifies this`compressedLen, bw, bw.outbuf
      ensures bw.Valid() && compressedLen == Wrap(|bw.Sent()|) && bw.Sent() == old(bw.Sent()) + blk
      ensures BlockReads(blk, |old(bw.Sent())|, out, eof, out') && blk == StaticBlock(tokens, eof)
    {
      hide Arrays, GoodTables, StaticTrees, BitWriter.Valid, BitWriter.Sent, Buffered, BlockReads, Expand, StaticGood, StaticBlock,
           GoodTokens, Wrap;
      ghost var sent := bw.Sent();
      SendStatic(bw, tab, lBuf[..], dBuf[..], flagBuf[..], lastLit, slc, sll, sdc, sdl, eof, tokens);
      blk := StaticBlock(tokens, eof);
      StaticReads(tokens, eof, |sent|, out, out');
      WrapAdd(compressedLen, |sent|, 3 + staticLen);
      compressedLen := Wrap(compressedLen + (3 + staticLen));
    }

    /** The dynamic encoding. */
    method SendAsDynamic(eof: bool, lmax: nat, dmax: nat, maxBlindex: nat, ghost p: Piece, ghost out: seq<byte>, ghost out': seq<byte>)
      returns (ghost blk: seq<bool>)
      requires Shape() && bw.Valid() && Buffered(lBuf[..], dBuf[..], flagBuf[..], tokens) && lastLit == |tokens|
      requires Planned(tokens, lfc[..], ldl[..], dfc[..], ddl[..], bfc[..], bdl[..], lmax, dmax, maxBlindex, optLen, staticLen)
      requires compressedLen == Wrap(|bw.Sent()|) && Expand(out, tokens) == Some(out')
      requires p.tokens == tokens && p.eof == eof && PieceFor(p, ldl[..], ddl[..], bdl[..], lmax, dmax, maxBlindex)
      modifies this`compressedLen, bw, bw.outbuf
      ensures bw.Valid() && compressedLen == Wrap(|bw.Sent()|) && bw.Sent() == old(bw.Sent()) + blk
      ensures BlockReads(blk, |old(bw.Sent())|, out, eof, out') && GoodCodes(p.codes, p.tokens) && blk == DynamicBits(p)
    {
      hide Arrays, GoodTables, StaticTrees, BitWriter.Valid, BitWriter.Sent, Planned, Buffered, BlockReads, Expand, DynamicGood,
           DynamicBlock, GoodCodes, Wrap;
      ghost var sent := bw.Sent();
      blk := SendDynamic(bw, tab, lBuf[..], dBuf[..], flagBuf[..], lastLit, lfc[..], ldl[..], dfc[..], ddl[..], bfc[..], bdl[..],
                         lmax, dmax, maxBlindex, eof, tokens, optLen, staticLen);
      WrapAdd(compressedLen, |sent|, 3 + optLen);
      compressedLen := Wrap(compressedLen + (3 + optLen));
    }

    /** The choice of flush_block. */
    method SendBlock(buf: Option<seq<byte>>, storedLen: nat, eof: bool, lmax: nat, dmax: nat, maxBlindex: nat, ghost out: seq<byte>,
                     ghost data: seq<byte>, ghost p: Piece)
      returns (ghost blk: seq<bool>)
      requires Shape() && bw.Valid() && Buffered(lBuf[..], dBuf[..], flagBuf[..], tokens) && lastLit == |tokens| < LIT_BUFSIZE
      requires Planned(tokens, lfc[..], ldl[..], dfc[..], ddl[..], bfc[..], bdl[..], lmax, dmax, maxBlindex, optLen, staticLen)
      requires compressedLen == Wrap(|bw.Sent()|) && Expand(out, tokens) == Some(out + data) && |data| == storedLen
      requires p.tokens == tokens && p.data == data && p.inWindow == buf.Some? && p.eof == eof
      requires (buf.Some? ==> buf.value == data) && PieceFor(p, ldl[..], ddl[..], bdl[..], lmax, dmax, maxBlindex)
      modifies this`compressedLen, bw, bw.outbuf
      ensures bw.Valid() && compressedLen == Wrap(|bw.Sent()|) && bw.Sent() == old(bw.Sent()) + blk
      ensures BlockReads(blk, |old(bw.Sent())|, out, eof, out + data)
      ensures Chosen(p.(bits := blk)) && storedLen <= 258 * |tokens| < 0x40_0000
    {
      hide Arrays, GoodTables, StaticTrees, BitWriter.Valid, BitWriter.Sent, Planned, Buffered, BlockReads, Expand, StaticGood,
           StaticBlock, StoredBlock, GoodTokens, Coded, DynamicGood, DynamicBlock, Wrap, Best, GoodCodes, Chosen, Shape;
      PlanFacts(tokens, lfc[..], ldl[..], dfc[..], ddl[..], bfc[..], bdl[..], lmax, dmax, maxBlindex, optLen, staticLen);
      PlanSizes(tokens, lfc[..], ldl[..], dfc[..], ddl[..], bfc[..], bdl[..], lmax, dmax, maxBlindex, optLen, staticLen, p);
      DataBound(out, tokens);
      var optLenb, staticLenb := (optLen + 3 + 7) / 8, (staticLen + 3 + 7) / 8;
      if staticLenb <= optLenb {
        optLenb := staticLenb;
      }
      if storedLen + 4 <= optLenb && buf.Some? {
        StaticFits(tokens, storedLen);
        blk := SendAsStored(buf.value, eof, out);
        assert IsStored(p.(bits := blk));
      } else if staticLenb == optLenb {
        blk := SendAsStatic(eof, out, out + data);
      } else {
        blk := SendAsDynamic(eof, lmax, dmax, maxBlindex, p, out, out + data);
      }
      MoreChosen(p, blk, optLen, staticLen);
    }

    /** The first part of flush_block: the last flags are saved and all trees are built. */
    method Prepare() returns (lmax: nat, dmax: nat, maxBlindex: nat)
      requires Valid()
      modifies this`optLen, this`staticLen, flagBuf, heap, depth, blCount, lfc, ldl, dfc, ddl, bfc, bdl
      ensures Shape() && bw.Valid() && Buffered(lBuf[..], dBuf[..], flagBuf[..], tokens) && lastLit == |tokens| < LIT_BUFSIZE
      ensures Planned(tokens, lfc[..], ldl[..], dfc[..], ddl[..], bfc[..], bdl[..], lmax, dmax, maxBlindex, optLen, staticLen)
      ensures bw.Sent() == old(bw.Sent()) && 0 <= optLen < ULG && 0 <= staticLen < ULG && log == old(log)
      ensures lmax < ldl.Length && dmax < ddl.Length && GoodTokens(tokens)
      ensures Best(LitFreq(tokens), ldl[..lmax + 1]) && Best(DistFreq(tokens), ddl[..dmax + 1])
    {
      hide GoodTables, StaticTrees, BitWriter.Valid, BitWriter.Sent, Planned, Buffered, GoodTokens, Tallying, Counting, Apart, Arrays, Best, Logged;
      ghost var ts, f := tokens, flagBuf[..];
      AllSizes();
      TallyingSays(lBuf[..], dBuf[..], f, lastLit, lastDist, lastFlags, flags, flagBit, ts);
      TallyingEnd(lBuf[..], dBuf[..], f, lastLit, lastDist, lastFlags, flags, flagBit, ts);
      CountingSays(lfc[..], dfc[..], bfc[..], ts);
      flagBuf[lastFlags] := flags;
      assert flagBuf[..] == f[lastFlags := flags];
      lmax, dmax, maxBlindex, optLen, staticLen := BuildTrees(heap, depth, blCount, lfc, ldl, dfc, ddl, bfc, bdl, ts);
      PlanFits(ts, lfc[..], ldl[..], dfc[..], ddl[..], bfc[..], bdl[..], lmax, dmax, maxBlindex, optLen, staticLen);
      Reshape();
    }

    lemma Reshape()
      requires lBuf.Length == LIT_BUFSIZE && dBuf.Length == DIST_BUFSIZE && flagBuf.Length == LIT_BUFSIZE / 8
      requires lBuf != dBuf && flagBuf !in {lBuf, dBuf, heap, depth, blCount, lfc, ldl, dfc, ddl, bfc, bdl}
      requires lBuf !in {heap, depth, blCount, lfc, ldl, dfc, ddl, bfc, bdl} && dBuf !in {heap, depth, blCount, lfc, ldl, dfc, ddl, bfc, bdl}
      requires Apart(heap, depth, blCount, lfc, ldl, dfc, ddl, bfc, bdl) && GoodTables(tab) && StaticTrees(slc, sll, sdc, sdl)
      ensures Shape()
    {
    }

    /** The end of flush_block at the end of the file. */
    method FinishBits() returns (ghost pad: seq<bool>)
      requires bw.Valid() && compressedLen == Wrap(|bw.Sent()|)
      modifies this`compressedLen, bw, bw.outbuf
      ensures bw.Valid() && bw.Sent() == old(bw.Sent()) + pad && bw.Sent() == ByteBits(bw.Bytes()) && |pad| < 8
      ensures compressedLen / 8 == |bw.Bytes()| % (ULG / 8) && (compressedLen / 8 == |bw.Bytes()| <==> |bw.Bytes()| < ULG / 8)
    {
      hide Bits, Wrap;
      ghost var sent := bw.Sent();
      ghost var p := bw.Windup();
      pad := Bits(0, p);
      FinalCount(compressedLen, |sent|, p, |bw.Bytes()|);
      LengthIs(|bw.Bytes()|);
      compressedLen := Wrap(compressedLen + 7);
    }

    /** A block has been sent. */
    method EndBlock(ghost p: Piece, ghost sent: seq<bool>)
      requires Shape() && bw.Valid() && compressedLen == Wrap(|bw.Sent()|)
      requires Logged(log, sent) && Chosen(p) && bw.Sent() == sent + p.bits
      modifies this, lfc, dfc, bfc
      ensures Valid() && tokens == [] && log == old(log) + [p] && bw.Sent() == old(bw.Sent()) && bw.Bytes() == old(bw.Bytes())
      ensures compressedLen == old(compressedLen)
    {
      hide Shape, BitWriter.Valid, BitWriter.Sent, Chosen, Logged, Wrap, ByteBits, Tallying, Counting;
      LogMore(log, sent, p);
      log := log + [p];
      InitBlock();
    }

    /** flush_block up to its end: the trees, the choice, the block. */
    method PutBlock(buf: Option<seq<byte>>, storedLen: nat, eof: bool, ghost out: seq<byte>, ghost data: seq<byte>)
      returns (ghost p: Piece)
      requires Valid() && Expand(out, tokens) == Some(out + data) && |data| == storedLen && (buf.Some? ==> buf.value == data)
      modifies Repr()
      ensures p.tokens == old(tokens) && p.data == data && p.inWindow == buf.Some? && p.eof == eof && Chosen(p)
      ensures Valid() && tokens == [] && log == old(log) + [p] && bw.Sent() == old(bw.Sent()) + p.bits
      ensures BlockReads(p.bits, |old(bw.Sent())|, out, eof, out + data) && storedLen <= 258 * |old(tokens)| < 0x40_0000
    {
      hide Shape, BitWriter.Valid, BitWriter.Sent, Planned, Buffered, BlockReads, Expand, GoodTokens, Tallying, Counting, ByteBits, Wrap,
           Best, Chosen, Logged, PieceFor, LitFreq, DistFreq;
      ghost var sent := bw.Sent();
      var lmax, dmax, maxBlindex := Prepare();
      ghost var q := PlanPiece(tokens, lfc[..], ldl[..], dfc[..], ddl[..], bfc[..], bdl[..], lmax, dmax, maxBlindex, optLen, staticLen,
                               data, buf.Some?, eof);
      ghost var blk := SendBlock(buf, storedLen, eof, lmax, dmax, maxBlindex, out, data, q);
      p := q.(bits := blk);
      EndBlock(p, sent);
    }

    /** flush_block: one more block is sent; it decodes to `data`. */
    method FlushBlock(buf: Option<seq<byte>>, storedLen: nat, eof: bool, ghost out: seq<byte>, ghost data: seq<byte>)
      returns (len: nat, ghost p: Piece, ghost pad: seq<bool>)
      requires Valid() && Expand(out, tokens) == Some(out + data) && |data| == storedLen && (buf.Some? ==> buf.value == data)
      modifies Repr()
      ensures p.tokens == old(tokens) && p.data == data && p.inWindow == buf.Some? && p.eof == eof && Chosen(p)
      ensures log == old(log) + [p] && Logged(log, old(bw.Sent()) + p.bits)
      ensures BlockReads(p.bits, |old(bw.Sent())|, out, eof, out + data) && storedLen <= 258 * |old(tokens)| < 0x40_0000
      ensures !eof ==> Valid() && tokens == [] && bw.Sent() == old(bw.Sent()) + p.bits && len == Wrap(|bw.Sent()|) / 8
      ensures eof ==> bw.Valid() && bw.Sent() == old(bw.Sent()) + p.bits + pad && bw.Sent() == ByteBits(bw.Bytes()) && |pad| < 8
      ensures eof ==> len == |bw.Bytes()| % (ULG / 8) && (len == |bw.Bytes()| <==> |bw.Bytes()| < ULG / 8)
    {
      hide Valid, BitWriter.Valid, BitWriter.Sent, BlockReads, Expand, ByteBits, Wrap, Chosen, Logged;
      p := PutBlock(buf, storedLen, eof, out, data);
      Basics();
      pad := [];
      if eof {
        pad := FinishBits();
      }
      len := compressedLen / 8;
    }
  }

  lemma LengthIs(bytes: nat)
    ensures bytes % (ULG / 8) == bytes <==> bytes < ULG / 8
  {
  }

  /** compressed_len behind a stored block. */
  lemma StoredCount(c: nat, sent: nat, pad: nat, stored: nat)
    requires c == Wrap(sent) && pad < 8 && (sent + 3 + pad) % 8 == 0
    ensures Wrap(Wrap(c + 3 + 7) / 8 * 8 + (stored + 4) * 8) == Wrap(sent + (3 + pad + 32 + 8 * stored))
  {
    var q := (sent + 3 + pad) / 8;
    Eighth(sent + 10, q, 7 - pad);
    EighthOf(c + 10, sent + 10, sent / ULG);
    hide Wrap;
    WrapSame(Wrap(c + 10) / 8 * 8, 8 * q, (stored + 4) * 8);
  }

  lemma WrapSame(x: nat, y: nat, n: nat)
    requires x % ULG == y % ULG
    ensures Wrap(x + n) == Wrap(y + n)
  {
    WrapAdd(x % ULG, x, n);
    WrapAdd(y % ULG, y, n);
  }

  /** Rounding down to bytes and wrapping around can be exchanged. */
  lemma EighthOf(x: nat, y: nat, k: nat)
    requires y == k * ULG + x
    ensures x % ULG / 8 == y / 8 % (ULG / 8) && x % ULG / 8 * 8 % ULG == y / 8 * 8 % ULG
  {
    var q, r := y / 0x1_0000_0000, y % 0x1_0000_0000;
    InBytes(y, q, r / 8, r % 8);
    Remainder(x, q - k, r);
    Eighth(r, r / 8, r % 8);
    Remainder(r / 8 * 8, 0, r / 8 * 8);
  }

  lemma InBytes(y: nat, q: int, a: nat, b: nat)
    requires y == 0x1_0000_0000 * q + 8 * a + b && b < 8 && a < 0x2000_0000
    ensures y / 8 % 0x2000_0000 == a && y / 8 * 8 % 0x1_0000_0000 == 8 * a
  {
    var z := 0x2000_0000 * q + a;
    Eighth(y, z, b);
    ByteRemainder(z, q, a);
    Remainder(8 * z, q, 8 * a);
  }

  lemma Eighth(y: int, z: int, b: nat)
    requires y == 8 * z + b && b < 8
    ensures y / 8 == z
  {
  }

  lemma Remainder(y: int, q: int, r: nat)
    requires y == 0x1_0000_0000 * q + r && r < 0x1_0000_0000
    ensures y % 0x1_0000_0000 == r
  {
  }

  lemma ByteRemainder(y: int, q: int, r: nat)
    requires y == 0x2000_0000 * q + r && r < 0x2000_0000
    ensures y % 0x2000_0000 == r
  {
  }

  /** At the end of the file compressed_len / 8 is the number of bytes, as far as it fits. */
  lemma FinalCount(c: nat, sent: nat, pad: nat, bytes: nat)
    requires c == Wrap(sent) && pad < 8 && sent + pad == 8 * bytes
    ensures Wrap(c + 7) / 8 == bytes % (ULG / 8)
  {
    var k := sent / ULG;
    assert sent == k * ULG + c;
    EighthOf(c + 7, sent + 7, k);
    assert (sent + 7) / 8 == bytes;
  }

  lemma StoredSize(data: seq<byte>, pad: nat, eof: bool)
    ensures |StoredBlock(data, pad, eof)| == 3 + pad + 32 + 8 * |data|
  {
  }

  lemma CountingSays(lfc: seq<nat>, dfc: seq<nat>, bfc: seq<nat>, ts: seq<Token>)
    requires Counting(lfc, dfc, bfc, ts)
    ensures |lfc| >= L_CODES && |dfc| >= D_CODES && |bfc| >= BL_CODES && GoodTokens(ts)
    ensures lfc[..L_CODES] == LitFreq(ts) && dfc[..D_CODES] == DistFreq(ts) && forall x :: 0 <= x < BL_CODES ==> bfc[x] == 0
  {
  }

  lemma TallyingSays(lBuf: seq<nat>, dBuf: seq<nat>, flagBuf: seq<nat>, lastLit: nat, lastDist: nat, lastFlags: nat, flags: nat,
                     flagBit: nat, ts: seq<Token>)
    requires Tallying(lBuf, dBuf, flagBuf, lastLit, lastDist, lastFlags, flags, flagBit, ts)
    ensures lastLit == |ts| && lastDist <= lastLit && lastDist == |Dists(ts)|
  {
  }
}
