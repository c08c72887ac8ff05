/** Sending one block in each of the three encodings. */
module GzipSend {
  import opened Basics
  import opened BitString
  import opened Canonical
  import opened Rfc1951
  import opened TokenCode
  import opened TreeCode
  import opened GzipBits
  import opened GzipTally
  import opened GzipTables
  import opened GzipTreeCode
  import opened GzipHeader
  import opened GzipCompress
  import opened GzipPlan
  import opened BlockCode

  method SendKind(bw: BitWriter, kind: nat, eof: bool)
    requires bw.Valid() && kind < 3
    modifies bw, bw.outbuf
    ensures bw.Valid() && bw.Sent() == old(bw.Sent()) + Kind(kind, eof)
  {
    EightIs();
    hide Bits, Pow2, ByteBits;
    bw.SendBits(2 * kind + Eof(eof), 3);
  }

  // ---- Stored

  lemma OctetsNext(data: seq<byte>, n: nat)
    requires n < |data|
    ensures Octets(data[..n + 1]) == Octets(data[..n]) + [Octet(data[n])]
  {
  }

  lemma {:induction false} ByteBitsConcat(a: seq<octet>, b: seq<octet>)
    ensures ByteBits(a + b) == ByteBits(a) + ByteBits(b)
    decreases |b|
  {
    hide Bits;
    if b == [] {
      assert a + b == a && ByteBits(a) + [] == ByteBits(a);
    } else {
      var k := |b| - 1;
      ByteBitsConcat(a, b[..k]);
      assert (a + b)[..|a| + k] == a + b[..k];
      var x, y, z := ByteBits(a), ByteBits(b[..k]), Bits(b[k], 8);
      assert (x + y) + z == x + (y + z);
    }
  }

  /** The bytes of the block. */
  method PutBytes(bw: BitWriter, data: seq<byte>)
    requires bw.outbuf.Length == OUTBUFSIZ && bw.outcnt < OUTBUFSIZ
    modifies bw`outcnt, bw`written, bw.outbuf
    ensures bw.outcnt < OUTBUFSIZ && bw.Bytes() == old(bw.Bytes()) + Octets(data)
  {
    NoOctets();
    hide Octets, Octet;
    ghost var b := bw.Bytes();
    assert data[..0] == [] && b + [] == b;
    for i := 0 to |data|
      invariant bw.outcnt < OUTBUFSIZ && bw.Bytes() == b + Octets(data[..i])
    {
      OctetsNext(data, i);
      var x := Octet(data[i]);
      bw.Put8(x);
      Snoc(b, Octets(data[..i]), x);
    }
    assert data[..|data|] == data;
  }

  lemma Snoc(b: seq<octet>, o: seq<octet>, x: octet)
    ensures (b + o) + [x] == b + (o + [x]) && x % 256 == x
  {
  }

  lemma NoOctets()
    ensures Octets([]) == []
  {
  }

  /** copy_block, with its header */
  method CopyBlock(bw: BitWriter, buf: seq<byte>) returns (ghost pad: nat)
    requires bw.Valid() && |buf| <= 0xffff
    modifies bw, bw.outbuf
    ensures bw.Valid() && pad < 8 && (|old(bw.Sent())| + pad) % 8 == 0
    ensures bw.Sent() == old(bw.Sent()) + Bits(0, pad) + (Bits(|buf|, 16) + Bits(0xffff - |buf|, 16)) + ByteBits(Octets(buf))
  {
    hide Bits, ByteBits, Octets, Pow2;
    pad := bw.Windup();
    ghost var b := bw.Bytes();
    bw.Put16(|buf|);
    bw.Put16(0xffff - |buf|);
    ghost var c := bw.Bytes();
    TwoBytes(b, |buf|);
    TwoBytes(b + [|buf| % 256, |buf| / 256], 0xffff - |buf|);
    PutBytes(bw, buf);
    ByteBitsConcat(c, Octets(buf));
    NoBits(bw.Bytes());
    ghost var x, y, z := ByteBits(b), Bits(|buf|, 16), Bits(0xffff - |buf|, 16);
    assert (x + y) + z == x + (y + z);
  }

  method SendStored(bw: BitWriter, buf: seq<byte>, eof: bool) returns (ghost pad: nat)
    requires bw.Valid() && |buf| <= 0xffff
    modifies bw, bw.outbuf
    ensures bw.Valid() && pad < 8 && (|old(bw.Sent())| + 3 + pad) % 8 == 0
    ensures bw.Sent() == old(bw.Sent()) + StoredBlock(buf, pad, eof)
  {
    hide Bits, ByteBits, Octets, Pow2, Kind;
    ghost var sent := bw.Sent();
    SendKind(bw, STORED_BLOCK, eof);
    pad := CopyBlock(bw, buf);
    Regroup(sent, Kind(STORED_BLOCK, eof), Bits(0, pad), Bits(|buf|, 16) + Bits(0xffff - |buf|, 16), ByteBits(Octets(buf)));
  }

  // ---- Static

  ghost predicate StaticTrees(slc: seq<nat>, sll: seq<nat>, sdc: seq<nat>, sdl: seq<nat>) {
    sll == FixedLengths() && sdl == FixedDistances() && Coded(slc, sll) && Coded(sdc, sdl)
  }

  method SendStatic(bw: BitWriter, tab: Tables, lBuf: seq<nat>, dBuf: seq<nat>, flagBuf: seq<nat>, lastLit: nat, slc: seq<nat>,
                    sll: seq<nat>, sdc: seq<nat>, sdl: seq<nat>, eof: bool, ghost ts: seq<Token>)
    requires bw.Valid() && GoodTables(tab) && StaticTrees(slc, sll, sdc, sdl) && lastLit == |ts|
    requires Buffered(lBuf, dBuf, flagBuf, ts) && GoodTokens(ts)
    requires StaticGood(ts)
    modifies bw, bw.outbuf
    ensures bw.Valid() && bw.Sent() == old(bw.Sent()) + StaticBlock(ts, eof)
  {
    hide Bits, ByteBits, Pow2, Kind, GoodTables, Buffered, Codable, Coded, TokensBits, Codeword, FixedLengths, FixedDistances;
    ghost var sent := bw.Sent();
    SendKind(bw, STATIC_TREES, eof);
    FixedRange();
    CompressBlock(bw, tab, lBuf, dBuf, flagBuf, lastLit, slc, sll, sdc, sdl, ts);
    ghost var k, b := Kind(STATIC_TREES, eof), TokensBits(sll, sdl, ts) + Codeword(sll, END_BLOCK);
    assert (sent + k) + b == sent + (k + b);
  }

  // ---- Dynamic

  lemma PlanFacts(ts: seq<Token>, lfc: seq<nat>, ldl: seq<nat>, dfc: seq<nat>, ddl: seq<nat>, bfc: seq<nat>, bdl: seq<nat>, lmax: nat,
                  dmax: nat, maxBl: nat, opt: int, stat: int)
    requires Planned(ts, lfc, ldl, dfc, ddl, bfc, bdl, lmax, dmax, maxBl, opt, stat)
    ensures Scannable(ldl, lmax) && Scannable(ddl, dmax) && ldl[lmax + 1] == NO_LENGTH && ddl[dmax + 1] == NO_LENGTH
    ensures BL_CODES <= |bdl| && GoodTokens(ts) && StaticGood(ts) && 3 + stat == |StaticBlock(ts, false)|
    ensures Coded(lfc, ldl[..lmax + 1]) && Coded(dfc, ddl[..dmax + 1]) && Coded(bfc, bdl[..BL_CODES])
    ensures Sized(ldl[..lmax + 1], ddl[..dmax + 1], bdl[..BL_CODES], maxBl + 1, ts, opt)
  {
    hide Coded, GoodTokens, StaticGood, DynamicGood, StaticBlock, DynamicBlock;
  }

  /** A dynamic block with these codes takes 3 + opt bits. */
  ghost predicate Sized(ll: seq<nat>, dd: seq<nat>, cl: seq<nat>, k: nat, ts: seq<Token>, opt: int) {
    DynamicGood(ll, dd, cl, k, ts) && 3 + opt == |DynamicBlock(ll, dd, cl, k, ts, false)|
  }

  lemma DynamicFacts(ll: seq<nat>, dd: seq<nat>, cl: seq<nat>, k: nat, ts: seq<Token>)
    requires DynamicGood(ll, dd, cl, k, ts)
    ensures GoodHeader(ll, dd, cl, k) && END_BLOCK < |ll| && ll[END_BLOCK] > 0 && forall i :: 0 <= i < |ts| ==> Codable(ll, dd, ts[i])
  {
    hide Codable, Feasible;
  }

  method SendDynamic(bw: BitWriter, tab: Tables, lBuf: seq<nat>, dBuf: seq<nat>, flagBuf: seq<nat>, lastLit: nat, lfc: seq<nat>,
                     ldl: seq<nat>, dfc: seq<nat>, ddl: seq<nat>, bfc: seq<nat>, bdl: seq<nat>, lmax: nat, dmax: nat,
                     maxBlindex: nat, eof: bool, ghost ts: seq<Token>, ghost opt: int, ghost stat: int)
    returns (ghost blk: seq<bool>)
    requires bw.Valid() && GoodTables(tab) && Buffered(lBuf, dBuf, flagBuf, ts) && lastLit == |ts|
    requires Planned(ts, lfc, ldl, dfc, ddl, bfc, bdl, lmax, dmax, maxBlindex, opt, stat)
    modifies bw, bw.outbuf
    ensures bw.Valid() && bw.Sent() == old(bw.Sent()) + blk && |blk| == 3 + opt
    ensures forall pos, out, out' :: Expand(out, ts) == Some(out') ==> BlockReads(blk, pos, out, eof, out')
    ensures var ll, dd, cl := ldl[..lmax + 1], ddl[..dmax + 1], bdl[..BL_CODES];
            DynamicGood(ll, dd, cl, maxBlindex + 1, ts) && blk == DynamicBlock(ll, dd, cl, maxBlindex + 1, ts, eof)
  {
    hide Bits, ByteBits, Pow2, Kind, GoodTables, Buffered, Codable, Coded, TokensBits, Codeword, Planned, GoodHeader, TreesBits,
         BlockReads, Expand, GoodTokens, DynamicGood, StaticGood;
    ghost var sent := bw.Sent();
    PlanFacts(ts, lfc, ldl, dfc, ddl, bfc, bdl, lmax, dmax, maxBlindex, opt, stat);
    ghost var ll, dd, cl := ldl[..lmax + 1], ddl[..dmax + 1], bdl[..BL_CODES];
    DynamicFacts(ll, dd, cl, maxBlindex + 1, ts);
    blk := DynamicBlock(ll, dd, cl, maxBlindex + 1, ts, eof);
    SendKind(bw, DYN_TREES, eof);
    SendAllTrees(bw, ldl, ddl, bfc, bdl[..BL_CODES], lmax + 1, dmax + 1, maxBlindex + 1);
    CompressBlock(bw, tab, lBuf, dBuf, flagBuf, lastLit, lfc, ldl[..lmax + 1], dfc, ddl[..dmax + 1], ts);
    Associate3(sent, Kind(DYN_TREES, eof), TreesBits(ll, dd, cl, maxBlindex + 1), TokensBits(ll, dd, ts) + Codeword(ll, END_BLOCK));
    forall pos: nat, out: seq<byte>, out': seq<byte> | Expand(out, ts) == Some(out') ensures BlockReads(blk, pos, out, eof, out') {
      DynamicReads(ll, dd, cl, maxBlindex + 1, ts, eof, pos, out, out');
    }
  }

  lemma Associate3(a: seq<bool>, b: seq<bool>, c: seq<bool>, d: seq<bool>)
    ensures a + b + c + d == a + (b + c + d)
  {
  }
}
