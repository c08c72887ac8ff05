/** The three kinds of blocks as bits, that a decoder reads them back, and how blocks compose. */
module BlockCode {
  import opened Basics
  import opened BitString
  import opened Canonical
  import opened Rfc1951
  import opened TokenCode
  import opened GzipBits
  import opened GzipHeader
  import opened GzipTables

  const STORED_BLOCK := 0
  const STATIC_TREES := 1
  const DYN_TREES := 2

  /** Behind `out`, the bits `blk` at position `pos` are one block; the output behind it is `out'`. */
  ghost predicate BlockReads(blk: seq<bool>, pos: nat, out: seq<byte>, last: bool, out': seq<byte>) {
    forall rest: seq<bool> :: ReadBlock(blk + rest, pos, out) == Some((last, out', rest))
  }

  /** `bits` are whole blocks, none of them the last, that stand for `out`. */
  ghost predicate Blocks(bits: seq<bool>, out: seq<byte>) {
    forall rest: seq<bool> :: InflateFrom(bits + rest, 0, []) == InflateFrom(rest, |bits|, out)
  }

  lemma NoBlocks()
    ensures Blocks([], [])
  {
    forall rest: seq<bool> ensures InflateFrom([] + rest, 0, []) == InflateFrom(rest, 0, []) {
      assert [] + rest == rest;
    }
  }

  lemma AppendBlock(bits: seq<bool>, out: seq<byte>, blk: seq<bool>, out': seq<byte>)
    requires Blocks(bits, out) && BlockReads(blk, |bits|, out, false, out')
    ensures Blocks(bits + blk, out')
  {
    hide ReadBlock;
    forall rest: seq<bool> ensures InflateFrom(bits + blk + rest, 0, []) == InflateFrom(rest, |bits + blk|, out') {
      assert bits + blk + rest == bits + (blk + rest);
      assert ReadBlock(blk + rest, |bits|, out) == Some((false, out', rest));
    }
  }

  /** The last block ends the stream; what follows is ignored. */
  lemma LastBlock(bits: seq<bool>, out: seq<byte>, blk: seq<bool>, out': seq<byte>, pad: seq<bool>)
    requires Blocks(bits, out) && BlockReads(blk, |bits|, out, true, out')
    ensures Inflate(bits + blk + pad) == Some(out')
  {
    hide ReadBlock;
    assert bits + blk + pad == bits + (blk + pad);
    assert ReadBlock(blk + pad, |bits|, out) == Some((true, out', pad));
  }

  function Eof(eof: bool): nat { if eof then 1 else 0 }

  /** The three header bits. */
  ghost function Kind(kind: nat, eof: bool): (r: seq<bool>)
    ensures |r| == 3
  {
    Bits(2 * kind + Eof(eof), 3)
  }

  lemma KindReads(kind: nat, eof: bool, more: seq<bool>)
    requires kind < 4
    ensures var bits := Kind(kind, eof) + more; bits[0] == eof && Value(bits[1..3]) == kind && bits[3..] == more
  {
    var k := Kind(kind, eof);
    var bits := k + more;
    assert k == [eof] + Bits(kind, 2);
    assert bits[1..3] == Bits(kind, 2) && bits[3..] == more;
    assert Pow2(2) == 4;
    hide Bits, Value;
    ValueOfBits(kind, 2);
  }

  // ---- Compressed blocks

  lemma CompressedReads(ll: seq<nat>, dl: seq<nat>, ts: seq<Token>, out: seq<byte>, out': seq<byte>, rest: seq<bool>)
    requires Feasible(ll) && Feasible(dl) && END_BLOCK < |ll| && ll[END_BLOCK] > 0
    requires (forall i :: 0 <= i < |ts| ==> Codable(ll, dl, ts[i])) && Expand(out, ts) == Some(out')
    ensures ReadCompressed(ll, dl, TokensBits(ll, dl, ts) + Codeword(ll, END_BLOCK) + rest, out) == Some((out', rest))
  {
    hide Feasible, Codable, TokensBits, Codeword, ReadTokens, Expand;
    TokensRead(ll, dl, ts, rest);
  }

  ghost predicate StaticGood(ts: seq<Token>) {
    forall i :: 0 <= i < |ts| ==> Codable(FixedLengths(), FixedDistances(), ts[i])
  }

  ghost function StaticBlock(ts: seq<Token>, eof: bool): seq<bool>
    requires StaticGood(ts)
  {
    Kind(STATIC_TREES, eof) + (TokensBits(FixedLengths(), FixedDistances(), ts) + Codeword(FixedLengths(), END_BLOCK))
  }

  lemma StaticReads(ts: seq<Token>, eof: bool, pos: nat, out: seq<byte>, out': seq<byte>)
    requires StaticGood(ts) && Expand(out, ts) == Some(out')
    ensures BlockReads(StaticBlock(ts, eof), pos, out, eof, out')
  {
    hide Feasible, Complete, Codable, TokensBits, Codeword, ReadCompressed, Expand, FixedLengths, FixedDistances, Kind, Value;
    FixedFeasible();
    FixedRange();
    var l, d := FixedLengths(), FixedDistances();
    forall rest: seq<bool> ensures ReadBlock(StaticBlock(ts, eof) + rest, pos, out) == Some((eof, out', rest)) {
      CompressedReads(l, d, ts, out, out', rest);
      var more := TokensBits(l, d, ts) + Codeword(l, END_BLOCK) + rest;
      assert StaticBlock(ts, eof) + rest == Kind(1, eof) + more;
      KindReads(1, eof, more);
    }
  }

  /** The codes `ll` and `dd` can be sent with the code `cl` and have codewords for all tokens. */
  ghost predicate DynamicGood(ll: seq<nat>, dd: seq<nat>, cl: seq<nat>, k: nat, ts: seq<Token>) {
    && GoodHeader(ll, dd, cl, k) && Feasible(ll) && Feasible(dd) && ll[END_BLOCK] > 0
    && forall i :: 0 <= i < |ts| ==> Codable(ll, dd, ts[i])
  }

  ghost function DynamicBlock(ll: seq<nat>, dd: seq<nat>, cl: seq<nat>, k: nat, ts: seq<Token>, eof: bool): seq<bool>
    requires DynamicGood(ll, dd, cl, k, ts)
  {
    Kind(DYN_TREES, eof) + TreesBits(ll, dd, cl, k) + (TokensBits(ll, dd, ts) + Codeword(ll, END_BLOCK))
  }

  lemma DynamicReads(ll: seq<nat>, dd: seq<nat>, cl: seq<nat>, k: nat, ts: seq<Token>, eof: bool, pos: nat, out: seq<byte>,
                     out': seq<byte>)
    requires DynamicGood(ll, dd, cl, k, ts) && Expand(out, ts) == Some(out')
    ensures BlockReads(DynamicBlock(ll, dd, cl, k, ts, eof), pos, out, eof, out')
  {
    hide Feasible, Codable, TokensBits, Codeword, ReadCompressed, Expand, ReadTrees, TreesBits, Kind, Value, GoodHeader;
    forall rest: seq<bool> ensures ReadBlock(DynamicBlock(ll, dd, cl, k, ts, eof) + rest, pos, out) == Some((eof, out', rest)) {
      EndInside(ll, dd, cl, k);
      CompressedReads(ll, dd, ts, out, out', rest);
      var t, more := TreesBits(ll, dd, cl, k), TokensBits(ll, dd, ts) + Codeword(ll, END_BLOCK) + rest;
      TreesRead(ll, dd, cl, k, more);
      assert DynamicBlock(ll, dd, cl, k, ts, eof) + rest == Kind(2, eof) + (t + more);
      KindReads(2, eof, t + more);
    }
  }

  lemma EndInside(ll: seq<nat>, dd: seq<nat>, cl: seq<nat>, k: nat)
    requires GoodHeader(ll, dd, cl, k)
    ensures END_BLOCK < |ll|
  {
  }

  // ---- Stored blocks

  /** A byte as a number. */
  function Octet(b: byte): octet { b as int }

  ghost function Octets(data: seq<byte>): (r: seq<octet>)
    ensures |r| == |data|
  {
    seq(|data|, i requires 0 <= i < |data| => Octet(data[i]))
  }

  lemma {:induction false} BytesReadOnto(data: seq<byte>, bits: seq<bool>, m: nat, more: seq<byte>, rest: seq<bool>)
    requires ReadBytes(bits, m) == Some((more, rest))
    ensures ReadBytes(ByteBits(Octets(data)) + bits, |data| + m) == Some((data + more, rest))
    decreases |data|
  {
    hide ReadBytes, Bits, Octet;
    if data == [] {
      assert [] + bits == bits && [] + more == more;
    } else {
      var k := |data| - 1;
      var x := Octet(data[k]);
      ByteReads(data[k], bits, m, more, rest);
      BytesReadOnto(data[..k], Bits(x, 8) + bits, m + 1, [data[k]] + more, rest);
      assert Octets(data)[..k] == Octets(data[..k]);
      assert ByteBits(Octets(data)) == ByteBits(Octets(data[..k])) + Bits(x, 8);
      assert ByteBits(Octets(data[..k])) + (Bits(x, 8) + bits) == ByteBits(Octets(data)) + bits;
      assert data[..k] + ([data[k]] + more) == data + more;
    }
  }

  lemma ByteReads(b: byte, bits: seq<bool>, m: nat, more: seq<byte>, rest: seq<bool>)
    requires ReadBytes(bits, m) == Some((more, rest))
    ensures ReadBytes(Bits(Octet(b), 8) + bits, m + 1) == Some(([b] + more, rest))
  {
    hide Bits, Value;
    var w := Bits(b as int, 8) + bits;
    assert w[..8] == Bits(b as int, 8) && w[8..] == bits;
    assert Pow2(8) == 256;
    ValueOfBits(b as int, 8);
    assert (b as int) as bv8 == b;
  }

  ghost function StoredBlock(data: seq<byte>, pad: nat, eof: bool): seq<bool> {
    Kind(STORED_BLOCK, eof) + Bits(0, pad) + (Bits(|data|, 16) + Bits(if |data| <= 0xffff then 0xffff - |data| else 0, 16))
    + ByteBits(Octets(data))
  }

  lemma StoredReads(data: seq<byte>, pad: nat, eof: bool, pos: nat, out: seq<byte>)
    requires |data| <= 0xffff && pad < 8 && (pos + 3 + pad) % 8 == 0
    ensures BlockReads(StoredBlock(data, pad, eof), pos, out, eof, out + data)
  {
    hide Bits, Value, Kind, ByteBits, Octets, ReadStored;
    var k, p, n := Kind(STORED_BLOCK, eof), Bits(0, pad), Bits(|data|, 16) + Bits(0xffff - |data|, 16);
    var d := ByteBits(Octets(data));
    forall rest: seq<bool> ensures ReadBlock(StoredBlock(data, pad, eof) + rest, pos, out) == Some((eof, out + data, rest)) {
      Regroup(k, p, n, d, rest);
      KindReads(0, eof, p + n + d + rest);
      StoredDataReads(data, pad, pos + 3, rest);
    }
  }

  lemma StoredDataReads(data: seq<byte>, pad: nat, pos: nat, rest: seq<bool>)
    requires |data| <= 0xffff && pad < 8 && (pos + pad) % 8 == 0
    ensures ReadStored(Bits(0, pad) + (Bits(|data|, 16) + Bits(0xffff - |data|, 16)) + ByteBits(Octets(data)) + rest, pos)
         == Some((data, rest))
  {
    hide Bits, Value, ByteBits, Octets, ReadBytes, Pow2;
    var n := |data|;
    var p, x, y, d := Bits(0, pad), Bits(n, 16), Bits(0xffff - n, 16), ByteBits(Octets(data));
    var bits := p + (x + y) + d + rest;
    assert pad == (8 - pos % 8) % 8;
    Parts(p, x, y, d, rest);
    SixteenBits();
    ValueOfBits(n, 16);
    ValueOfBits(0xffff - n, 16);
    assert ReadBytes(rest, 0) == Some(([], rest)) by { NoBytes(rest); }
    BytesReadOnto(data, rest, 0, [], rest);
    assert data + [] == data;
  }

  lemma Parts(p: seq<bool>, x: seq<bool>, y: seq<bool>, d: seq<bool>, rest: seq<bool>)
    requires |x| == |y| == 16
    ensures var bits := p + (x + y) + d + rest;
            bits[|p|..|p| + 16] == x && bits[|p| + 16..|p| + 32] == y && bits[|p| + 32..] == d + rest
  {
    var bits := p + (x + y) + d + rest;
    assert bits == p + (x + (y + (d + rest)));
    assert bits[|p|..] == x + (y + (d + rest));
    assert bits[|p|..|p| + 16] == bits[|p|..][..16];
    assert bits[|p| + 16..|p| + 32] == bits[|p|..][16..32];
    assert bits[|p| + 32..] == bits[|p|..][32..];
  }

  lemma NoBytes(rest: seq<bool>)
    ensures ReadBytes(rest, 0) == Some(([], rest))
  {
  }
}
