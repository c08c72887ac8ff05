/** How tokens are written with two given codes, and that the decoder reads them back. */
module TokenCode {
  import opened Basics
  import opened BitString
  import opened Canonical
  import opened Rfc1951

  /** The last entry of `bases`, from `c` down, that is not above `v`. */
  function CodeBelow(bases: seq<nat>, v: nat, c: nat): (r: nat)
    requires c < |bases| && bases[0] <= v
    ensures r <= c && bases[r] <= v && (r < c ==> v < bases[r + 1])
  {
    if bases[c] <= v then c else CodeBelow(bases, v, c - 1)
  }

  function LengthCode(len: nat): (c: nat)
    requires 3 <= len
    ensures c < 29
  {
    CodeBelow(LENGTH_BASE, len, 28)
  }

  function DistCode(dist: nat): (c: nat)
    requires 1 <= dist
    ensures c < D_CODES
  {
    CodeBelow(DIST_BASE, dist, 29)
  }

  lemma LengthFits(len: nat)
    requires 3 <= len <= 258
    ensures var c := LengthCode(len); LENGTH_BASE[c] <= len < LENGTH_BASE[c] + Pow2(LENGTH_EXTRA[c])
  {
    var c := LengthCode(len);
    LengthTable(c);
  }

  lemma LengthTable(c: nat)
    requires c < 29
    ensures LENGTH_EXTRA[c] <= 5
    ensures c < 27 ==> LENGTH_BASE[c + 1] == LENGTH_BASE[c] + Pow2(LENGTH_EXTRA[c])
    ensures c == 27 ==> LENGTH_BASE[28] == LENGTH_BASE[27] + Pow2(LENGTH_EXTRA[27]) - 1
    ensures c == 28 ==> LENGTH_BASE[28] + Pow2(LENGTH_EXTRA[28]) == 259
  {
    hide Pow2;
    SmallPowers();
  }

  lemma TableSizes()
    ensures |LENGTH_BASE| == |LENGTH_EXTRA| == 29 && |DIST_BASE| == |DIST_EXTRA| == D_CODES
  {
  }

  lemma SmallPowers()
    ensures Pow2(0) == 1 && Pow2(1) == 2 && Pow2(2) == 4 && Pow2(3) == 8 && Pow2(4) == 16 && Pow2(5) == 32
    ensures Pow2(6) == 64 && Pow2(7) == 128 && Pow2(8) == 256 && Pow2(9) == 512 && Pow2(10) == 1024
    ensures Pow2(11) == 2048 && Pow2(12) == 4096 && Pow2(13) == 8192 && Pow2(14) == 16384 && Pow2(15) == 32768
  {
  }

  lemma DistFits(dist: nat)
    requires 1 <= dist <= 32768
    ensures var c := DistCode(dist); DIST_BASE[c] <= dist < DIST_BASE[c] + Pow2(DIST_EXTRA[c])
  {
    var c := DistCode(dist);
    DistTable(c);
  }

  lemma DistTable(c: nat)
    requires c < 30
    ensures DIST_EXTRA[c] <= 13
    ensures c < 29 ==> DIST_BASE[c + 1] == DIST_BASE[c] + Pow2(DIST_EXTRA[c])
    ensures c == 29 ==> DIST_BASE[29] + Pow2(DIST_EXTRA[29]) == 32769
  {
    hide Pow2;
    SmallPowers();
  }

  // ---- Tokens

  ghost predicate GoodToken(t: Token) {
    t.Match? ==> 3 <= t.len <= 258 && 1 <= t.dist <= 32768
  }

  /** The literal/length symbol of a token. */
  function LitSymbol(t: Token): (r: nat)
    requires GoodToken(t)
    ensures r < L_CODES && r != END_BLOCK
  {
    if t.Literal? then t.b as int else LengthCode(t.len) + LITERALS + 1
  }

  /** The codes have codewords for all symbols of the token. */
  ghost predicate Codable(ll: seq<nat>, dl: seq<nat>, t: Token) {
    && GoodToken(t) && LitSymbol(t) < |ll| && ll[LitSymbol(t)] > 0
    && (t.Match? ==> DistCode(t.dist) < |dl| && dl[DistCode(t.dist)] > 0)
  }

  function TokenBits(ll: seq<nat>, dl: seq<nat>, t: Token): seq<bool>
    requires Codable(ll, dl, t)
  {
    if t.Literal? then Codeword(ll, LitSymbol(t))
    else
      var c, d := LengthCode(t.len), DistCode(t.dist);
      Codeword(ll, LitSymbol(t)) + Bits(t.len - LENGTH_BASE[c], LENGTH_EXTRA[c])
      + Codeword(dl, d) + Bits(t.dist - DIST_BASE[d], DIST_EXTRA[d])
  }

  function TokensBits(ll: seq<nat>, dl: seq<nat>, ts: seq<Token>): seq<bool>
    requires forall i :: 0 <= i < |ts| ==> Codable(ll, dl, ts[i])
  {
    if ts == [] then [] else TokensBits(ll, dl, ts[..|ts| - 1]) + TokenBits(ll, dl, ts[|ts| - 1])
  }

  /** Extra bits read back. */
  lemma ExtraReads(v: nat, base: nat, extra: nat, rest: seq<bool>)
    requires base <= v < base + Pow2(extra)
    ensures ReadExtra(Bits(v - base, extra) + rest, base, extra) == Some((v, rest))
  {
    hide Bits, Pow2, Value;
    var b := Bits(v - base, extra);
    assert (b + rest)[..extra] == b && (b + rest)[extra..] == rest;
    ValueOfBits(v - base, extra);
  }

  lemma DistanceReads(dl: seq<nat>, dist: nat, rest: seq<bool>)
    requires Feasible(dl) && 1 <= dist <= 32768 && DistCode(dist) < |dl| && dl[DistCode(dist)] > 0
    ensures var d := DistCode(dist);
            ReadDistance(dl, Codeword(dl, d) + Bits(dist - DIST_BASE[d], DIST_EXTRA[d]) + rest) == Some((dist, rest))
  {
    hide Bits, Pow2, Feasible, Codeword, DistCode, DecodeSymbol, ReadExtra;
    var d := DistCode(dist);
    DistFits(dist);
    var w, e := Codeword(dl, d), Bits(dist - DIST_BASE[d], DIST_EXTRA[d]);
    assert w + e + rest == w + (e + rest);
    DecodeSent(dl, d, e + rest);
    ExtraReads(dist, DIST_BASE[d], DIST_EXTRA[d], rest);
  }

  lemma TokenReads(ll: seq<nat>, dl: seq<nat>, t: Token, rest: seq<bool>)
    requires Feasible(ll) && Feasible(dl) && Codable(ll, dl, t)
    ensures ReadToken(ll, dl, TokenBits(ll, dl, t) + rest) == Some((Some(t), rest))
  {
    hide Feasible, Codeword, DecodeSymbol, ReadExtra, LengthCode, DistCode, ReadDistance;
    if t.Literal? {
      DecodeSent(ll, LitSymbol(t), rest);
      assert (t.b as int) as bv8 == t.b;
    } else {
      MatchReads(ll, dl, t, rest);
    }
  }

  lemma MatchReads(ll: seq<nat>, dl: seq<nat>, t: Token, rest: seq<bool>)
    requires Feasible(ll) && Feasible(dl) && Codable(ll, dl, t) && t.Match?
    ensures ReadToken(ll, dl, TokenBits(ll, dl, t) + rest) == Some((Some(t), rest))
  {
    hide Bits, Pow2, Feasible, Codeword, DecodeSymbol, ReadExtra, LengthCode, DistCode, ReadDistance;
    hide LENGTH_BASE, LENGTH_EXTRA, DIST_BASE, DIST_EXTRA;
    TableSizes();
    var s, c, d := LitSymbol(t), LengthCode(t.len), DistCode(t.dist);
    LengthFits(t.len);
    DistFits(t.dist);
    var w, e := Codeword(ll, s), Bits(t.len - LENGTH_BASE[c], LENGTH_EXTRA[c]);
    var x, y := Codeword(dl, d), Bits(t.dist - DIST_BASE[d], DIST_EXTRA[d]);
    var u := x + y + rest;
    assert w + e + x + y + rest == w + (e + u);
    DecodeSent(ll, s, e + u);
    ExtraReads(t.len, LENGTH_BASE[c], LENGTH_EXTRA[c], u);
    DistanceReads(dl, t.dist, rest);
  }

  lemma EndReads(ll: seq<nat>, dl: seq<nat>, rest: seq<bool>)
    requires Feasible(ll) && END_BLOCK < |ll| && ll[END_BLOCK] > 0
    ensures ReadToken(ll, dl, Codeword(ll, END_BLOCK) + rest) == Some((None, rest))
  {
    hide Feasible, Codeword, DecodeSymbol, ReadExtra, ReadDistance;
    DecodeSent(ll, END_BLOCK, rest);
  }

  /** A decoder reads back exactly the tokens of a block and stops at its end. */
  lemma {:induction false} TokensRead(ll: seq<nat>, dl: seq<nat>, ts: seq<Token>, rest: seq<bool>)
    requires Feasible(ll) && Feasible(dl) && END_BLOCK < |ll| && ll[END_BLOCK] > 0
    requires forall i :: 0 <= i < |ts| ==> Codable(ll, dl, ts[i])
    ensures ReadTokens(ll, dl, TokensBits(ll, dl, ts) + Codeword(ll, END_BLOCK) + rest) == Some((ts, rest))
  {
    hide Feasible, Codeword, Codable, TokenBits, ReadToken;
    var e := Codeword(ll, END_BLOCK);
    EndReads(ll, dl, rest);
    assert [] + e + rest == e + rest;
    TokensReadOnto(ll, dl, ts, [], e + rest, rest);
    assert ts + [] == ts;
    assert TokensBits(ll, dl, ts) + e + rest == TokensBits(ll, dl, ts) + (e + rest);
  }

  lemma {:induction false} TokensReadOnto(ll: seq<nat>, dl: seq<nat>, ts: seq<Token>, us: seq<Token>, bits: seq<bool>,
                                          rest: seq<bool>)
    requires Feasible(ll) && Feasible(dl)
    requires forall i :: 0 <= i < |ts| ==> Codable(ll, dl, ts[i])
    requires ReadTokens(ll, dl, bits) == Some((us, rest))
    ensures ReadTokens(ll, dl, TokensBits(ll, dl, ts) + bits) == Some((ts + us, rest))
    decreases |ts|
  {
    hide Feasible, Codeword, Codable, TokenBits, ReadToken;
    if ts == [] {
      assert [] + bits == bits && [] + us == us;
    } else {
      var k := |ts| - 1;
      var w, t := TokensBits(ll, dl, ts[..k]), TokenBits(ll, dl, ts[k]);
      TokenReads(ll, dl, ts[k], bits);
      TokensReadOnto(ll, dl, ts[..k], [ts[k]] + us, t + bits, rest);
      assert w + t + bits == w + (t + bits);
      assert ts[..k] + ([ts[k]] + us) == ts + us;
    }
  }
}
