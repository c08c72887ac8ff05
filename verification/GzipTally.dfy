/** The tokens of a block in the buffers of ct_tally, their frequencies and their cost. */
module GzipTally {
  import opened BitString
  import opened Canonical
  import opened Rfc1951
  import opened TokenCode
  import opened KraftSums
  import opened GzipBitlen

  const LIT_BUFSIZE := 0x2000
  const DIST_BUFSIZE := 0x2000

  // ---- l_buf, d_buf and flag_buf

  /** What l_buf holds for a token. */
  function Lc(t: Token): nat {
    if t.Literal? then t.b as int else if t.len >= 3 then t.len - 3 else 0
  }

  ghost function Lcs(ts: seq<Token>): (r: seq<nat>)
    ensures |r| == |ts|
  {
    seq(|ts|, i requires 0 <= i < |ts| => Lc(ts[i]))
  }

  /** What d_buf holds: the distances of the matches, less one. */
  ghost function Dists(ts: seq<Token>): (r: seq<nat>)
    ensures |r| <= |ts|
  {
    if ts == [] then []
    else
      var k := |ts| - 1;
      if ts[k].Match? && ts[k].dist >= 1 then Dists(ts[..k]) + [ts[k].dist - 1] else Dists(ts[..k])
  }

  ghost function Flags(ts: seq<Token>): (r: seq<bool>)
    ensures |r| == |ts|
  {
    seq(|ts|, i requires 0 <= i < |ts| => ts[i].Match?)
  }

  lemma DistsAppend(ts: seq<Token>, t: Token)
    ensures Dists(ts + [t]) == if t.Match? && t.dist >= 1 then Dists(ts) + [t.dist - 1] else Dists(ts)
  {
    assert (ts + [t])[..|ts|] == ts;
  }

  /** The distance of a match comes behind those of the matches before it. */
  lemma {:induction false} DistAt(ts: seq<Token>, n: nat)
    requires n < |ts|
    ensures |Dists(ts[..n])| <= |Dists(ts)|
    ensures ts[n].Match? && ts[n].dist >= 1 ==>
              |Dists(ts[..n])| < |Dists(ts)| && Dists(ts)[|Dists(ts[..n])|] == ts[n].dist - 1
    decreases |ts|
  {
    var k := |ts| - 1;
    if n >= k {
    } else {
      DistAt(ts[..k], n);
      assert ts[..k][..n] == ts[..n];
    }
  }

  /** The flags below `8 * last` are in full bytes, the others in `flags`. */
  ghost predicate Packed(buf: seq<nat>, last: nat, flags: nat, bit: nat, fl: seq<bool>) {
    && last == |fl| / 8 && last <= |buf| && flags == Value(fl[8 * last..]) && bit == Pow2(|fl| % 8)
    && forall i :: 0 <= i < last ==> buf[i] == Value(fl[8 * i..8 * i + 8])
  }

  lemma {:induction false} ValueAppend(s: seq<bool>, b: bool)
    ensures Value(s + [b]) == Value(s) + if b then Pow2(|s|) else 0
  {
    if s == [] {
      assert [b][1..] == [];
    } else {
      ValueAppend(s[1..], b);
      assert (s + [b])[1..] == s[1..] + [b];
    }
  }

  /** One more flag, as ct_tally packs it. */
  lemma PackStep(buf: seq<nat>, last: nat, flags: nat, bit: nat, fl: seq<bool>, b: bool)
    requires Packed(buf, last, flags, bit, fl)
    ensures var f := flags + if b then bit else 0;
            if (|fl| + 1) % 8 == 0 then last < |buf| ==> Packed(buf[last := f], last + 1, 0, 1, fl + [b])
            else Packed(buf, last, f, bit * 2 % 256, fl + [b])
  {
    hide Value, Pow2;
    var fl', tail := fl + [b], fl[8 * last..];
    ValueAppend(tail, b);
    assert fl'[8 * last..] == tail + [b];
    PowerStep(|fl| % 8);
    assert forall i :: 0 <= i < last ==> fl'[8 * i..8 * i + 8] == fl[8 * i..8 * i + 8];
    if (|fl| + 1) % 8 == 0 {
      assert fl'[8 * last..8 * last + 8] == tail + [b];
      NoFlags(fl', 8 * (last + 1));
    }
  }

  lemma PowerStep(n: nat)
    requires n < 8
    ensures n < 7 ==> Pow2(n) * 2 % 256 == Pow2(n + 1)
    ensures Pow2(0) == 1
  {
    SmallPowers();
  }

  lemma NoFlags(fl: seq<bool>, n: nat)
    requires n == |fl|
    ensures Value(fl[n..]) == 0
  {
  }

  lemma PackStart(buf: seq<nat>)
    ensures Packed(buf, 0, 0, 1, [])
  {
  }

  /** All flag bytes, when the flags of the last tokens have been saved too. */
  ghost predicate Saved(buf: seq<nat>, fl: seq<bool>) {
    && |fl| / 8 < |buf|
    && forall i :: 0 <= i <= |fl| / 8 ==> buf[i] == Value(fl[8 * i..if 8 * i + 8 <= |fl| then 8 * i + 8 else |fl|])
  }

  lemma PackEnd(buf: seq<nat>, last: nat, flags: nat, bit: nat, fl: seq<bool>)
    requires Packed(buf, last, flags, bit, fl) && last < |buf|
    ensures Saved(buf[last := flags], fl)
  {
    hide Value;
    assert fl[8 * last..] == fl[8 * last..|fl|];
  }

  /** `flag` holds the flags from `n` up to the end of the byte. */
  ghost predicate Unpacking(fl: seq<bool>, n: nat, fx: nat, flag: nat) {
    && n <= |fl| && fx == (n + 7) / 8
    && (n % 8 != 0 ==> flag == Value(fl[n..if 8 * fx <= |fl| then 8 * fx else |fl|]))
  }

  /** The next flag is the low bit of the current byte. */
  lemma NextFlag(buf: seq<nat>, fl: seq<bool>, n: nat, fx: nat, flag: nat)
    requires Saved(buf, fl) && Unpacking(fl, n, fx, flag) && n < |fl|
    ensures n % 8 == 0 ==> fx < |buf|
    ensures var f, g := if n % 8 == 0 then buf[fx] else flag, if n % 8 == 0 then fx + 1 else fx;
            (f % 2 == 1 <==> fl[n]) && Unpacking(fl, n + 1, g, f / 2)
  {
    var g := if n % 8 == 0 then fx + 1 else fx;
    var end := if 8 * g <= |fl| then 8 * g else |fl|;
    assert g == (n + 1 + 7) / 8 && n < end;
    var s := fl[n..end];
    ValueHead(s);
    assert s[1..] == fl[n + 1..end];
  }

  lemma ValueHead(s: seq<bool>)
    requires s != []
    ensures (Value(s) % 2 == 1 <==> s[0]) && Value(s) / 2 == Value(s[1..])
  {
  }

  // ---- Frequencies

  const LITERAL_DESC := Desc(L_CODES, MAX_BITS, LENGTH_EXTRA, LITERALS + 1, FixedLengths())
  const DISTANCE_DESC := Desc(D_CODES, MAX_BITS, DIST_EXTRA, 0, FixedDistances())

  ghost predicate GoodTokens(ts: seq<Token>) {
    forall i :: 0 <= i < |ts| ==> GoodToken(ts[i])
  }

  /** The literal/length frequencies, with the end of the block. */
  ghost function LitFreq(ts: seq<Token>): (r: seq<nat>)
    requires GoodTokens(ts)
    ensures |r| == L_CODES
  {
    if ts == [] then seq(L_CODES, _ => 0)[END_BLOCK := 1]
    else Tick(LitFreq(ts[..|ts| - 1]), LitSymbol(ts[|ts| - 1]))
  }

  ghost function DistFreq(ts: seq<Token>): (r: seq<nat>)
    requires GoodTokens(ts)
    ensures |r| == D_CODES
  {
    if ts == [] then seq(D_CODES, _ => 0)
    else
      var t, f := ts[|ts| - 1], DistFreq(ts[..|ts| - 1]);
      if t.Match? then Tick(f, DistCode(t.dist)) else f
  }

  lemma FreqAppend(ts: seq<Token>, t: Token)
    requires GoodTokens(ts) && GoodToken(t)
    ensures GoodTokens(ts + [t]) && LitFreq(ts + [t]) == Tick(LitFreq(ts), LitSymbol(t))
    ensures DistFreq(ts + [t]) == if t.Match? then Tick(DistFreq(ts), DistCode(t.dist)) else DistFreq(ts)
  {
    hide LitSymbol, DistCode;
    assert (ts + [t])[..|ts|] == ts;
  }

  lemma {:induction false} FreqSums(ts: seq<Token>)
    requires GoodTokens(ts)
    ensures SeqSum(LitFreq(ts)) == |ts| + 1 && SeqSum(DistFreq(ts)) <= |ts|
    decreases |ts|
  {
    hide SeqSum, LitSymbol, DistCode;
    var z: seq<nat> := seq(L_CODES, _ => 0);
    if ts == [] {
      SeqSumUpdate(z, END_BLOCK, 1);
      SeqSumZeros(z);
      SeqSumZeros(seq(D_CODES, _ => 0));
    } else {
      var k := |ts| - 1;
      FreqSums(ts[..k]);
      var f, x := LitFreq(ts[..k]), LitSymbol(ts[k]);
      SeqSumUpdate(f, x, f[x] + 1);
      if ts[k].Match? {
        var g, y := DistFreq(ts[..k]), DistCode(ts[k].dist);
        SeqSumUpdate(g, y, g[y] + 1);
      }
    }
  }

  /** Every symbol that occurs has been counted. */
  lemma {:induction false} FreqCounts(ts: seq<Token>, i: nat)
    requires GoodTokens(ts) && i < |ts|
    ensures LitFreq(ts)[LitSymbol(ts[i])] > 0 && (ts[i].Match? ==> DistFreq(ts)[DistCode(ts[i].dist)] > 0)
    decreases |ts|
  {
    hide LitSymbol, DistCode;
    var k := |ts| - 1;
    if i >= k {
    } else {
      FreqCounts(ts[..k], i);
    }
  }

  lemma {:induction false} EndCounts(ts: seq<Token>)
    requires GoodTokens(ts)
    ensures LitFreq(ts)[END_BLOCK] == 1
    decreases |ts|
  {
    if ts == [] {
    } else {
      EndCounts(ts[..|ts| - 1]);
    }
  }

  // ---- Cost

  ghost function TokenSize(bl: seq<nat>, bd: seq<nat>, t: Token): nat
    requires GoodToken(t) && |bl| >= L_CODES && |bd| >= D_CODES
  {
    bl[LitSymbol(t)] +
    if t.Literal? then 0
    else LENGTH_EXTRA[LengthCode(t.len)] + bd[DistCode(t.dist)] + DIST_EXTRA[DistCode(t.dist)]
  }

  ghost function TokensSize(bl: seq<nat>, bd: seq<nat>, ts: seq<Token>): nat
    requires GoodTokens(ts) && |bl| >= L_CODES && |bd| >= D_CODES
  {
    if ts == [] then 0 else TokensSize(bl, bd, ts[..|ts| - 1]) + TokenSize(bl, bd, ts[|ts| - 1])
  }

  /** The lengths `l`, `d` have codes for all tokens. */
  ghost predicate AllCoded(l: seq<nat>, d: seq<nat>, ts: seq<Token>) {
    && |l| == L_CODES && |d| == D_CODES && GoodTokens(ts)
    && forall i :: 0 <= i < |ts| ==> l[LitSymbol(ts[i])] > 0 && (ts[i].Match? ==> d[DistCode(ts[i].dist)] > 0)
  }

  lemma SymbolCosts(l: seq<nat>, d: seq<nat>, bl: seq<nat>, bd: seq<nat>, t: Token)
    requires |l| == L_CODES && |d| == D_CODES && |bl| >= L_CODES && |bd| >= D_CODES && GoodToken(t)
    requires l[LitSymbol(t)] > 0 && (t.Match? ==> d[DistCode(t.dist)] > 0)
    ensures PerSymbol(l, bl, LITERAL_DESC)[LitSymbol(t)] + (if t.Match? then PerSymbol(d, bd, DISTANCE_DESC)[DistCode(t.dist)] else 0)
         == TokenSize(bl, bd, t)
  {
    hide LengthCode, DistCode, LENGTH_EXTRA, DIST_EXTRA;
    TableSizes();
  }

  /** The frequencies times the lengths are the bits of all tokens and of the end of the block. */
  lemma {:induction false} BlockCost(l: seq<nat>, d: seq<nat>, bl: seq<nat>, bd: seq<nat>, ts: seq<Token>)
    requires AllCoded(l, d, ts) && |bl| >= L_CODES && |bd| >= D_CODES && l[END_BLOCK] > 0
    ensures |LENGTH_EXTRA| == 29 && |DIST_EXTRA| == 30
    ensures Cost(LitFreq(ts), PerSymbol(l, bl, LITERAL_DESC)) + Cost(DistFreq(ts), PerSymbol(d, bd, DISTANCE_DESC))
         == TokensSize(bl, bd, ts) + bl[END_BLOCK]
    decreases |ts|
  {
    hide Cost, PerSymbol, LitSymbol, DistCode, TokenSize, Tick, LENGTH_EXTRA, DIST_EXTRA;
    TableSizes();
    var p, q := PerSymbol(l, bl, LITERAL_DESC), PerSymbol(d, bd, DISTANCE_DESC);
    if ts == [] {
      NoTokensCost(l, d, bl, bd);
    } else {
      var k := |ts| - 1;
      BlockCost(l, d, bl, bd, ts[..k]);
      SymbolCosts(l, d, bl, bd, ts[k]);
      TickCost(LitFreq(ts[..k]), p, LitSymbol(ts[k]));
      if ts[k].Match? {
        TickCost(DistFreq(ts[..k]), q, DistCode(ts[k].dist));
      }
    }
  }

  lemma NoTokensCost(l: seq<nat>, d: seq<nat>, bl: seq<nat>, bd: seq<nat>)
    requires |l| == L_CODES && |d| == D_CODES && |bl| >= L_CODES && |bd| >= D_CODES && l[END_BLOCK] > 0
    ensures Cost(LitFreq([]), PerSymbol(l, bl, LITERAL_DESC)) + Cost(DistFreq([]), PerSymbol(d, bd, DISTANCE_DESC)) == bl[END_BLOCK]
  {
    hide Cost, LENGTH_EXTRA, DIST_EXTRA;
    TableSizes();
    var z: seq<nat> := seq(L_CODES, _ => 0);
    var p := PerSymbol(l, bl, LITERAL_DESC);
    assert LitFreq([]) == Tick(z, END_BLOCK);
    TickCost(z, p, END_BLOCK);
    CostNoFreq(z, p);
    CostNoFreq(DistFreq([]), PerSymbol(d, bd, DISTANCE_DESC));
  }

  /** What ct_tally takes the tokens to need: eight bits for each, and five and the extra bits for a distance. */
  ghost function Guess(ts: seq<Token>): nat
    requires GoodTokens(ts)
  {
    if ts == [] then 0 else Guess(ts[..|ts| - 1]) + GuessOf(ts[|ts| - 1])
  }

  ghost function GuessOf(t: Token): nat
    requires GoodToken(t)
  {
    8 + if t.Match? then DistanceGuess(DistCode(t.dist)) else 0
  }

  function DistanceGuess(c: nat): nat
    requires c < D_CODES
  {
    TableSizes();
    5 + DIST_EXTRA[c]
  }

  ghost function DistanceGuesses(): (r: seq<nat>)
    ensures |r| == D_CODES && forall c :: 0 <= c < D_CODES ==> r[c] == DistanceGuess(c)
  {
    seq(D_CODES, c requires 0 <= c < D_CODES => DistanceGuess(c))
  }

  /** The frequencies give the same number. */
  lemma {:induction false} GuessIs(ts: seq<Token>)
    requires GoodTokens(ts)
    ensures 8 * |ts| + Cost(DistFreq(ts), DistanceGuesses()) == Guess(ts)
    decreases |ts|
  {
    hide Cost, DistCode, Tick, DIST_EXTRA, DistanceGuess, DistanceGuesses;
    var q := DistanceGuesses();
    if ts == [] {
      CostNoFreq(DistFreq([]), q);
    } else {
      var k := |ts| - 1;
      GuessIs(ts[..k]);
      if ts[k].Match? {
        TickCost(DistFreq(ts[..k]), q, DistCode(ts[k].dist));
      }
    }
  }

  /** The guess is at most one bit too high and five bits too low for each token in the static code. */
  lemma {:induction false} GuessNear(ts: seq<Token>)
    requires GoodTokens(ts)
    ensures Guess(ts) <= TokensSize(FixedLengths(), FixedDistances(), ts) + |ts|
    ensures TokensSize(FixedLengths(), FixedDistances(), ts) <= Guess(ts) + 5 * |ts|
    decreases |ts|
  {
    hide TokenSize, GuessOf;
    if ts == [] {
    } else {
      GuessNear(ts[..|ts| - 1]);
      GuessNearOne(ts[|ts| - 1]);
    }
  }

  lemma GuessNearOne(t: Token)
    requires GoodToken(t)
    ensures GuessOf(t) <= TokenSize(FixedLengths(), FixedDistances(), t) + 1
    ensures TokenSize(FixedLengths(), FixedDistances(), t) <= GuessOf(t) + 5
  {
    hide LengthCode, DistCode, LENGTH_EXTRA, DIST_EXTRA;
    TableSizes();
    LengthExtras();
  }

  lemma LengthExtras()
    ensures |LENGTH_EXTRA| == 29 && forall c :: 0 <= c < 29 ==> LENGTH_EXTRA[c] <= 5
  {
  }

  /** The bits of a token, counted. */
  lemma TokenBitsSize(ll: seq<nat>, dd: seq<nat>, bl: seq<nat>, bd: seq<nat>, t: Token)
    requires Codable(ll, dd, t) && |bl| >= L_CODES && |bd| >= D_CODES
    requires ll[LitSymbol(t)] == bl[LitSymbol(t)] && (t.Match? ==> dd[DistCode(t.dist)] == bd[DistCode(t.dist)])
    ensures |TokenBits(ll, dd, t)| == TokenSize(bl, bd, t)
  {
    hide LengthCode, DistCode, LENGTH_EXTRA, DIST_EXTRA, LENGTH_BASE, DIST_BASE, Codeword, Bits, Pow2;
    TableSizes();
    if t.Match? {
      LengthFits(t.len);
      DistFits(t.dist);
    }
  }

  lemma {:induction false} TokensBitsSize(ll: seq<nat>, dd: seq<nat>, bl: seq<nat>, bd: seq<nat>, ts: seq<Token>)
    requires GoodTokens(ts) && |bl| >= L_CODES && |bd| >= D_CODES && forall i :: 0 <= i < |ts| ==> Codable(ll, dd, ts[i])
    requires (forall x :: 0 <= x < |ll| && x < |bl| ==> ll[x] == bl[x]) && forall x :: 0 <= x < |dd| && x < |bd| ==> dd[x] == bd[x]
    ensures |TokensBits(ll, dd, ts)| == TokensSize(bl, bd, ts)
    decreases |ts|
  {
    hide TokenBits, TokenSize, LitSymbol, DistCode;
    if ts == [] {
    } else {
      TokensBitsSize(ll, dd, bl, bd, ts[..|ts| - 1]);
      TokenBitsSize(ll, dd, bl, bd, ts[|ts| - 1]);
    }
  }

  /** In the static code a token takes at most 32 bits. */
  lemma {:induction false} StaticBound(ts: seq<Token>)
    requires GoodTokens(ts)
    ensures TokensSize(FixedLengths(), FixedDistances(), ts) <= 32 * |ts|
    decreases |ts|
  {
    hide TokenSize;
    if ts == [] {
    } else {
      StaticBound(ts[..|ts| - 1]);
      StaticTokenBound(ts[|ts| - 1]);
    }
  }

  lemma StaticTokenBound(t: Token)
    requires GoodToken(t)
    ensures TokenSize(FixedLengths(), FixedDistances(), t) <= 32
  {
    hide LengthCode, DistCode, LENGTH_EXTRA, DIST_EXTRA, Pow2;
    TableSizes();
    if t.Match? {
      LengthTable(LengthCode(t.len));
      DistTable(DistCode(t.dist));
    }
  }

  lemma Descriptions()
    ensures GoodDesc(LITERAL_DESC) && GoodDesc(DISTANCE_DESC)
    ensures |LENGTH_EXTRA| == 29 && |DIST_EXTRA| == 30
  {
    hide FixedLengths, FixedDistances, Pow2, LENGTH_EXTRA;
    TableSizes();
    SmallPowers();
  }
}
