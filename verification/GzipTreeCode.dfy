/** scan_tree and send_tree: both walk over the same runs of code lengths, one counting the
    symbols, the other sending them. */
module GzipTreeCode {
  import opened BitString
  import opened Canonical
  import opened Rfc1951
  import opened TreeCode
  import opened KraftSums
  import opened GzipBits

  // ---- Counting

  /** The frequencies after counting `ss`. */
  ghost function ClFreq(freq: seq<nat>, ss: seq<ClSymbol>): (r: seq<nat>)
    requires forall i :: 0 <= i < |ss| ==> ss[i].sym < |freq|
    ensures |r| == |freq|
  {
    if ss == [] then freq else Tick(ClFreq(freq, ss[..|ss| - 1]), ss[|ss| - 1].sym)
  }

  lemma {:induction false} ClFreqAppend(freq: seq<nat>, a: seq<ClSymbol>, b: seq<ClSymbol>)
    requires forall i :: 0 <= i < |a| ==> a[i].sym < |freq|
    requires forall i :: 0 <= i < |b| ==> b[i].sym < |freq|
    ensures forall i :: 0 <= i < |a + b| ==> (a + b)[i].sym < |freq|
    ensures ClFreq(freq, a + b) == ClFreq(ClFreq(freq, a), b)
    decreases |b|
  {
    hide Tick;
    if b == [] {
      assert a + b == a;
    } else {
      var k := |b| - 1;
      ClFreqAppend(freq, a, b[..k]);
      assert (a + b)[..|a| + k] == a + b[..k];
    }
  }

  lemma {:induction false} ClFreqPlain(freq: seq<nat>, cur: nat, count: nat)
    requires cur < |freq|
    ensures ClFreq(freq, seq(count, _ => ClSymbol(cur, 0))) == freq[cur := freq[cur] + count]
    decreases count
  {
    var ss: seq<ClSymbol> := seq(count, _ => ClSymbol(cur, 0));
    if count == 0 {
    } else {
      assert ss[..count - 1] == seq(count - 1, _ => ClSymbol(cur, 0));
      ClFreqPlain(freq, cur, count - 1);
    }
  }

  lemma ClFreqOne(freq: seq<nat>, s: ClSymbol)
    requires s.sym < |freq|
    ensures ClFreq(freq, [s]) == Tick(freq, s.sym)
  {
    hide Tick;
    var none := [s][..0];
    assert none == [];
    assert ClFreq(freq, none) == freq;
  }

  lemma ClFreqTwo(freq: seq<nat>, s: ClSymbol, t: ClSymbol)
    requires s.sym < |freq| && t.sym < |freq|
    ensures ClFreq(freq, [s, t]) == Tick(Tick(freq, s.sym), t.sym)
  {
    hide ClFreq;
    assert [s, t] == [s] + [t];
    ClFreqAppend(freq, [s], [t]);
    ClFreqOne(freq, s);
    ClFreqOne(Tick(freq, s.sym), t);
  }

  /** The symbols of one run. */
  lemma EmitSymbols(cur: nat, prev: int, count: nat)
    requires cur < 16
    ensures forall i :: 0 <= i < |Emit(cur, prev, count)| ==> Emit(cur, prev, count)[i].sym < BL_CODES
  {
  }

  /** The body of scan_tree for one run of `count` lengths `cur`. */
  method CountRun(bfc: array<nat>, cur: nat, prev: int, count: nat, minCount: nat)
    requires bfc.Length >= BL_CODES && cur < 16 && minCount == MinCount(cur, prev)
    modifies bfc
    ensures forall i :: 0 <= i < |Emit(cur, prev, count)| ==> Emit(cur, prev, count)[i].sym < BL_CODES
    ensures bfc[..] == ClFreq(old(bfc[..]), Emit(cur, prev, count))
  {
    hide ClFreq;
    EmitSymbols(cur, prev, count);
    ghost var f := bfc[..];
    if count < minCount {
      ClFreqPlain(f, cur, count);
      bfc[cur] := bfc[cur] + count;
    } else if cur != 0 {
      ghost var r := ClSymbol(16, count - if cur != prev then 4 else 3);
      if cur != prev {
        ClFreqTwo(f, ClSymbol(cur, 0), r);
        bfc[cur] := bfc[cur] + 1;
      } else {
        ClFreqOne(f, r);
      }
      bfc[16] := bfc[16] + 1;
    } else if count <= 10 {
      ClFreqOne(f, ClSymbol(17, count - 3));
      bfc[17] := bfc[17] + 1;
    } else {
      ClFreqOne(f, ClSymbol(18, count - 11));
      bfc[18] := bfc[18] + 1;
    }
  }

  /** Where the walk over the runs stands: `done` symbols are behind it, the rest is ahead. */
  ghost predicate Walking(lens: seq<nat>, n: nat, prev: int, count: nat, maxCount: nat, minCount: nat, done: seq<ClSymbol>) {
    && n <= |lens| && Symbols(lens) == done + Runs(lens, n, prev, count)
    && (forall i :: 0 <= i < |done| ==> done[i].sym < BL_CODES)
    && (n < |lens| ==> count < maxCount == MaxCount(lens[n], prev) && minCount == MinCount(lens[n], prev))
  }

  lemma WalkStarts(lens: seq<nat>, maxCount: nat, minCount: nat)
    requires lens != [] && maxCount == MaxCount(lens[0], -1) && minCount == MinCount(lens[0], -1)
    ensures Walking(lens, 0, -1, 0, maxCount, minCount, [])
  {
    assert [] + Runs(lens, 0, -1, 0) == Runs(lens, 0, -1, 0);
  }

  lemma WalkContinues(lens: seq<nat>, n: nat, prev: int, count: nat, maxCount: nat, minCount: nat, done: seq<ClSymbol>)
    requires Walking(lens, n, prev, count, maxCount, minCount, done) && n < |lens|
    requires count + 1 < maxCount && lens[n] == Next(lens, n) && lens[n] < NO_LENGTH
    ensures Walking(lens, n + 1, prev, count + 1, maxCount, minCount, done)
  {
    hide Emit, MaxCount, MinCount;
  }

  lemma WalkEmits(lens: seq<nat>, n: nat, prev: int, count: nat, maxCount: nat, minCount: nat, done: seq<ClSymbol>, maxCount': nat,
                  minCount': nat)
    requires Walking(lens, n, prev, count, maxCount, minCount, done) && n < |lens| && lens[n] < 16
    requires !(count + 1 < maxCount && lens[n] == Next(lens, n))
    requires n + 1 < |lens| ==> maxCount' == MaxCount(lens[n + 1], lens[n]) && minCount' == MinCount(lens[n + 1], lens[n])
    ensures count + 1 <= MaxCount(lens[n], prev) && minCount == MinCount(lens[n], prev)
    ensures Walking(lens, n + 1, lens[n], 0, maxCount', minCount', done + Emit(lens[n], prev, count + 1))
  {
    hide Emit;
    EmitSymbols(lens[n], prev, count + 1);
    var e, r := Emit(lens[n], prev, count + 1), Runs(lens, n + 1, lens[n], 0);
    assert done + (e + r) == done + e + r;
  }

  lemma WalkEnds(lens: seq<nat>, prev: int, count: nat, maxCount: nat, minCount: nat, done: seq<ClSymbol>)
    requires Walking(lens, |lens|, prev, count, maxCount, minCount, done)
    ensures done == Symbols(lens)
  {
    assert done + [] == done;
  }

  /** The tree up to `maxCode`. */
  ghost predicate Scannable(dl: seq<nat>, maxCode: nat) {
    maxCode + 1 < |dl| && forall i :: 0 <= i <= maxCode ==> dl[i] < 16
  }

  /** The length read ahead is the next one, or the guard. */
  lemma ReadAhead(dl: seq<nat>, maxCode: nat, n: nat)
    requires Scannable(dl, maxCode) && dl[maxCode + 1] == NO_LENGTH && n <= maxCode
    ensures dl[n + 1] == Next(dl[..maxCode + 1], n) && dl[n] == dl[..maxCode + 1][n]
  {
  }

  /** The new limits behind a run. */
  function Limits(next: nat, cur: nat): (r: (nat, nat))
    ensures r.0 == MaxCount(next, cur) && r.1 == MinCount(next, cur)
  {
    if next == 0 then (138, 3) else if cur == next then (6, 3) else (7, 4)
  }

  /** scan_tree */
  method ScanTree(dl: array<nat>, maxCode: nat, bfc: array<nat>)
    requires Scannable(dl[..], maxCode) && bfc.Length >= BL_CODES && bfc != dl
    modifies dl, bfc
    ensures dl[..] == old(dl[..])[maxCode + 1 := NO_LENGTH]
    ensures var ss := Symbols(dl[..][..maxCode + 1]);
            && (forall i :: 0 <= i < |ss| ==> ss[i].sym < BL_CODES)
            && bfc[..] == ClFreq(old(bfc[..]), ss)
  {
    hide Symbols, Walking, ClFreq, Emit, Next, MaxCount, MinCount, Limits;
    ghost var f, done: seq<ClSymbol> := bfc[..], [];
    dl[maxCode + 1] := NO_LENGTH;
    ghost var t := dl[..];
    ghost var lens := t[..maxCode + 1];
    var prevlen: int, nextlen, count := -1, dl[0], 0;
    var maxCount, minCount := 7, 4;
    if nextlen == 0 {
      maxCount, minCount := 138, 3;
    }
    FirstLimits(nextlen);
    WalkStarts(lens, maxCount, minCount);
    NothingCounted(f);
    for n := 0 to maxCode + 1
      invariant dl[..] == t && Walking(lens, n, prevlen, count, maxCount, minCount, done)
      invariant nextlen == t[n]
      invariant forall i :: 0 <= i < |done| ==> done[i].sym < BL_CODES
      invariant bfc[..] == ClFreq(f, done) && bfc.Length >= BL_CODES
    {
      ReadAhead(t, maxCode, n);
      var curlen := nextlen;
      nextlen := dl[n + 1];
      count := count + 1;
      if count < maxCount && curlen == nextlen {
        WalkContinues(lens, n, prevlen, count - 1, maxCount, minCount, done);
        continue;
      }
      var limits := Limits(nextlen, curlen);
      EndOfLens(lens, n);
      LimitsAre(nextlen, curlen);
      WalkEmits(lens, n, prevlen, count - 1, maxCount, minCount, done, limits.0, limits.1);
      CountRun(bfc, curlen, prevlen, count, minCount);
      ClFreqAppend(f, done, Emit(curlen, prevlen, count));
      done := done + Emit(curlen, prevlen, count);
      count, prevlen := 0, curlen;
      maxCount, minCount := limits.0, limits.1;
    }
    WalkEnds(lens, prevlen, count, maxCount, minCount, done);
  }

  lemma FirstLimits(next: nat)
    ensures MaxCount(next, -1) == (if next == 0 then 138 else 7) && MinCount(next, -1) == if next == 0 then 3 else 4
  {
  }

  lemma LimitsAre(next: nat, cur: nat)
    ensures Limits(next, cur).0 == MaxCount(next, cur) && Limits(next, cur).1 == MinCount(next, cur)
  {
  }

  lemma EndOfLens(lens: seq<nat>, n: nat)
    ensures n + 1 < |lens| ==> Next(lens, n) == lens[n + 1]
  {
  }

  lemma NothingCounted(f: seq<nat>)
    ensures ClFreq(f, []) == f
  {
  }

  // ---- Sending

  /** `codes` holds the reversed canonical codes for `lens`. */
  ghost predicate Coded(codes: seq<nat>, lens: seq<nat>) {
    && |lens| <= |codes| && Feasible(lens)
    && forall x :: 0 <= x < |lens| && lens[x] > 0 ==> codes[x] == Reverse(Code(lens, x), lens[x])
  }

  /** SEND_CODE */
  method SendCode(bw: BitWriter, codes: seq<nat>, lens: seq<nat>, c: nat)
    requires bw.Valid() && Coded(codes, lens) && c < |lens| && lens[c] > 0
    modifies bw, bw.outbuf
    ensures bw.Valid() && bw.Sent() == old(bw.Sent()) + Codeword(lens, c)
  {
    CodeBits(codes, lens, c);
    hide Coded, Bits, Reverse, Code, Codeword, Pow2, ByteBits;
    bw.SendBits(codes[c], lens[c]);
  }

  lemma CodeBits(codes: seq<nat>, lens: seq<nat>, c: nat)
    requires Coded(codes, lens) && c < |lens| && lens[c] > 0
    ensures c < |codes| && lens[c] <= MAX_BITS && codes[c] < Pow2(lens[c]) && Bits(codes[c], lens[c]) == Codeword(lens, c)
  {
    hide Bits, Reverse, Code, Pow2;
    BitsOfReverse(Code(lens, c), lens[c]);
  }

  lemma {:induction false} SymbolsBitsAppend(cl: seq<nat>, a: seq<ClSymbol>, b: seq<ClSymbol>)
    requires forall i :: 0 <= i < |a| ==> a[i].sym < |cl|
    requires forall i :: 0 <= i < |b| ==> b[i].sym < |cl|
    ensures forall i :: 0 <= i < |a + b| ==> (a + b)[i].sym < |cl|
    ensures SymbolsBits(cl, a + b) == SymbolsBits(cl, a) + SymbolsBits(cl, b)
    decreases |b|
  {
    hide SymbolBits;
    if b == [] {
      assert a + b == a && SymbolsBits(cl, a) + [] == SymbolsBits(cl, a);
    } else {
      var k := |b| - 1;
      SymbolsBitsAppend(cl, a, b[..k]);
      assert (a + b)[..|a| + k] == a + b[..k];
      var x, y, z := SymbolsBits(cl, a), SymbolsBits(cl, b[..k]), SymbolBits(cl, b[k]);
      assert (x + y) + z == x + (y + z);
    }
  }

  /** A symbol with its extra bits. */
  method SendSymbol(bw: BitWriter, codes: seq<nat>, cl: seq<nat>, s: ClSymbol)
    requires bw.Valid() && Coded(codes, cl) && GoodSymbol(s) && s.sym < |cl| && cl[s.sym] > 0
    modifies bw, bw.outbuf
    ensures bw.Valid() && bw.Sent() == old(bw.Sent()) + SymbolBits(cl, s)
  {
    hide Coded, Bits, Codeword, Pow2, ByteBits;
    ghost var sent, w, e := bw.Sent(), Codeword(cl, s.sym), Bits(s.extra, ClExtra(s.sym));
    SendCode(bw, codes, cl, s.sym);
    if ClExtra(s.sym) > 0 {
      bw.SendBits(s.extra, ClExtra(s.sym));
    } else {
      NoneIsNone(s.extra);
      assert w + e == w;
    }
    assert sent + w + e == sent + (w + e);
  }

  lemma OneSymbol(cl: seq<nat>, s: ClSymbol)
    requires s.sym < |cl|
    ensures SymbolsBits(cl, [s]) == SymbolBits(cl, s)
  {
    assert [s][..0] == [];
    assert [] + SymbolBits(cl, s) == SymbolBits(cl, s);
  }

  lemma TwoSymbols(cl: seq<nat>, s: ClSymbol, t: ClSymbol)
    requires s.sym < |cl| && t.sym < |cl|
    ensures SymbolsBits(cl, [s, t]) == SymbolBits(cl, s) + SymbolBits(cl, t)
  {
    assert [s, t][..1] == [s];
    OneSymbol(cl, s);
  }

  /** `count` times the same length. */
  method SendPlain(bw: BitWriter, codes: seq<nat>, cl: seq<nat>, cur: nat, count: nat)
    requires bw.Valid() && Coded(codes, cl) && cur < 16 && cur < |cl| && cl[cur] > 0 && count > 0
    modifies bw, bw.outbuf
    ensures bw.Valid() && bw.Sent() == old(bw.Sent()) + SymbolsBits(cl, seq(count, _ => ClSymbol(cur, 0)))
  {
    hide Coded, Codeword, ByteBits, Bits;
    ghost var sent := bw.Sent();
    var left := count;
    while left > 0
      invariant 0 <= left <= count && bw.Valid()
      invariant bw.Sent() == sent + SymbolsBits(cl, seq(count - left, _ => ClSymbol(cur, 0)))
    {
      SendCode(bw, codes, cl, cur);
      PlainNext(cl, cur, count - left, sent);
      left := left - 1;
    }
  }

  lemma PlainNext(cl: seq<nat>, cur: nat, n: nat, sent: seq<bool>)
    requires cur < 16 && cur < |cl|
    ensures sent + SymbolsBits(cl, seq(n + 1, _ => ClSymbol(cur, 0)))
         == sent + SymbolsBits(cl, seq(n, _ => ClSymbol(cur, 0))) + Codeword(cl, cur)
  {
    hide SymbolsBits, SymbolBits;
    var s := ClSymbol(cur, 0);
    var ss: seq<ClSymbol> := seq(n, _ => s);
    assert seq(n + 1, _ => s) == ss + [s];
    SymbolsBitsAppend(cl, ss, [s]);
    OneSymbol(cl, s);
    NoExtra(cl, s);
    var x, y := SymbolsBits(cl, ss), Codeword(cl, cur);
    assert sent + (x + y) == sent + x + y;
  }

  lemma NoExtra(cl: seq<nat>, s: ClSymbol)
    requires s.sym < |cl| && ClExtra(s.sym) == 0
    ensures SymbolBits(cl, s) == Codeword(cl, s.sym)
  {
    hide Codeword;
    NoneIsNone(s.extra);
    assert Codeword(cl, s.sym) + [] == Codeword(cl, s.sym);
  }

  /** The body of send_tree for one run. */
  method SendRun(bw: BitWriter, codes: seq<nat>, cl: seq<nat>, cur: nat, prev: int, count: nat, minCount: nat)
    requires bw.Valid() && Coded(codes, cl) && cur < 16 && 1 <= count <= MaxCount(cur, prev) && minCount == MinCount(cur, prev)
    requires ClCodable(cl, Emit(cur, prev, count))
    modifies bw, bw.outbuf
    ensures bw.Valid() && bw.Sent() == old(bw.Sent()) + SymbolsBits(cl, Emit(cur, prev, count))
  {
    hide Coded, SymbolBits, ByteBits, Bits, Pow2, SymbolsBits;
    ghost var e := Emit(cur, prev, count);
    if count < minCount {
      assert e[0] == ClSymbol(cur, 0);
      SendPlain(bw, codes, cl, cur, count);
    } else if cur != 0 {
      if cur != prev {
        ghost var sent := bw.Sent();
        var s, t := ClSymbol(cur, 0), ClSymbol(16, count - 4);
        assert e[0] == s && e[1] == t;
        SendSymbol(bw, codes, cl, s);
        SendSymbol(bw, codes, cl, t);
        TwoSymbols(cl, s, t);
        assert sent + SymbolBits(cl, s) + SymbolBits(cl, t) == sent + (SymbolBits(cl, s) + SymbolBits(cl, t));
      } else {
        assert e[0] == ClSymbol(16, count - 3);
        SendSymbol(bw, codes, cl, ClSymbol(16, count - 3));
        OneSymbol(cl, e[0]);
      }
    } else if count <= 10 {
      assert e[0] == ClSymbol(17, count - 3);
      SendSymbol(bw, codes, cl, ClSymbol(17, count - 3));
      OneSymbol(cl, e[0]);
    } else {
      assert e[0] == ClSymbol(18, count - 11);
      SendSymbol(bw, codes, cl, ClSymbol(18, count - 11));
      OneSymbol(cl, e[0]);
    }
  }

  lemma CodableParts(cl: seq<nat>, all: seq<ClSymbol>, a: seq<ClSymbol>, e: seq<ClSymbol>, more: seq<ClSymbol>)
    requires ClCodable(cl, all) && all == a + e + more
    ensures ClCodable(cl, e) && ClCodable(cl, a) && ClCodable(cl, a + e)
  {
    assert forall i :: 0 <= i < |a| ==> a[i] == all[i];
    assert forall i :: 0 <= i < |e| ==> e[i] == all[|a| + i];
    assert forall i :: 0 <= i < |a + e| ==> (a + e)[i] == all[i];
  }

  lemma WalkCodable(cl: seq<nat>, lens: seq<nat>, n: nat, prev: int, count: nat, maxCount: nat, minCount: nat, done: seq<ClSymbol>,
                    e: seq<ClSymbol>)
    requires Walking(lens, n, prev, count, maxCount, minCount, done + e) && ClCodable(cl, Symbols(lens))
    ensures ClCodable(cl, e) && ClCodable(cl, done) && ClCodable(cl, done + e)
  {
    CodableParts(cl, Symbols(lens), done, e, Runs(lens, n, prev, count));
  }

  /** send_tree */
  method SendTree(bw: BitWriter, tree: seq<nat>, maxCode: nat, codes: seq<nat>, cl: seq<nat>)
    requires bw.Valid() && Scannable(tree, maxCode) && tree[maxCode + 1] == NO_LENGTH && Coded(codes, cl)
    requires ClCodable(cl, Symbols(tree[..maxCode + 1]))
    modifies bw, bw.outbuf
    ensures bw.Valid() && bw.Sent() == old(bw.Sent()) + SymbolsBits(cl, Symbols(tree[..maxCode + 1]))
  {
    hide Symbols, Walking, Emit, Next, MaxCount, MinCount, Limits, Coded, SymbolsBits, ByteBits, Bits, GoodSymbol;
    ghost var sent, done: seq<ClSymbol> := bw.Sent(), [];
    ghost var lens := tree[..maxCode + 1];
    var prevlen: int, nextlen, count := -1, tree[0], 0;
    var maxCount, minCount := 7, 4;
    if nextlen == 0 {
      maxCount, minCount := 138, 3;
    }
    FirstLimits(nextlen);
    WalkStarts(lens, maxCount, minCount);
    NothingSent(cl, sent);
    for n := 0 to maxCode + 1
      invariant Walking(lens, n, prevlen, count, maxCount, minCount, done)
      invariant nextlen == tree[n] && bw.Valid() && ClCodable(cl, done)
      invariant bw.Sent() == sent + SymbolsBits(cl, done)
    {
      ReadAhead(tree, maxCode, n);
      var curlen := nextlen;
      nextlen := tree[n + 1];
      count := count + 1;
      if count < maxCount && curlen == nextlen {
        WalkContinues(lens, n, prevlen, count - 1, maxCount, minCount, done);
        continue;
      }
      var limits := Limits(nextlen, curlen);
      EndOfLens(lens, n);
      LimitsAre(nextlen, curlen);
      WalkEmits(lens, n, prevlen, count - 1, maxCount, minCount, done, limits.0, limits.1);
      ghost var e := Emit(curlen, prevlen, count);
      WalkCodable(cl, lens, n + 1, curlen, 0, limits.0, limits.1, done, e);
      SendRun(bw, codes, cl, curlen, prevlen, count, minCount);
      SymbolsBitsAppend(cl, done, e);
      assert sent + SymbolsBits(cl, done) + SymbolsBits(cl, e) == sent + (SymbolsBits(cl, done) + SymbolsBits(cl, e));
      done := done + e;
      count, prevlen := 0, curlen;
      maxCount, minCount := limits.0, limits.1;
    }
    WalkEnds(lens, prevlen, count, maxCount, minCount, done);
  }

  lemma NothingSent(cl: seq<nat>, sent: seq<bool>)
    ensures sent + SymbolsBits(cl, []) == sent
  {
  }
}
