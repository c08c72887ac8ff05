/** ct_init: the tables from lengths and distances to codes, and the static trees. */
module GzipTables {
  import opened BitString
  import opened Canonical
  import opened Rfc1951
  import opened TokenCode
  import opened GzipBitlen
  import opened GzipCodes

  const LENGTH_CODES := 29

  /** `CodeBelow` finds the only entry whose range holds `v`. */
  lemma {:induction false} CodeIs(bases: seq<nat>, v: nat, c: nat, k: nat)
    requires k <= c < |bases| && bases[0] <= bases[k] <= v && (k < c ==> v < bases[k + 1])
    requires forall i, j :: 0 <= i < j < |bases| ==> bases[i] < bases[j]
    ensures CodeBelow(bases, v, c) == k
    decreases c
  {
    if k >= c {
    } else {
      CodeIs(bases, v, c - 1, k);
    }
  }

  lemma LengthCodeIs(len: nat, k: nat)
    requires k < 29 && LENGTH_BASE[k] <= len && (k < 28 ==> len < LENGTH_BASE[k + 1])
    ensures 3 <= len && LengthCode(len) == k
  {
    hide CodeBelow;
    CodeIs(LENGTH_BASE, len, 28, k);
  }

  lemma DistCodeIs(dist: nat, k: nat)
    requires k < 30 && DIST_BASE[k] <= dist && (k < 29 ==> dist < DIST_BASE[k + 1])
    ensures 1 <= dist && DistCode(dist) == k
  {
    hide CodeBelow;
    CodeIs(DIST_BASE, dist, 29, k);
  }

  lemma LengthBases()
    ensures |LENGTH_BASE| == |LENGTH_EXTRA| == 29 && LENGTH_BASE[0] == 3 && LENGTH_BASE[28] == 258
    ensures forall c :: 0 <= c < 29 ==> 3 <= LENGTH_BASE[c] <= 258
  {
  }

  lemma DistanceBases()
    ensures |DIST_BASE| == |DIST_EXTRA| == 30 && DIST_BASE[0] == 1 && DIST_BASE[16] == 257
    ensures forall c :: 0 <= c < 30 ==> 1 <= DIST_BASE[c] <= 24577
  {
  }

  /** The first loops: a code and the base of its range for every match length. */
  method LengthTables() returns (lengthCode: seq<nat>, baseLength: seq<nat>)
    ensures |lengthCode| == 256 && forall lc :: 0 <= lc < 256 ==> lengthCode[lc] == LengthCode(lc + 3)
    ensures |baseLength| == LENGTH_CODES && forall c :: 0 <= c < 28 ==> baseLength[c] == LENGTH_BASE[c] - 3
  {
    hide LengthCode, Pow2, LENGTH_BASE, LENGTH_EXTRA;
    LengthBases();
    var codes, bases := new nat[256], new nat[LENGTH_CODES](_ => 0);
    var length := 0;
    for code := 0 to LENGTH_CODES - 1
      invariant length == if code < 28 then LENGTH_BASE[code] - 3 else 256
      invariant forall c :: 0 <= c < code ==> bases[c] == LENGTH_BASE[c] - 3
      invariant forall lc :: 0 <= lc < length && lc < 255 ==> codes[lc] == LengthCode(lc + 3)
    {
      LengthTable(code);
      LengthEnd(code);
      bases[code] := length;
      for n := 0 to Pow2(LENGTH_EXTRA[code])
        invariant length == LENGTH_BASE[code] - 3 + n
        invariant forall c :: 0 <= c <= code ==> bases[c] == LENGTH_BASE[c] - 3
        invariant forall lc :: 0 <= lc < length && lc < 255 ==> codes[lc] == LengthCode(lc + 3)
      {
        if length < 255 {
          LengthCodeIs(length + 3, code);
        }
        codes[length] := code;
        length := length + 1;
      }
    }
    codes[length - 1] := 28;
    LengthCodeIs(258, 28);
    lengthCode, baseLength := codes[..], bases[..];
  }

  /** Where the range of a length code ends. */
  lemma LengthEnd(c: nat)
    requires c < 28
    ensures 3 <= LENGTH_BASE[c] && LENGTH_BASE[c] - 3 + Pow2(LENGTH_EXTRA[c]) == if c < 27 then LENGTH_BASE[c + 1] - 3 else 256
  {
    hide Pow2, LENGTH_EXTRA;
    LengthTable(c);
  }

  /** D_CODE */
  function DCode(distCode: seq<nat>, dist: nat): nat
    requires |distCode| == 512 && dist < 0x8000
  {
    if dist < 256 then distCode[dist] else distCode[256 + dist / 128]
  }

  /** `distCode` holds the codes of the distances up to 256 and of the blocks of 128 distances below `blocks`. */
  ghost predicate DistCodes(codes: seq<nat>, dist: nat, blocks: nat) {
    && |codes| == 512 && dist <= 256 && blocks <= 256
    && (forall d :: 0 <= d < dist ==> codes[d] == DistCode(d + 1))
    && (forall b :: 2 <= b < blocks ==> codes[256 + b] == DistCode(128 * b + 1))
  }

  ghost predicate DistBases(bases: seq<nat>, n: nat) {
    n <= |bases| == D_CODES && forall c :: 0 <= c < n ==> bases[c] == DIST_BASE[c] - 1
  }

  lemma DistSmall(c: nat)
    requires c < 30
    ensures DIST_BASE[c] >= 1
    ensures c < 16 ==> DIST_BASE[c] - 1 + Pow2(DIST_EXTRA[c]) == DIST_BASE[c + 1] - 1 && DIST_BASE[16] == 257
    ensures c < 16 ==> c + 1 <= 16 && DIST_BASE[c + 1] <= 257
  {
    hide Pow2;
    DistTable(c);
  }

  /** From code 16 on the ranges are made of blocks of 128. */
  lemma DistLarge(c: nat)
    requires 16 <= c < 30
    ensures DIST_EXTRA[c] >= 7 && (DIST_BASE[c] - 1) % 128 == 0 && DIST_BASE[c] >= 257
    ensures (DIST_BASE[c] - 1) / 128 + Pow2(DIST_EXTRA[c] - 7) == (if c < 29 then (DIST_BASE[c + 1] - 1) / 128 else 256)
  {
    hide Pow2;
    SmallPowers();
  }

  method DistTables() returns (distCode: seq<nat>, baseDist: seq<nat>)
    ensures |distCode| == 512 && forall d :: 0 <= d < 0x8000 ==> DCode(distCode, d) == DistCode(d + 1)
    ensures |baseDist| == D_CODES && forall c :: 0 <= c < D_CODES ==> baseDist[c] == DIST_BASE[c] - 1
  {
    hide DistCode, Pow2, DIST_BASE, DIST_EXTRA;
    DistanceBases();
    var codes, bases := new nat[512](_ => 0), new nat[D_CODES](_ => 0);
    var dist := 0;
    for code := 0 to 16
      invariant dist == DIST_BASE[code] - 1
      invariant DistCodes(codes[..], dist, 0) && DistBases(bases[..], code)
    {
      dist := SmallRange(codes, bases, code, dist);
    }
    dist := dist / 128;
    for code := 16 to D_CODES
      invariant dist == (if code < 30 then (DIST_BASE[code] - 1) / 128 else 256)
      invariant DistCodes(codes[..], 256, dist) && DistBases(bases[..], code)
    {
      dist := LargeRange(codes, bases, code, dist);
    }
    distCode, baseDist := codes[..], bases[..];
    forall d | 0 <= d < 0x8000 ensures DCode(distCode, d) == DistCode(d + 1) {
      if d >= 256 {
        SameBlock(d);
      }
    }
  }

  method SmallRange(codes: array<nat>, bases: array<nat>, code: nat, dist0: nat) returns (dist: nat)
    requires codes != bases && code < 16 && dist0 == DIST_BASE[code] - 1
    requires DistCodes(codes[..], dist0, 0) && DistBases(bases[..], code)
    modifies codes, bases
    ensures dist == DIST_BASE[code + 1] - 1 && DistCodes(codes[..], dist, 0) && DistBases(bases[..], code + 1)
  {
    hide DistCode, Pow2, DIST_BASE, DIST_EXTRA;
    DistanceBases();
    DistSmall(code);
    dist := dist0;
    bases[code] := dist;
    for n := 0 to Pow2(DIST_EXTRA[code])
      invariant dist == dist0 + n && DistCodes(codes[..], dist, 0)
      modifies codes
    {
      DistCodeIs(dist + 1, code);
      codes[dist] := code;
      dist := dist + 1;
    }
  }

  method LargeRange(codes: array<nat>, bases: array<nat>, code: nat, dist0: nat) returns (dist: nat)
    requires codes != bases && 16 <= code < D_CODES && dist0 == (DIST_BASE[code] - 1) / 128
    requires DistCodes(codes[..], 256, dist0) && DistBases(bases[..], code)
    modifies codes, bases
    ensures dist == if code < 29 then (DIST_BASE[code + 1] - 1) / 128 else 256
    ensures DistCodes(codes[..], 256, dist) && DistBases(bases[..], code + 1)
  {
    hide DistCode, Pow2, DIST_BASE, DIST_EXTRA;
    DistanceBases();
    DistLarge(code);
    if code < 29 {
      DistLarge(code + 1);
    }
    dist := dist0;
    bases[code] := dist * 128;
    ghost var end := if code < 29 then (DIST_BASE[code + 1] - 1) / 128 else 256;
    assert end <= 256;
    for n := 0 to Pow2(DIST_EXTRA[code] - 7)
      invariant dist == dist0 + n && DistCodes(codes[..], 256, dist)
      modifies codes
    {
      DistCodeIs(128 * dist + 1, code);
      codes[256 + dist] := code;
      dist := dist + 1;
    }
  }

  /** All distances of one block of 128 have the same code. */
  lemma SameBlock(d: nat)
    requires 256 <= d < 0x8000
    ensures DistCode(d + 1) == DistCode(128 * (d / 128) + 1)
  {
    hide CodeBelow, DIST_BASE, DIST_EXTRA, Pow2;
    DistanceBases();
    var c := DistCode(d + 1);
    if c < 16 {
      DistBelow(c);
      assert false;
    }
    DistLarge(c);
    if c < 29 {
      DistLarge(c + 1);
    }
    DistCodeIs(128 * (d / 128) + 1, c);
  }

  lemma DistBelow(c: nat)
    requires c < 16
    ensures DIST_BASE[c + 1] <= 257
  {
  }

  // ---- The static trees

  /** One loop of ct_init over a range of static lengths. */
  method SetLengths(dl: array<nat>, blCount: array<nat>, from: nat, to: nat, len: nat)
    requires dl != blCount && from <= to <= dl.Length && blCount.Length == MAX_BITS + 1 && 1 <= len <= MAX_BITS
    requires Tallied(blCount[..], dl[..][..from])
    modifies dl, blCount
    ensures Tallied(blCount[..], dl[..][..to]) && dl[..] == old(dl[..][..from]) + Repeat(len, to - from) + old(dl[..][to..])
  {
    hide Tallied;
    var n := from;
    while n < to
      invariant from <= n <= to
      invariant Tallied(blCount[..], dl[..][..n])
      invariant dl[..] == old(dl[..][..from]) + Repeat(len, n - from) + old(dl[..][n..])
    {
      ghost var d, c := dl[..], blCount[..];
      dl[n] := len;
      blCount[len] := blCount[len] + 1;
      assert dl[..][..n + 1] == d[..n] + [len];
      assert blCount[..] == c[len := c[len] + 1];
      TalliedAppend(c, d[..n], len);
      n := n + 1;
    }
  }

  lemma TalliedAppend(c: seq<nat>, lens: seq<nat>, v: nat)
    requires Tallied(c, lens) && 1 <= v <= MAX_BITS
    ensures Tallied(c[v := c[v] + 1], lens + [v])
  {
    assert (lens + [v])[..|lens|] == lens;
  }

  lemma {:induction false} CountRepeat(lens: seq<nat>, v: nat, n: nat, b: nat)
    ensures Count(lens + Repeat(v, n), b) == Count(lens, b) + if v == b then n else 0
    decreases n
  {
    if n == 0 {
      assert lens + Repeat(v, 0) == lens;
    } else {
      CountRepeat(lens, v, n - 1, b);
      assert (lens + Repeat(v, n))[..|lens| + n - 1] == lens + Repeat(v, n - 1);
    }
  }

  lemma FixedCounts(b: nat)
    ensures Count(FixedLengths(), b) == if b == 7 then 24 else if b == 8 then 152 else if b == 9 then 112 else 0
    ensures Count(FixedDistances(), b) == if b == 5 then 30 else 0
  {
    var e: seq<nat> := [];
    CountRepeat(e, 8, 144, b);
    CountRepeat(Repeat(8, 144), 9, 112, b);
    CountRepeat(Repeat(8, 144) + Repeat(9, 112), 7, 24, b);
    CountRepeat(Repeat(8, 144) + Repeat(9, 112) + Repeat(7, 24), 8, 8, b);
    FixedParts();
    assert e + Repeat(8, 144) == Repeat(8, 144);
    CountRepeat(e, 5, 30, b);
    assert e + Repeat(5, 30) == FixedDistances();
  }

  lemma FixedParts()
    ensures FixedLengths() == Repeat(8, 144) + Repeat(9, 112) + Repeat(7, 24) + Repeat(8, 8)
  {
  }

  /** The static literal code is complete, the static distance code leaves two codes unused. */
  lemma FixedFeasible()
    ensures Complete(FixedLengths()) && Feasible(FixedLengths()) && Feasible(FixedDistances())
  {
    hide Count, FixedLengths, FixedDistances, Kraft, Pow2;
    forall b: nat ensures Count(FixedLengths(), b) == if b == 7 then 24 else if b == 8 then 152 else if b == 9 then 112 else 0
    {
      FixedCounts(b);
    }
    forall b: nat ensures Count(FixedDistances(), b) == if b == 5 then 30 else 0 {
      FixedCounts(b);
    }
    FixedKraft(FixedLengths(), FixedDistances());
    FixedRange();
  }

  lemma FixedRange()
    ensures forall n :: 0 <= n < 288 ==> 7 <= FixedLengths()[n] <= 9
    ensures forall n :: 0 <= n < 30 ==> FixedDistances()[n] == 5
  {
  }

  lemma FixedKraft(l: seq<nat>, d: seq<nat>)
    requires forall b: nat :: Count(l, b) == if b == 7 then 24 else if b == 8 then 152 else if b == 9 then 112 else 0
    requires forall b: nat :: Count(d, b) == if b == 5 then 30 else 0
    ensures Kraft(l, 15) == Pow2(15) && Kraft(d, 15) <= Pow2(15)
  {
    hide Count, Pow2;
    SmallPowers();
    Doubles(l, 0, 6);
    assert Kraft(l, 7) == 24;
    assert Kraft(l, 8) == 200;
    assert Kraft(l, 9) == 512;
    Doubles(l, 9, 6);
    Doubles(d, 0, 4);
    assert Kraft(d, 5) == 30;
    Doubles(d, 5, 10);
  }

  lemma {:induction false} Doubles(lens: seq<nat>, b: nat, n: nat)
    requires forall c :: b < c <= b + n ==> Count(lens, c) == 0
    ensures Kraft(lens, b + n) == Kraft(lens, b) * Pow2(n)
    decreases n
  {
    hide Count;
    if n > 0 {
      Doubles(lens, b, n - 1);
      var k, p := Kraft(lens, b), Pow2(n - 1);
      assert k * (2 * p) == 2 * (k * p);
    } else {
      assert Kraft(lens, b) * 1 == Kraft(lens, b);
    }
  }

  lemma {:induction false} CountFives(n: nat)
    requires n <= D_CODES
    ensures Count(FixedDistances()[..n], 5) == n
  {
    if n == 0 {
    } else {
      CountFives(n - 1);
      assert FixedDistances()[..n][..n - 1] == FixedDistances()[..n - 1];
    }
  }

  lemma FixedDistanceCode(n: nat)
    requires n < D_CODES
    ensures Code(FixedDistances(), n) == n
  {
    hide Count, FixedDistances;
    forall b: nat ensures Count(FixedDistances(), b) == if b == 5 then 30 else 0 {
      FixedCounts(b);
    }
    FixedRange();
    CountFives(n);
    assert FirstCode(FixedDistances(), 5) == 0;
  }

  /** The static literal tree of ct_init. */
  method StaticLiterals(blCount: array<nat>) returns (lc: seq<nat>, ll: seq<nat>)
    requires blCount.Length == MAX_BITS + 1 && forall b :: 0 <= b <= MAX_BITS ==> blCount[b] == 0
    modifies blCount
    ensures ll == FixedLengths() && |lc| == L_CODES + 2
    ensures forall n :: 0 <= n < L_CODES + 2 ==> lc[n] == Reverse(Code(FixedLengths(), n), FixedLengths()[n])
  {
    hide Tallied, Complete, Feasible, Code, Reverse, FixedLengths, FixedDistances;
    var fc, lens := new nat[L_CODES + 2](_ => 0), new nat[L_CODES + 2](_ => 0);
    NoLengths(blCount[..]);
    assert lens[..][..0] == [];
    SetLengths(lens, blCount, 0, 144, 8);
    SetLengths(lens, blCount, 144, 256, 9);
    SetLengths(lens, blCount, 256, 280, 7);
    SetLengths(lens, blCount, 280, 288, 8);
    FixedParts();
    assert lens[..] == FixedLengths();
    assert lens[..][..288] == lens[..];
    FixedFeasible();
    FixedRange();
    GenCodes(fc, lens, blCount, L_CODES + 1);
    lc, ll := fc[..], lens[..];
  }

  /** The static distance tree of ct_init. */
  method StaticDistances() returns (dc: seq<nat>, dl: seq<nat>)
    ensures dl == FixedDistances() && |dc| == D_CODES
    ensures forall n :: 0 <= n < D_CODES ==> dc[n] == Reverse(Code(FixedDistances(), n), 5)
  {
    hide Code, Reverse;
    var c, d := new nat[D_CODES], new nat[D_CODES];
    for n := 0 to D_CODES
      invariant forall i :: 0 <= i < n ==> d[i] == 5 && c[i] == Reverse(Code(FixedDistances(), i), 5)
    {
      FixedDistanceCode(n);
      d[n] := 5;
      c[n] := BiReverse(n, 5);
    }
    dc, dl := c[..], d[..];
    assert dl == FixedDistances();
  }

  lemma NoLengths(c: seq<nat>)
    requires |c| == MAX_BITS + 1 && forall b :: 0 <= b <= MAX_BITS ==> c[b] == 0
    ensures Tallied(c, [])
  {
  }
}
