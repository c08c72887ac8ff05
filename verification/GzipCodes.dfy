/** gen_codes: canonical codes from code lengths, stored bit-reversed. */
module GzipCodes {
  import opened BitString
  import opened Canonical
  import opened GzipBitlen

  /** What bi_reverse still makes of `res`, already shifted, and `len` more bits of `code`. */
  ghost function Pending(res: nat, code: nat, len: nat): nat
    requires len >= 1
  {
    res * Pow2(len - 1) + Reverse(code, len)
  }

  lemma PendingStep(res: nat, code: nat, len: nat)
    requires len >= 1
    ensures Pending(res, code, len)
         == if len == 1 then res + code % 2 else Pending(2 * (res + code % 2), code / 2, len - 1)
  {
    var r, p := res + code % 2, Pow2(len - 1);
    assert res * p + code % 2 * p == r * p;
    if len == 1 {
      assert r * 1 == r;
    } else {
      assert p == 2 * Pow2(len - 2);
      assert r * (2 * Pow2(len - 2)) == 2 * r * Pow2(len - 2);
    }
  }

  /** bi_reverse: the low `len` bits of `code` in reverse order. */
  method BiReverse(code0: nat, len0: nat) returns (res: nat)
    requires 1 <= len0 <= MAX_BITS
    ensures res == Reverse(code0, len0)
  {
    var code, len := code0, len0;
    res := 0;
    assert Pending(0, code, len) == Reverse(code, len);
    hide Pending, Reverse;
    while true
      invariant 1 <= len <= len0 && Pending(res, code, len) == Reverse(code0, len0)
      decreases len
    {
      PendingStep(res, code, len);
      res := res + code % 2;
      len := len - 1;
      if len <= 0 {
        return;
      }
      code := code / 2;
      res := 2 * res;
    }
  }

  lemma FirstCodeBound(lens: seq<nat>, b: nat)
    requires Feasible(lens) && 1 <= b <= MAX_BITS
    ensures FirstCode(lens, b) + Count(lens, b) <= Pow2(b) <= if b < MAX_BITS then 0x4000 else 0x8000
  {
    hide Feasible, Count, FirstCode;
    FirstIsKraft(lens, b);
    KraftBound(lens, b);
    Pow2Monotone(b, if b < MAX_BITS then 14 else 15);
    assert Pow2(14) == 0x4000;
    assert Pow2(15) == 2 * Pow2(14);
  }

  lemma FirstCodeStep(c: seq<nat>, lens: seq<nat>, b: nat, code: nat)
    requires Feasible(lens) && Tallied(c, lens) && 1 <= b <= MAX_BITS
    requires code == if b == 1 then 0 else FirstCode(lens, b - 1)
    ensures (code + c[b - 1]) * 2 % 0x10000 == FirstCode(lens, b)
  {
    hide Feasible, Count;
    if b > 1 {
      FirstCodeBound(lens, b - 1);
    }
  }

  /** The first loop: the first code of each length; no value overflows 16 bits. */
  method FirstCodes(blCount: array<nat>, nextCode: array<nat>, ghost lens: seq<nat>)
    requires blCount.Length == MAX_BITS + 1 == nextCode.Length && blCount != nextCode
    requires Feasible(lens) && Tallied(blCount[..], lens)
    modifies nextCode
    ensures forall b :: 1 <= b <= MAX_BITS ==> nextCode[b] == FirstCode(lens, b)
  {
    hide Feasible, Count, FirstCode, Tallied;
    var code := 0;
    for bits := 1 to MAX_BITS + 1
      invariant code == if bits == 1 then 0 else FirstCode(lens, bits - 1)
      invariant forall b :: 1 <= b < bits ==> nextCode[b] == FirstCode(lens, b)
    {
      FirstCodeStep(blCount[..], lens, bits, code);
      code := (code + blCount[bits - 1]) * 2 % 0x10000;
      nextCode[bits] := code;
    }
  }

  /** The codes of the symbols below `n` are set; `nextCode` holds the next code of each length. */
  ghost predicate Coding(lens: seq<nat>, n: nat, next: seq<nat>, fc: seq<nat>, old_: seq<nat>) {
    && n <= |lens| <= |fc| == |old_| && |next| == MAX_BITS + 1
    && (forall b :: 1 <= b <= MAX_BITS ==> next[b] == FirstCode(lens, b) + Count(lens[..n], b))
    && (forall x :: 0 <= x < n ==> fc[x] == if lens[x] == 0 then old_[x] else Reverse(Code(lens, x), lens[x]))
    && (forall x :: n <= x < |fc| ==> fc[x] == old_[x])
  }

  lemma CodingStep(lens: seq<nat>, n: nat, next: seq<nat>, fc: seq<nat>, old_: seq<nat>)
    requires Coding(lens, n, next, fc, old_) && n < |lens| && Feasible(lens)
    ensures lens[n] <= MAX_BITS && (lens[n] == 0 ==> Coding(lens, n + 1, next, fc, old_))
    ensures lens[n] > 0 ==> next[lens[n]] == Code(lens, n) < 0x8000
    ensures lens[n] > 0 ==>
              Coding(lens, n + 1, next[lens[n] := next[lens[n]] + 1], fc[n := Reverse(next[lens[n]], lens[n])], old_)
  {
    hide FirstCode, Reverse;
    var l := lens[n];
    assert lens[..n + 1][..n] == lens[..n];
    assert forall b :: Count(lens[..n + 1], b) == Count(lens[..n], b) + if l == b then 1 else 0;
    if l > 0 {
      CodeFits(lens, n);
      FirstCodeBound(lens, l);
    }
  }

  /** gen_codes: every symbol with a length gets its canonical code, reversed. */
  method GenCodes(fc: array<nat>, dl: array<nat>, blCount: array<nat>, maxCode: nat)
    requires fc != dl && fc != blCount && maxCode < fc.Length == dl.Length && blCount.Length == MAX_BITS + 1
    requires Feasible(dl[..][..maxCode + 1]) && Tallied(blCount[..], dl[..][..maxCode + 1])
    modifies fc
    ensures var lens := dl[..][..maxCode + 1];
            && (forall x :: 0 <= x <= maxCode && lens[x] > 0 ==> fc[x] == Reverse(Code(lens, x), lens[x]))
            && (forall x :: 0 <= x < fc.Length && (x > maxCode || lens[x] == 0) ==> fc[x] == old(fc[x]))
  {
    hide Feasible, Coding, Tallied, FirstCode, Count, Reverse;
    var nextCode := new nat[MAX_BITS + 1];
    ghost var lens, f := dl[..][..maxCode + 1], fc[..];
    FirstCodes(blCount, nextCode, lens);
    CodingStart(lens, nextCode[..], f);
    for n := 0 to maxCode + 1
      invariant Coding(lens, n, nextCode[..], fc[..], f)
    {
      CodingStep(lens, n, nextCode[..], fc[..], f);
      var len := dl[n];
      assert len == lens[n];
      if len != 0 {
        ghost var next, g := nextCode[..], fc[..];
        var r := BiReverse(nextCode[len], len);
        fc[n] := r;
        nextCode[len] := (nextCode[len] + 1) % 0x10000;
        assert nextCode[..] == next[len := next[len] + 1];
        assert fc[..] == g[n := r];
      }
    }
    CodingEnd(lens, nextCode[..], fc[..], f);
  }

  lemma CodingStart(lens: seq<nat>, next: seq<nat>, f: seq<nat>)
    requires |lens| <= |f| && |next| == MAX_BITS + 1 && forall b :: 1 <= b <= MAX_BITS ==> next[b] == FirstCode(lens, b)
    ensures Coding(lens, 0, next, f, f)
  {
  }

  lemma CodingEnd(lens: seq<nat>, next: seq<nat>, fc: seq<nat>, f: seq<nat>)
    requires Coding(lens, |lens|, next, fc, f)
    ensures |fc| == |f| && forall x :: 0 <= x < |lens| && lens[x] > 0 ==> fc[x] == Reverse(Code(lens, x), lens[x])
    ensures forall x :: 0 <= x < |fc| && (x >= |lens| || lens[x] == 0) ==> fc[x] == f[x]
  {
  }
}
