/** Canonical Huffman codes, as section 3.2.2 of RFC 1951 defines them from code lengths, and
    how they are decoded. */
module Canonical {
  import opened Basics
  import opened Arith
  import opened BitString

  const MAX_BITS := 15

  /** How many symbols have length `b`. */
  function Count(lens: seq<nat>, b: nat): nat {
    if lens == [] then 0
    else Count(lens[..|lens| - 1], b) + if lens[|lens| - 1] == b then 1 else 0
  }

  /** The Kraft sum of the codes of at most `b` bits, in units of 2^-b. */
  function Kraft(lens: seq<nat>, b: nat): nat {
    if b == 0 then 0 else 2 * Kraft(lens, b - 1) + Count(lens, b)
  }

  /** A prefix code with these lengths exists. */
  ghost predicate Feasible(lens: seq<nat>) {
    (forall n :: 0 <= n < |lens| ==> lens[n] <= MAX_BITS) && Kraft(lens, MAX_BITS) <= Pow2(MAX_BITS)
  }

  /** The code uses up all bit strings. */
  ghost predicate Complete(lens: seq<nat>) {
    (forall n :: 0 <= n < |lens| ==> lens[n] <= MAX_BITS) && Kraft(lens, MAX_BITS) == Pow2(MAX_BITS)
  }

  /** The numerically first code of length `b`: the loop over `bl_count` of the RFC. */
  function FirstCode(lens: seq<nat>, b: nat): nat {
    if b <= 1 then 0 else 2 * (FirstCode(lens, b - 1) + Count(lens, b - 1))
  }

  /** Codes of one length are consecutive, in symbol order. */
  function Code(lens: seq<nat>, n: nat): nat
    requires n < |lens|
  {
    FirstCode(lens, lens[n]) + Count(lens[..n], lens[n])
  }

  function Codeword(lens: seq<nat>, n: nat): (r: seq<bool>)
    requires n < |lens|
    ensures |r| == lens[n]
  {
    Msb(Code(lens, n), lens[n])
  }

  /** The first symbol from `n` on whose codeword starts `bits`. */
  function Find(lens: seq<nat>, bits: seq<bool>, n: nat): (r: Option<nat>)
    ensures r.Some? ==> n <= r.value < |lens| && lens[r.value] > 0 && Codeword(lens, r.value) <= bits
    ensures r.None? ==> forall i :: n <= i < |lens| && lens[i] > 0 ==> !(Codeword(lens, i) <= bits)
    decreases |lens| - n
  {
    if n >= |lens| then None
    else if lens[n] > 0 && Codeword(lens, n) <= bits then Some(n)
    else Find(lens, bits, n + 1)
  }

  /** One symbol is read off `bits`. */
  function DecodeSymbol(lens: seq<nat>, bits: seq<bool>): (r: Option<(nat, seq<bool>)>)
    ensures r.Some? ==> r.value.0 < |lens| && |r.value.1| < |bits|
  {
    var n := Find(lens, bits, 0);
    if n.None? then None else Some((n.value, bits[lens[n.value]..]))
  }

  // ---- Lengths and sums

  lemma {:induction false} CountPrefix(lens: seq<nat>, n: nat, b: nat)
    requires n <= |lens|
    ensures Count(lens[..n], b) <= Count(lens, b)
    ensures n < |lens| && lens[n] == b ==> Count(lens[..n], b) < Count(lens, b)
    decreases |lens|
  {
    var m := |lens|;
    if n == m {
      assert lens[..n] == lens;
    } else {
      if n < m - 1 {
        assert lens[..m - 1][..n] == lens[..n];
        CountPrefix(lens[..m - 1], n, b);
      }
    }
  }

  lemma CountOrder(lens: seq<nat>, m: nat, n: nat, b: nat)
    requires m < n <= |lens| && lens[m] == b
    ensures Count(lens[..m], b) < Count(lens[..n], b)
  {
    assert lens[..n][..m] == lens[..m];
    CountPrefix(lens[..n], m, b);
  }

  lemma {:induction false} FirstIsKraft(lens: seq<nat>, b: nat)
    requires b >= 1
    ensures FirstCode(lens, b) == 2 * Kraft(lens, b - 1)
  {
    if b <= 1 {
    } else {
      FirstIsKraft(lens, b - 1);
    }
  }

  lemma {:induction false} KraftGrows(lens: seq<nat>, b: nat, c: nat)
    requires b <= c
    ensures Kraft(lens, b) * Pow2(c - b) <= Kraft(lens, c)
    decreases c
  {
    hide Count;
    if b < c {
      KraftGrows(lens, b, c - 1);
      var k, p := Kraft(lens, b), Pow2(c - 1 - b);
      assert Pow2(c - b) == 2 * p;
      assert k * (2 * p) == 2 * (k * p);
    } else {
      assert Kraft(lens, b) * 1 == Kraft(lens, b);
    }
  }

  lemma KraftBound(lens: seq<nat>, b: nat)
    requires Feasible(lens) && b <= MAX_BITS
    ensures Kraft(lens, b) <= Pow2(b)
  {
    hide Kraft, Count, Pow2;
    KraftGrows(lens, b, MAX_BITS);
    Pow2Add(b, MAX_BITS - b);
    MulCancel(Kraft(lens, b), Pow2(b), Pow2(MAX_BITS - b));
  }

  // ---- The codes

  /** Each code fits its length and lies in the block of its length. */
  lemma CodeFits(lens: seq<nat>, n: nat)
    requires Feasible(lens) && n < |lens| && lens[n] > 0
    ensures FirstCode(lens, lens[n]) <= Code(lens, n) < Kraft(lens, lens[n]) <= Pow2(lens[n])
  {
    FirstIsKraft(lens, lens[n]);
    CountPrefix(lens, n, lens[n]);
    KraftBound(lens, lens[n]);
  }

  lemma CodesAbove(lens: seq<nat>, m: nat, n: nat)
    requires Feasible(lens) && m < |lens| && n < |lens| && 0 < lens[m] < lens[n]
    ensures (Code(lens, m) + 1) * Pow2(lens[n] - lens[m]) <= Code(lens, n)
  {
    hide Feasible, Kraft, Count, FirstCode;
    CodeFits(lens, m);
    CodeFits(lens, n);
    FirstIsKraft(lens, lens[n]);
    var d := lens[n] - lens[m];
    KraftGrows(lens, lens[m], lens[n] - 1);
    var c, p := Code(lens, m) + 1, Pow2(d - 1);
    MulLe(c, Kraft(lens, lens[m]), p);
    assert Pow2(d) == 2 * p;
    assert c * (2 * p) == 2 * (c * p);
  }

  /** No codeword starts another one. */
  lemma PrefixFree(lens: seq<nat>, m: nat, n: nat)
    requires Feasible(lens) && m < |lens| && n < |lens| && m != n && lens[m] > 0 && lens[n] > 0
    ensures !(Codeword(lens, m) <= Codeword(lens, n))
  {
    hide Feasible, FirstCode, Kraft, Count;
    if lens[m] <= lens[n] && Codeword(lens, m) == Codeword(lens, n)[..lens[m]] {
      CodeFits(lens, m);
      CodeFits(lens, n);
      if lens[m] == lens[n] {
        assert Codeword(lens, n)[..lens[n]] == Codeword(lens, n);
        MsbInjective(Code(lens, m), Code(lens, n), lens[m]);
        SameLength(lens, m, n);
      } else {
        CodesAbove(lens, m, n);
        Quotient(Code(lens, n), lens[m], lens[n] - lens[m], Code(lens, m));
      }
      assert false;
    }
  }

  lemma SameLength(lens: seq<nat>, m: nat, n: nat)
    requires m < |lens| && n < |lens| && m != n && lens[m] == lens[n]
    ensures Code(lens, m) != Code(lens, n)
  {
    if m < n {
      CountOrder(lens, m, n, lens[m]);
    } else {
      CountOrder(lens, n, m, lens[m]);
    }
  }

  /** If the first `l` of the `l + d` bits of `v` are those of `c` then `v` lies in `c`'s block. */
  lemma Quotient(v: nat, l: nat, d: nat, c: nat)
    requires v < Pow2(l + d) && c < Pow2(l) && Msb(v, l + d)[..l] == Msb(c, l)
    ensures v < (c + 1) * Pow2(d)
  {
    hide Msb, Pow2;
    var p := Pow2(d);
    var x, y := v / p, v % p;
    DivMod(v, p);
    MsbConcat(x, l, y, d);
    assert (Msb(x, l) + Msb(y, d))[..l] == Msb(x, l);
    Pow2Add(l, d);
    if x >= Pow2(l) {
      MulLe(Pow2(l), x, p);
      assert false;
    }
    MsbInjective(x, c, l);
    assert (c + 1) * p == c * p + p;
  }

  /** Decoding reads back the symbol that was sent. */
  lemma DecodeSent(lens: seq<nat>, n: nat, rest: seq<bool>)
    requires Feasible(lens) && n < |lens| && lens[n] > 0
    ensures DecodeSymbol(lens, Codeword(lens, n) + rest) == Some((n, rest))
  {
    hide Codeword, Feasible;
    var bits := Codeword(lens, n) + rest;
    assert Codeword(lens, n) <= bits;
    var f := Find(lens, bits, 0);
    if f.Some? && f.value != n {
      var m := f.value;
      assert Codeword(lens, m) <= bits && Codeword(lens, n) <= bits;
      if lens[m] <= lens[n] {
        assert Codeword(lens, m) == bits[..lens[m]] == Codeword(lens, n)[..lens[m]];
        PrefixFree(lens, m, n);
      } else {
        assert Codeword(lens, n) == bits[..lens[n]] == Codeword(lens, m)[..lens[n]];
        PrefixFree(lens, n, m);
      }
    }
  }

  // ---- A complete code decodes everything

  lemma {:induction false} NthOfLength(lens: seq<nat>, b: nat, r: nat) returns (n: nat)
    requires r < Count(lens, b)
    ensures n < |lens| && lens[n] == b && Count(lens[..n], b) == r
  {
    var m := |lens| - 1;
    if lens[m] == b && r == Count(lens[..m], b) {
      n := m;
    } else {
      n := NthOfLength(lens[..m], b, r);
      assert lens[..m][..n] == lens[..n];
    }
  }

  /** In a complete code, some codeword starts every string of 15 bits. */
  lemma EveryStringDecodes(lens: seq<nat>, bits: seq<bool>)
    requires Complete(lens) && |bits| >= MAX_BITS
    ensures DecodeSymbol(lens, bits).Some?
  {
    assert bits[..0] == [];
    var n := Search(lens, bits, 0, 0);
  }

  lemma OneBitMore(bits: seq<bool>, l: nat, v: nat) returns (u: nat)
    requires l < |bits| && v < Pow2(l) && Msb(v, l) == bits[..l]
    ensures 2 * v <= u < Pow2(l + 1) && Msb(u, l + 1) == bits[..l + 1]
  {
    u := 2 * v + if bits[l] then 1 else 0;
    assert u / 2 == v && bits[..l + 1] == bits[..l] + [bits[l]];
  }

  lemma Search(lens: seq<nat>, bits: seq<bool>, l: nat, v: nat) returns (n: nat)
    requires Complete(lens) && l <= MAX_BITS <= |bits|
    requires v < Pow2(l) && Msb(v, l) == bits[..l] && v >= Kraft(lens, l)
    ensures n < |lens| && lens[n] > 0 && Codeword(lens, n) <= bits
    decreases MAX_BITS - l
  {
    hide Count, FirstCode, Msb;
    if l == MAX_BITS {
      assert false;
    }
    var u := OneBitMore(bits, l, v);
    if u < Kraft(lens, l + 1) {
      FirstIsKraft(lens, l + 1);
      n := NthOfLength(lens, l + 1, u - FirstCode(lens, l + 1));
    } else {
      n := Search(lens, bits, l + 1, u);
    }
  }
}
