/** gen_bitlen: the repair of code lengths that were clamped. Leaves are pushed down until the
    Kraft sum is exactly one, then the lengths are handed out again. */
module GzipRepair {
  import opened Arith
  import opened BitString
  import opened Canonical

  /** Kraft sum and number of codes of at most `m` bits, from the counts. */
  function KraftC(c: seq<nat>, m: nat): nat
    requires m < |c|
  {
    if m == 0 then 0 else 2 * KraftC(c, m - 1) + c[m]
  }

  function Total(c: seq<nat>, m: nat): nat
    requires m < |c|
  {
    if m == 0 then 0 else Total(c, m - 1) + c[m]
  }

  lemma {:induction false} KraftCAdd(c: seq<nat>, b: nat, v: nat, m: nat)
    requires 1 <= b < |c| && m < |c| && v >= c[b]
    ensures KraftC(c[b := v], m) == KraftC(c, m) + if b <= m then (v - c[b]) * Pow2(m - b) else 0
    ensures Total(c[b := v], m) == Total(c, m) + if b <= m then v - c[b] else 0
    decreases m
  {
    if m == 0 {
    } else {
      KraftCAdd(c, b, v, m - 1);
      if b < m {
        MulTwo(v - c[b], Pow2(m - 1 - b));
      } else if b == m {
        assert (v - c[b]) * 1 == v - c[b];
      }
    }
  }

  lemma AddOne(c: seq<nat>, b: nat, m: nat)
    requires 1 <= b <= m < |c|
    ensures KraftC(c[b := c[b] + 1], m) == KraftC(c, m) + Pow2(m - b) && Total(c[b := c[b] + 1], m) == Total(c, m) + 1
  {
    hide KraftC, Total, Pow2;
    KraftCAdd(c, b, c[b] + 1, m);
  }

  lemma AddTwo(c: seq<nat>, b: nat, m: nat)
    requires 1 <= b <= m < |c|
    ensures KraftC(c[b := c[b] + 2], m) == KraftC(c, m) + 2 * Pow2(m - b) && Total(c[b := c[b] + 2], m) == Total(c, m) + 2
  {
    hide KraftC, Total, Pow2;
    KraftCAdd(c, b, c[b] + 2, m);
  }

  lemma PowerSteps(n: nat)
    ensures n > 0 ==> Pow2(n) == 2 * Pow2(n - 1)
    ensures Pow2(0) == 1
  {
  }

  lemma {:induction false} OnlyLongest(c: seq<nat>, m: nat, top: nat)
    requires 1 <= top < |c| && m < top && forall b :: 1 <= b < top ==> c[b] == 0
    ensures KraftC(c, m) == 0 && Total(c, m) == 0
  {
    if m == 0 {
    } else {
      OnlyLongest(c, m - 1, top);
    }
  }

  /** The state of the repair loop: too much by half of `overflow`, `n` codes, and enough codes of
      maximal length. */
  ghost predicate Repairing(c: seq<nat>, max: nat, overflow: nat, n: nat) {
    && |c| == MAX_BITS + 1 && 1 <= max <= MAX_BITS && c[0] == 0
    && 2 * KraftC(c, max) == 2 * Pow2(max) + overflow && Total(c, max) == n <= Pow2(max)
    && 2 * c[max] > overflow
  }

  /** A shorter code to push down exists. */
  lemma ShorterExists(c: seq<nat>, max: nat, overflow: nat, n: nat)
    requires Repairing(c, max, overflow, n) && overflow > 0
    ensures exists b :: 1 <= b < max && c[b] > 0
  {
    if forall b :: 1 <= b < max ==> c[b] == 0 {
      OnlyLongest(c, max - 1, max);
      assert false;
    }
  }

  /** One round removes one unit and keeps the number of codes. */
  lemma RoundRepairs(c: seq<nat>, max: nat, overflow: nat, n: nat, bits: nat)
    requires Repairing(c, max, overflow, n) && overflow > 0 && 1 <= bits < max && c[bits] > 0
    ensures overflow >= 2
    ensures var c1 := c[bits := c[bits] - 1];
            var c2 := c1[bits + 1 := c1[bits + 1] + 2];
            c2[max] > 0 && Repairing(c2[max := c2[max] - 1], max, overflow - 2, n)
  {
    hide KraftC, Total, Pow2;
    var c1 := c[bits := c[bits] - 1];
    var c2 := c1[bits + 1 := c1[bits + 1] + 2];
    var c3 := c2[max := c2[max] - 1];
    AddOne(c1, bits, max);
    assert c1[bits := c1[bits] + 1] == c;
    AddTwo(c1, bits + 1, max);
    AddOne(c3, max, max);
    assert c3[max := c3[max] + 1] == c2;
    assert Pow2(max - bits) == 2 * Pow2(max - bits - 1) && Pow2(0) == 1 by { PowerSteps(max - bits); }
  }

  /** The loop that pushes leaves down. */
  method Repair(blCount: array<nat>, max: nat, overflow0: nat, ghost n: nat)
    requires blCount.Length == MAX_BITS + 1 && Repairing(blCount[..], max, overflow0, n) && overflow0 > 0
    modifies blCount
    ensures Repairing(blCount[..], max, 0, n)
    ensures forall b :: max < b <= MAX_BITS ==> blCount[b] == old(blCount[b])
  {
    hide Repairing;
    var overflow := overflow0;
    RepairSizes(blCount[..], max, overflow, n);
    while overflow > 0
      invariant Repairing(blCount[..], max, overflow, n)
      invariant forall b :: max < b <= MAX_BITS ==> blCount[b] == old(blCount[b])
    {
      overflow := PushDown(blCount, max, overflow, n);
    }
  }

  lemma RepairSizes(c: seq<nat>, max: nat, overflow: nat, n: nat)
    requires Repairing(c, max, overflow, n)
    ensures 1 <= max <= MAX_BITS
  {
  }

  /** One round of that loop. */
  method PushDown(blCount: array<nat>, max: nat, overflow0: nat, ghost n: nat) returns (overflow: nat)
    requires blCount.Length == MAX_BITS + 1 && Repairing(blCount[..], max, overflow0, n) && overflow0 > 0
    modifies blCount
    ensures overflow == overflow0 - 2 && Repairing(blCount[..], max, overflow, n)
    ensures forall b :: max < b <= MAX_BITS ==> blCount[b] == old(blCount[b])
  {
    hide Repairing;
    ghost var c := blCount[..];
    RepairSizes(c, max, overflow0, n);
    ShorterExists(c, max, overflow0, n);
    var bits := max - 1;
    while blCount[bits] == 0
      invariant 1 <= bits < max
      invariant exists b :: 1 <= b <= bits && c[b] > 0
      decreases bits
    {
      bits := bits - 1;
    }
    RoundRepairs(c, max, overflow0, n, bits);
    blCount[bits] := blCount[bits] - 1;
    blCount[bits + 1] := blCount[bits + 1] + 2;
    blCount[max] := blCount[max] - 1;
    overflow := overflow0 - 2;
    ghost var c1 := c[bits := c[bits] - 1];
    ghost var c2 := c1[bits + 1 := c1[bits + 1] + 2];
    assert blCount[..] == c2[max := c2[max] - 1];
  }

  lemma {:induction false} KraftCIsKraft(c: seq<nat>, lens: seq<nat>, m: nat)
    requires m < |c| && forall b :: 1 <= b <= m ==> c[b] == Count(lens, b)
    ensures KraftC(c, m) == Kraft(lens, m)
  {
    if m == 0 {
    } else {
      KraftCIsKraft(c, lens, m - 1);
    }
  }

  /** At most one length per symbol. */
  lemma {:induction false} TotalBound(c: seq<nat>, lens: seq<nat>, m: nat)
    requires m < |c| && forall b :: 1 <= b <= m ==> c[b] == Count(lens, b)
    ensures Total(c, m) <= |lens|
    decreases |lens|
  {
    if lens == [] {
      NoCodes(c, m);
    } else {
      var k := |lens| - 1;
      var l := lens[k];
      if 1 <= l <= m {
        var c' := c[l := c[l] - 1];
        TotalBound(c', lens[..k], m);
        KraftCAdd(c', l, c[l], m);
        assert c'[l := c[l]] == c;
      } else {
        TotalBound(c, lens[..k], m);
      }
    }
  }

  lemma {:induction false} NoCodes(c: seq<nat>, m: nat)
    requires m < |c| && forall b :: 1 <= b <= m ==> c[b] == 0
    ensures Total(c, m) == 0
  {
    if m == 0 {
    } else {
      NoCodes(c, m - 1);
    }
  }
}
