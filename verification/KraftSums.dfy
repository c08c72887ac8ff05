/** How counts, Kraft sums and weighted sums change when one code length changes. */
module KraftSums {
  import opened BitString
  import opened Canonical

  lemma {:induction false} CountUpdate(lens: seq<nat>, x: nat, v: nat, b: nat)
    requires x < |lens|
    ensures Count(lens[x := v], b) + (if lens[x] == b then 1 else 0) == Count(lens, b) + if v == b then 1 else 0
    decreases |lens|
  {
    var k := |lens| - 1;
    if x == k {
      assert lens[x := v][..k] == lens[..k];
    } else {
      assert lens[x := v][..k] == lens[..k][x := v];
      CountUpdate(lens[..k], x, v, b);
    }
  }

  lemma {:induction false} CountOfZeros(n: nat, b: nat)
    requires b > 0
    ensures Count(seq(n, _ => 0), b) == 0
    decreases n
  {
    if n == 0 {
    } else {
      assert seq(n, _ => 0)[..n - 1] == seq(n - 1, _ => 0);
      CountOfZeros(n - 1, b);
    }
  }

  lemma {:induction false} KraftOfZeros(n: nat, m: nat)
    ensures Kraft(seq(n, _ => 0), m) == 0
  {
    if m == 0 {
    } else {
      KraftOfZeros(n, m - 1);
      CountOfZeros(n, m);
    }
  }

  /** A new code of `v` bits adds 2^-v to the Kraft sum. */
  lemma {:induction false} KraftUpdate(lens: seq<nat>, x: nat, v: nat, m: nat)
    requires x < |lens| && lens[x] == 0 && v >= 1
    ensures Kraft(lens[x := v], m) == Kraft(lens, m) + if v <= m then Pow2(m - v) else 0
    decreases m
  {
    if m == 0 {
    } else {
      KraftUpdate(lens, x, v, m - 1);
      CountUpdate(lens, x, v, m);
      if v < m {
        assert Pow2(m - v) == 2 * Pow2(m - 1 - v);
      }
    }
  }

  /** Codes of at most `m` bits fill the code space of `m` bits iff they fill that of `k` bits. */
  lemma {:induction false} KraftScales(lens: seq<nat>, m: nat, k: nat)
    requires m <= k && (forall n :: 0 <= n < |lens| ==> lens[n] <= m) && Kraft(lens, m) == Pow2(m)
    ensures Kraft(lens, k) == Pow2(k)
    decreases k
  {
    if m >= k {
    } else {
      KraftScales(lens, m, k - 1);
      NoneLonger(lens, k);
    }
  }

  lemma {:induction false} NoneLonger(lens: seq<nat>, b: nat)
    requires forall n :: 0 <= n < |lens| ==> lens[n] < b
    ensures Count(lens, b) == 0
    decreases |lens|
  {
    if lens == [] {
    } else {
      NoneLonger(lens[..|lens| - 1], b);
    }
  }

  // ---- Sums

  function SeqSum(s: seq<nat>): nat {
    if s == [] then 0 else SeqSum(s[..|s| - 1]) + s[|s| - 1]
  }

  lemma {:induction false} SeqSumUpdate(s: seq<nat>, x: nat, v: nat)
    requires x < |s|
    ensures SeqSum(s[x := v]) + s[x] == SeqSum(s) + v
    decreases |s|
  {
    var k := |s| - 1;
    if x == k {
      assert s[x := v][..k] == s[..k];
    } else {
      assert s[x := v][..k] == s[..k][x := v];
      SeqSumUpdate(s[..k], x, v);
    }
  }

  lemma {:induction false} SeqSumZeros(s: seq<nat>)
    requires forall i :: 0 <= i < |s| ==> s[i] == 0
    ensures SeqSum(s) == 0
    decreases |s|
  {
    if s == [] {
    } else {
      SeqSumZeros(s[..|s| - 1]);
    }
  }

  /** The frequencies times the number of bits each symbol takes. */
  function Cost(freq: seq<nat>, bits: seq<nat>): nat
    requires |freq| == |bits|
  {
    if freq == [] then 0
    else Cost(freq[..|freq| - 1], bits[..|freq| - 1]) + freq[|freq| - 1] * bits[|freq| - 1]
  }

  lemma {:induction false} CostUpdate(freq: seq<nat>, bits: seq<nat>, x: nat, v: nat)
    requires |freq| == |bits| && x < |freq|
    ensures Cost(freq, bits[x := v]) + freq[x] * bits[x] == Cost(freq, bits) + freq[x] * v
    decreases |freq|
  {
    var k := |freq| - 1;
    if x == k {
      assert bits[x := v][..k] == bits[..k];
    } else {
      assert bits[x := v][..k] == bits[..k][x := v];
      CostUpdate(freq[..k], bits[..k], x, v);
    }
  }

  lemma {:induction false} CostOfZeros(freq: seq<nat>, bits: seq<nat>)
    requires |freq| == |bits| && forall i :: 0 <= i < |bits| ==> bits[i] == 0
    ensures Cost(freq, bits) == 0
    decreases |freq|
  {
    if freq == [] {
    } else {
      CostOfZeros(freq[..|freq| - 1], bits[..|freq| - 1]);
    }
  }

  lemma {:induction false} CostNoFreq(freq: seq<nat>, bits: seq<nat>)
    requires |freq| == |bits| && forall i :: 0 <= i < |freq| ==> freq[i] == 0
    ensures Cost(freq, bits) == 0
    decreases |freq|
  {
    if freq == [] {
    } else {
      CostNoFreq(freq[..|freq| - 1], bits[..|freq| - 1]);
    }
  }

  lemma {:induction false} CostFrequency(freq: seq<nat>, bits: seq<nat>, x: nat, v: nat)
    requires |freq| == |bits| && x < |freq|
    ensures Cost(freq[x := v], bits) + freq[x] * bits[x] == Cost(freq, bits) + v * bits[x]
    decreases |freq|
  {
    var k := |freq| - 1;
    if x == k {
      assert freq[x := v][..k] == freq[..k];
    } else {
      assert freq[x := v][..k] == freq[..k][x := v];
      CostFrequency(freq[..k], bits[..k], x, v);
    }
  }

  /** One more occurrence. */
  function Tick(freq: seq<nat>, x: nat): (r: seq<nat>)
    requires x < |freq|
    ensures |r| == |freq|
  {
    freq[x := freq[x] + 1]
  }

  lemma TickCost(freq: seq<nat>, bits: seq<nat>, x: nat)
    requires |freq| == |bits| && x < |freq|
    ensures Cost(Tick(freq, x), bits) == Cost(freq, bits) + bits[x]
  {
    hide Cost;
    CostFrequency(freq, bits, x, freq[x] + 1);
    assert (freq[x] + 1) * bits[x] == freq[x] * bits[x] + bits[x];
  }
}
