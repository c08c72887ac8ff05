/** Double hashing: a walk with a fixed decrement visits every slot of a table of prime size. */
module Probing {
  // ---- Primes

  ghost predicate Factors(a: nat, b: nat, n: nat) { a * b == n }

  ghost predicate Prime(p: nat) {
    p >= 2 && forall a: nat, b: nat :: Factors(a, b, p) ==> a == 1 || b == 1
  }

  /** No divisor up to the square root: a prime. */
  lemma TrialDivision(n: nat, k: nat)
    requires 2 <= n < (k + 1) * (k + 1) && forall d :: 2 <= d <= k ==> n % d != 0
    ensures Prime(n)
  {
    forall a: nat, b: nat | Factors(a, b, n) ensures a == 1 || b == 1 {
      if a <= k {
        SmallFactor(a, b, n, k);
      } else if b <= k {
        assert b * a == a * b;
        SmallFactor(b, a, n, k);
      } else {
        LargeProduct(a, b, k + 1);
        assert false;
      }
    }
  }

  lemma SmallFactor(a: nat, b: nat, n: nat, k: nat)
    requires n >= 2 && a * b == n && a <= k && forall d :: 2 <= d <= k ==> n % d != 0
    ensures a == 1
  {
    if a > 1 {
      Quotient(n, a, b);
      assert false;
    }
  }

  lemma LargeProduct(a: nat, b: nat, k: nat)
    requires a >= k && b >= k
    ensures a * b >= k * k
  {
    assert a * b >= k * b;
    assert k * b >= k * k;
  }

  /** A multiple of `p` is zero or at least `p` away from it. */
  lemma MultipleSize(x: int, p: nat)
    ensures x >= 1 ==> x * p >= p
    ensures x <= -1 ==> x * p <= 0 - p
  {
    if x >= 1 {
      assert x * p == (x - 1) * p + p;
      assert (x - 1) * p >= 0;
    } else if x <= -1 {
      assert x * p == (x + 1) * p - p;
      assert (x + 1) * p <= 0;
    }
  }

  /** A product leaves no remainder. */
  lemma Quotient(n: nat, a: nat, b: nat)
    requires a > 0 && a * b == n
    ensures n % a == 0
  {
    var q, r := Divide(n, a);
    assert (b - q) * a == a * b - a * q == r;
    MultipleSize(b - q, a);
    assert r == n % a;
  }

  lemma NoSmallDivisors1(d: nat)
    requires 2 <= d <= 127
    ensures 16381 % d != 0
  {
  }

  lemma NoSmallDivisors2(d: nat)
    requires 2 <= d <= 100
    ensures 10007 % d != 0
  {
  }

  lemma NoSmallDivisors3(d: nat)
    requires 2 <= d <= 90
    ensures 8191 % d != 0
  {
  }

  /** The sizes of the three tables. */
  lemma TableSizesArePrime()
    ensures Prime(16381) && Prime(10007) && Prime(8191)
  {
    hide Prime;
    forall d: nat | 2 <= d <= 127 ensures 16381 % d != 0 {
      NoSmallDivisors1(d);
    }
    forall d: nat | 2 <= d <= 100 ensures 10007 % d != 0 {
      NoSmallDivisors2(d);
    }
    forall d: nat | 2 <= d <= 90 ensures 8191 % d != 0 {
      NoSmallDivisors3(d);
    }
    TrialDivision(16381, 127);
    TrialDivision(10007, 100);
    TrialDivision(8191, 90);
  }

  lemma Divide(p: nat, a: nat) returns (s: nat, r: nat)
    requires a > 0
    ensures p == a * s + r && r < a && r == p % a
  {
    s, r := p / a, p % a;
  }

  lemma RemainderProduct(p: nat, a: nat, b: nat, q: nat, s: nat, r: nat)
    requires a * b == p * q && p == a * s + r && p > 0
    ensures b >= s * q && r * b == p * (b - s * q)
  {
    assert r * b == p * b - a * s * b;
    assert a * s * b == s * (a * b);
    assert s * (p * q) == p * (s * q);
    assert p * b - p * (s * q) == (b - s * q) * p;
    MultipleSize(b - s * q, p);
  }

  /** A prime that divides a product and is above one factor divides the other. */
  lemma {:induction false} Euclid(p: nat, a: nat, b: nat, q: nat) returns (t: nat)
    requires Prime(p) && 0 < a < p && a * b == p * q
    ensures b == p * t
    decreases a
  {
    if a == 1 {
      t := q;
    } else {
      var s, r := Divide(p, a);
      if r == 0 {
        assert Factors(a, s, p);
        assert false;
      }
      RemainderProduct(p, a, b, q, s, r);
      t := Euclid(p, r, b, b - s * q);
    }
  }

  // ---- The walk

  /** `probe_address -= probe_decrement`, and up by the size if that is negative. */
  function Next(at: nat, dec: nat, p: nat): (r: nat)
    requires at < p && 1 <= dec < p
    ensures r < p
  {
    if at < dec then at + p - dec else at - dec
  }

  function Walk(start: nat, dec: nat, p: nat, n: nat): (r: nat)
    requires start < p && 1 <= dec < p
    ensures r < p
    decreases n
  {
    if n == 0 then start else Next(Walk(start, dec, p, n - 1), dec, p)
  }

  lemma OneMore(n: nat, d: nat)
    ensures (n + 1) * d == n * d + d
  {
  }

  /** After `n` steps the walk is `n` decrements and some whole rounds away. */
  lemma {:induction false} WalkIs(start: nat, dec: nat, p: nat, n: nat) returns (turns: nat)
    requires start < p && 1 <= dec < p
    ensures Walk(start, dec, p, n) + n * dec == start + turns * p
    decreases n
  {
    if n == 0 {
      turns := 0;
    } else {
      var t := WalkIs(start, dec, p, n - 1);
      var before := Walk(start, dec, p, n - 1);
      OneMore(n - 1, dec);
      OneMore(t, p);
      turns := if before < dec then t + 1 else t;
    }
  }

  /** Less than `p` steps apart, two places of the walk are different. */
  lemma WalkDistinct(start: nat, dec: nat, p: nat, m: nat, n: nat)
    requires Prime(p) && start < p && 1 <= dec < p && m < n < p
    ensures Walk(start, dec, p, m) != Walk(start, dec, p, n)
  {
    hide Walk, Prime;
    if Walk(start, dec, p, m) == Walk(start, dec, p, n) {
      var s := WalkIs(start, dec, p, m);
      var t := WalkIs(start, dec, p, n);
      WholeTurns(n, m, dec, t, s, p);
      var u := Euclid(p, n - m, dec, t - s);
      NotMultiple(dec, p, u);
      assert false;
    }
  }

  lemma NotMultiple(dec: nat, p: nat, u: nat)
    requires 1 <= dec < p
    ensures dec != p * u
  {
    if u >= 1 {
      assert p * u >= p * 1;
    }
  }

  lemma WholeTurns(n: nat, m: nat, dec: nat, t: nat, s: nat, p: nat)
    requires m < n && n * dec - m * dec == t * p - s * p && p > 0
    ensures t >= s && (n - m) * dec == p * (t - s)
  {
    assert (n - m) * dec == n * dec - m * dec;
    assert (t - s) * p == t * p - s * p;
    MultipleSize(t - s, p);
    MultipleSize(n - m, dec);
  }

  // ---- Counting slots

  ghost function Below(n: nat): (r: set<nat>)
    ensures forall x: nat :: x in r <==> x < n
    ensures |r| == n
  {
    if n == 0 then {} else Below(n - 1) + {n - 1}
  }

  ghost function Visited(start: nat, dec: nat, p: nat, n: nat): (r: set<nat>)
    requires start < p && 1 <= dec < p
    ensures forall x :: x in r ==> x < p
    decreases n
  {
    if n == 0 then {} else Visited(start, dec, p, n - 1) + {Walk(start, dec, p, n - 1)}
  }

  lemma {:induction false} VisitedMember(start: nat, dec: nat, p: nat, n: nat, x: nat) returns (k: nat)
    requires start < p && 1 <= dec < p && x in Visited(start, dec, p, n)
    ensures k < n && Walk(start, dec, p, k) == x
    decreases n
  {
    k := n - 1;
    if x != Walk(start, dec, p, n - 1) {
      k := VisitedMember(start, dec, p, n - 1, x);
    }
  }

  lemma {:induction false} VisitedSize(start: nat, dec: nat, p: nat, n: nat)
    requires Prime(p) && start < p && 1 <= dec < p && n <= p
    ensures |Visited(start, dec, p, n)| == n
    decreases n
  {
    if n == 0 {
    } else {
      VisitedSize(start, dec, p, n - 1);
      var w := Walk(start, dec, p, n - 1);
      if w in Visited(start, dec, p, n - 1) {
        var k := VisitedMember(start, dec, p, n - 1, w);
        WalkDistinct(start, dec, p, k, n - 1);
        assert false;
      }
    }
  }

  lemma {:induction false} Smaller(a: set<nat>, b: set<nat>)
    requires a <= b
    ensures |a| <= |b|
    decreases |a|
  {
    if a == {} {
    } else {
      var x :| x in a;
      Smaller(a - {x}, b - {x});
    }
  }

  /** The walk visits every slot. */
  lemma EverySlot(start: nat, dec: nat, p: nat, slot: nat) returns (n: nat)
    requires Prime(p) && start < p && 1 <= dec < p && slot < p
    ensures n < p && Walk(start, dec, p, n) == slot
  {
    var v := Visited(start, dec, p, p);
    VisitedSize(start, dec, p, p);
    assert |Below(p) - {slot}| == p - 1;
    if slot !in v {
      Smaller(v, Below(p) - {slot});
      assert false;
    }
    n := VisitedMember(start, dec, p, p, slot);
  }
}
