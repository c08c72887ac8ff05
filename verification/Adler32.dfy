/** lzo_adler32: the Adler-32 checksum with the reduction put off for up to 5552 bytes. */
module Adler32 {
  import opened Basics
  import opened Probing

  const LZO_BASE := 65521
  const LZO_NMAX := 5552
  const TWO32 := 0x1_0000_0000

  type uint32 = x: nat | x < TWO32

  // ---- Section 8.2 of RFC 1950

  /** Both sums, reduced after every byte. */
  function Sums(s1: nat, s2: nat, buf: seq<octet>): (nat, nat) {
    if buf == [] then (s1 % LZO_BASE, s2 % LZO_BASE) else Next(Sums(s1, s2, buf[..|buf| - 1]), buf[|buf| - 1])
  }

  function Next(s: (nat, nat), b: octet): (nat, nat) {
    var c := (s.0 + b) % LZO_BASE; (c, (s.1 + c) % LZO_BASE)
  }

  function Low(adler: uint32): nat { adler % 0x10000 }
  function High(adler: uint32): nat { adler / 0x10000 % 0x10000 }

  function Pack(s: (nat, nat)): (r: nat) { s.1 * 0x10000 + s.0 }

  /** The checksum: a null pointer gives the initial value, and nothing changes for no bytes. */
  function Checksum(adler: uint32, buf: Option<seq<octet>>): nat {
    if buf.None? then 1 else if buf.value == [] then adler else Pack(Sums(Low(adler), High(adler), buf.value))
  }

  // ---- The sums without steps

  lemma NoDivisor(d: nat)
    requires 2 <= d <= 255
    ensures LZO_BASE % d != 0
  {
  }

  /** The modulus is the largest prime below 2^16. */
  lemma LargestPrime(p: nat)
    requires LZO_BASE <= p < 0x10000
    ensures Prime(p) <==> p == LZO_BASE
  {
    hide Prime;
    if p == LZO_BASE {
      forall d | 2 <= d <= 255 ensures LZO_BASE % d != 0 {
        NoDivisor(d);
      }
      TrialDivision(LZO_BASE, 255);
    } else {
      var a: nat := if p % 2 == 0 then 2 else if p % 3 == 0 then 3 else if p % 5 == 0 then 5 else if p == 65527 then 7 else if p == 65531 then 19 else 13;
      NotPrime(a, p / a, p);
    }
  }

  lemma NotPrime(a: nat, b: nat, n: nat)
    requires a > 1 && b > 1 && a * b == n
    ensures !Prime(n)
  {
    assert Factors(a, b, n);
  }

  function Total(buf: seq<octet>): nat { if buf == [] then 0 else buf[0] + Total(buf[1..]) }

  /** Every byte counts as often as there are bytes from it on. */
  function Weighted(buf: seq<octet>): nat { if buf == [] then 0 else |buf| * buf[0] + Weighted(buf[1..]) }

  lemma {:induction false} OneByteMore(buf: seq<octet>, b: octet)
    ensures Total(buf + [b]) == Total(buf) + b && Weighted(buf + [b]) == Weighted(buf) + Total(buf) + b
  {
    if buf == [] {
      assert [b][1..] == [];
    } else {
      assert (buf + [b])[1..] == buf[1..] + [b];
      OneByteMore(buf[1..], b);
      assert |buf + [b]| * buf[0] == |buf| * buf[0] + buf[0];
    }
  }

  /** The second sum: the first one as it was, once for every byte, and the bytes with their weights. */
  function Second(s1: nat, s2: nat, buf: seq<octet>): nat { s2 + |buf| * s1 + Weighted(buf) }

  lemma SecondMore(s1: nat, s2: nat, buf: seq<octet>, b: octet)
    ensures Second(s1, s2, buf + [b]) == Second(s1, s2, buf) + s1 + Total(buf + [b])
  {
    OneByteMore(buf, b);
    hide Weighted, Total;
    assert |buf + [b]| * s1 == |buf| * s1 + s1;
  }

  /** The sum of all bytes, and the sum of all sums on the way, reduced only once. */
  lemma {:induction false} SumsWeighted(s1: nat, s2: nat, buf: seq<octet>)
    ensures Sums(s1, s2, buf) == ((s1 + Total(buf)) % LZO_BASE, Second(s1, s2, buf) % LZO_BASE)
  {
    if buf != [] {
      hide Sums, Weighted, Total, Second;
      var k := |buf| - 1;
      SumsWeighted(s1, s2, buf[..k]);
      OneByteMore(buf[..k], buf[k]);
      SecondMore(s1, s2, buf[..k], buf[k]);
      assert buf[..k] + [buf[k]] == buf;
      SumsThen(s1, s2, buf, s1 + Total(buf[..k]), Second(s1, s2, buf[..k]), s1 + Total(buf), Second(s1, s2, buf));
    }
  }

  lemma SumsThen(s1: nat, s2: nat, buf: seq<octet>, t1: nat, t2: nat, u1: nat, u2: nat)
    requires buf != [] && (t1 % LZO_BASE, t2 % LZO_BASE) == Sums(s1, s2, buf[..|buf| - 1])
    requires u1 == t1 + buf[|buf| - 1] && u2 == t2 + u1
    ensures Sums(s1, s2, buf) == (u1 % LZO_BASE, u2 % LZO_BASE)
  {
    hide Sums;
    SumsStep(s1, s2, buf, |buf| - 1, t1, t2);
    assert buf[..|buf| - 1 + 1] == buf;
  }

  // ---- Deferred reduction

  lemma SumsStep(s1: nat, s2: nat, buf: seq<octet>, k: nat, t1: nat, t2: nat)
    requires k < |buf| && (t1 % LZO_BASE, t2 % LZO_BASE) == Sums(s1, s2, buf[..k])
    ensures var u1 := t1 + buf[k]; var u2 := t2 + u1; (u1 % LZO_BASE, u2 % LZO_BASE) == Sums(s1, s2, buf[..k + 1])
  {
    assert buf[..k + 1][..k] == buf[..k];
    var a, b := t1 % LZO_BASE, t2 % LZO_BASE;
    var c := (a + buf[k]) % LZO_BASE;
    Reduce(t1, buf[k]);
    Reduce(t2, t1 + buf[k]);
    Reduce(b, t1 + buf[k]);
    Reduce(t1 + buf[k], b);
  }

  lemma Reduce(x: nat, y: nat)
    ensures (x + y) % LZO_BASE == (x % LZO_BASE + y) % LZO_BASE
  {
    var q, r := x / LZO_BASE, x % LZO_BASE;
    assert x + y == q * LZO_BASE + (r + y);
  }

  /** The sums after `j` bytes without reduction. */
  ghost predicate Bounded(s1: nat, s2: nat, j: nat) {
    s1 <= 0xffff + 255 * j && 2 * s2 <= 2 * 0xffff * (j + 1) + 255 * (j * (j + 1))
  }

  lemma BoundedStep(s1: nat, s2: nat, j: nat, b: octet)
    requires Bounded(s1, s2, j)
    ensures Bounded(s1 + b, s2 + s1 + b, j + 1)
  {
    assert (j + 1) * (j + 2) == j * (j + 1) + 2 * (j + 1);
  }

  /** 5552 bytes are few enough, even if the sums were not reduced at the start. */
  lemma NoOverflow(s1: nat, s2: nat, j: nat)
    requires Bounded(s1, s2, j) && j <= LZO_NMAX
    ensures s1 < TWO32 && s2 < TWO32
  {
    Product(j, LZO_NMAX);
  }

  lemma Product(j: nat, n: nat)
    requires j <= n
    ensures j * (j + 1) <= n * (n + 1)
  {
    assert n * (n + 1) == j * (j + 1) + (n - j) * (n + 1) + j * (n - j);
  }

  /** At most 5552 bytes, then both sums are reduced. */
  method Chunk(s1: uint32, s2: uint32, buf: seq<octet>, from: nat, k: nat, ghost t1: nat, ghost t2: nat)
    returns (r1: uint32, r2: uint32)
    requires 1 <= k <= LZO_NMAX && from + k <= |buf| && s1 <= 0xffff && s2 <= 0xffff
    requires (s1 % LZO_BASE, s2 % LZO_BASE) == Sums(t1, t2, buf[..from])
    ensures (r1, r2) == Sums(t1, t2, buf[..from + k]) && r1 < LZO_BASE && r2 < LZO_BASE
  {
    hide Sums, Bounded;
    r1, r2 := s1, s2;
    assert Bounded(r1, r2, 0) by { BoundedStart(r1, r2); }
    for j := 0 to k
      invariant Bounded(r1, r2, j) && (r1 % LZO_BASE, r2 % LZO_BASE) == Sums(t1, t2, buf[..from + j])
    {
      var b := buf[from + j];
      BoundedStep(r1, r2, j, b);
      NoOverflow(r1 + b, r2 + r1 + b, j + 1);
      SumsStep(t1, t2, buf, from + j, r1, r2);
      r1 := r1 + b;
      r2 := r2 + r1;
    }
    r1, r2 := r1 % LZO_BASE, r2 % LZO_BASE;
  }

  lemma BoundedStart(s1: nat, s2: nat)
    requires s1 <= 0xffff && s2 <= 0xffff
    ensures Bounded(s1, s2, 0)
  {
    assert 0 * (0 + 1) == 0;
  }

  /** lzo_adler32 */
  method LzoAdler32(adler: uint32, buf: Option<seq<octet>>) returns (r: uint32)
    ensures r == Checksum(adler, buf)
  {
    hide Sums;
    var s1: uint32, s2: uint32 := Low(adler), High(adler);
    if buf.None? {
      return 1;
    }
    var b, at := buf.value, 0;
    NoBytes(s1, s2, b);
    while at < |b|
      invariant at <= |b| && s1 <= 0xffff && s2 <= 0xffff && (at == 0 ==> s1 == Low(adler) && s2 == High(adler))
      invariant (s1 % LZO_BASE, s2 % LZO_BASE) == Sums(Low(adler), High(adler), b[..at])
      invariant at > 0 ==> s1 < LZO_BASE && s2 < LZO_BASE
      decreases |b| - at
    {
      var k := if |b| - at < LZO_NMAX then |b| - at else LZO_NMAX;
      s1, s2 := Chunk(s1, s2, b, at, k, Low(adler), High(adler));
      at := at + k;
    }
    assert b[..at] == b;
    r := s2 * 0x10000 + s1;
  }

  lemma NoBytes(s1: nat, s2: nat, b: seq<octet>)
    ensures Sums(s1, s2, b[..0]) == (s1 % LZO_BASE, s2 % LZO_BASE)
  {
  }

  // ---- In pieces

  lemma {:induction false} SumsReduced(s1: nat, s2: nat, buf: seq<octet>)
    ensures Sums(s1, s2, buf).0 < LZO_BASE && Sums(s1, s2, buf).1 < LZO_BASE
  {
  }

  lemma {:induction false} SumsAppend(s1: nat, s2: nat, x: seq<octet>, y: seq<octet>)
    ensures var m := Sums(s1, s2, x); Sums(s1, s2, x + y) == Sums(m.0, m.1, y)
    decreases |y|
  {
    hide Next;
    if y == [] {
      assert x + y == x;
      SumsReduced(s1, s2, x);
    } else {
      var k := |y| - 1;
      SumsAppend(s1, s2, x, y[..k]);
      assert (x + y)[..|x| + k] == x + y[..k];
    }
  }

  lemma PackFits(s: (nat, nat))
    requires s.0 < LZO_BASE && s.1 < LZO_BASE
    ensures Pack(s) < TWO32 && Low(Pack(s)) == s.0 && High(Pack(s)) == s.1
  {
  }

  /** A checksum continued over a second buffer is that of both buffers. */
  lemma Pieces(adler: uint32, x: seq<octet>, y: seq<octet>)
    ensures Checksum(adler, Some(x)) < TWO32
    ensures Checksum(Checksum(adler, Some(x)), Some(y)) == Checksum(adler, Some(x + y))
  {
    hide Sums, Pack, Low, High;
    if x == [] {
      assert x + y == y;
    } else {
      var m := Sums(Low(adler), High(adler), x);
      SumsReduced(Low(adler), High(adler), x);
      PackFits(m);
      if y == [] {
        assert x + y == x;
      } else {
        SumsAppend(Low(adler), High(adler), x, y);
      }
    }
  }
}
