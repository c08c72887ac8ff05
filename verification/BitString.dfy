/** Numbers as bit strings, least or most significant bit first. */
module BitString {
  import opened Arith

  function Pow2(n: nat): (r: nat)
    ensures r >= 1
  {
    if n == 0 then 1 else 2 * Pow2(n - 1)
  }

  /** The low `n` bits of `v`, least significant first. */
  function Bits(v: nat, n: nat): (r: seq<bool>)
    ensures |r| == n
    decreases n
  {
    if n == 0 then [] else [v % 2 == 1] + Bits(v / 2, n - 1)
  }

  /** The number whose bits, least significant first, are `b`. */
  function Value(b: seq<bool>): (r: nat)
    ensures r < Pow2(|b|)
  {
    if b == [] then 0 else (if b[0] then 1 else 0) + 2 * Value(b[1..])
  }

  /** The low `n` bits of `v`, most significant first. */
  function Msb(v: nat, n: nat): (r: seq<bool>)
    ensures |r| == n
  {
    if n == 0 then [] else Msb(v / 2, n - 1) + [v % 2 == 1]
  }

  lemma {:induction false} Pow2Add(m: nat, n: nat)
    ensures Pow2(m + n) == Pow2(m) * Pow2(n)
    decreases m
  {
    if m == 0 {
    } else {
      Pow2Add(m - 1, n);
      assert Pow2(m) * Pow2(n) == 2 * (Pow2(m - 1) * Pow2(n));
    }
  }

  lemma {:induction false} Pow2Monotone(m: nat, n: nat)
    requires m <= n
    ensures Pow2(m) <= Pow2(n)
  {
    if m >= n {
    } else {
      Pow2Monotone(m, n - 1);
    }
  }

  lemma {:induction false} ValueOfBits(v: nat, n: nat)
    requires v < Pow2(n)
    ensures Value(Bits(v, n)) == v
    decreases n
  {
    if n == 0 {
    } else {
      assert Bits(v, n)[1..] == Bits(v / 2, n - 1);
      ValueOfBits(v / 2, n - 1);
    }
  }

  /** Putting `y` above the `m` bits of `x` appends its bits. */
  lemma {:induction false} BitsConcat(x: nat, m: nat, y: nat, n: nat)
    requires x < Pow2(m)
    ensures Bits(x, m) + Bits(y, n) == Bits(x + y * Pow2(m), m + n)
    ensures y < Pow2(n) ==> x + y * Pow2(m) < Pow2(m + n)
    decreases m
  {
    if m == 0 {
      assert Bits(x, m) + Bits(y, n) == Bits(y, n);
    } else {
      BitsConcat(x / 2, m - 1, y, n);
      var p := y * Pow2(m - 1);
      assert y * Pow2(m) == 2 * p;
      assert (x + 2 * p) / 2 == x / 2 + p && (x + 2 * p) % 2 == x % 2;
      var l, r, t := [x % 2 == 1], Bits(x / 2, m - 1), Bits(y, n);
      assert (l + r) + t == l + (r + t);
    }
  }

  /** `v >> n` */
  function Shr(v: nat, n: nat): nat
    decreases n
  {
    if n == 0 then v else Shr(v / 2, n - 1)
  }

  /** The low `n` bits of `v`, as a number. */
  function Low(v: nat, n: nat): (r: nat)
    ensures r < Pow2(n)
    decreases n
  {
    if n == 0 then 0 else v % 2 + 2 * Low(v / 2, n - 1)
  }

  lemma {:induction false} LowHigh(v: nat, n: nat)
    ensures v == Low(v, n) + Shr(v, n) * Pow2(n)
    decreases n
  {
    if n == 0 {
    } else {
      LowHigh(v / 2, n - 1);
      MulTwo(Shr(v, n), Pow2(n - 1));
      assert v == 2 * (v / 2) + v % 2;
    }
  }

  lemma {:induction false} BitsSplit(v: nat, m: nat, n: nat)
    ensures Bits(v, m + n) == Bits(Low(v, m), m) + Bits(Shr(v, m), n)
  {
    LowHigh(v, m);
    BitsConcat(Low(v, m), m, Shr(v, m), n);
  }

  lemma {:induction false} ShrBound(v: nat, m: nat, n: nat)
    requires v < Pow2(m + n)
    ensures Shr(v, m) < Pow2(n)
    decreases m
  {
    if m == 0 {
    } else {
      ShrBound(v / 2, m - 1, n);
    }
  }

  // ---- Codes, most significant bit first

  lemma {:induction false} MsbConcat(x: nat, m: nat, y: nat, n: nat)
    requires y < Pow2(n)
    ensures Msb(x * Pow2(n) + y, m + n) == Msb(x, m) + Msb(y, n)
    decreases n
  {
    if n == 0 {
      assert Msb(x, m) + Msb(y, n) == Msb(x, m);
    } else {
      MsbConcat(x, m, y / 2, n - 1);
      var p := x * Pow2(n - 1);
      assert x * Pow2(n) == 2 * p;
      assert (2 * p + y) / 2 == p + y / 2 && (2 * p + y) % 2 == y % 2;
      var a, b, c := Msb(x, m), Msb(y / 2, n - 1), [y % 2 == 1];
      assert (a + b) + c == a + (b + c);
    }
  }

  /** The low `n` bits of `c` in reverse order. */
  function Reverse(c: nat, n: nat): (r: nat)
    ensures r < Pow2(n)
    decreases n
  {
    if n == 0 then 0 else c % 2 * Pow2(n - 1) + Reverse(c / 2, n - 1)
  }

  /** Sending a reversed code least significant bit first sends the code most significant bit
      first. */
  lemma {:induction false} BitsOfReverse(c: nat, n: nat)
    ensures Bits(Reverse(c, n), n) == Msb(c, n)
    decreases n
  {
    if n == 0 {
    } else {
      BitsOfReverse(c / 2, n - 1);
      BitsConcat(Reverse(c / 2, n - 1), n - 1, c % 2, 1);
      assert Bits(c % 2, 1) == [c % 2 == 1];
    }
  }

  lemma {:induction false} MsbInjective(v: nat, w: nat, n: nat)
    requires v < Pow2(n) && w < Pow2(n) && Msb(v, n) == Msb(w, n)
    ensures v == w
  {
    if n == 0 {
    } else {
      assert Msb(v, n)[..n - 1] == Msb(v / 2, n - 1) && Msb(w, n)[..n - 1] == Msb(w / 2, n - 1);
      assert Msb(v, n)[n - 1] == (v % 2 == 1) && Msb(w, n)[n - 1] == (w % 2 == 1);
      MsbInjective(v / 2, w / 2, n - 1);
    }
  }

  lemma Regroup(a: seq<bool>, b: seq<bool>, c: seq<bool>, d: seq<bool>, e: seq<bool>)
    ensures a + b + c + d + e == a + (b + c + d + e)
  {
  }
}
