/** The values of expr: integers of 64 bits and strings, and what the operators do with them. */
module ExprValue {
  datatype Value = Int(i: int) | Str(s: string)

  datatype Error = TooFew | Syntax | NonNumeric | DivisionByZero | Regex
  datatype Result<T> = Ok(value: T) | Err(error: Error)

  const MAX := 0x7fff_ffff_ffff_ffff
  const MIN := -0x8000_0000_0000_0000

  /** Two's complement of 64 bits. */
  function Wrap(x: int): (r: int)
    ensures MIN <= r <= MAX
  {
    (x - MIN) % 0x1_0000_0000_0000_0000 + MIN
  }

  /** Division that truncates toward zero, as in C. */
  function Quotient(a: int, b: int): int
    requires b != 0
  {
    var q := Abs(a) / Abs(b); if (a < 0) == (b < 0) then q else -q
  }

  function Remainder(a: int, b: int): int
    requires b != 0
  {
    var r := Abs(a) % Abs(b); if a < 0 then -r else r
  }

  function Abs(x: int): (r: nat)
    ensures x != 0 ==> r > 0
  {
    if x < 0 then -x else x
  }

  lemma Truncated(a: int, b: int)
    requires b != 0
    ensures Quotient(a, b) * b + Remainder(a, b) == a && Abs(Remainder(a, b)) < Abs(b) && Remainder(a, b) * a >= 0
  {
    var q, r := Abs(a) / Abs(b), Abs(a) % Abs(b);
    assert Abs(a) == q * Abs(b) + r;
    if a == 0 || r == 0 {
      assert Remainder(a, b) * a == 0;
    } else if a > 0 {
      assert r * a >= 0;
    } else {
      assert (-r) * a == r * (-a);
    }
  }

  // ---- Coercions

  predicate IsDigit(c: char) { '0' <= c <= '9' }

  function Digits(s: string): (n: nat)
    ensures n <= |s| && forall i :: 0 <= i < n ==> IsDigit(s[i])
  {
    if s == [] || !IsDigit(s[0]) then 0 else 1 + Digits(s[1..])
  }

  function Number(s: string): nat
    requires forall i :: 0 <= i < |s| ==> IsDigit(s[i])
  {
    if s == [] then 0
    else
      assert IsDigit(s[|s| - 1]);
      10 * Number(s[..|s| - 1]) + (s[|s| - 1] as int - '0' as int)
  }

  function SkipSpace(s: string): string {
    if s != [] && (s[0] == ' ' || '\t' <= s[0] <= '\r') then SkipSpace(s[1..]) else s
  }

  function Clamp(x: int): (r: int)
    ensures MIN <= r <= MAX
  {
    if x < MIN then MIN else if x > MAX then MAX else x
  }

  /** strtoll on a whole string: white space, a sign, digits and nothing else. */
  function ParseInt(s: string): Result<int> {
    var t := SkipSpace(s);
    var u := if t != [] && (t[0] == '-' || t[0] == '+') then t[1..] else t;
    var n := Digits(u);
    if n == 0 || n < |u| then Err(NonNumeric)
    else Ok(Clamp(if t[0] == '-' then 0 - Number(u) else Number(u)))
  }

  /** toarith: what becomes of a value, and whether it is a number then. */
  function ToArith(v: Value): Value {
    match v
    case Int(_) => v
    case Str(s) => var n := ParseInt(s); if n.Ok? then Int(n.value) else v
  }

  function Decimal(n: nat): string {
    (if n < 10 then "" else Decimal(n / 10)) + [('0' as int + n % 10) as char]
  }

  function ToString(v: Value): string {
    match v
    case Int(i) => if i < 0 then "-" + Decimal(-i) else Decimal(i)
    case Str(s) => s
  }

  function Null(v: Value): bool {
    match v
    case Int(i) => i == 0
    case Str(s) => s == "" || s == "0"
  }

  // ---- Operators

  /** strcmp, as -1, 0 or 1 */
  function Strcmp(a: string, b: string): int {
    if a == [] && b == [] then 0
    else if a == [] then -1
    else if b == [] then 1
    else if a[0] != b[0] then if a[0] < b[0] then -1 else 1
    else Strcmp(a[1..], b[1..])
  }

  function Bool(b: bool): Value { Int(if b then 1 else 0) }

  function Relation(op: string, l: int, r: int): bool {
    if op == "<" then l < r
    else if op == "<=" then l <= r
    else if op == "=" || op == "==" then l == r
    else if op == "!=" then l != r
    else if op == ">" then l > r
    else l >= r
  }

  /** A comparison: of numbers if both sides are, else of strings. */
  function Compare(op: string, l: Value, r: Value): Value {
    var a, b := ToArith(l), ToArith(r);
    if a.Int? && b.Int? then Bool(Relation(op, a.i, b.i))
    else Bool(Relation(op, Strcmp(ToString(a), ToString(b)), 0))
  }

  function Arithmetic(op: string, l: Value, r: Value): Result<Value> {
    var a, b := ToArith(l), ToArith(r);
    if !a.Int? || !b.Int? then Err(NonNumeric)
    else if op == "+" then Ok(Int(Wrap(a.i + b.i)))
    else if op == "-" then Ok(Int(Wrap(a.i - b.i)))
    else if op == "*" then Ok(Int(Wrap(a.i * b.i)))
    else if b.i == 0 then Err(DivisionByZero)
    else if op == "/" then Ok(Int(Wrap(Quotient(a.i, b.i))))
    else Ok(Int(Wrap(Remainder(a.i, b.i))))
  }

  function Length(v: Value): Value { Int(|ToString(v)|) }

  /** The position of the first character of `l` that is in `r`, or zero. */
  function IndexIn(l: string, r: string, k: nat): nat {
    if l == [] then 0 else if l[0] in r then k + 1 else IndexIn(l[1..], r, k + 1)
  }

  /** xstrndup: the first `n` characters; `n` is cut to 32 bits, and a count with the high bit set only stops at the
      end of the string. */
  function Xstrndup(t: string, n: nat): string {
    Front(t, n % 0x1_0000_0000)
  }

  function Front(t: string, n: nat): (r: string)
    ensures r <= t
  {
    if n < |t| then t[..n] else t
  }

  function Substr(v: Value, from: Value, count: Value): Value {
    var s, i, n := ToString(v), ToArith(from), ToArith(count);
    if !i.Int? || !n.Int? || i.i > |s| || i.i <= 0 || n.i <= 0 then Str("")
    else Str(Xstrndup(s[i.i - 1..], n.i))
  }

  /** substr gives the characters asked for unless the count needs more than 32 bits and the bits kept are too few for
      the rest of the string. */
  lemma SubstrTakes(s: string, i: int, n: int)
    requires 1 <= i <= |s| && n > 0
    ensures Substr(Str(s), Int(i), Int(n)) == Str(Front(s[i - 1..], n))
            <==> n < 0x1_0000_0000 || |s| - (i - 1) <= n % 0x1_0000_0000
  {
    var t, u := s[i - 1..], n % 0x1_0000_0000;
    if n >= 0x1_0000_0000 && u < |t| {
      assert |Front(t, u)| == u < |Front(t, n)|;
    }
  }

  // ---- Round trip

  lemma {:induction false} AllDigits(s: string)
    requires forall i :: 0 <= i < |s| ==> IsDigit(s[i])
    ensures Digits(s) == |s|
  {
    if s == [] {
    } else {
      AllDigits(s[1..]);
    }
  }

  lemma {:induction false} DecimalReads(n: nat)
    ensures Decimal(n) != [] && (forall i :: 0 <= i < |Decimal(n)| ==> IsDigit(Decimal(n)[i])) && Number(Decimal(n)) == n
    decreases n
  {
    var d := Decimal(n);
    var k := |d| - 1;
    if n >= 10 {
      DecimalReads(n / 10);
      assert d[..k] == Decimal(n / 10);
    } else {
      assert d[..k] == [];
    }
    assert d[k] as int == '0' as int + n % 10;
  }

  /** tostring and toarith undo each other on numbers. */
  lemma NumberReads(i: int)
    requires MIN <= i <= MAX
    ensures ToArith(Str(ToString(Int(i)))) == Int(i)
  {
    hide Decimal, Number, Digits;
    var d := Decimal(Abs(i));
    DecimalReads(Abs(i));
    AllDigits(d);
    assert IsDigit(d[0]);
    if i < 0 {
      assert ("-" + d)[1..] == d;
    }
  }
}
