/** What expr prints for each operator, said of the whole program and without its own functions for them. */
module ExprLaws {
  import opened Arith
  import opened ExprValue
  import opened Expr

  /** The token for a number. */
  function Numeral(i: int): string { ToString(Int(i)) }

  const TWO64 := 0x1_0000_0000_0000_0000

  predicate InRange(i: int) { -0x8000_0000_0000_0000 <= i < 0x8000_0000_0000_0000 }

  predicate IsOperand(s: string) {
    s !in {"quote", "length", "match", "index", "substr", "(", ")"}
  }

  lemma OperandsNeedNoQuote(s: string)
    ensures IsOperand(s) <==> !NeedsQuote(s)
  {
  }

  /** A printed tree is evaluated as a tree. */
  lemma WholeProgram(t: Tree, colon: Pattern)
    requires Proper(t)
    ensures Evaluate(Print(0, t), colon) == Eval(t, colon)
  {
    hide Parse, Print;
    PrintedTree(t);
    PrintNotEmpty(t);
  }

  /** Two operands and an operator. */
  lemma OneOperation(a: string, op: string, b: string, colon: Pattern)
    requires IsOperand(a) && IsOperand(b) && LevelOf(op) < 6
    ensures Evaluate([a, op, b], colon) == Operate(op, Str(a), Str(b), colon)
  {
    hide Operate, IsOperator, LevelOf;
    OperandsNeedNoQuote(a);
    OperandsNeedNoQuote(b);
    var t := Binary(op, Leaf(a), Leaf(b));
    PrintsBare(t);
    InnerBinary(t);
    LeafPrints(LevelOf(op), a);
    LeafPrints(LevelOf(op) + 1, b);
    PrintFirst(t);
    WholeProgram(t, colon);
    assert Print(0, t) == [a, op, b];
  }

  lemma PrintFirst(t: Tree)
    requires t.Binary?
    ensures Print(0, t) == Inner(t)
  {
    hide Inner, LevelOf;
  }

  lemma LeafPrints(level: nat, s: string)
    requires !NeedsQuote(s)
    ensures Print(level, Leaf(s)) == [s]
  {
  }

  // ---- Numbers

  lemma NumeralIsOperand(i: int)
    ensures IsOperand(Numeral(i))
  {
    hide Decimal;
    DecimalReads(if i < 0 then -i else i);
    var d := Decimal(if i < 0 then -i else i);
    assert IsDigit(d[0]);
    var n := Numeral(i);
    assert n[0] == d[0] || n[0] == '-';
    assert "quote"[0] == 'q' && "length"[0] == 'l' && "match"[0] == 'm' && "index"[0] == 'i' && "substr"[0] == 's' && "("[0] == '(' && ")"[0] == ')';
  }

  lemma OnNumbers(l: int, op: string, r: int, colon: Pattern)
    requires InRange(l) && InRange(r) && LevelOf(op) < 6
    ensures Evaluate([Numeral(l), op, Numeral(r)], colon) == Operate(op, Str(Numeral(l)), Str(Numeral(r)), colon)
    ensures ToArith(Str(Numeral(l))) == Int(l) && ToArith(Str(Numeral(r))) == Int(r)
  {
    hide Operate, ToArith, IsOperator, LevelOf, IsOperand;
    NumeralIsOperand(l);
    NumeralIsOperand(r);
    NumberReads(l);
    NumberReads(r);
    OneOperation(Numeral(l), op, Numeral(r), colon);
  }

  function Truth(b: bool): Result<Value> { Ok(Int(if b then 1 else 0)) }

  /** Comparisons of numbers. */
  lemma NumbersCompare(l: int, r: int, colon: Pattern)
    requires InRange(l) && InRange(r)
    ensures Evaluate([Numeral(l), "<", Numeral(r)], colon) == Truth(l < r)
    ensures Evaluate([Numeral(l), "<=", Numeral(r)], colon) == Truth(l <= r)
    ensures Evaluate([Numeral(l), "=", Numeral(r)], colon) == Truth(l == r)
    ensures Evaluate([Numeral(l), "==", Numeral(r)], colon) == Truth(l == r)
    ensures Evaluate([Numeral(l), "!=", Numeral(r)], colon) == Truth(l != r)
    ensures Evaluate([Numeral(l), ">=", Numeral(r)], colon) == Truth(l >= r)
    ensures Evaluate([Numeral(l), ">", Numeral(r)], colon) == Truth(l > r)
  {
    hide ToArith, Evaluate, Numeral;
    OnNumbers(l, "<", r, colon);
    OnNumbers(l, "<=", r, colon);
    OnNumbers(l, "=", r, colon);
    OnNumbers(l, "==", r, colon);
    OnNumbers(l, "!=", r, colon);
    OnNumbers(l, ">=", r, colon);
    OnNumbers(l, ">", r, colon);
  }

  /** The number of 64 bits that is `x` modulo 2^64. */
  lemma WrapIs(x: int)
    ensures InRange(Wrap(x)) && (Wrap(x) - x) % TWO64 == 0 && (InRange(x) ==> Wrap(x) == x)
  {
  }

  /** Sums, differences and products: the number of 64 bits that is the result modulo 2^64. */
  lemma NumbersAdd(l: int, r: int, colon: Pattern) returns (sum: int, difference: int, product: int)
    requires InRange(l) && InRange(r)
    ensures InRange(sum) && (sum - (l + r)) % TWO64 == 0 && (InRange(l + r) ==> sum == l + r)
    ensures InRange(difference) && (difference - (l - r)) % TWO64 == 0 && (InRange(l - r) ==> difference == l - r)
    ensures InRange(product) && (product - l * r) % TWO64 == 0 && (InRange(l * r) ==> product == l * r)
    ensures Evaluate([Numeral(l), "+", Numeral(r)], colon) == Ok(Int(sum))
    ensures Evaluate([Numeral(l), "-", Numeral(r)], colon) == Ok(Int(difference))
    ensures Evaluate([Numeral(l), "*", Numeral(r)], colon) == Ok(Int(product))
  {
    hide ToArith, Evaluate, Numeral, Wrap, Compare;
    sum, difference, product := Wrap(l + r), Wrap(l - r), Wrap(l * r);
    WrapIs(l + r);
    WrapIs(l - r);
    WrapIs(l * r);
    hide InRange;
    OnNumbers(l, "+", r, colon);
    OnNumbers(l, "-", r, colon);
    OnNumbers(l, "*", r, colon);
  }

  /** Quotients and remainders: rounded toward zero, the remainder with the sign of the dividend. The least number divided
      by -1 wraps around. */
  lemma NumbersDivide(l: int, r: int, colon: Pattern) returns (q: int, m: int)
    requires InRange(l) && InRange(r)
    ensures r == 0 ==> Evaluate([Numeral(l), "/", Numeral(r)], colon) == Err(DivisionByZero)
    ensures r == 0 ==> Evaluate([Numeral(l), "%", Numeral(r)], colon) == Err(DivisionByZero)
    ensures r != 0 ==> l == q * r + m && -Magnitude(r) < m < Magnitude(r) && (m > 0 ==> l > 0) && (m < 0 ==> l < 0)
    ensures r != 0 ==> Evaluate([Numeral(l), "/", Numeral(r)], colon) == Ok(Int(if InRange(q) then q else l))
    ensures r != 0 ==> Evaluate([Numeral(l), "%", Numeral(r)], colon) == Ok(Int(m))
  {
    hide ToArith, Evaluate, Numeral, Wrap, Compare, Quotient, Remainder;
    OnNumbers(l, "/", r, colon);
    OnNumbers(l, "%", r, colon);
    q, m := 0, 0;
    if r != 0 {
      q, m := Quotient(l, r), Remainder(l, r);
      Division(l, r);
      WrapIs(m);
      QuotientWraps(l, r);
    }
  }

  function Magnitude(x: int): int { if x < 0 then -x else x }

  lemma Division(l: int, r: int)
    requires r != 0
    ensures var q, m := Quotient(l, r), Remainder(l, r);
            l == q * r + m && -Magnitude(r) < m < Magnitude(r) && (m > 0 ==> l > 0) && (m < 0 ==> l < 0)
  {
    Truncated(l, r);
    RemainderSign(l, r);
    hide Quotient, Remainder;
  }

  lemma RemainderSign(l: int, r: int)
    requires r != 0
    ensures var m := Remainder(l, r); (m > 0 ==> l > 0) && (m < 0 ==> l < 0)
  {
    if l == 0 {
      assert 0 % Abs(r) == 0;
    }
  }

  lemma QuotientWraps(l: int, r: int)
    requires InRange(l) && r != 0
    ensures Wrap(Quotient(l, r)) == if InRange(Quotient(l, r)) then Quotient(l, r) else l
  {
    hide Wrap, Quotient;
    WrapIs(Quotient(l, r));
    if r == 1 || r == -1 {
      ByOne(l, r);
      LeastWraps();
    } else {
      Smaller(l, r);
    }
  }

  lemma Smaller(l: int, r: int)
    requires InRange(l) && (r >= 2 || r <= -2)
    ensures InRange(Quotient(l, r))
  {
    hide Quotient;
    var q := QuotientIs(l, r);
  }

  lemma QuotientIs(l: int, r: int) returns (q: int)
    requires r >= 2 || r <= -2
    ensures 0 <= 2 * q <= Magnitude(l) && (Quotient(l, r) == q || Quotient(l, r) == -q)
  {
    q := Abs(l) / Abs(r);
    Halved(Abs(l), Abs(r));
  }

  lemma ByOne(l: int, r: int)
    requires r == 1 || r == -1
    ensures Quotient(l, r) == if r == 1 then l else -l
  {
    assert Abs(l) / 1 == Abs(l);
  }

  lemma LeastWraps()
    ensures Wrap(0x8000_0000_0000_0000) == -0x8000_0000_0000_0000
  {
  }

  lemma Halved(a: nat, b: nat)
    requires b >= 2
    ensures 0 <= 2 * (a / b) <= a
  {
    DivMod(a, b);
    Twice(a / b, b);
  }

  lemma Twice(q: int, b: int)
    requires q >= 0 && b >= 2
    ensures 2 * q <= q * b
  {
    MulLe(2, b, q);
  }

  // ---- Operands that are no numbers

  predicate IsNumber(s: string) { ToArith(Str(s)).Int? }

  /** Arithmetic needs numbers. */
  lemma NoArithmetic(a: string, op: string, b: string, colon: Pattern)
    requires IsOperand(a) && IsOperand(b) && op in {"+", "-", "*", "/", "%"} && (!IsNumber(a) || !IsNumber(b))
    ensures Evaluate([a, op, b], colon) == Err(NonNumeric)
  {
    hide ToArith, Evaluate;
    assert LevelOf(op) < 6;
    OneOperation(a, op, b, colon);
  }

  /** `a` is in front of `b` in a dictionary. */
  ghost predicate Precedes(a: string, b: string) {
    exists k :: 0 <= k <= |a| && k <= |b| && a[..k] == b[..k] && k < |b| && (k == |a| || a[k] < b[k])
  }

  lemma {:induction false} StrcmpIs(a: string, b: string)
    ensures (Strcmp(a, b) == 0 <==> a == b) && (Strcmp(a, b) < 0 <==> Precedes(a, b)) && (Strcmp(a, b) > 0 <==> Precedes(b, a))
    decreases |a|
  {
    if a == [] || b == [] || a[0] != b[0] {
      DifferAtOnce(a, b);
      DifferAtOnce(b, a);
    } else {
      StrcmpIs(a[1..], b[1..]);
      PrecedesRest(a, b);
      PrecedesRest(b, a);
      assert a == [a[0]] + a[1..] && b == [b[0]] + b[1..];
    }
  }

  lemma DifferAtOnce(a: string, b: string)
    requires a == [] || b == [] || a[0] != b[0]
    ensures Precedes(a, b) <==> b != [] && (a == [] || a[0] < b[0])
  {
    if Precedes(a, b) {
      var k :| 0 <= k <= |a| && k <= |b| && a[..k] == b[..k] && k < |b| && (k == |a| || a[k] < b[k]);
      if k > 0 {
        assert false;
      }
    }
    if b != [] && (a == [] || a[0] < b[0]) {
      assert a[..0] == b[..0];
    }
  }

  lemma PrecedesRest(a: string, b: string)
    requires a != [] && b != [] && a[0] == b[0]
    ensures Precedes(a, b) <==> Precedes(a[1..], b[1..])
  {
    if Precedes(a, b) {
      var k :| 0 <= k <= |a| && k <= |b| && a[..k] == b[..k] && k < |b| && (k == |a| || a[k] < b[k]);
      assert k > 0;
      assert a[1..][..k - 1] == a[..k][1..] && b[1..][..k - 1] == b[..k][1..];
      assert k - 1 == |a[1..]| || a[1..][k - 1] < b[1..][k - 1];
    }
    if Precedes(a[1..], b[1..]) {
      var k :| 0 <= k <= |a[1..]| && k <= |b[1..]| && a[1..][..k] == b[1..][..k] && k < |b[1..]| && (k == |a[1..]| || a[1..][k] < b[1..][k]);
      assert a[..k + 1] == [a[0]] + a[1..][..k] && b[..k + 1] == [b[0]] + b[1..][..k];
      assert k + 1 == |a| || a[k + 1] < b[k + 1];
    }
  }

  /** What a comparison of strings looks at: numbers in their plain form. */
  function Normal(s: string): string { if IsNumber(s) then Numeral(ToArith(Str(s)).i) else s }

  /** Comparisons are those of a dictionary unless both sides are numbers. */
  lemma StringsCompare(a: string, b: string, colon: Pattern)
    requires IsOperand(a) && IsOperand(b) && !(IsNumber(a) && IsNumber(b))
    ensures Evaluate([a, "<", b], colon) == Truth(Precedes(Normal(a), Normal(b)))
    ensures Evaluate([a, "<=", b], colon) == Truth(Precedes(Normal(a), Normal(b)) || Normal(a) == Normal(b))
    ensures Evaluate([a, "=", b], colon) == Truth(Normal(a) == Normal(b))
    ensures Evaluate([a, "==", b], colon) == Truth(Normal(a) == Normal(b))
    ensures Evaluate([a, "!=", b], colon) == Truth(Normal(a) != Normal(b))
    ensures Evaluate([a, ">=", b], colon) == Truth(Precedes(Normal(b), Normal(a)) || Normal(a) == Normal(b))
    ensures Evaluate([a, ">", b], colon) == Truth(Precedes(Normal(b), Normal(a)))
  {
    hide Evaluate, Precedes, Strcmp;
    StrcmpIs(Normal(a), Normal(b));
    ToArithIs(a);
    ToArithIs(b);
    hide ToArith;
    OneOperation(a, "<", b, colon);
    OneOperation(a, "<=", b, colon);
    OneOperation(a, "=", b, colon);
    OneOperation(a, "==", b, colon);
    OneOperation(a, "!=", b, colon);
    OneOperation(a, ">=", b, colon);
    OneOperation(a, ">", b, colon);
  }

  lemma ToArithIs(s: string)
    ensures ToArith(Str(s)) == if IsNumber(s) then Int(ToArith(Str(s)).i) else Str(s)
    ensures ToString(ToArith(Str(s))) == Normal(s)
  {
  }

  // ---- The other operators

  predicate IsNothing(v: Value) { v == Int(0) || v == Str("") || v == Str("0") }

  /** `|` is the first operand that is not nothing; the second one is evaluated in any case. */
  lemma OrGives(l: Tree, r: Tree, a: Value, b: Value, colon: Pattern)
    requires Eval(l, colon) == Ok(a) && Eval(r, colon) == Ok(b)
    ensures Eval(Binary("|", l, r), colon) == Ok(if IsNothing(a) then b else a)
  {
  }

  /** `&` is the first operand, or zero if one of them is nothing. */
  lemma AndGives(l: Tree, r: Tree, a: Value, b: Value, colon: Pattern)
    requires Eval(l, colon) == Ok(a) && Eval(r, colon) == Ok(b)
    ensures Eval(Binary("&", l, r), colon) == Ok(if IsNothing(a) || IsNothing(b) then Int(0) else a)
  {
  }

  lemma OrAndTokens(a: string, b: string, colon: Pattern)
    requires IsOperand(a) && IsOperand(b)
    ensures Evaluate([a, "|", b], colon) == Ok(Str(if a == "" || a == "0" then b else a))
    ensures Evaluate([a, "&", b], colon) == Ok(if a == "" || a == "0" || b == "" || b == "0" then Int(0) else Str(a))
    ensures Evaluate([a, ":", b], colon) == colon(a, b)
  {
    hide Evaluate;
    OneOperation(a, "|", b, colon);
    OneOperation(a, "&", b, colon);
    OneOperation(a, ":", b, colon);
  }

  /** The length of a string, and a keyword or a parenthesis as an operand. */
  lemma LengthAndQuote(s: string, colon: Pattern)
    ensures IsOperand(s) ==> Evaluate(["length", s], colon) == Ok(Int(|s|))
    ensures Evaluate(["quote", s], colon) == Ok(Str(s))
    ensures IsOperand(s) ==> Evaluate([s], colon) == Ok(Str(s))
  {
    hide Parse, Print;
    if IsOperand(s) {
      PrintKeywords(s, s, s);
      LengthEvaluates(s, colon);
      OperandsNeedNoQuote(s);
      LeafPrints(0, s);
      WholeProgram(Leaf(s), colon);
    }
    Quoted(s);
  }

  lemma LengthEvaluates(s: string, colon: Pattern)
    requires IsOperand(s)
    ensures Evaluate(["length", s], colon) == Ok(Int(|s|))
  {
    hide Evaluate, Print;
    PrintKeywords(s, s, s);
    WholeProgram(LengthOf(Leaf(s)), colon);
  }

  /** Keywords with operands as they are typed. */
  lemma PrintKeywords(a: string, b: string, c: string)
    requires IsOperand(a) && IsOperand(b) && IsOperand(c)
    ensures Print(0, LengthOf(Leaf(a))) == ["length", a] && Print(0, IndexOf(Leaf(a), Leaf(b))) == ["index", a, b]
    ensures Print(0, SubstrOf(Leaf(a), Leaf(b), Leaf(c))) == ["substr", a, b, c]
  {
    OperandsNeedNoQuote(a);
    OperandsNeedNoQuote(b);
    OperandsNeedNoQuote(c);
    LeafPrints(6, a);
    LeafPrints(6, b);
    LeafPrints(6, c);
    assert ["length"] + [a] == ["length", a] && ["index"] + [a] + [b] == ["index", a, b];
    assert ["substr"] + [a] + [b] + [c] == ["substr", a, b, c];
    hide LevelOf, NeedsQuote;
  }

  lemma Quoted(s: string)
    ensures Parse(0, ["quote", s]) == (Leaf(s), [])
  {
    assert ["quote", s][2..] == [];
    assert Parse(6, ["quote", s]) == (Leaf(s), []);
    hide Parse;
    Climb(0, ["quote", s], Leaf(s), []);
  }

  /** `k` is the first position of a character of the set, counted from one, or zero. */
  ghost predicate FirstOf(k: nat, s: string, chars: string) {
    if k == 0 then forall i :: 0 <= i < |s| ==> s[i] !in chars
    else k <= |s| && s[k - 1] in chars && forall i :: 0 <= i < k - 1 ==> s[i] !in chars
  }

  lemma {:induction false} IndexIs(s: string, chars: string, offset: nat)
    ensures var k := IndexIn(s, chars, offset);
            if k == 0 then FirstOf(0, s, chars) else k > offset && FirstOf(k - offset, s, chars)
    decreases |s|
  {
    if s == [] {
    } else if s[0] in chars {
    } else {
      IndexIs(s[1..], chars, offset + 1);
      var k := IndexIn(s, chars, offset);
      assert forall i :: 1 <= i < |s| ==> s[i] == s[1..][i - 1];
    }
  }

  lemma IndexGives(s: string, chars: string, colon: Pattern) returns (k: nat)
    requires IsOperand(s) && IsOperand(chars)
    ensures Evaluate(["index", s, chars], colon) == Ok(Int(k)) && FirstOf(k, s, chars)
  {
    hide Evaluate, Print, FirstOf, IndexIn;
    PrintKeywords(s, chars, s);
    WholeProgram(IndexOf(Leaf(s), Leaf(chars)), colon);
    IndexIs(s, chars, 0);
    k := IndexIn(s, chars, 0);
  }

  /** substr counts from one; a place outside of the string or no count gives nothing. */
  lemma SubstrGives(s: string, i: int, n: int, colon: Pattern)
    requires IsOperand(s) && InRange(i) && InRange(n) && n < 0x1_0000_0000
    ensures Evaluate(["substr", s, Numeral(i), Numeral(n)], colon)
         == Ok(Str(if 1 <= i <= |s| && n > 0 then if i - 1 + n < |s| then s[i - 1..i - 1 + n] else s[i - 1..] else ""))
  {
    hide Evaluate, Print, ToArith, Numeral, IsOperand;
    NumeralIsOperand(i);
    NumeralIsOperand(n);
    PrintKeywords(s, Numeral(i), Numeral(n));
    WholeProgram(SubstrOf(Leaf(s), Leaf(Numeral(i)), Leaf(Numeral(n))), colon);
    OnNumbers(i, "+", n, colon);
    if 1 <= i <= |s| && n > 0 && i - 1 + n < |s| {
      assert s[i - 1..][..n] == s[i - 1..i - 1 + n];
    }
  }

  // ---- Precedence

  /** A tighter operator on the right, or on the left, needs no parentheses. */
  lemma PrintTighter(a: string, op: string, t: Tree)
    requires IsOperand(a) && t.Binary? && LevelOf(op) < LevelOf(t.op)
    ensures Print(0, Binary(op, Leaf(a), t)) == [a, op] + Print(0, t)
    ensures Print(0, Binary(op, t, Leaf(a))) == Print(0, t) + [op, a]
  {
    hide LevelOf, Print, Inner;
    OperandsNeedNoQuote(a);
    var k := LevelOf(op);
    var r, l := Binary(op, Leaf(a), t), Binary(op, t, Leaf(a));
    PrintFirst(r);
    PrintFirst(l);
    PrintFirst(t);
    InnerBinary(r);
    InnerBinary(l);
    LeafPrints(k, a);
    LeafPrints(k + 1, a);
    NotWrapped(k, t);
    NotWrapped(k + 1, t);
    assert [a] + [op] == [a, op] && Print(0, t) + [op] + [a] == Print(0, t) + [op, a];
  }

  lemma NotWrapped(level: nat, t: Tree)
    requires t.Binary? && level <= LevelOf(t.op)
    ensures Print(level, t) == Inner(t)
  {
    hide LevelOf, Inner;
  }

  lemma Levels()
    ensures LevelOf("|") < LevelOf("&") < LevelOf("<") == LevelOf("<=") == LevelOf("=") == LevelOf("==") == LevelOf("!=")
    ensures LevelOf("<") == LevelOf(">=") == LevelOf(">") < LevelOf("+") == LevelOf("-")
    ensures LevelOf("+") < LevelOf("*") == LevelOf("/") == LevelOf("%") < LevelOf(":") < 6
  {
  }

  lemma PrintOne(a: string, op: string, b: string)
    requires IsOperand(a) && IsOperand(b)
    ensures Print(0, Binary(op, Leaf(a), Leaf(b))) == [a, op, b]
  {
    hide LevelOf, Print, Inner;
    var t := Binary(op, Leaf(a), Leaf(b));
    OperandsNeedNoQuote(a);
    OperandsNeedNoQuote(b);
    PrintFirst(t);
    InnerBinary(t);
    LeafPrints(LevelOf(op), a);
    LeafPrints(LevelOf(op) + 1, b);
  }

  ghost predicate Operands(s: seq<string>) { forall i :: 0 <= i < |s| ==> IsOperand(s[i]) }

  /** From the loosest to the tightest: | & < + * and the colon. */
  lemma Precedence(a: string, b: string, c: string, d: string, e: string, f: string, g: string)
    requires Operands([a, b, c, d, e, f, g])
    ensures Parse(0, [a, "|", b, "&", c, "<", d, "+", e, "*", f, ":", g])
         == (Binary("|", Leaf(a), Binary("&", Leaf(b), Binary("<", Leaf(c), Binary("+", Leaf(d), Binary("*", Leaf(e),
             Binary(":", Leaf(f), Leaf(g))))))), [])
    ensures Parse(0, [a, ":", b, "*", c, "+", d, "<", e, "&", f, "|", g])
         == (Binary("|", Binary("&", Binary("<", Binary("+", Binary("*", Binary(":", Leaf(a), Leaf(b)), Leaf(c)), Leaf(d)),
             Leaf(e)), Leaf(f)), Leaf(g)), [])
  {
    hide Parse, Print, LevelOf, IsOperand;
    var s := [a, b, c, d, e, f, g];
    assert s[0] == a && s[1] == b && s[2] == c && s[3] == d && s[4] == e && s[5] == f && s[6] == g;
    Levels();
    RightChain(a, b, c, d, e, f, g);
    LeftChain(a, b, c, d, e, f, g);
  }

  lemma ProperOf(op: string, l: Tree, r: Tree)
    requires LevelOf(op) < 6 && (l.Leaf? || Proper(l)) && (r.Leaf? || Proper(r))
    ensures Proper(Binary(op, l, r))
  {
    hide LevelOf;
  }

  lemma RightChain(a: string, b: string, c: string, d: string, e: string, f: string, g: string)
    requires IsOperand(a) && IsOperand(b) && IsOperand(c) && IsOperand(d) && IsOperand(e) && IsOperand(f) && IsOperand(g)
    ensures Parse(0, [a, "|", b, "&", c, "<", d, "+", e, "*", f, ":", g])
         == (Binary("|", Leaf(a), Binary("&", Leaf(b), Binary("<", Leaf(c), Binary("+", Leaf(d), Binary("*", Leaf(e),
             Binary(":", Leaf(f), Leaf(g))))))), [])
  {
    hide Parse, Print, LevelOf, IsOperand;
    Levels();
    var t1 := Binary(":", Leaf(f), Leaf(g));
    PrintOne(f, ":", g);
    var t2 := Binary("*", Leaf(e), t1);
    PrintTighter(e, "*", t1);
    var t3 := Binary("+", Leaf(d), t2);
    PrintTighter(d, "+", t2);
    var t4 := Binary("<", Leaf(c), t3);
    PrintTighter(c, "<", t3);
    var t5 := Binary("&", Leaf(b), t4);
    PrintTighter(b, "&", t4);
    var t6 := Binary("|", Leaf(a), t5);
    PrintTighter(a, "|", t5);
    ProperOf(":", Leaf(f), Leaf(g));
    ProperOf("*", Leaf(e), t1);
    ProperOf("+", Leaf(d), t2);
    ProperOf("<", Leaf(c), t3);
    ProperOf("&", Leaf(b), t4);
    ProperOf("|", Leaf(a), t5);
    PrintedTree(t6);
    assert Print(0, t6) == [a, "|", b, "&", c, "<", d, "+", e, "*", f, ":", g];
  }

  lemma LeftChain(a: string, b: string, c: string, d: string, e: string, f: string, g: string)
    requires IsOperand(a) && IsOperand(b) && IsOperand(c) && IsOperand(d) && IsOperand(e) && IsOperand(f) && IsOperand(g)
    ensures Parse(0, [a, ":", b, "*", c, "+", d, "<", e, "&", f, "|", g])
         == (Binary("|", Binary("&", Binary("<", Binary("+", Binary("*", Binary(":", Leaf(a), Leaf(b)), Leaf(c)), Leaf(d)),
             Leaf(e)), Leaf(f)), Leaf(g)), [])
  {
    hide Parse, Print, LevelOf, IsOperand;
    Levels();
    var t1 := Binary(":", Leaf(a), Leaf(b));
    PrintOne(a, ":", b);
    var t2 := Binary("*", t1, Leaf(c));
    PrintTighter(c, "*", t1);
    var t3 := Binary("+", t2, Leaf(d));
    PrintTighter(d, "+", t2);
    var t4 := Binary("<", t3, Leaf(e));
    PrintTighter(e, "<", t3);
    var t5 := Binary("&", t4, Leaf(f));
    PrintTighter(f, "&", t4);
    var t6 := Binary("|", t5, Leaf(g));
    PrintTighter(g, "|", t5);
    ProperOf(":", Leaf(a), Leaf(b));
    ProperOf("*", t1, Leaf(c));
    ProperOf("+", t2, Leaf(d));
    ProperOf("<", t3, Leaf(e));
    ProperOf("&", t4, Leaf(f));
    ProperOf("|", t5, Leaf(g));
    PrintedTree(t6);
    assert Print(0, t6) == [a, ":", b, "*", c, "+", d, "<", e, "&", f, "|", g];
  }

  /** Operators of the same level group to the left. */
  lemma LeftToRight(a: string, op: string, b: string, op': string, c: string)
    requires IsOperand(a) && IsOperand(b) && IsOperand(c) && LevelOf(op) == LevelOf(op') < 6
    ensures Parse(0, [a, op, b, op', c]) == (Binary(op', Binary(op, Leaf(a), Leaf(b)), Leaf(c)), [])
  {
    hide Parse, Print, LevelOf, Inner;
    var l := Binary(op, Leaf(a), Leaf(b));
    var t := Binary(op', l, Leaf(c));
    OperandsNeedNoQuote(c);
    PrintOne(a, op, b);
    PrintFirst(l);
    NotWrapped(LevelOf(op), l);
    LeafPrints(LevelOf(op') + 1, c);
    PrintFirst(t);
    InnerBinary(t);
    PrintedTree(t);
    assert Print(0, t) == [a, op, b, op', c];
  }

  // ---- What a number looks like

  ghost predicate Blank(s: string) { forall i :: 0 <= i < |s| ==> s[i] == ' ' || '\t' <= s[i] <= '\r' }

  ghost predicate Digital(s: string) { s != [] && forall i :: 0 <= i < |s| ==> '0' <= s[i] <= '9' }

  /** White space, a sign or none, and digits; numbers beyond 64 bits become the nearest one. */
  lemma NumberForm(blanks: string, sign: string, d: string)
    requires Blank(blanks) && (sign == "" || sign == "+" || sign == "-") && Digital(d)
    ensures ToArith(Str(blanks + (sign + d))) == Int(Clamp(if sign == "-" then 0 - Number(d) else Number(d)))
  {
    hide Number, Digits, SkipSpace;
    var t := sign + d;
    assert t[0] == if sign == "" then d[0] else sign[0];
    BlanksSkipped(blanks, t);
    assert sign != "" ==> t[1..] == d;
    assert sign == "" ==> t == d;
    AllDigits(d);
  }

  lemma {:induction false} BlanksSkipped(b: string, t: string)
    requires Blank(b) && t != [] && !(t[0] == ' ' || '\t' <= t[0] <= '\r')
    ensures SkipSpace(b + t) == t
    decreases |b|
  {
    if b == [] {
      assert b + t == t;
    } else {
      assert (b + t)[1..] == b[1..] + t;
      BlanksSkipped(b[1..], t);
    }
  }

  /** Nothing else is a number. */
  lemma OnlyNumbers(s: string) returns (blanks: string, sign: string, d: string)
    requires IsNumber(s)
    ensures s == blanks + (sign + d) && Blank(blanks) && (sign == "" || sign == "+" || sign == "-") && Digital(d)
  {
    hide Number, SkipSpace, Clamp;
    var t := SkipSpace(s);
    blanks := SkippedBlanks(s);
    sign := if t != [] && t[0] == '-' then "-" else if t != [] && t[0] == '+' then "+" else "";
    d := if sign == "" then t else t[1..];
  }

  lemma {:induction false} SkippedBlanks(s: string) returns (b: string)
    ensures s == b + SkipSpace(s) && Blank(b)
    decreases |s|
  {
    if s != [] && (s[0] == ' ' || '\t' <= s[0] <= '\r') {
      b := SkippedBlanks(s[1..]);
      b := [s[0]] + b;
      assert s == [s[0]] + s[1..];
    } else {
      b := [];
    }
  }
}
