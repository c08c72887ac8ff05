/** expr evaluates while it parses. A tree is built from the same tokens, with holes where the
    parser gives up; evaluating the tree from left to right is what the one pass does. */
module Expr {
  import opened ExprValue

  type Pattern = (string, string) -> Result<Value>   // the : operator

  datatype Tree =
    | Leaf(s: string)
    | Binary(op: string, l: Tree, r: Tree)
    | LengthOf(t: Tree)
    | MatchOf(l: Tree, r: Tree)
    | IndexOf(l: Tree, r: Tree)
    | SubstrOf(t: Tree, i: Tree, n: Tree)
    | Hole                  // a token was needed here
    | Unclosed(t: Tree)     // the closing parenthesis was needed behind `t`

  predicate Whole(t: Tree) {
    match t
    case Leaf(_) => true
    case Binary(_, l, r) => Whole(l) && Whole(r)
    case LengthOf(t) => Whole(t)
    case MatchOf(l, r) => Whole(l) && Whole(r)
    case IndexOf(l, r) => Whole(l) && Whole(r)
    case SubstrOf(t, i, n) => Whole(t) && Whole(i) && Whole(n)
    case Hole => false
    case Unclosed(_) => false
  }

  // ---- Evaluating a tree

  function Operate(op: string, l: Value, r: Value, colon: Pattern): Result<Value> {
    if op == "|" then Ok(if Null(l) then r else l)
    else if op == "&" then Ok(if Null(l) || Null(r) then Int(0) else l)
    else if op in {"<", "<=", "=", "==", "!=", ">=", ">"} then Ok(Compare(op, l, r))
    else if op in {"+", "-", "*", "/", "%"} then Arithmetic(op, l, r)
    else colon(ToString(l), ToString(r))
  }

  function Eval(t: Tree, colon: Pattern): Result<Value> {
    match t
    case Leaf(s) => Ok(Str(s))
    case Binary(op, l, r) =>
      var a := Eval(l, colon);
      if a.Err? then a else var b := Eval(r, colon); if b.Err? then b else Operate(op, a.value, b.value, colon)
    case LengthOf(u) => var a := Eval(u, colon); if a.Err? then a else Ok(Length(a.value))
    case MatchOf(l, r) =>
      var a := Eval(l, colon);
      if a.Err? then a
      else var b := Eval(r, colon); if b.Err? then b else colon(ToString(a.value), ToString(b.value))
    case IndexOf(l, r) =>
      var a := Eval(l, colon);
      if a.Err? then a
      else var b := Eval(r, colon); if b.Err? then b else Ok(Int(IndexIn(ToString(a.value), ToString(b.value), 0)))
    case SubstrOf(u, i, n) =>
      var a := Eval(u, colon);
      if a.Err? then a
      else
        var b := Eval(i, colon);
        if b.Err? then b else var c := Eval(n, colon); if c.Err? then c else Ok(Substr(a.value, b.value, c.value))
    case Hole => Err(Syntax)
    case Unclosed(u) => var a := Eval(u, colon); if a.Err? then a else Err(Syntax)
  }

  // ---- Building the tree

  /** The operators of each level, the loosest first. */
  predicate IsOperator(level: nat, op: string) {
    match level
    case 0 => op == "|"
    case 1 => op == "&"
    case 2 => op in {"<", "<=", "=", "==", "!=", ">=", ">"}
    case 3 => op in {"+", "-"}
    case 4 => op in {"*", "/", "%"}
    case _ => op == ":"
  }

  const KEYWORDS := ["quote", "length", "match", "index", "substr"]

  /** Levels 0 to 5 are binary operators, 6 keywords, 7 operands and parentheses. */
  function Parse(level: nat, ts: seq<string>): (r: (Tree, seq<string>))
    requires level <= 7
    ensures |r.1| <= |ts| && (Whole(r.0) ==> |r.1| < |ts|)
    decreases |ts|, 8 - level, 1
  {
    if level < 6 then
      var l := Parse(level + 1, ts);
      if Whole(l.0) then ParseMore(level, l.0, l.1) else (l.0, [])
    else if level == 6 then ParseKeyword(ts)
    else if ts == [] then (Hole, [])
    else if ts[0] == "(" then
      var t := Parse(0, ts[1..]);
      if !Whole(t.0) then (t.0, [])
      else if t.1 == [] || t.1[0] != ")" then (Unclosed(t.0), [])
      else (t.0, t.1[1..])
    else if ts[0] == ")" then (Hole, [])
    else (Leaf(ts[0]), ts[1..])
  }

  /** Operators of a level apply from left to right. */
  function ParseMore(level: nat, l: Tree, ts: seq<string>): (r: (Tree, seq<string>))
    requires level < 6
    ensures |r.1| <= |ts|
    decreases |ts|, 8 - level, 0
  {
    if ts != [] && IsOperator(level, ts[0]) then
      var r := Parse(level + 1, ts[1..]);
      var t := Binary(ts[0], l, r.0);
      if Whole(r.0) then ParseMore(level, t, r.1) else (t, [])
    else (l, ts)
  }

  function ParseKeyword(ts: seq<string>): (r: (Tree, seq<string>))
    ensures |r.1| <= |ts| && (Whole(r.0) ==> |r.1| < |ts|)
    decreases |ts|, 2, 0
  {
    if ts == [] || ts[0] !in KEYWORDS then Parse(7, ts)
    else if ts[0] == "quote" then if |ts| < 2 then (Hole, []) else (Leaf(ts[1]), ts[2..])
    else
      var a := Parse(6, ts[1..]);
      if ts[0] == "length" then (LengthOf(a.0), a.1)
      else
        var b := if Whole(a.0) then Parse(6, a.1) else (Hole, []);
        if ts[0] == "match" then (MatchOf(a.0, b.0), b.1)
        else if ts[0] == "index" then (IndexOf(a.0, b.0), b.1)
        else
          var c := if Whole(a.0) && Whole(b.0) then Parse(6, b.1) else (Hole, []);
          (SubstrOf(a.0, b.0, c.0), c.1)
  }

  /** A tree with a hole has no value. */
  lemma {:induction false} HolesFail(t: Tree, colon: Pattern)
    requires !Whole(t)
    ensures Eval(t, colon).Err?
  {
    match t
    case Leaf(_) =>
    case Binary(_, l, r) =>
      if !Whole(l) { HolesFail(l, colon); } else { HolesFail(r, colon); }
    case LengthOf(u) => HolesFail(u, colon);
    case MatchOf(l, r) =>
      if !Whole(l) { HolesFail(l, colon); } else { HolesFail(r, colon); }
    case IndexOf(l, r) =>
      if !Whole(l) { HolesFail(l, colon); } else { HolesFail(r, colon); }
    case SubstrOf(u, i, n) =>
      if !Whole(u) { HolesFail(u, colon); } else if !Whole(i) { HolesFail(i, colon); } else { HolesFail(n, colon); }
    case Hole =>
    case Unclosed(_) =>
  }

  /** Behind a failure, nothing on the same level matters. */
  lemma {:induction false} FailureStays(level: nat, l: Tree, ts: seq<string>, colon: Pattern)
    requires level < 6 && Eval(l, colon).Err?
    ensures Eval(ParseMore(level, l, ts).0, colon) == Eval(l, colon)
    decreases |ts|
  {
    if ts != [] && IsOperator(level, ts[0]) {
      var r := Parse(level + 1, ts[1..]);
      if Whole(r.0) {
        FailureStays(level, Binary(ts[0], l, r.0), r.1, colon);
      }
    }
  }

  // ---- Failures

  /** The complete operands in front of the first hole, from left to right; a tree without holes is one itself. */
  ghost function Complete(t: Tree): seq<Tree> {
    if Whole(t) then [t]
    else
      match t
      case Leaf(_) => []
      case Binary(_, l, r) => if Whole(l) then [l] + Complete(r) else Complete(l)
      case LengthOf(u) => Complete(u)
      case MatchOf(l, r) => if Whole(l) then [l] + Complete(r) else Complete(l)
      case IndexOf(l, r) => if Whole(l) then [l] + Complete(r) else Complete(l)
      case SubstrOf(u, i, n) =>
        if Whole(u) && Whole(i) then [u, i] + Complete(n)
        else if Whole(u) then [u] + Complete(i)
        else Complete(u)
      case Hole => []
      case Unclosed(u) => Complete(u)
  }

  ghost predicate AllEvaluate(us: seq<Tree>, colon: Pattern) {
    forall k :: 0 <= k < |us| ==> Eval(us[k], colon).Ok?
  }

  lemma OneMore(u: Tree, us: seq<Tree>, colon: Pattern)
    ensures AllEvaluate([u] + us, colon) <==> Eval(u, colon).Ok? && AllEvaluate(us, colon)
    ensures AllEvaluate([u], colon) <==> Eval(u, colon).Ok?
  {
    var all := [u] + us;
    assert all[0] == u && [u][0] == u;
    if AllEvaluate(all, colon) {
      forall k | 0 <= k < |us| ensures Eval(us[k], colon).Ok? {
        assert all[k + 1] == us[k];
      }
    }
  }

  /** The one pass reports a syntax error exactly if there is a hole and all complete operands in front of it
      evaluate. */
  lemma {:induction false} SyntaxErrors(t: Tree, colon: Pattern)
    requires forall a, b :: colon(a, b) != Err(Syntax)
    ensures Eval(t, colon) == Err(Syntax) <==> !Whole(t) && AllEvaluate(Complete(t), colon)
  {
    match t
    case Leaf(_) =>
    case Binary(_, l, r) => PairFails(t, l, r, colon);
    case LengthOf(u) => SyntaxErrors(u, colon);
    case MatchOf(l, r) => PairFails(t, l, r, colon);
    case IndexOf(l, r) => PairFails(t, l, r, colon);
    case SubstrOf(u, i, n) => TripleFails(t, colon);
    case Hole =>
    case Unclosed(u) =>
      SyntaxErrors(u, colon);
      OneMore(u, [], colon);
      if !Whole(u) { HolesFail(u, colon); }
  }

  lemma {:induction false} PairFails(t: Tree, l: Tree, r: Tree, colon: Pattern)
    requires forall a, b :: colon(a, b) != Err(Syntax)
    requires (t.Binary? || t.MatchOf? || t.IndexOf?) && l == t.l && r == t.r
    ensures Eval(t, colon) == Err(Syntax) <==> !Whole(t) && AllEvaluate(Complete(t), colon)
    decreases t, 0
  {
    hide AllEvaluate;
    SyntaxErrors(l, colon);
    SyntaxErrors(r, colon);
    OneMore(l, Complete(r), colon);
    if !Whole(l) { HolesFail(l, colon); }
  }

  lemma {:induction false} TripleFails(t: Tree, colon: Pattern)
    requires forall a, b :: colon(a, b) != Err(Syntax)
    requires t.SubstrOf?
    ensures Eval(t, colon) == Err(Syntax) <==> !Whole(t) && AllEvaluate(Complete(t), colon)
    decreases t, 0
  {
    hide AllEvaluate, Operate, Substr;
    var u, i, n := t.t, t.i, t.n;
    SyntaxErrors(u, colon);
    SyntaxErrors(i, colon);
    SyntaxErrors(n, colon);
    OneMore(u, Complete(i), colon);
    OneMore(u, [i] + Complete(n), colon);
    OneMore(i, Complete(n), colon);
    assert [u, i] + Complete(n) == [u] + ([i] + Complete(n));
    if !Whole(u) { HolesFail(u, colon); }
    if !Whole(i) { HolesFail(i, colon); }
  }

  /** Evaluating while parsing; a token that is left over is an error only if there is a value. */
  function Evaluate(ts: seq<string>, colon: Pattern): Result<Value> {
    var p := Parse(0, ts);
    if ts == [] then Err(TooFew) else if Eval(p.0, colon).Ok? && p.1 != [] then Err(Syntax) else Eval(p.0, colon)
  }

  /** Parsing all tokens before anything is evaluated. */
  function ParseFirst(ts: seq<string>, colon: Pattern): Result<Value> {
    var p := Parse(0, ts);
    if ts == [] then Err(TooFew) else if !Whole(p.0) || p.1 != [] then Err(Syntax) else Eval(p.0, colon)
  }

  /** The tokens are an expression and nothing else. */
  predicate Expression(ts: seq<string>) {
    var p := Parse(0, ts); Whole(p.0) && p.1 == []
  }

  /** The one pass and parsing first succeed together and with the same value; they report the same failure unless
      the tokens are no expression and an operand that is complete in front of the place where that shows fails. */
  lemma ParseFirstAgrees(ts: seq<string>, colon: Pattern)
    requires forall a, b :: colon(a, b) != Err(Syntax)
    ensures Evaluate(ts, colon).Ok? <==> ParseFirst(ts, colon).Ok?
    ensures Evaluate(ts, colon) == ParseFirst(ts, colon)
            <==> ts == [] || Expression(ts) || AllEvaluate(Complete(Parse(0, ts).0), colon)
  {
    var t := Parse(0, ts).0;
    SyntaxErrors(t, colon);
    OneMore(t, [], colon);
    if !Whole(t) {
      HolesFail(t, colon);
    }
  }

  /** The two failures can be different: an operand is missing, or a token is left over. */
  lemma FailuresDiffer(colon: Pattern)
    ensures var ts := ["a", "+", "1", "+"]; Evaluate(ts, colon) == Err(NonNumeric) && ParseFirst(ts, colon) == Err(Syntax)
    ensures var ts := ["a", "+", "1", ")"]; Evaluate(ts, colon) == Err(NonNumeric) && ParseFirst(ts, colon) == Err(Syntax)
  {
    hide Evaluate, ParseFirst;
    SumFails(["+"], colon);
    SumFails([")"], colon);
    assert ["a", "+", "1"] + ["+"] == ["a", "+", "1", "+"];
    assert ["a", "+", "1"] + [")"] == ["a", "+", "1", ")"];
  }

  lemma SumFails(rest: seq<string>, colon: Pattern)
    requires rest == ["+"] || rest == [")"]
    ensures var ts := ["a", "+", "1"] + rest; Evaluate(ts, colon) == Err(NonNumeric) && ParseFirst(ts, colon) == Err(Syntax)
  {
    hide Parse, ParseMore, IsOperator;
    SumReads(rest);
    SumEnds(Binary("+", Leaf("a"), Leaf("1")), rest);
    NotNumbers();
  }

  lemma SumEnds(sum: Tree, rest: seq<string>)
    requires rest == ["+"] || rest == [")"]
    ensures ParseMore(3, sum, rest) == if rest == ["+"] then (Binary("+", sum, Hole), []) else (sum, rest)
  {
    NoToken(4);
    assert ["+"][1..] == [];
  }

  lemma SumReads(rest: seq<string>)
    requires rest == ["+"] || rest == [")"]
    ensures var ts := ["a", "+", "1"] + rest;
            Parse(0, ts) == ParseMore(3, Binary("+", Leaf("a"), Leaf("1")), rest)
  {
    var ts := ["a", "+", "1"] + rest;
    var a, one := Leaf("a"), Leaf("1");
    OneToken(ts);
    assert ts[1..] == ["+", "1"] + rest && ts[1..][1..] == ["1"] + rest;
    OneToken(["1"] + rest);
    assert (["1"] + rest)[1..] == rest;
    var all := ParseMore(3, Binary("+", a, one), rest);
    assert ParseMore(3, a, ts[1..]) == all;
    assert Parse(3, ts) == all;
    assert Parse(2, ts) == all;
    assert Parse(1, ts) == all;
  }

  lemma NotNumbers()
    ensures ToArith(Str("a")) == Str("a")
  {
    assert SkipSpace("a") == "a";
  }

  lemma NoToken(level: nat)
    requires level <= 7
    ensures Parse(level, []) == (Hole, [])
    decreases 7 - level
  {
    if level < 7 {
      NoToken(level + 1);
    }
  }

  /** An operand in front of something that is no operator of level 4 or 5. */
  lemma OneToken(ts: seq<string>)
    requires ts != [] && ts[0] !in KEYWORDS && ts[0] != "(" && ts[0] != ")"
    requires |ts| >= 2 && (ts[1] == "+" || ts[1] == ")")
    ensures Parse(4, ts) == (Leaf(ts[0]), ts[1..])
  {
    hide Parse, IsOperator, Ends;
    OperandReads(ts);
    SumOrEnd(ts[1..]);
    Climb(4, ts, Leaf(ts[0]), ts[1..]);
  }

  lemma SumOrEnd(ts: seq<string>)
    requires ts != [] && (ts[0] == "+" || ts[0] == ")")
    ensures Ends(4, ts)
  {
  }

  lemma OperandReads(ts: seq<string>)
    requires ts != [] && ts[0] !in KEYWORDS && ts[0] != "(" && ts[0] != ")"
    ensures Parse(6, ts) == (Leaf(ts[0]), ts[1..])
  {
    assert Parse(7, ts) == (Leaf(ts[0]), ts[1..]);
  }

  // ---- Printing

  /** The level of an operator, or 6. */
  function LevelOf(op: string): (k: nat)
    ensures k <= 6 && (k < 6 ==> IsOperator(k, op)) && forall j :: 0 <= j < 6 && j != k ==> !IsOperator(j, op)
  {
    if IsOperator(0, op) then 0
    else if IsOperator(1, op) then 1
    else if IsOperator(2, op) then 2
    else if IsOperator(3, op) then 3
    else if IsOperator(4, op) then 4
    else if IsOperator(5, op) then 5
    else 6
  }

  /** A tree whose operators are operators. */
  ghost predicate Proper(t: Tree) {
    match t
    case Leaf(_) => true
    case Binary(op, l, r) => LevelOf(op) < 6 && Proper(l) && Proper(r)
    case LengthOf(u) => Proper(u)
    case MatchOf(l, r) => Proper(l) && Proper(r)
    case IndexOf(l, r) => Proper(l) && Proper(r)
    case SubstrOf(u, i, n) => Proper(u) && Proper(i) && Proper(n)
    case Hole => false
    case Unclosed(_) => false
  }

  predicate NeedsQuote(s: string) { s in KEYWORDS || s == "(" || s == ")" }

  /** A tree where an expression of a level is expected: parentheses only around looser operators, a right operand
      being one level tighter, and quotes only around keywords and parentheses. */
  function Print(level: nat, t: Tree): seq<string>
    decreases t, 1
  {
    if t.Binary? && LevelOf(t.op) < level then ["("] + Inner(t) + [")"] else Inner(t)
  }

  function Inner(t: Tree): seq<string>
    decreases t, 0
  {
    match t
    case Leaf(s) => if NeedsQuote(s) then ["quote", s] else [s]
    case Binary(op, l, r) => Print(LevelOf(op), l) + [op] + Print(LevelOf(op) + 1, r)
    case LengthOf(u) => ["length"] + Print(6, u)
    case MatchOf(l, r) => ["match"] + Print(6, l) + Print(6, r)
    case IndexOf(l, r) => ["index"] + Print(6, l) + Print(6, r)
    case SubstrOf(u, i, n) => ["substr"] + Print(6, u) + Print(6, i) + Print(6, n)
    case Hole => []
    case Unclosed(u) => ["("] + Print(0, u)
  }

  /** No operator from `level` on starts `ts`. */
  ghost predicate Ends(level: nat, ts: seq<string>) {
    ts == [] || forall k :: level <= k < 6 ==> !IsOperator(k, ts[0])
  }

  lemma {:induction false} ProperWhole(t: Tree)
    requires Proper(t)
    ensures Whole(t)
  {
    match t
    case Leaf(_) =>
    case Binary(_, l, r) => ProperWhole(l); ProperWhole(r);
    case LengthOf(u) => ProperWhole(u);
    case MatchOf(l, r) => ProperWhole(l); ProperWhole(r);
    case IndexOf(l, r) => ProperWhole(l); ProperWhole(r);
    case SubstrOf(u, i, n) => ProperWhole(u); ProperWhole(i); ProperWhole(n);
  }

  /** What level 6 reads, looser levels read too, up to an operator of theirs. */
  lemma {:induction false} Climb(level: nat, ts: seq<string>, t: Tree, rest: seq<string>)
    requires level <= 6 && Parse(6, ts) == (t, rest) && Whole(t) && Ends(level, rest)
    ensures Parse(level, ts) == (t, rest)
    decreases 6 - level
  {
    if level == 6 {
    } else {
      Climb(level + 1, ts, t, rest);
    }
  }

  /** Nothing more of a level. */
  lemma NoMore(level: nat, t: Tree, rest: seq<string>)
    requires level < 6 && Ends(level, rest)
    ensures ParseMore(level, t, rest) == (t, rest)
  {
  }

  lemma EndsLater(j: nat, k: nat, ts: seq<string>)
    requires j <= k && Ends(j, ts)
    ensures Ends(k, ts)
  {
  }

  /** A level that has no operator of its own here. */
  lemma OneLevel(level: nat, ts: seq<string>, t: Tree, rest: seq<string>)
    requires level < 6 && Whole(t) && Parse(level + 1, ts) == (t, rest)
    ensures Parse(level, ts) == ParseMore(level, t, rest)
  {
  }

  /** An operator behind its left operand. */
  lemma OneOperator(level: nat, l: Tree, op: string, ts: seq<string>, r: Tree, rest: seq<string>)
    requires level < 6 && IsOperator(level, op) && Parse(level + 1, ts) == (r, rest) && Whole(r)
    ensures ParseMore(level, l, [op] + ts) == ParseMore(level, Binary(op, l, r), rest)
  {
    assert ([op] + ts)[1..] == ts;
  }

  lemma OperatorEnds(op: string, ts: seq<string>)
    ensures Ends(LevelOf(op) + 1, [op] + ts)
  {
  }

  lemma NoClosing(rest: seq<string>)
    ensures Ends(0, [")"] + rest)
  {
    assert forall j :: 0 <= j < 6 ==> !IsOperator(j, ")");
  }

  /** A tree printed for a level is what that level reads, and the level goes on behind it. */
  lemma {:induction false} PrintReads(level: nat, t: Tree, rest: seq<string>)
    requires Proper(t) && level <= 6 && Ends(level + 1, rest)
    ensures level < 6 ==> Parse(level, Print(level, t) + rest) == ParseMore(level, t, rest)
    ensures level == 6 ==> Parse(6, Print(6, t) + rest) == (t, rest)
    decreases t, 3, 6 - level
  {
    hide IsOperator, Parse, ParseMore, Whole, Inner, Ends, LevelOf;
    ProperWhole(t);
    if t.Binary? && LevelOf(t.op) == level {
      BinaryReads(t, rest);
    } else if level == 6 {
      InnerReads(t, rest);
    } else {
      EndsLater(level + 1, level + 2, rest);
      PrintReads(level + 1, t, rest);
      if level < 5 {
        NoMore(level + 1, t, rest);
      }
      assert Print(level, t) == Print(level + 1, t);
      OneLevel(level, Print(level, t) + rest, t, rest);
    }
  }

  /** A binary operator at its own level: it groups to the left. */
  lemma {:induction false} BinaryReads(t: Tree, rest: seq<string>)
    requires t.Binary? && Proper(t) && Ends(LevelOf(t.op) + 1, rest)
    ensures Parse(LevelOf(t.op), Print(LevelOf(t.op), t) + rest) == ParseMore(LevelOf(t.op), t, rest)
    decreases t, 0, 0
  {
    hide IsOperator, Parse, ParseMore, Whole, Print, Ends, LevelOf;
    var k := LevelOf(t.op);
    var more := Print(k + 1, t.r) + rest;
    BinaryIs(t, rest);
    OperatorEnds(t.op, more);
    PrintReads(k, t.l, [t.op] + more);
    EndsLater(k + 1, k + 2, rest);
    PrintReads(k + 1, t.r, rest);
    if k < 5 {
      NoMore(k + 1, t.r, rest);
    }
    ProperWhole(t.r);
    OneOperator(k, t.l, t.op, more, t.r, rest);
  }

  /** What level 6 reads: operands, keywords and parentheses. */
  lemma {:induction false} InnerReads(t: Tree, rest: seq<string>)
    requires Proper(t)
    ensures Parse(6, Print(6, t) + rest) == (t, rest)
    decreases t, 2, 0
  {
    hide IsOperator, Parse, ParseMore, Whole, Print, Ends, LevelOf, NeedsQuote;
    InnerIs(t, rest);
    EndsAbove(rest);
    match t
    case Leaf(s) =>
      LeafReads(s, rest);
    case Binary(op, l, r) =>
      InParenthesesReads(t, rest);
    case LengthOf(u) =>
      PrintReads(6, u, rest);
      LengthReads(Print(6, u) + rest, u, rest);
    case MatchOf(l, r) =>
      ProperWhole(l);
      EndsAbove(Print(6, r) + rest);
      PrintReads(6, l, Print(6, r) + rest);
      PrintReads(6, r, rest);
      PairReads(Print(6, l) + (Print(6, r) + rest), l, Print(6, r) + rest, r, rest);
    case IndexOf(l, r) =>
      ProperWhole(l);
      EndsAbove(Print(6, r) + rest);
      PrintReads(6, l, Print(6, r) + rest);
      PrintReads(6, r, rest);
      PairReads(Print(6, l) + (Print(6, r) + rest), l, Print(6, r) + rest, r, rest);
    case SubstrOf(u, i, n) =>
      ProperWhole(u);
      ProperWhole(i);
      var x, y := Print(6, n) + rest, Print(6, i) + (Print(6, n) + rest);
      EndsAbove(x);
      EndsAbove(y);
      PrintReads(6, u, y);
      PrintReads(6, i, x);
      PrintReads(6, n, rest);
      TripleReads(Print(6, u) + y, u, y, i, x, n, rest);
  }

  lemma EndsAbove(rest: seq<string>)
    ensures Ends(7, rest)
  {
  }

  lemma {:induction false} InParenthesesReads(t: Tree, rest: seq<string>)
    requires t.Binary? && Proper(t)
    ensures Parse(6, Print(6, t) + rest) == (t, rest)
    decreases t, 1, 0
  {
    hide IsOperator, Parse, ParseMore, Whole, Print, Ends, LevelOf;
    var k := LevelOf(t.op);
    var close := [")"] + rest;
    BinaryIs(t, rest);
    NoClosing(rest);
    EndsLater(0, k, close);
    EndsLater(0, k + 1, close);
    BinaryReads(t, close);
    NoMore(k, t, close);
    ProperWhole(t);
    Loosen(0, k, Print(k, t) + close, t, close);
    InParentheses(Print(k, t) + close, t, rest);
  }

  /** What one level reads, looser levels read too. */
  lemma {:induction false} Loosen(j: nat, k: nat, ts: seq<string>, t: Tree, rest: seq<string>)
    requires j <= k <= 6 && Parse(k, ts) == (t, rest) && Whole(t) && Ends(j, rest)
    ensures Parse(j, ts) == (t, rest)
    decreases k - j
  {
    if j == k {
    } else {
      Loosen(j + 1, k, ts, t, rest);
    }
  }

  /** What is printed, taken from the front. */
  lemma BinaryIs(t: Tree, rest: seq<string>)
    requires t.Binary?
    ensures var k := LevelOf(t.op);
            && Print(k, t) + rest == Print(k, t.l) + ([t.op] + (Print(k + 1, t.r) + rest))
            && (k < 6 ==> Print(6, t) + rest == ["("] + (Print(k, t) + ([")"] + rest)))
  {
    hide LevelOf, IsOperator, Print;
    var k := LevelOf(t.op);
    PrintsOwn(t);
    PrintsWrapped(t);
    Associate(Print(k, t.l), [t.op], Print(k + 1, t.r), rest);
    Associate(["("], Print(k, t), [")"], rest);
  }

  lemma PrintsOwn(t: Tree)
    requires t.Binary?
    ensures Print(LevelOf(t.op), t) == Print(LevelOf(t.op), t.l) + [t.op] + Print(LevelOf(t.op) + 1, t.r)
  {
    hide LevelOf, IsOperator, Print, Inner;
    PrintsBare(t);
    InnerBinary(t);
  }

  lemma PrintsBare(t: Tree)
    requires t.Binary?
    ensures Print(LevelOf(t.op), t) == Inner(t)
  {
    hide LevelOf, IsOperator, Inner;
  }

  lemma InnerBinary(t: Tree)
    requires t.Binary?
    ensures Inner(t) == Print(LevelOf(t.op), t.l) + [t.op] + Print(LevelOf(t.op) + 1, t.r)
  {
    hide LevelOf, IsOperator, Print;
  }

  lemma PrintsWrapped(t: Tree)
    requires t.Binary?
    ensures LevelOf(t.op) < 6 ==> Print(6, t) == ["("] + Print(LevelOf(t.op), t) + [")"]
  {
    hide LevelOf, IsOperator, Inner;
  }

  lemma InnerIs(t: Tree, rest: seq<string>)
    ensures t.Leaf? ==> Print(6, t) == if NeedsQuote(t.s) then ["quote", t.s] else [t.s]
    ensures t.LengthOf? ==> Print(6, t) + rest == ["length"] + (Print(6, t.t) + rest)
    ensures t.MatchOf? ==> Print(6, t) + rest == ["match"] + (Print(6, t.l) + (Print(6, t.r) + rest))
    ensures t.IndexOf? ==> Print(6, t) + rest == ["index"] + (Print(6, t.l) + (Print(6, t.r) + rest))
    ensures t.SubstrOf? ==> Print(6, t) + rest == ["substr"] + (Print(6, t.t) + (Print(6, t.i) + (Print(6, t.n) + rest)))
  {
    hide LevelOf, IsOperator, NeedsQuote;
    match t
    case LengthOf(u) => Associate(["length"], Print(6, u), [], rest);
    case MatchOf(l, r) => Associate(["match"], Print(6, l), Print(6, r), rest);
    case IndexOf(l, r) => Associate(["index"], Print(6, l), Print(6, r), rest);
    case SubstrOf(u, i, n) =>
      Associate(["substr"] + Print(6, u), Print(6, i), Print(6, n), rest);
      Associate(["substr"], Print(6, u), Print(6, i) + (Print(6, n) + rest), []);
    case _ =>
  }

  lemma Associate(a: seq<string>, b: seq<string>, c: seq<string>, d: seq<string>)
    ensures a + b + c + d == a + (b + (c + d))
    ensures c == [] ==> a + b + d == a + (b + d)
    ensures d == [] ==> a + b + c == a + (b + c)
  {
  }

  lemma LeafReads(s: string, rest: seq<string>)
    ensures NeedsQuote(s) ==> Parse(6, ["quote", s] + rest) == (Leaf(s), rest)
    ensures !NeedsQuote(s) ==> Parse(6, [s] + rest) == (Leaf(s), rest)
  {
    assert (["quote", s] + rest)[2..] == rest && ([s] + rest)[1..] == rest;
    if !NeedsQuote(s) {
      OperandReads([s] + rest);
    }
  }

  lemma LengthReads(x: seq<string>, u: Tree, rest: seq<string>)
    requires Parse(6, x) == (u, rest)
    ensures Parse(6, ["length"] + x) == (LengthOf(u), rest)
  {
    assert (["length"] + x)[1..] == x;
  }

  lemma PairReads(x: seq<string>, l: Tree, y: seq<string>, r: Tree, rest: seq<string>)
    requires Parse(6, x) == (l, y) && Whole(l) && Parse(6, y) == (r, rest)
    ensures Parse(6, ["match"] + x) == (MatchOf(l, r), rest) && Parse(6, ["index"] + x) == (IndexOf(l, r), rest)
  {
    assert (["match"] + x)[1..] == x && (["index"] + x)[1..] == x;
  }

  lemma TripleReads(x: seq<string>, u: Tree, y: seq<string>, i: Tree, z: seq<string>, n: Tree, rest: seq<string>)
    requires Parse(6, x) == (u, y) && Whole(u) && Parse(6, y) == (i, z) && Whole(i) && Parse(6, z) == (n, rest)
    ensures Parse(6, ["substr"] + x) == (SubstrOf(u, i, n), rest)
  {
    assert (["substr"] + x)[1..] == x;
  }

  lemma InParentheses(ts: seq<string>, t: Tree, rest: seq<string>)
    requires Parse(0, ts) == (t, [")"] + rest) && Whole(t)
    ensures Parse(6, ["("] + ts) == (t, rest)
  {
    assert (["("] + ts)[1..] == ts && ([")"] + rest)[1..] == rest;
    assert Parse(7, ["("] + ts) == (t, rest);
  }

  /** A printed tree reads back as itself, with no token left. */
  lemma PrintedTree(t: Tree)
    requires Proper(t)
    ensures Parse(0, Print(0, t)) == (t, [])
  {
    PrintReads(0, t, []);
    assert Print(0, t) + [] == Print(0, t);
  }

  /** No parentheses that are printed can be left out: where a tighter level is expected, it stops in front of the
      operator. */
  lemma {:induction false} ParenthesesNeeded(level: nat, t: Tree, more: seq<string>)
    requires Proper(t) && t.Binary? && LevelOf(t.op) < level <= 6
    ensures Parse(level, Inner(t) + more).1 != []
    decreases t
  {
    hide IsOperator, Parse, ParseMore, Whole, Inner, Ends, LevelOf;
    var k, l, behind := LevelOf(t.op), t.l, [t.op] + (Print(LevelOf(t.op) + 1, t.r) + more);
    BinaryIs(t, more);
    assert Inner(t) == Print(k, t);
    if l.Binary? && k <= LevelOf(l.op) < level {
      ParenthesesNeeded(level, l, behind);
      assert Print(k, l) == Inner(l);
    } else {
      assert Print(k, l) == Print(level, l);
      OperatorEnds(t.op, Print(k + 1, t.r) + more);
      EndsLater(k + 1, level, behind);
      EndsLater(k + 1, level + 1, behind);
      PrintReads(level, l, behind);
      if level < 6 {
        NoMore(level, l, behind);
      }
    }
  }

  /** Precedence and grouping to the left, without parentheses: a - b - c * d is (a - b) - (c * d). */
  lemma Grouping(a: string, b: string, c: string, d: string)
    requires !NeedsQuote(a) && !NeedsQuote(b) && !NeedsQuote(c) && !NeedsQuote(d)
    ensures Parse(0, [a, "-", b, "-", c, "*", d])
         == (Binary("-", Binary("-", Leaf(a), Leaf(b)), Binary("*", Leaf(c), Leaf(d))), [])
  {
    hide Parse;
    var l, r := Binary("-", Leaf(a), Leaf(b)), Binary("*", Leaf(c), Leaf(d));
    assert LevelOf("-") == 3 && LevelOf("*") == 4;
    assert Print(3, Leaf(a)) == [a] && Print(4, Leaf(b)) == [b] && Print(4, Leaf(c)) == [c] && Print(5, Leaf(d)) == [d];
    assert Print(3, l) == [a] + ["-"] + [b];
    assert Print(4, r) == [c] + ["*"] + [d];
    assert Print(0, Binary("-", l, r)) == [a, "-", b, "-", c, "*", d];
    PrintedTree(Binary("-", l, r));
  }

  // ---- One pass

  class Evaluator {
    const args: seq<string>
    const colon: Pattern
    var pos: nat

    constructor (args: seq<string>, colon: Pattern)
      ensures this.args == args && this.colon == colon && pos == 0
    {
      this.args, this.colon, pos := args, colon, 0;
    }

    /** What is left of the tokens. */
    ghost function Left(): seq<string>
      requires pos <= |args|
      reads this
    {
      args[pos..]
    }

    /** The outcome is that of the tree; if there is a value, its tokens are gone. */
    ghost predicate Outcome(r: Result<Value>, p: (Tree, seq<string>))
      reads this
    {
      r == Eval(p.0, colon) && pos <= |args| && (r.Ok? ==> Left() == p.1)
    }

    /** nextarg */
    predicate NextIs(s: string)
      requires pos <= |args|
      reads this
    {
      pos < |args| && args[pos] == s
    }

    /** nextarg, for each of the operators of a level */
    predicate NextIsOperator(level: nat)
      requires pos <= |args|
      reads this
    {
      pos < |args| && IsOperator(level, args[pos])
    }

    /** eval, eval1 to eval5: one level of binary operators. */
    method EvalLevel(level: nat) returns (v: Result<Value>)
      requires pos <= |args| && level <= 6
      modifies this
      ensures Outcome(v, Parse(level, old(Left())))
      decreases |args| - pos, 8 - level, 1
    {
      hide Operate;
      if level == 6 {
        v := EvalKeyword();
        return;
      }
      ghost var p := Parse(level + 1, Left());
      ghost var all := Parse(level, Left());
      v := EvalLevel(level + 1);
      ghost var l := p.0;
      if v.Err? {
        if Whole(l) { FailureStays(level, l, p.1, colon); }
        return;
      }
      if !Whole(l) { HolesFail(l, colon); }
      while NextIsOperator(level)
        invariant old(pos) < pos <= |args| && v.Ok? && v == Eval(l, colon) && Whole(l)
        invariant all == ParseMore(level, l, Left())
        decreases |args| - pos
      {
        var op := args[pos];
        ghost var q := Parse(level + 1, args[pos + 1..]);
        pos := pos + 1;
        var r := EvalLevel(level + 1);
        ghost var t := Binary(op, l, q.0);
        if !Whole(q.0) { HolesFail(q.0, colon); }
        if r.Err? {
          if Whole(q.0) { FailureStays(level, t, q.1, colon); }
          return r;
        }
        v := Operate(op, v.value, r.value, colon);
        l := t;
        if v.Err? {
          FailureStays(level, t, q.1, colon);
          return;
        }
      }
    }

    /** eval6: keywords. */
    method EvalKeyword() returns (v: Result<Value>)
      requires pos <= |args|
      modifies this
      ensures Outcome(v, ParseKeyword(old(Left())))
      decreases |args| - pos, 2, 0
    {
      if pos == |args| || args[pos] !in KEYWORDS {
        v := EvalOperand();
        return;
      }
      var key := args[pos];
      pos := pos + 1;
      if key == "quote" {
        if pos == |args| {
          return Err(Syntax);
        }
        v := Ok(Str(args[pos]));
        pos := pos + 1;
        return;
      }
      ghost var a := Parse(6, Left());
      var x := EvalLevel(6);
      if !Whole(a.0) { HolesFail(a.0, colon); }
      if x.Err? {
        return x;
      }
      if key == "length" {
        return Ok(Length(x.value));
      }
      ghost var b := Parse(6, Left());
      var y := EvalLevel(6);
      if !Whole(b.0) { HolesFail(b.0, colon); }
      if y.Err? {
        return y;
      }
      if key == "match" {
        v := colon(ToString(x.value), ToString(y.value));
      } else if key == "index" {
        v := Ok(Int(IndexIn(ToString(x.value), ToString(y.value), 0)));
      } else {
        var z := EvalLevel(6);
        if z.Err? {
          return z;
        }
        v := Ok(Substr(x.value, y.value, z.value));
      }
    }

    /** eval7: operands and parentheses. */
    method EvalOperand() returns (v: Result<Value>)
      requires pos <= |args|
      modifies this
      ensures Outcome(v, Parse(7, old(Left())))
      decreases |args| - pos, 1, 0
    {
      if pos == |args| {
        return Err(Syntax);
      }
      if NextIs("(") {
        pos := pos + 1;
        ghost var p := Parse(0, Left());
        v := EvalLevel(0);
        if v.Err? {
          return;
        }
        if !Whole(p.0) { HolesFail(p.0, colon); }
        if !NextIs(")") {
          return Err(Syntax);
        }
        pos := pos + 1;
        return;
      }
      if NextIs(")") {
        return Err(Syntax);
      }
      v := Ok(Str(args[pos]));
      pos := pos + 1;
    }
  }

  /** expr_main: the value of all tokens. */
  method ExprMain(args: seq<string>, colon: Pattern) returns (r: Result<Value>)
    ensures r == Evaluate(args, colon)
  {
    if args == [] {
      return Err(TooFew);
    }
    var e := new Evaluator(args, colon);
    assert e.Left() == args;
    r := e.EvalLevel(0);
    if r.Ok? && e.pos < |args| {
      r := Err(Syntax);
    }
  }

  /** A printed tree evaluates to its own value. */
  method EvaluatePrinted(t: Tree, colon: Pattern) returns (r: Result<Value>)
    requires Proper(t)
    ensures r == Eval(t, colon)
  {
    PrintedTree(t);
    PrintNotEmpty(t);
    hide Parse, Print;
    r := ExprMain(Print(0, t), colon);
  }

  lemma PrintNotEmpty(t: Tree)
    requires Proper(t)
    ensures Print(0, t) != []
  {
  }
}
