/** The order of Debian versions: a scanner over two strings, and the order of section 5.6.12 of
    the Debian Policy Manual that it refines. */
module DpkgVersion {
  /** A character of a C string; the terminator is not one of them. */
  type cchar = x: int | 0 < x < 256 witness 1
  type cstring = seq<cchar>

  const ZERO := 48
  const TILDE := 126

  predicate IsDigit(x: int) { ZERO <= x <= ZERO + 9 }
  predicate IsAlpha(x: int) { 65 <= x <= 90 || 97 <= x <= 122 }

  /** order(): '~' sorts below the end of the string, letters below all other characters. */
  function Order(x: int): int
    requires 0 <= x < 256
  {
    if x == TILDE then -1 else if x == 0 then 0 else if IsDigit(x) then 0 else if IsAlpha(x) then x else x + 256
  }

  function Sign(x: int): int { if x < 0 then -1 else if x > 0 then 1 else 0 }

  // ---- The policy: alternating texts and numbers

  datatype Part = Part(text: cstring, number: nat)

  function TextLength(s: cstring): (n: nat)
    ensures n <= |s| && (forall i :: 0 <= i < n ==> !IsDigit(s[i])) && (n < |s| ==> IsDigit(s[n]))
  {
    if s == [] || IsDigit(s[0]) then 0 else 1 + TextLength(s[1..])
  }

  function DigitsLength(s: cstring): (n: nat)
    ensures n <= |s| && (forall i :: 0 <= i < n ==> IsDigit(s[i])) && (n < |s| ==> !IsDigit(s[n]))
  {
    if s == [] || !IsDigit(s[0]) then 0 else 1 + DigitsLength(s[1..])
  }

  function Number(d: cstring): nat
    requires forall i :: 0 <= i < |d| ==> IsDigit(d[i])
  {
    if d == [] then 0
    else
      var last: int := d[|d| - 1];
      assert IsDigit(last);
      10 * Number(d[..|d| - 1]) + (last - ZERO)
  }

  /** A version as alternating non-digit texts and numbers. */
  function Parts(s: cstring): seq<Part>
    decreases |s|
  {
    if s == [] then []
    else
      var t := TextLength(s);
      var d := DigitsLength(s[t..]);
      [Part(s[..t], Number(s[t..t + d]))] + Parts(s[t + d..])
  }

  /** Two texts, character by character; the end of a text sorts like a digit. */
  function CompareText(a: cstring, b: cstring): int {
    if a == [] && b == [] then 0
    else
      var x, y := if a == [] then 0 else Order(a[0]), if b == [] then 0 else Order(b[0]);
      if x != y then Sign(x - y)
      else CompareText(if a == [] then [] else a[1..], if b == [] then [] else b[1..])
  }

  function Head(p: seq<Part>): Part { if p == [] then Part([], 0) else p[0] }
  function Tail(p: seq<Part>): seq<Part> { if p == [] then [] else p[1..] }

  /** Texts are compared first, then numbers; a part that is missing is an empty text and zero. */
  function CompareParts(p: seq<Part>, q: seq<Part>): int
    decreases |p| + |q|
  {
    if p == [] && q == [] then 0
    else
      var a, b := Head(p), Head(q);
      var t := CompareText(a.text, b.text);
      if t != 0 then t
      else if a.number != b.number then Sign(a.number - b.number)
      else CompareParts(Tail(p), Tail(q))
  }

  function ComparePolicy(a: cstring, b: cstring): int { CompareParts(Parts(a), Parts(b)) }

  // ---- The same order as a lexicographic one

  /** Each character counts with its order, each number with a zero before it. */
  function Keys(s: cstring): seq<int>
    decreases |s|
  {
    if s == [] then []
    else if !IsDigit(s[0]) then [Order(s[0])] + Keys(s[1..])
    else
      var d := DigitsLength(s);
      [0, Number(s[..d])] + Keys(s[d..])
  }

  function First(s: seq<int>): int { if s == [] then 0 else s[0] }
  function Rest(s: seq<int>): seq<int> { if s == [] then [] else s[1..] }

  /** Lexicographic, the shorter sequence padded with zeros. */
  function Lex(a: seq<int>, b: seq<int>): int
    decreases |a| + |b|
  {
    if a == [] && b == [] then 0
    else if First(a) != First(b) then Sign(First(a) - First(b))
    else Lex(Rest(a), Rest(b))
  }

  lemma {:induction false} LexAntisymmetric(a: seq<int>, b: seq<int>)
    ensures Lex(a, b) == -Lex(b, a)
    decreases |a| + |b|
  {
    if a == [] && b == [] {
    } else {
      LexAntisymmetric(Rest(a), Rest(b));
    }
  }

  lemma {:induction false} LexTransitive(a: seq<int>, b: seq<int>, c: seq<int>)
    requires Lex(a, b) <= 0 && Lex(b, c) <= 0
    ensures Lex(a, c) <= 0 && (Lex(a, b) < 0 || Lex(b, c) < 0 ==> Lex(a, c) < 0)
    decreases |a| + |b| + |c|
  {
    if (a != [] || b != [] || c != []) && First(a) == First(b) == First(c) {
      if a == [] && b == [] {
        LexZero(a, b);
        assert Lex(Rest(a), Rest(b)) == 0;
      }
      if b == [] && c == [] {
        assert Lex(Rest(b), Rest(c)) == 0;
      }
      LexTransitive(Rest(a), Rest(b), Rest(c));
    }
  }

  lemma LexZero(a: seq<int>, b: seq<int>)
    requires a == [] && b == []
    ensures Lex(a, b) == 0
  {
  }

  // ---- Both orders are one

  /** Characters that are no digits have different orders, none of them zero. */
  lemma OrderInjective(x: cchar, y: cchar)
    requires !IsDigit(x)
    ensures Order(x) != 0 && (Order(x) == Order(y) <==> x == y)
  {
  }

  /** The first part and the rest of a version. */
  function Split(s: cstring): (Part, cstring) {
    var t := TextLength(s);
    var d := DigitsLength(s[t..]);
    (Part(s[..t], Number(s[t..t + d])), s[t + d..])
  }

  lemma PartsSplit(s: cstring)
    requires s != []
    ensures Parts(s) == [Split(s).0] + Parts(Split(s).1)
  {
    hide Number, DigitsLength, TextLength;
  }

  lemma SplitCons(c: cchar, s: cstring)
    requires !IsDigit(c)
    ensures Split([c] + s) == (Part([c] + Split(s).0.text, Split(s).0.number), Split(s).1)
  {
    hide Number, DigitsLength;
    var v, t := [c] + s, TextLength(s);
    assert v[1..] == s && TextLength(v) == t + 1;
    assert v[t + 1..] == s[t..] && v[..t + 1] == [c] + s[..t];
    var d := DigitsLength(s[t..]);
    assert v[t + 1..t + 1 + d] == s[t..t + d] && v[t + 1 + d..] == s[t + d..];
  }

  /** A character in front of a version goes to its first text. */
  lemma PartsCons(c: cchar, s: cstring)
    requires !IsDigit(c)
    ensures var p, q := Parts([c] + s), Parts(s);
            p != [] && p[0] == Part([c] + Head(q).text, Head(q).number) && p[1..] == Tail(q)
  {
    hide Split, Parts;
    PartsSplit([c] + s);
    SplitCons(c, s);
    if s == [] {
      NoSplit();
    } else {
      PartsSplit(s);
    }
  }

  lemma NoSplit()
    ensures Split([]) == (Part([], 0), []) && Parts([]) == []
  {
  }

  lemma CompareStep(p: seq<Part>, q: seq<Part>)
    ensures CompareParts(p, q)
         == var a, b := Head(p), Head(q);
            var t := CompareText(a.text, b.text);
            if t != 0 then t else if a.number != b.number then Sign(a.number - b.number) else CompareParts(Tail(p), Tail(q))
  {
  }

  /** The digits in front of a version, and what follows them. */
  function Leading(s: cstring): (nat, cstring) {
    var d := DigitsLength(s); (Number(s[..d]), s[d..])
  }

  lemma PartsOfDigits(s: cstring)
    requires s == [] || IsDigit(s[0])
    ensures Head(Parts(s)) == Part([], Leading(s).0) && Tail(Parts(s)) == Parts(Leading(s).1)
  {
    if s != [] {
      assert TextLength(s) == 0 && s[0..] == s && s[..0] == [];
    }
  }

  lemma KeysOfDigits(s: cstring, t: cstring)
    requires (s == [] || IsDigit(s[0])) && (t == [] || IsDigit(t[0]))
    ensures Lex(Keys(s), Keys(t))
         == var a, b := Leading(s), Leading(t); if a.0 != b.0 then Sign(a.0 - b.0) else Lex(Keys(a.1), Keys(b.1))
  {
    hide Leading, Keys, Lex, First, Rest, IsDigit;
    var a, b := Leading(s), Leading(t);
    var x, y := Keys(s), Keys(t);
    DigitKeys(s);
    DigitKeys(t);
    LexStep(x, y);
    LexStep(Rest(x), Rest(y));
  }

  lemma DigitKeys(s: cstring)
    requires s == [] || IsDigit(s[0])
    ensures First(Keys(s)) == 0 && First(Rest(Keys(s))) == Leading(s).0 && Rest(Rest(Keys(s))) == Keys(Leading(s).1)
  {
    if s != [] {
      var k := Keys(Leading(s).1);
      assert Keys(s) == [0, Leading(s).0] + k;
      assert Rest(Keys(s)) == [Leading(s).0] + k && Rest(Rest(Keys(s))) == k;
    }
  }

  lemma LexStep(a: seq<int>, b: seq<int>)
    ensures Lex(a, b) == if First(a) != First(b) then Sign(First(a) - First(b)) else Lex(Rest(a), Rest(b))
  {
  }

  /** The lexicographic order is the order of the policy. */
  lemma {:induction false} LexIsPolicy(a: cstring, b: cstring)
    ensures Lex(Keys(a), Keys(b)) == ComparePolicy(a, b)
    decreases |a| + |b|
  {
    hide Parts, CompareParts, Lex, Number, DigitsLength, CompareText;
    if (a == [] || IsDigit(a[0])) && (b == [] || IsDigit(b[0])) {
      KeysOfDigits(a, b);
      PartsOfDigits(a);
      PartsOfDigits(b);
      CompareStep(Parts(a), Parts(b));
      NoTexts();
      if a != [] || b != [] {
        LeadingShrinks(a);
        LeadingShrinks(b);
        LexIsPolicy(Leading(a).1, Leading(b).1);
      } else {
        LexZero([], []);
        NoParts();
      }
    } else {
      FirstText(a, b);
      LexStep(Keys(a), Keys(b));
      if First(Keys(a)) == First(Keys(b)) {
        SameCharacter(a, b);
        LexIsPolicy(a[1..], b[1..]);
      }
    }
  }

  lemma NoTexts()
    ensures CompareText([], []) == 0
  {
  }

  lemma NoParts()
    ensures ComparePolicy([], []) == 0
  {
  }

  lemma LeadingShrinks(s: cstring)
    requires s == [] || IsDigit(s[0])
    ensures |Leading(s).1| <= |s| && (s != [] ==> |Leading(s).1| < |s|)
  {
  }

  lemma TextHead(a: cstring)
    ensures var t := Head(Parts(a)).text;
            && First(Keys(a)) == (if t == [] then 0 else Order(t[0])) && (t != [] <==> a != [] && !IsDigit(a[0]))
  {
    if a != [] && !IsDigit(a[0]) {
      assert a == [a[0]] + a[1..];
      PartsCons(a[0], a[1..]);
    } else {
      PartsOfDigits(a);
      DigitKeys(a);
    }
  }

  /** The first characters decide if they have different orders. */
  lemma FirstText(a: cstring, b: cstring)
    requires (a != [] && !IsDigit(a[0])) || (b != [] && !IsDigit(b[0]))
    ensures First(Keys(a)) != First(Keys(b)) ==> ComparePolicy(a, b) == Sign(First(Keys(a)) - First(Keys(b)))
  {
    hide Keys, Parts;
    TextHead(a);
    TextHead(b);
    CompareStep(Parts(a), Parts(b));
  }

  /** Two equal characters in front can be dropped. */
  lemma SameCharacter(a: cstring, b: cstring)
    requires (a != [] && !IsDigit(a[0])) || (b != [] && !IsDigit(b[0]))
    requires First(Keys(a)) == First(Keys(b))
    ensures a != [] && b != [] && a[0] == b[0] && !IsDigit(a[0])
    ensures ComparePolicy(a, b) == ComparePolicy(a[1..], b[1..]) && Lex(Keys(a), Keys(b)) == Lex(Keys(a[1..]), Keys(b[1..]))
  {
    hide Parts, CompareParts, Lex;
    SameFirst(a, b);
    LexStep(Keys(a), Keys(b));
    assert Rest(Keys(a)) == Keys(a[1..]) && Rest(Keys(b)) == Keys(b[1..]);
    assert a == [a[0]] + a[1..] && b == [b[0]] + b[1..];
    PartsCons(a[0], a[1..]);
    PartsCons(b[0], b[1..]);
    var p, q := Parts(a[1..]), Parts(b[1..]);
    CompareStep(Parts(a), Parts(b));
    CompareStep(p, q);
    SameTextFirst(a[0], Head(p).text, Head(q).text);
  }

  lemma SameTextFirst(c: cchar, t: cstring, u: cstring)
    ensures CompareText([c] + t, [c] + u) == CompareText(t, u)
  {
    assert ([c] + t)[1..] == t && ([c] + u)[1..] == u;
  }

  lemma SameFirst(a: cstring, b: cstring)
    requires (a != [] && !IsDigit(a[0])) || (b != [] && !IsDigit(b[0]))
    requires First(Keys(a)) == First(Keys(b))
    ensures a != [] && b != [] && a[0] == b[0] && !IsDigit(a[0])
  {
    if a != [] && !IsDigit(a[0]) {
      OrderInjective(a[0], if b != [] then b[0] else a[0]);
    } else {
      OrderInjective(b[0], if a != [] then a[0] else b[0]);
    }
    if b == [] || IsDigit(b[0]) {
      DigitKeys(b);
    }
    if a == [] || IsDigit(a[0]) {
      DigitKeys(a);
    }
  }
}
