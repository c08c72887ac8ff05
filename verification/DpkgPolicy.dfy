/** The order of section 5.6.12 of the Debian Policy Manual in its own words, for versions that agree up to some place. */
module DpkgPolicy {
  import opened DpkgVersion
  import opened DpkgCompare

  predicate IsLetter(c: int) { 'A' as int <= c <= 'Z' as int || 'a' as int <= c <= 'z' as int }

  predicate IsNumeral(c: int) { '0' as int <= c <= '9' as int }

  /** A letter sorts before all that is neither a letter nor a tilde; else characters sort by their codes. */
  predicate Before(c: cchar, d: cchar) {
    var tilde := '~' as int;
    if c == tilde || d == tilde then c == tilde && d != tilde
    else if IsLetter(c) == IsLetter(d) then c < d
    else IsLetter(c)
  }

  lemma {:induction false} KeysAppend(a: cstring, s: cstring)
    requires s == [] || !IsDigit(s[0]) || a == [] || !IsDigit(a[|a| - 1])
    ensures Keys(a + s) == Keys(a) + Keys(s)
    decreases |a|
  {
    hide Order, Number;
    if a == [] {
      assert a + s == s;
    } else if !IsDigit(a[0]) {
      assert (a + s)[1..] == a[1..] + s;
      KeysAppend(a[1..], s);
    } else {
      var d := DigitsLength(a);
      DigitsStop(a, s);
      assert (a + s)[..d] == a[..d] && (a + s)[d..] == a[d..] + s;
      KeysAppend(a[d..], s);
    }
  }

  lemma {:induction false} DigitsStop(a: cstring, s: cstring)
    requires s == [] || !IsDigit(s[0]) || a == [] || !IsDigit(a[|a| - 1])
    requires a != []
    ensures DigitsLength(a + s) == DigitsLength(a)
    decreases |a|
  {
    if IsDigit(a[0]) {
      assert (a + s)[1..] == a[1..] + s;
      if |a| == 1 {
        assert a[1..] + s == s;
      } else {
        DigitsStop(a[1..], s);
      }
    }
  }

  lemma {:induction false} LexAppend(k: seq<int>, u: seq<int>, v: seq<int>)
    ensures Lex(k + u, k + v) == Lex(u, v)
    decreases |k|
  {
    if k == [] {
      assert k + u == u && k + v == v;
    } else {
      assert (k + u)[1..] == k[1..] + u && (k + v)[1..] == k[1..] + v;
      LexAppend(k[1..], u, v);
    }
  }

  /** What versions have in common at the front does not matter. */
  lemma CommonFront(a: cstring, s: cstring, t: cstring)
    requires ((s == [] || !IsDigit(s[0])) && (t == [] || !IsDigit(t[0]))) || a == [] || !IsDigit(a[|a| - 1])
    ensures ComparePolicy(a + s, a + t) == ComparePolicy(s, t)
  {
    hide ComparePolicy, Keys, Lex;
    KeysAppend(a, s);
    KeysAppend(a, t);
    LexAppend(Keys(a), Keys(s), Keys(t));
    LexIsPolicy(a + s, a + t);
    LexIsPolicy(s, t);
  }

  lemma FirstKeyOf(s: cstring)
    ensures First(Keys(s)) == if s == [] || IsDigit(s[0]) then 0 else Order(s[0])
  {
    hide Order, Number, DigitsLength;
  }

  /** The first characters decide, if one of them is no digit. */
  lemma FirstDecides(s: cstring, t: cstring)
    ensures var x, y := First(Keys(s)), First(Keys(t)); x != y ==> ComparePolicy(s, t) == Sign(x - y)
  {
    hide ComparePolicy, Keys;
    LexIsPolicy(s, t);
    LexStep(Keys(s), Keys(t));
  }

  /** A tilde sorts before everything, even the end of a version. */
  lemma TildeFirst(a: cstring, x: cstring)
    ensures ComparePolicy(a + (['~' as int] + x), a) < 0
  {
    hide ComparePolicy, Keys, Order, First;
    var t: cstring := ['~' as int] + x;
    CommonFront(a, t, []);
    assert a + [] == a;
    FirstKeyOf(t);
    FirstKeyOf([]);
    FirstDecides(t, []);
    Orders(t[0], t[0]);
  }

  /** Everything else that is no digit sorts behind the end. */
  lemma EndFirst(a: cstring, c: cchar, x: cstring)
    requires c != '~' as int && !IsNumeral(c)
    ensures ComparePolicy(a + ([c] + x), a) > 0
  {
    hide ComparePolicy, Keys, Order, First;
    CommonFront(a, [c] + x, []);
    assert a + [] == a;
    FirstKeyOf([c] + x);
    FirstKeyOf([]);
    FirstDecides([c] + x, []);
    Orders(c, c);
  }

  lemma Orders(c: cchar, d: cchar)
    ensures Order('~' as int) < 0
    ensures c != '~' as int && !IsNumeral(c) ==> Order(c) > 0
    ensures !IsNumeral(c) && !IsNumeral(d) && Before(c, d) ==> Order(c) < Order(d)
    ensures IsDigit(c) <==> IsNumeral(c)
  {
  }

  /** Where two characters that are no digits differ, tildes come first, then letters, then all others. */
  lemma CharactersDecide(a: cstring, c: cchar, x: cstring, d: cchar, y: cstring)
    requires !IsNumeral(c) && !IsNumeral(d) && c != d
    ensures if Before(c, d) then ComparePolicy(a + ([c] + x), a + ([d] + y)) < 0 else ComparePolicy(a + ([c] + x), a + ([d] + y)) > 0
  {
    hide ComparePolicy, Keys, Order, First;
    CommonFront(a, [c] + x, [d] + y);
    FirstKeyOf([c] + x);
    FirstKeyOf([d] + y);
    FirstDecides([c] + x, [d] + y);
    Orders(c, d);
    Orders(d, c);
  }

  /** A number behind a text sorts like the end of the text. */
  lemma NumberIsEnd(a: cstring, c: cchar, x: cstring, d: cchar, y: cstring)
    requires (a == [] || !IsNumeral(a[|a| - 1])) && !IsNumeral(c) && IsNumeral(d)
    ensures if c == '~' as int then ComparePolicy(a + ([c] + x), a + ([d] + y)) < 0 else ComparePolicy(a + ([c] + x), a + ([d] + y)) > 0
  {
    hide ComparePolicy, Keys, Order, First;
    if a != [] { Orders(a[|a| - 1], c); }
    CommonFront(a, [c] + x, [d] + y);
    FirstKeyOf([c] + x);
    FirstKeyOf([d] + y);
    FirstDecides([c] + x, [d] + y);
    Orders(c, d);
    Orders(d, c);
  }

  ghost predicate AllDigits(s: cstring) { forall i :: 0 <= i < |s| ==> IsNumeral(s[i]) }

  /** Numbers at the same place are compared as numbers. */
  lemma NumbersDecide(a: cstring, u: cstring, x: cstring, v: cstring, y: cstring)
    requires a == [] || !IsNumeral(a[|a| - 1])
    requires u != [] && v != [] && AllDigits(u) && AllDigits(v) && (x == [] || !IsNumeral(x[0])) && (y == [] || !IsNumeral(y[0]))
    ensures Number(u) < Number(v) ==> ComparePolicy(a + (u + x), a + (v + y)) < 0
    ensures Number(u) == Number(v) ==> ComparePolicy(a + (u + x), a + (v + y)) == ComparePolicy(x, y)
  {
    hide ComparePolicy, Keys, Lex, Number, DigitsLength;
    CommonFront(a, u + x, v + y);
    DigitRun(u, x);
    DigitRun(v, y);
    KeysOfDigits(u + x, v + y);
    LexIsPolicy(u + x, v + y);
    LexIsPolicy(x, y);
  }

  lemma DigitRun(u: cstring, x: cstring)
    requires u != [] && AllDigits(u) && (x == [] || !IsNumeral(x[0]))
    ensures Leading(u + x) == (Number(u), x)
  {
    hide Number;
    DigitsStop(u, x);
    AllOfThem(u);
    assert (u + x)[..|u|] == u && (u + x)[|u|..] == x;
  }

  lemma {:induction false} AllOfThem(u: cstring)
    requires AllDigits(u)
    ensures DigitsLength(u) == |u|
    decreases |u|
  {
    if u == [] {
    } else {
      AllOfThem(u[1..]);
    }
  }

  // ---- Whole versions

  ghost predicate NoneOf(s: cstring, c: int) { forall i :: 0 <= i < |s| ==> s[i] != c }

  /** A version with an epoch of digits: the epoch is their number. */
  lemma EpochReads(e: cstring, v: cstring)
    requires e != [] && AllDigits(e)
    ensures var s := e + ([':' as int] + v); SplitEpoch(s) == (Number(e) % 0x1_0000_0000, v)
  {
    hide Number, DigitsLength;
    var s := e + ([':' as int] + v);
    assert s[0] == e[0];
    assert SkipSpace(s) == s;
    DigitsStop(e, [':' as int] + v);
    AllOfThem(e);
    assert s[..|e|] == e;
    ColonAt(e, v);
    assert s[|e| + 1..] == v;
  }

  lemma {:induction false} ColonAt(e: cstring, v: cstring)
    requires AllDigits(e)
    ensures FirstIndex(e + ([':' as int] + v), COLON) == |e|
    decreases |e|
  {
    var s := e + ([':' as int] + v);
    if e == [] {
      assert s[0] == COLON;
    } else {
      assert s[1..] == e[1..] + ([':' as int] + v);
      ColonAt(e[1..], v);
    }
  }

  lemma {:induction false} NoColon(s: cstring)
    requires NoneOf(s, ':' as int)
    ensures SplitEpoch(s) == (0, s)
  {
  }

  /** A larger epoch is later, whatever follows; no epoch is epoch zero. */
  lemma EpochDecides(e: cstring, v: cstring, f: cstring, w: cstring)
    requires e != [] && AllDigits(e) && f != [] && AllDigits(f) && Number(e) < Number(f) < 0x1_0000_0000
    ensures Satisfies(e + ([':' as int] + v), Less, f + ([':' as int] + w))
    ensures Satisfies(f + ([':' as int] + w), More, e + ([':' as int] + v))
    ensures NoneOf(v, ':' as int) ==> Satisfies(v, Less, f + ([':' as int] + w))
  {
    hide Number, ComparePolicy, SplitEpoch, SplitRevision;
    EpochReads(e, v);
    EpochReads(f, w);
    if NoneOf(v, ':' as int) {
      NoColon(v);
    }
  }

  lemma DashReads(u: cstring, r: cstring)
    requires NoneOf(r, '-' as int)
    ensures SplitRevision(u + (['-' as int] + r)) == (u, r)
  {
    var s := u + (['-' as int] + r);
    assert s[|u|] == DASH && forall i :: |u| < i < |s| ==> s[i] == r[i - |u| - 1];
    var k := LastIndex(s, DASH);
    assert k == |u|;
    assert s[..|u|] == u && s[|u| + 1..] == r;
  }

  lemma NoDash(s: cstring)
    requires NoneOf(s, '-' as int)
    ensures SplitRevision(s) == (s, [])
  {
  }

  /** Without epochs the upstream versions decide, and the revisions behind the last dash only if those are equal. */
  lemma UpstreamDecides(u: cstring, r: cstring, u': cstring, r': cstring)
    requires NoneOf(u, ':' as int) && NoneOf(r, ':' as int) && NoneOf(u', ':' as int) && NoneOf(r', ':' as int)
    requires NoneOf(r, '-' as int) && NoneOf(r', '-' as int)
    ensures var a, b := u + (['-' as int] + r), u' + (['-' as int] + r');
            && (ComparePolicy(u, u') < 0 ==> Satisfies(a, Less, b)) && (ComparePolicy(u, u') > 0 ==> Satisfies(a, More, b))
            && (ComparePolicy(u, u') == 0 && ComparePolicy(r, r') < 0 ==> Satisfies(a, Less, b))
            && (ComparePolicy(u, u') == 0 && ComparePolicy(r, r') > 0 ==> Satisfies(a, More, b))
            && (ComparePolicy(u, u') == 0 && ComparePolicy(r, r') == 0 ==> Satisfies(a, Equal, b))
  {
    hide ComparePolicy, SplitEpoch, SplitRevision;
    NoColon(u + (['-' as int] + r));
    NoColon(u' + (['-' as int] + r'));
    DashReads(u, r);
    DashReads(u', r');
  }

  /** A release candidate comes before the release. */
  lemma CandidateFirst(v: cstring, x: cstring)
    requires NoneOf(v, ':' as int) && NoneOf(v, '-' as int) && NoneOf(x, ':' as int) && NoneOf(x, '-' as int)
    ensures Satisfies(v + (['~' as int] + x), Less, v)
  {
    hide ComparePolicy, SplitEpoch, SplitRevision;
    NoColon(v);
    NoDash(v);
    NoColon(v + (['~' as int] + x));
    NoDash(v + (['~' as int] + x));
    TildeFirst(v, x);
  }

  /** Exactly one of earlier, equal and later holds, and the other operators follow from these. */
  lemma Operators(v: cstring, w: cstring)
    ensures Satisfies(v, Less, w) || Satisfies(v, Equal, w) || Satisfies(v, More, w)
    ensures !(Satisfies(v, Less, w) && Satisfies(v, Equal, w)) && !(Satisfies(v, Equal, w) && Satisfies(v, More, w))
    ensures !(Satisfies(v, Less, w) && Satisfies(v, More, w))
    ensures Satisfies(v, LessEqual, w) <==> Satisfies(v, Less, w) || Satisfies(v, Equal, w)
    ensures Satisfies(v, MoreEqual, w) <==> Satisfies(v, More, w) || Satisfies(v, Equal, w)
    ensures Satisfies(v, Any, w) && !Satisfies(v, Null, w)
    ensures Satisfies(v, Less, w) <==> Satisfies(w, More, v)
  {
    hide CompareVersions, Parse;
    VersionsAntisymmetric(Parse(v), Parse(w));
  }
}
