/** version_compare_part, version_compare and test_version. */
module DpkgCompare {
  import opened DpkgVersion

  /** The character at a pointer; the pointer may stand on the terminator but not behind it. */
  function Char(s: cstring, i: nat): (c: int)
    requires i <= |s|
    ensures 0 <= c < 256 && (c == 0 <==> i == |s|)
  {
    if i < |s| then s[i] else 0
  }

  // ---- Numbers

  function Pow10(n: nat): (r: nat)
    ensures r >= 1
  {
    if n == 0 then 1 else 10 * Pow10(n - 1)
  }

  ghost predicate Digits(d: cstring) { forall i :: 0 <= i < |d| ==> IsDigit(d[i]) }

  lemma {:induction false} NumberBounds(d: cstring)
    requires Digits(d)
    ensures Number(d) < Pow10(|d|) && (d != [] && d[0] != ZERO ==> Number(d) >= Pow10(|d| - 1))
    decreases |d|
  {
    if d == [] {
    } else {
      var k := |d| - 1;
      NumberBounds(d[..k]);
      assert IsDigit(d[k]);
    }
  }

  lemma {:induction false} Pow10Grows(m: nat, n: nat)
    requires m <= n
    ensures Pow10(m) <= Pow10(n)
  {
    if m >= n {
    } else {
      Pow10Grows(m, n - 1);
    }
  }

  /** Without leading zeros, the longer number is the larger one. */
  lemma MoreDigits(x: cstring, y: cstring)
    requires Digits(x) && Digits(y) && |x| > |y| && x[0] != ZERO
    ensures Number(x) > Number(y)
  {
    NumberBounds(x);
    NumberBounds(y);
    Pow10Grows(|y|, |x| - 1);
  }

  /** One more digit on both sides. */
  lemma DigitStep(x: cstring, y: cstring, c: cchar, d: cchar)
    requires Digits(x) && Digits(y) && IsDigit(c) && IsDigit(d)
    ensures Digits(x + [c]) && Digits(y + [d])
    ensures Sign(Number(x + [c]) - Number(y + [d]))
         == if Number(x) != Number(y) then Sign(Number(x) - Number(y)) else Sign(c - d)
  {
    hide Number;
    NumberAppend(x, c);
    NumberAppend(y, d);
  }

  lemma NumberAppend(x: cstring, c: cchar)
    requires Digits(x) && IsDigit(c)
    ensures Digits(x + [c]) && Number(x + [c]) == 10 * Number(x) + (c - ZERO) && 0 <= c - ZERO <= 9
  {
    assert (x + [c])[..|x|] == x;
  }

  lemma {:induction false} DropZero(d: cstring)
    requires Digits(d) && d != [] && d[0] == ZERO
    ensures Number(d[1..]) == Number(d)
    decreases |d|
  {
    var k := |d| - 1;
    if k > 0 {
      DropZero(d[..k]);
      assert d[1..][..k - 1] == d[..k][1..];
    } else {
      assert d[1..] == [] && d[..0] == [];
    }
  }

  /** Where the run of digits at `i` ends. */
  function RunEnd(s: cstring, i: nat): (e: nat)
    requires i <= |s|
    ensures i <= e <= |s| && Digits(s[i..e]) && (e < |s| ==> !IsDigit(s[e]))
  {
    var d := DigitsLength(s[i..]);
    assert forall k :: 0 <= k < d ==> s[i..][k] == s[i + k];
    i + d
  }

  /** The pointer moves over zeros. */
  method SkipZeros(s: cstring, i0: nat) returns (i: nat)
    requires i0 <= |s|
    ensures i0 <= i <= RunEnd(s, i0) && Char(s, i) != ZERO && Number(s[i..RunEnd(s, i0)]) == Number(s[i0..RunEnd(s, i0)])
  {
    hide Number, RunEnd;
    i := i0;
    ghost var e := RunEnd(s, i0);
    while Char(s, i) == ZERO
      invariant i0 <= i <= e && Number(s[i..e]) == Number(s[i0..e])
      decreases |s| - i
    {
      RunInside(s, i0, i);
      DropZero(s[i..e]);
      assert s[i..e][1..] == s[i + 1..e];
      i := i + 1;
    }
  }

  /** The numbers at `i0` and `j0`: zeros are skipped, then digits compared side by side. */
  method CompareNumbers(val: cstring, ref: cstring, i0: nat, j0: nat) returns (r: int, i: nat, j: nat)
    requires i0 <= |val| && j0 <= |ref|
    ensures i <= |val| && j <= |ref|
    ensures Sign(r) == Sign(Number(val[i0..RunEnd(val, i0)]) - Number(ref[j0..RunEnd(ref, j0)]))
    ensures r == 0 ==> i == RunEnd(val, i0) && j == RunEnd(ref, j0)
  {
    hide Number, RunEnd;
    ghost var e, f := RunEnd(val, i0), RunEnd(ref, j0);
    i := SkipZeros(val, i0);
    j := SkipZeros(ref, j0);
    ghost var a, b := i, j;
    var firstDiff := 0;
    NumberOfNone();
    assert val[a..i] == [] && ref[b..j] == [];
    while IsDigit(Char(val, i)) && IsDigit(Char(ref, j))
      invariant a <= i <= e && b <= j <= f && i - a == j - b && Digits(val[a..i]) && Digits(ref[b..j])
      invariant Sign(firstDiff) == Sign(Number(val[a..i]) - Number(ref[b..j]))
      decreases |val| - i
    {
      assert i < e && j < f;
      DigitStep(val[a..i], ref[b..j], val[i], ref[j]);
      assert val[a..i] + [val[i]] == val[a..i + 1] && ref[b..j] + [ref[j]] == ref[b..j + 1];
      if firstDiff == 0 {
        firstDiff := Char(val, i) - Char(ref, j);
      }
      i, j := i + 1, j + 1;
    }
    RunInside(val, i0, i);
    RunInside(ref, j0, j);
    if IsDigit(Char(val, i)) {
      MoreDigits(val[a..e], ref[b..f]);
      return 1, i, j;
    }
    if IsDigit(Char(ref, j)) {
      MoreDigits(ref[b..f], val[a..e]);
      return -1, i, j;
    }
    r := firstDiff;
  }

  /** A pointer in a run is at its end iff it does not stand on a digit. */
  lemma RunInside(s: cstring, i0: nat, i: nat)
    requires i0 <= |s| && i0 <= i <= RunEnd(s, i0)
    ensures i < RunEnd(s, i0) <==> IsDigit(Char(s, i))
    ensures Digits(s[i..RunEnd(s, i0)])
  {
    hide RunEnd;
    var e := RunEnd(s, i0);
    if i < e {
      assert s[i] == s[i0..e][i - i0];
    }
    forall k | 0 <= k < e - i ensures IsDigit(s[i..e][k]) {
      assert s[i..e][k] == s[i0..e][i - i0 + k];
    }
  }

  lemma NumberOfNone()
    ensures Number([]) == 0
  {
  }

  // ---- The scanner

  lemma LeadingIs(s: cstring, i: nat)
    requires i <= |s|
    ensures Leading(s[i..]) == (Number(s[i..RunEnd(s, i)]), s[RunEnd(s, i)..])
  {
    var d := DigitsLength(s[i..]);
    assert s[i..][..d] == s[i..i + d] && s[i..][d..] == s[i + d..];
  }

  /** What a step over two equal characters keeps, and what two different ones decide. */
  lemma TextStep(val: cstring, ref: cstring, i: nat, j: nat)
    requires i <= |val| && j <= |ref|
    requires (i < |val| && !IsDigit(val[i])) || (j < |ref| && !IsDigit(ref[j]))
    ensures var v, w := Order(Char(val, i)), Order(Char(ref, j));
            var l := Lex(Keys(val[i..]), Keys(ref[j..]));
            && (v != w ==> l == Sign(v - w))
            && (v == w ==> i < |val| && j < |ref| && l == Lex(Keys(val[i + 1..]), Keys(ref[j + 1..])))
  {
    hide Keys, Lex, Order;
    var a, b := val[i..], ref[j..];
    FirstKey(val, i);
    FirstKey(ref, j);
    LexStep(Keys(a), Keys(b));
    if First(Keys(a)) == First(Keys(b)) {
      SameCharacter(a, b);
      assert a[1..] == val[i + 1..] && b[1..] == ref[j + 1..];
    }
  }

  lemma FirstKey(s: cstring, i: nat)
    requires i <= |s|
    ensures First(Keys(s[i..])) == Order(Char(s, i))
  {
    var t := s[i..];
    if i < |s| {
      assert t[0] == s[i];
    }
    if t == [] || IsDigit(t[0]) {
      DigitKeys(t);
    }
  }

  /** version_compare_part: the sign of the result is that of the policy. */
  method VersionComparePart(val: cstring, ref: cstring) returns (r: int)
    ensures Sign(r) == ComparePolicy(val, ref)
  {
    hide Keys, Lex, ComparePolicy, Number, RunEnd, Order, Leading;
    LexIsPolicy(val, ref);
    ghost var goal := Lex(Keys(val), Keys(ref));
    var i: nat, j: nat := 0, 0;
    assert val[0..] == val && ref[0..] == ref;
    while Char(val, i) != 0 || Char(ref, j) != 0
      invariant i <= |val| && j <= |ref| && Lex(Keys(val[i..]), Keys(ref[j..])) == goal
      decreases |val| - i + |ref| - j
    {
      ghost var i0, j0 := i, j;
      while (Char(val, i) != 0 && !IsDigit(Char(val, i))) || (Char(ref, j) != 0 && !IsDigit(Char(ref, j)))
        invariant i0 <= i <= |val| && j0 <= j <= |ref| && Lex(Keys(val[i..]), Keys(ref[j..])) == goal
        decreases |val| - i
      {
        TextStep(val, ref, i, j);
        var vc, rc := Order(Char(val, i)), Order(Char(ref, j));
        if vc != rc {
          return vc - rc;
        }
        i, j := i + 1, j + 1;
      }
      KeysOfDigits(val[i..], ref[j..]);
      LeadingIs(val, i);
      LeadingIs(ref, j);
      RunInside(val, i, i);
      RunInside(ref, j, j);
      var d;
      d, i, j := CompareNumbers(val, ref, i, j);
      if d != 0 {
        return d;
      }
    }
    assert val[i..] == [] && ref[j..] == [];
    NoKeys();
    r := 0;
  }

  lemma NoKeys()
    ensures Lex(Keys([]), Keys([])) == 0
  {
  }

  /** Parts that say nothing, at the end, are dropped. */
  function Trim(p: seq<Part>): seq<Part> {
    if p == [] then []
    else var r := Trim(p[1..]); if r == [] && p[0] == Part([], 0) then [] else [p[0]] + r
  }

  lemma TrimHead(p: seq<Part>)
    ensures Head(Trim(p)) == Head(p) && Tail(Trim(p)) == Trim(Tail(p))
  {
    if p != [] {
      var r := Trim(p[1..]);
      assert ([p[0]] + r)[1..] == r;
    }
  }

  lemma SameTrims(p: seq<Part>, q: seq<Part>)
    ensures Trim(p) == Trim(q) <==> Head(p) == Head(q) && Trim(Tail(p)) == Trim(Tail(q))
  {
    TrimHead(p);
    TrimHead(q);
    if Head(p) == Head(q) && Trim(Tail(p)) == Trim(Tail(q)) {
      if p == [] || q == [] {
        var e: seq<Part> := [];
        assert Trim(e) == [];
      }
    }
  }

  lemma {:induction false} SameTexts(a: cstring, b: cstring)
    requires (forall i :: 0 <= i < |a| ==> !IsDigit(a[i])) && forall i :: 0 <= i < |b| ==> !IsDigit(b[i])
    ensures CompareText(a, b) == 0 <==> a == b
    decreases |a| + |b|
  {
    if a != [] && b != [] {
      OrderInjective(a[0], b[0]);
      SameTexts(a[1..], b[1..]);
      assert a == [a[0]] + a[1..] && b == [b[0]] + b[1..];
    } else if a != [] {
      OrderInjective(a[0], a[0]);
    } else if b != [] {
      OrderInjective(b[0], b[0]);
    }
  }

  ghost predicate Texts(p: seq<Part>) {
    forall k :: 0 <= k < |p| ==> forall i :: 0 <= i < |p[k].text| ==> !IsDigit(p[k].text[i])
  }

  lemma {:induction false} PartsTexts(s: cstring)
    ensures Texts(Parts(s))
    decreases |s|
  {
    hide Number, DigitsLength, TextLength;
    if s == [] {
    } else {
      PartsSplit(s);
      PartsTexts(Split(s).1);
    }
  }

  lemma {:induction false} EqualParts(p: seq<Part>, q: seq<Part>)
    requires Texts(p) && Texts(q)
    ensures CompareParts(p, q) == 0 <==> Trim(p) == Trim(q)
    decreases |p| + |q|
  {
    hide CompareText, Trim;
    SameTrims(p, q);
    if p == [] && q == [] {
    } else {
      SameTexts(Head(p).text, Head(q).text);
      EqualParts(Tail(p), Tail(q));
    }
  }

  /** Zero exactly on versions with the same texts and the same numbers: equal up to leading zeros, and up to a
      zero at the end. */
  lemma EqualVersions(a: cstring, b: cstring)
    ensures ComparePolicy(a, b) == 0 <==> Trim(Parts(a)) == Trim(Parts(b))
  {
    PartsTexts(a);
    PartsTexts(b);
    EqualParts(Parts(a), Parts(b));
  }

  // ---- Whole versions

  /** The position of the first `c`, or the length. */
  function FirstIndex(s: cstring, c: int): (k: nat)
    ensures k <= |s| && (k < |s| ==> s[k] == c) && forall i :: 0 <= i < k ==> s[i] != c
  {
    if s == [] || s[0] == c then 0 else 1 + FirstIndex(s[1..], c)
  }

  /** The position of the last `c`, or the length. */
  function LastIndex(s: cstring, c: int): (k: nat)
    ensures k <= |s| && (k < |s| ==> s[k] == c && forall i :: k < i < |s| ==> s[i] != c)
    ensures k == |s| ==> forall i :: 0 <= i < |s| ==> s[i] != c
  {
    if s == [] then 0
    else
      var n := |s| - 1;
      if s[n] == c then n else var k := LastIndex(s[..n], c); if k == n then |s| else k
  }

  const COLON := 58
  const DASH := 45

  function SkipSpace(s: cstring): cstring {
    if s != [] && (s[0] == 32 || 9 <= s[0] <= 13) then SkipSpace(s[1..]) else s
  }

  /** atoi, then stored in an unsigned of 32 bits. */
  function Epoch(s: cstring): (r: nat)
    ensures r < 0x1_0000_0000
  {
    var t := SkipSpace(s);
    var negative := t != [] && t[0] == DASH;
    var u := if t != [] && (t[0] == DASH || t[0] == 43) then t[1..] else t;
    var n: int := Number(u[..DigitsLength(u)]);
    (if negative then -n else n) % 0x1_0000_0000
  }

  datatype Version = Version(epoch: nat, upstream: cstring, revision: cstring)

  /** The epoch up to the first colon, and the rest. */
  function SplitEpoch(s: cstring): (nat, cstring) {
    var colon := FirstIndex(s, COLON);
    if colon < |s| then (Epoch(s), s[colon + 1..]) else (0, s)
  }

  /** The upstream version up to the last dash, and the revision. */
  function SplitRevision(s: cstring): (cstring, cstring) {
    var dash := LastIndex(s, DASH);
    if dash < |s| then (s[..dash], s[dash + 1..]) else (s, [])
  }

  function Parse(s: cstring): Version {
    var (epoch, rest) := SplitEpoch(s);
    var (upstream, revision) := SplitRevision(rest);
    Version(epoch, upstream, revision)
  }

  /** Epoch, then upstream version, then revision. */
  function CompareVersions(v: Version, w: Version): int {
    if v.epoch != w.epoch then Sign(v.epoch - w.epoch)
    else
      var u := ComparePolicy(v.upstream, w.upstream);
      if u != 0 then u else ComparePolicy(v.revision, w.revision)
  }

  /** version_compare */
  method VersionCompare(ver1: cstring, ver2: cstring) returns (result: int)
    ensures Sign(result) == CompareVersions(Parse(ver1), Parse(ver2))
  {
    hide ComparePolicy, SplitEpoch, SplitRevision;
    var (epoch1, ch1) := SplitEpoch(ver1);
    var (epoch2, ch2) := SplitEpoch(ver2);
    if epoch1 < epoch2 {
      return -1;
    }
    if epoch1 > epoch2 {
      return 1;
    }
    var (upstream1, deb1) := SplitRevision(ch1);
    var (upstream2, deb2) := SplitRevision(ch2);
    result := VersionComparePart(upstream1, upstream2);
    if result == 0 {
      result := VersionComparePart(deb1, deb2);
    }
  }

  lemma PolicyAntisymmetric(a: cstring, b: cstring)
    ensures ComparePolicy(a, b) == -ComparePolicy(b, a)
  {
    LexIsPolicy(a, b);
    LexIsPolicy(b, a);
    LexAntisymmetric(Keys(a), Keys(b));
  }

  lemma PolicyTransitive(a: cstring, b: cstring, c: cstring)
    requires ComparePolicy(a, b) <= 0 && ComparePolicy(b, c) <= 0
    ensures ComparePolicy(a, c) <= 0 && (ComparePolicy(a, b) < 0 || ComparePolicy(b, c) < 0 ==> ComparePolicy(a, c) < 0)
  {
    hide ComparePolicy, Keys, Lex;
    LexIsPolicy(a, b);
    LexIsPolicy(b, c);
    LexIsPolicy(a, c);
    LexTransitive(Keys(a), Keys(b), Keys(c));
  }

  lemma VersionsAntisymmetric(v: Version, w: Version)
    ensures CompareVersions(v, w) == -CompareVersions(w, v)
  {
    hide ComparePolicy;
    PolicyAntisymmetric(v.upstream, w.upstream);
    PolicyAntisymmetric(v.revision, w.revision);
  }

  /** The order of versions is transitive, strictly if one of the steps is strict. */
  lemma VersionsTransitive(u: Version, v: Version, w: Version)
    requires CompareVersions(u, v) <= 0 && CompareVersions(v, w) <= 0
    ensures CompareVersions(u, w) <= 0
    ensures CompareVersions(u, v) < 0 || CompareVersions(v, w) < 0 ==> CompareVersions(u, w) < 0
  {
    hide ComparePolicy;
    if u.epoch == v.epoch == w.epoch {
      PolicyTransitive(u.upstream, v.upstream, w.upstream);
      if ComparePolicy(u.upstream, v.upstream) == 0 && ComparePolicy(v.upstream, w.upstream) == 0 {
        PolicyAntisymmetric(u.upstream, v.upstream);
        PolicyAntisymmetric(v.upstream, w.upstream);
        PolicyAntisymmetric(u.upstream, w.upstream);
        PolicyTransitive(w.upstream, v.upstream, u.upstream);
        PolicyTransitive(u.revision, v.revision, w.revision);
      }
    }
  }

  datatype Operator = Null | Equal | Less | LessEqual | More | MoreEqual | Any

  /** Whether a version relation holds, in terms of the order. */
  ghost predicate Satisfies(v: cstring, op: Operator, w: cstring) {
    var c := CompareVersions(Parse(v), Parse(w));
    match op
    case Any => true
    case Equal => c == 0
    case Less => c < 0
    case LessEqual => c <= 0
    case More => c > 0
    case MoreEqual => c >= 0
    case Null => false
  }

  /** Equal versions stand in the same relations. */
  lemma EqualRelations(v: cstring, w: cstring, op: Operator, x: cstring)
    requires Satisfies(v, Equal, w)
    ensures Satisfies(w, Equal, v) && (Satisfies(v, op, x) <==> Satisfies(w, op, x))
  {
    hide CompareVersions, Parse;
    var a, b, c := Parse(v), Parse(w), Parse(x);
    VersionsAntisymmetric(a, b);
    VersionsAntisymmetric(a, c);
    VersionsAntisymmetric(b, c);
    Replace(a, b, c);
    Replace(b, a, c);
  }

  lemma Replace(a: Version, b: Version, c: Version)
    requires CompareVersions(a, b) == 0
    ensures CompareVersions(a, c) <= 0 ==> CompareVersions(b, c) <= 0
    ensures CompareVersions(a, c) < 0 ==> CompareVersions(b, c) < 0
    ensures CompareVersions(c, a) <= 0 ==> CompareVersions(c, b) <= 0
    ensures CompareVersions(c, a) < 0 ==> CompareVersions(c, b) < 0
  {
    hide CompareVersions;
    VersionsAntisymmetric(a, b);
    if CompareVersions(a, c) <= 0 {
      VersionsTransitive(b, a, c);
    }
    if CompareVersions(c, a) <= 0 {
      VersionsTransitive(c, a, b);
    }
  }

  lemma SelfEqual(v: cstring)
    ensures Satisfies(v, Equal, v)
  {
    hide CompareVersions, Parse;
    VersionsAntisymmetric(Parse(v), Parse(v));
  }

  /** test_version */
  method TestVersion(version1: cstring, version2: cstring, op: Operator) returns (r: bool)
    ensures r <==> Satisfies(version1, op, version2)
  {
    hide CompareVersions, Parse;
    var c := VersionCompare(version1, version2);
    match op {
      case Any => r := true;
      case Equal => r := c == 0;
      case Less => r := c < 0;
      case LessEqual => r := c <= 0;
      case More => r := c > 0;
      case MoreEqual => r := c >= 0;
      case Null => r := false;
    }
  }
}
