/** add_split_dependencies: a dependency field as comma groups of alternatives. */
module DpkgParse {
  import opened Basics
  import opened DpkgVersion
  import opened DpkgCompare
  import opened DpkgCheck

  const COMMA := 44
  const BAR := 124
  const ANY_NAME: cstring := [65, 78, 89]

  /** One alternative: a package name and a relation to a version. */
  datatype Dep = Dep(name: cstring, op: Operator, version: cstring)

  /** One comma group: its text and its alternatives. */
  datatype Field = Field(text: cstring, alternatives: seq<Dep>)

  datatype Result<T> = Ok(value: T) | NullPointer | IllegalOperator

  // ---- strtok_r and strspn

  function SkipSet(s: cstring, set_: set<int>): (r: cstring)
    ensures |r| <= |s|
  {
    if s != [] && s[0] as int in set_ then SkipSet(s[1..], set_) else s
  }

  /** How many characters at the front are in the set. */
  function Span(s: cstring, set_: set<int>): (n: nat)
    ensures n <= |s|
  {
    if s != [] && s[0] as int in set_ then 1 + Span(s[1..], set_) else 0
  }

  /** strtok_r: the next token and what is left behind it. */
  function Strtok(s: cstring, c: int): (r: Option<(cstring, cstring)>)
    ensures r.Some? ==> r.value.0 != [] && |r.value.0| + |r.value.1| <= |s| && forall i :: 0 <= i < |r.value.0| ==> r.value.0[i] != c
  {
    var t := SkipSet(s, {c});
    if t == [] then None
    else
      var k := FirstIndex(t, c);
      SkipSetStops(s, {c});
      Some((t[..k], if k < |t| then t[k + 1..] else []))
  }

  lemma SkipSetStops(s: cstring, set_: set<int>)
    ensures SkipSet(s, set_) != [] ==> SkipSet(s, set_)[0] as int !in set_
  {
  }

  // ---- One alternative

  /** The operator characters in front of a version; `garbage` is what the fresh edge happened to hold. */
  function ParseOperator(chars: cstring, garbage: Operator): Result<Operator> {
    if chars == [] then Ok(garbage)
    else if chars <= [61] then Ok(Equal)
    else if chars <= [60, 60] then Ok(Less)
    else if chars <= [60, 61] then Ok(LessEqual)
    else if chars <= [62, 62] then Ok(More)
    else if chars <= [62, 61] then Ok(MoreEqual)
    else IllegalOperator
  }

  function ParseDep(token: cstring, garbage: Operator): Result<Dep> {
    var s := SkipSet(token, {32});
    var v := FirstIndex(s, 40);
    var name := Until(s, {32, 40});
    if v == |s| then Ok(Dep(name, Any, ANY_NAME))
    else
      var t := SkipSet(s[v..], {32, 40});
      var k := Span(t, {60, 61, 62});
      match ParseOperator(t[..k], garbage)
      case Ok(op) => Ok(Dep(name, op, Until(SkipSet(t[k..], {32}), {32, 41})))
      case NullPointer => NullPointer
      case IllegalOperator => IllegalOperator
  }

  /** The alternatives of a group. */
  function ParseAlternatives(s: cstring, garbage: Operator): Result<seq<Dep>>
    decreases |s|
  {
    var t := Strtok(s, BAR);
    if t.None? then Ok([])
    else
      match ParseDep(t.value.0, garbage)
      case NullPointer => NullPointer
      case IllegalOperator => IllegalOperator
      case Ok(d) =>
        match ParseAlternatives(t.value.1, garbage)
        case Ok(ds) => Ok([d] + ds)
        case NullPointer => NullPointer
        case IllegalOperator => IllegalOperator
  }

  /** A group without any alternative makes the program use a null pointer. */
  function ParseField(token: cstring, garbage: Operator): Result<Field> {
    var text := SkipSet(token, {32});
    if Strtok(text, BAR).None? then NullPointer
    else
      match ParseAlternatives(text, garbage)
      case Ok(ds) => Ok(Field(text, ds))
      case NullPointer => NullPointer
      case IllegalOperator => IllegalOperator
  }

  function ParseFields(s: cstring, garbage: Operator): Result<seq<Field>>
    decreases |s|
  {
    var t := Strtok(s, COMMA);
    if t.None? then Ok([])
    else
      match ParseField(t.value.0, garbage)
      case NullPointer => NullPointer
      case IllegalOperator => IllegalOperator
      case Ok(f) =>
        match ParseFields(t.value.1, garbage)
        case Ok(fs) => Ok([f] + fs)
        case NullPointer => NullPointer
        case IllegalOperator => IllegalOperator
  }

  /** A field without any group is a null pointer, too. */
  function ParseLine(line: cstring, garbage: Operator): Result<seq<Field>> {
    if Strtok(line, COMMA).None? then NullPointer else ParseFields(line, garbage)
  }

  // ---- Round trip

  function OperatorText(op: Operator): cstring {
    match op
    case Equal => [61]
    case Less => [60, 60]
    case LessEqual => [60, 61]
    case More => [62, 62]
    case MoreEqual => [62, 61]
    case Any => []
    case Null => []
  }

  function DepText(d: Dep): cstring {
    if d.op == Any then d.name else d.name + [32, 40] + OperatorText(d.op) + [32] + d.version + [41]
  }

  function AlternativesText(ds: seq<Dep>): cstring {
    if ds == [] then [] else if |ds| == 1 then DepText(ds[0]) else DepText(ds[0]) + [32, BAR, 32] + AlternativesText(ds[1..])
  }

  function LineText(fs: seq<seq<Dep>>): cstring {
    if fs == [] then [] else if |fs| == 1 then AlternativesText(fs[0]) else AlternativesText(fs[0]) + [COMMA, 32] + LineText(fs[1..])
  }

  /** Characters that names and versions are made of. */
  ghost predicate Plain(s: cstring) {
    s != [] && forall i :: 0 <= i < |s| ==> s[i] as int !in {32, 40, 41, COMMA, BAR, 60, 61, 62}
  }

  ghost predicate PlainDep(d: Dep) {
    Plain(d.name) && d.op != Null && (if d.op == Any then d.version == ANY_NAME else Plain(d.version))
  }

  ghost predicate Within(s: cstring, set_: set<int>) { forall i :: 0 <= i < |s| ==> s[i] as int in set_ }

  lemma {:induction false} SkipAppend(x: cstring, y: cstring, set_: set<int>)
    requires Within(x, set_) && (y == [] || y[0] as int !in set_)
    ensures SkipSet(x + y, set_) == y && Span(x + y, set_) == |x|
    decreases |x|
  {
    if x == [] {
      assert x + y == y;
    } else {
      assert (x + y)[1..] == x[1..] + y;
      SkipAppend(x[1..], y, set_);
    }
  }

  lemma {:induction false} IndexAppend(x: cstring, y: cstring, c: int)
    requires Without(x, {c}) && Stops(y, {c})
    ensures FirstIndex(x + y, c) == |x|
    decreases |x|
  {
    if x == [] {
      assert x + y == y;
    } else {
      assert (x + y)[1..] == x[1..] + y;
      IndexAppend(x[1..], y, c);
    }
  }

  /** The first token, when it does not start with the delimiter. */
  lemma FirstToken(x: cstring, y: cstring, c: int)
    requires x != [] && Without(x, {c}) && Stops(y, {c})
    ensures Strtok(x + y, c) == Some((x, if y == [] then [] else y[1..]))
  {
    assert [] + (x + y) == x + y;
    SkipAppend([], x + y, {c});
    IndexAppend(x, y, c);
    assert (x + y)[..|x|] == x;
    if y != [] {
      assert (x + y)[|x| + 1..] == y[1..];
    }
  }

  /** Behind an operator: a space, the version, the closing parenthesis. */
  function RelationText(d: Dep): cstring { [32] + d.version + [41] }

  lemma OperatorReads(op: Operator, garbage: Operator)
    requires op != Null && op != Any
    ensures ParseOperator(OperatorText(op), garbage) == Ok(op) && OperatorText(op) != [] && Within(OperatorText(op), {60, 61, 62})
  {
    var t := OperatorText(op);
    NotPrefix(t, [61], 0);
    NotPrefix(t, [60, 60], 1);
    NotPrefix(t, [60, 61], 1);
    NotPrefix(t, [62, 62], 1);
    NotPrefix(t, [62, 61], 1);
    NotPrefix(t, [60, 60], 0);
    NotPrefix(t, [60, 61], 0);
  }

  lemma NotPrefix(a: cstring, b: cstring, i: nat)
    ensures i < |a| && i < |b| && a[i] != b[i] ==> !(a <= b)
  {
  }

  /** The part in parentheses. */
  lemma RelationReads(d: Dep, post: cstring, garbage: Operator)
    requires PlainDep(d) && d.op != Any
    ensures var t := OperatorText(d.op) + (RelationText(d) + post);
            var k := Span(t, {60, 61, 62});
            t[..k] == OperatorText(d.op) && Until(SkipSet(t[k..], {32}), {32, 41}) == d.version
  {
    hide SkipSet, Span, Until;
    var o, r := OperatorText(d.op), RelationText(d) + post;
    OperatorReads(d.op, d.op);
    SkipAppend(o, r, {60, 61, 62});
    assert (o + r)[..|o|] == o && (o + r)[|o|..] == r;
    var y := [41] + post;
    assert r == [32] + (d.version + y);
    SkipAppend([32], d.version + y, {32});
    UntilAppend(d.version, y, {32, 41});
  }

  /** An alternative reads back, with a space before or behind it or not. */
  lemma DepReads(d: Dep, pre: cstring, post: cstring, garbage: Operator)
    requires PlainDep(d) && Within(pre, {32}) && Within(post, {32})
    ensures ParseDep(pre + DepText(d) + post, garbage) == Ok(d)
  {
    hide SkipSet, Span, Until, FirstIndex, ParseOperator, OperatorText;
    var s := DepText(d) + post;
    assert pre + DepText(d) + post == pre + s;
    DepStarts(d);
    assert s[0] == DepText(d)[0];
    SkipAppend(pre, s, {32});
    if d.op == Any {
      UntilAppend(d.name, post, {32, 40});
      var e: cstring := [];
      assert s + e == s;
      IndexAppend(s, e, 40);
    } else {
      var t := OperatorText(d.op) + (RelationText(d) + post);
      assert s == d.name + ([32, 40] + t);
      UntilAppend(d.name, [32, 40] + t, {32, 40});
      var x := d.name + [32];
      assert s == x + ([40] + t);
      IndexAppend(x, [40] + t, 40);
      assert s[|x|..] == [40] + t;
      OperatorReads(d.op, garbage);
      SkipAppend([40], t, {32, 40});
      RelationReads(d, post, garbage);
    }
  }

  lemma DepStarts(d: Dep)
    requires PlainDep(d)
    ensures DepText(d) != [] && DepText(d)[0] == d.name[0] && DepText(d)[0] != 32 && Without(DepText(d), {COMMA, BAR})
  {
  }

  ghost predicate PlainDeps(ds: seq<Dep>) {
    ds != [] && forall i :: 0 <= i < |ds| ==> PlainDep(ds[i])
  }

  /** A group reads back. */
  lemma {:induction false} AlternativesRead(ds: seq<Dep>, pre: cstring, garbage: Operator)
    requires PlainDeps(ds) && (pre == [] || pre == [32])
    ensures Strtok(pre + AlternativesText(ds), BAR).Some?
    ensures ParseAlternatives(pre + AlternativesText(ds), garbage) == Ok(ds)
    decreases |ds|
  {
    hide ParseAlternatives, Strtok, DepText, PlainDep;
    var d := ds[0];
    if |ds| == 1 {
      LastReads(d, pre, garbage);
      assert ds == [d];
    } else {
      AlternativesRead(ds[1..], [32], garbage);
      FirstReads(d, ds[1..], pre, AlternativesText(ds[1..]), garbage);
      assert pre + AlternativesText(ds) == pre + DepText(d) + [32, BAR, 32] + AlternativesText(ds[1..]);
      assert ds == [d] + ds[1..];
    }
  }

  lemma LastReads(d: Dep, pre: cstring, garbage: Operator)
    requires PlainDep(d) && (pre == [] || pre == [32])
    ensures Strtok(pre + DepText(d), BAR).Some? && ParseAlternatives(pre + DepText(d), garbage) == Ok([d])
  {
    hide ParseDep, Strtok, DepText;
    DepStarts(d);
    var x, e: cstring := pre + DepText(d), [];
    assert x + e == x;
    FirstToken(x, e, BAR);
    DepReads(d, pre, e, garbage);
    NothingLeft(garbage);
    assert [d] + [] == [d];
  }

  lemma FirstReads(d: Dep, ds: seq<Dep>, pre: cstring, text: cstring, garbage: Operator)
    requires PlainDep(d) && (pre == [] || pre == [32]) && ParseAlternatives([32] + text, garbage) == Ok(ds)
    ensures var t := pre + DepText(d) + [32, BAR, 32] + text;
            Strtok(t, BAR).Some? && ParseAlternatives(t, garbage) == Ok([d] + ds)
  {
    hide ParseDep, Strtok, DepText;
    DepStarts(d);
    var x, y := pre + DepText(d) + [32], [BAR, 32] + text;
    assert pre + DepText(d) + [32, BAR, 32] + text == x + y;
    FirstToken(x, y, BAR);
    DepReads(d, pre, [32], garbage);
    assert y[1..] == [32] + text;
  }

  lemma NothingLeft(garbage: Operator)
    ensures ParseAlternatives([], garbage) == Ok([]) && ParseFields([], garbage) == Ok([])
  {
  }

  lemma {:induction false} AlternativesStart(ds: seq<Dep>)
    requires PlainDeps(ds)
    ensures var t := AlternativesText(ds); t != [] && t[0] != 32 && Without(t, {COMMA})
    decreases |ds|
  {
    hide DepText;
    DepStarts(ds[0]);
    if |ds| <= 1 {
    } else {
      AlternativesStart(ds[1..]);
      var a, b, c := DepText(ds[0]), [32, BAR, 32], AlternativesText(ds[1..]);
      assert AlternativesText(ds) == a + b + c;
    }
  }

  lemma FieldReads(ds: seq<Dep>, pre: cstring, garbage: Operator)
    requires PlainDeps(ds) && (pre == [] || pre == [32])
    ensures ParseField(pre + AlternativesText(ds), garbage) == Ok(Field(AlternativesText(ds), ds))
  {
    hide ParseAlternatives, Strtok, SkipSet, AlternativesText;
    AlternativesStart(ds);
    SkipAppend(pre, AlternativesText(ds), {32});
    var e: cstring := [];
    assert e + AlternativesText(ds) == AlternativesText(ds);
    AlternativesRead(ds, e, garbage);
  }

  ghost function Fields(fs: seq<seq<Dep>>): seq<Field> {
    seq(|fs|, i requires 0 <= i < |fs| => Field(AlternativesText(fs[i]), fs[i]))
  }

  lemma {:induction false} FieldsRead(fs: seq<seq<Dep>>, pre: cstring, garbage: Operator)
    requires fs != [] && (forall i :: 0 <= i < |fs| ==> PlainDeps(fs[i])) && (pre == [] || pre == [32])
    ensures Strtok(pre + LineText(fs), COMMA).Some? && ParseFields(pre + LineText(fs), garbage) == Ok(Fields(fs))
    decreases |fs|
  {
    hide ParseFields, Strtok, AlternativesText, PlainDeps;
    var a := AlternativesText(fs[0]);
    var f := Field(a, fs[0]);
    if |fs| == 1 {
      LastFieldReads(fs[0], pre, garbage);
      assert Fields(fs) == [f];
    } else {
      FieldsRead(fs[1..], [32], garbage);
      FirstFieldReads(fs[0], Fields(fs[1..]), pre, LineText(fs[1..]), garbage);
      assert pre + LineText(fs) == pre + a + [COMMA, 32] + LineText(fs[1..]);
      assert Fields(fs) == [f] + Fields(fs[1..]);
    }
  }

  lemma LastFieldReads(ds: seq<Dep>, pre: cstring, garbage: Operator)
    requires PlainDeps(ds) && (pre == [] || pre == [32])
    ensures Strtok(pre + AlternativesText(ds), COMMA).Some?
    ensures ParseFields(pre + AlternativesText(ds), garbage) == Ok([Field(AlternativesText(ds), ds)])
  {
    hide ParseField, Strtok, AlternativesText, PlainDeps;
    AlternativesStart(ds);
    FieldReads(ds, pre, garbage);
    var x, e: cstring := pre + AlternativesText(ds), [];
    assert x + e == x;
    FirstToken(x, e, COMMA);
    NothingLeft(garbage);
    var f := Field(AlternativesText(ds), ds);
    assert [f] + [] == [f];
  }

  lemma FirstFieldReads(ds: seq<Dep>, more: seq<Field>, pre: cstring, text: cstring, garbage: Operator)
    requires PlainDeps(ds) && (pre == [] || pre == [32]) && ParseFields([32] + text, garbage) == Ok(more)
    ensures var t := pre + AlternativesText(ds) + [COMMA, 32] + text;
            Strtok(t, COMMA).Some? && ParseFields(t, garbage) == Ok([Field(AlternativesText(ds), ds)] + more)
  {
    hide ParseField, Strtok, AlternativesText, PlainDeps;
    AlternativesStart(ds);
    FieldReads(ds, pre, garbage);
    var x, y := pre + AlternativesText(ds), [COMMA, 32] + text;
    assert pre + AlternativesText(ds) + [COMMA, 32] + text == x + y;
    FirstToken(x, y, COMMA);
    assert y[1..] == [32] + text;
  }

  /** A dependency field written in the usual form reads back as the groups it was made of. */
  lemma LineReads(fs: seq<seq<Dep>>, garbage: Operator)
    requires fs != [] && forall i :: 0 <= i < |fs| ==> PlainDeps(fs[i])
    ensures ParseLine(LineText(fs), garbage) == Ok(Fields(fs))
  {
    hide ParseFields, Strtok, LineText, PlainDeps;
    var e: cstring := [];
    assert e + LineText(fs) == LineText(fs);
    FieldsRead(fs, e, garbage);
  }
}
