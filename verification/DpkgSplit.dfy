/** add_split_dependencies on the tables: the edges it adds are the groups of the field. */
module DpkgSplit {
  import opened Basics
  import opened DpkgVersion
  import opened DpkgCompare
  import opened DpkgTables
  import opened DpkgDeps
  import opened DpkgCheck
  import opened DpkgParse

  type Names = seq<Option<cstring>>

  /** Names are only added, and only some. */
  ghost predicate Grown(t: Names, t': Names, all: set<cstring>) {
    && Interned(t') && Among(t', all) && |t| == |t'| == NAME_HASH_PRIME + 1
    && forall s :: 0 <= s < |t| && t[s].Some? ==> t'[s] == t[s]
  }

  ghost predicate Stored(t: Names, i: nat, s: cstring) { i < NAME_HASH_PRIME && i < |t| && t[i] == Some(s) }

  lemma GrownTwice(t: Names, u: Names, v: Names, all: set<cstring>)
    requires Grown(t, u, all) && Grown(u, v, all)
    ensures Grown(t, v, all)
  {
    hide Interned, Among;
  }

  lemma GrownStores(t: Names, u: Names, all: set<cstring>, i: nat, s: cstring)
    requires Grown(t, u, all) && Stored(t, i, s)
    ensures Stored(u, i, s)
  {
    hide Interned, Among;
  }

  lemma NotGrown(t: Names, all: set<cstring>)
    requires Interned(t) && Among(t, all)
    ensures Grown(t, t, all)
  {
    hide Interned;
  }

  lemma GrownTable(t: Names, u: Names, all: set<cstring>)
    requires Grown(t, u, all)
    ensures |t| == |u| == NAME_HASH_PRIME + 1 && Interned(u) && Among(u, all)
  {
    hide Interned, Among;
  }

  /** search_name_hashtable, in these terms. */
  method Intern(names: array<Option<cstring>>, key: cstring, ghost all: set<cstring>) returns (at: nat)
    requires Interned(names[..]) && Among(names[..], all) && key in all
    modifies names
    ensures Grown(old(names[..]), names[..], all) && Stored(names[..], at, key)
  {
    hide Interned, HasFree;
    AmongFree(names[..], all);
    at := SearchName(names, key);
  }

  // ---- Edges for dependencies

  ghost predicate EdgeFor(t: Names, e: Edge, kind: Kind, d: Dep) {
    e.kind == kind && e.op == d.op && Stored(t, e.name, d.name) && Stored(t, e.version, d.version)
  }

  ghost predicate EdgesFor(t: Names, es: seq<Edge>, kind: Kind, ds: seq<Dep>) {
    |es| == |ds| && forall i :: 0 <= i < |es| ==> EdgeFor(t, es[i], kind, ds[i])
  }

  lemma GrownEdges(t: Names, u: Names, all: set<cstring>, es: seq<Edge>, kind: Kind, ds: seq<Dep>)
    requires Grown(t, u, all) && EdgesFor(t, es, kind, ds)
    ensures EdgesFor(u, es, kind, ds)
  {
    hide Grown, Stored;
    forall i | 0 <= i < |es| ensures EdgeFor(u, es[i], kind, ds[i]) {
      GrownStores(t, u, all, es[i].name, ds[i].name);
      GrownStores(t, u, all, es[i].version, ds[i].version);
    }
  }

  /** The names of an alternative. */
  ghost predicate DepIn(token: cstring, garbage: Operator, all: set<cstring>) {
    var p := ParseDep(token, garbage); p.Ok? ==> p.value.name in all && p.value.version in all
  }

  /** One alternative: version and name are interned. */
  method AddAlternative(names: array<Option<cstring>>, token: cstring, kind: Kind, garbage: Operator, ghost all: set<cstring>)
    returns (r: Result<Edge>)
    requires Interned(names[..]) && Among(names[..], all) && DepIn(token, garbage, all)
    modifies names
    ensures Grown(old(names[..]), names[..], all)
    ensures match ParseDep(token, garbage)
            case Ok(d) => r.Ok? && EdgeFor(names[..], r.value, kind, d)
            case NullPointer => r == NullPointer
            case IllegalOperator => r == IllegalOperator
  {
    hide Interned, Among, SkipSet, Span, Until, ParseOperator, Stored;
    ghost var t := names[..];
    var field := SkipSet(token, {32});
    var op, version := Any, ANY_NAME;
    var open := FirstIndex(field, 40);
    if open < |field| {
      var v := SkipSet(field[open..], {32, 40});
      var offset := Span(v, {60, 61, 62});
      var parsed := ParseOperator(v[..offset], garbage);
      if !parsed.Ok? {
        NotGrown(t, all);
        return if parsed.NullPointer? then NullPointer else IllegalOperator;
      }
      op := parsed.value;
      version := Until(SkipSet(v[offset..], {32}), {32, 41});
    }
    var vi := Intern(names, version, all);
    ghost var u := names[..];
    var ni := Intern(names, Until(field, {32, 40}), all);
    GrownTwice(t, u, names[..], all);
    GrownStores(u, names[..], all, vi, version);
    r := Ok(Edge(kind, op, ni, vi));
  }

  /** The names of a group. */
  ghost predicate AlternativesIn(text: cstring, garbage: Operator, all: set<cstring>)
    decreases |text|
  {
    var t := Strtok(text, BAR);
    t.Some? ==> DepIn(t.value.0, garbage, all) && (ParseDep(t.value.0, garbage).Ok? ==> AlternativesIn(t.value.1, garbage, all))
  }

  /** `done` alternatives are read, `rest` is left. */
  ghost predicate Reading(text: cstring, garbage: Operator, done: seq<Dep>, rest: cstring) {
    ParseAlternatives(text, garbage) == match ParseAlternatives(rest, garbage)
                                        case Ok(ds) => Ok(done + ds)
                                        case NullPointer => NullPointer
                                        case IllegalOperator => IllegalOperator
  }

  lemma ReadingStep(text: cstring, garbage: Operator, done: seq<Dep>, rest: cstring)
    requires Reading(text, garbage, done, rest) && Strtok(rest, BAR).Some?
    ensures var t := Strtok(rest, BAR).value;
            match ParseDep(t.0, garbage)
            case Ok(d) => Reading(text, garbage, done + [d], t.1)
            case NullPointer => ParseAlternatives(text, garbage) == NullPointer
            case IllegalOperator => ParseAlternatives(text, garbage) == IllegalOperator
  {
    hide Strtok, ParseDep;
    var t := Strtok(rest, BAR).value;
    var p := ParseDep(t.0, garbage);
    if p.Ok? {
      var q := ParseAlternatives(t.1, garbage);
      if q.Ok? {
        assert done + ([p.value] + q.value) == done + [p.value] + q.value;
      }
    }
  }

  /** The inner loop: all alternatives of a group. */
  method AddAlternatives(names: array<Option<cstring>>, text: cstring, kind: Kind, garbage: Operator, ghost all: set<cstring>)
    returns (r: Result<seq<Edge>>)
    requires Interned(names[..]) && Among(names[..], all) && AlternativesIn(text, garbage, all)
    modifies names
    ensures Grown(old(names[..]), names[..], all)
    ensures match ParseAlternatives(text, garbage)
            case Ok(ds) => r.Ok? && EdgesFor(names[..], r.value, kind, ds)
            case NullPointer => r == NullPointer
            case IllegalOperator => r == IllegalOperator
  {
    hide Interned, Among, Strtok, ParseDep, Grown, DepIn, EdgeFor, Reading;
    ghost var t, done: seq<Dep> := names[..], [];
    var edges: seq<Edge> := [];
    var rest := text;
    NotGrown(t, all);
    ReadingStart(text, garbage);
    var next := Strtok(rest, BAR);
    while next.Some?
      invariant next == Strtok(rest, BAR) && Reading(text, garbage, done, rest)
      invariant Grown(t, names[..], all) && AlternativesIn(rest, garbage, all)
      invariant EdgesFor(names[..], edges, kind, done)
      decreases |rest|
    {
      ghost var u := names[..];
      GrownTable(t, u, all);
      ReadingStep(text, garbage, done, rest);
      var e := AddAlternative(names, next.value.0, kind, garbage, all);
      GrownTwice(t, u, names[..], all);
      GrownEdges(u, names[..], all, edges, kind, done);
      if !e.Ok? {
        return if e.NullPointer? then NullPointer else IllegalOperator;
      }
      done := done + [ParseDep(next.value.0, garbage).value];
      edges := edges + [e.value];
      rest := next.value.1;
      next := Strtok(rest, BAR);
    }
    ReadingEnd(text, garbage, done, rest);
    r := Ok(edges);
  }

  lemma ReadingStart(text: cstring, garbage: Operator)
    ensures Reading(text, garbage, [], text)
  {
    var p := ParseAlternatives(text, garbage);
    if p.Ok? {
      assert [] + p.value == p.value;
    }
  }

  lemma ReadingEnd(text: cstring, garbage: Operator, done: seq<Dep>, rest: cstring)
    requires Reading(text, garbage, done, rest) && Strtok(rest, BAR).None?
    ensures ParseAlternatives(text, garbage) == Ok(done)
  {
    assert done + [] == done;
  }

  // ---- One group

  predicate IsDependency(kind: Kind) { kind == PreDepends || kind == Depends }

  /** The groups of edges for one field: alternatives of a dependency form one group, other edges stand alone. */
  ghost predicate GroupsFor(t: Names, gs: seq<Group>, kind: Kind, f: Field) {
    if IsDependency(kind) then
      && |gs| == 1 && gs[0].Need? && gs[0].kind == kind && EdgesFor(t, gs[0].alternatives, kind, f.alternatives)
      && (gs[0].or.Some? ==> Stored(t, gs[0].or.value.name, f.text))
    else
      |gs| == |f.alternatives| && forall i :: 0 <= i < |gs| ==> gs[i].Other? && EdgeFor(t, gs[i].edge, kind, f.alternatives[i])
  }

  ghost predicate AllGood(gs: seq<Group>) { forall i :: 0 <= i < |gs| ==> GoodGroup(gs[i]) }

  /** A group without a bar has one alternative. */
  lemma AlternativeCount(text: cstring, garbage: Operator, ds: seq<Dep>)
    requires ParseAlternatives(text, garbage) == Ok(ds) && Strtok(text, BAR).Some?
    ensures |ds| >= 1 && (Strtok(text, BAR).value.0 == text ==> |ds| == 1)
  {
    hide ParseDep, Strtok;
    var t := Strtok(text, BAR).value;
    if t.0 == text {
      assert t.1 == [];
      NothingLeft(garbage);
    }
  }

  ghost function Singles(es: seq<Edge>): seq<Group> {
    seq(|es|, i requires 0 <= i < |es| => Other(es[i]))
  }

  lemma {:induction false} FlatSingles(es: seq<Edge>)
    ensures Flat(Singles(es)) == es
    decreases |es|
  {
    if es == [] {
    } else {
      FlatSingles(es[1..]);
      assert Singles(es)[1..] == Singles(es[1..]);
    }
  }

  lemma FlatOne(g: Group)
    ensures Flat([g]) == FlatGroup(g)
  {
    assert [g][1..] == [];
    assert FlatGroup(g) + [] == FlatGroup(g);
  }

  /** What the edges of a field are. */
  lemma FieldGroups(t: Names, kind: Kind, or: Option<Edge>, es: seq<Edge>, f: Field) returns (gs: seq<Group>)
    requires EdgesFor(t, es, kind, f.alternatives) && kind !in {OrPreDepends, OrDepends} && |es| >= 1
    requires or.Some? ==> IsDependency(kind) && or.value.kind == OrOf(kind) && or.value.version == |es| && Stored(t, or.value.name, f.text)
    requires or.None? && IsDependency(kind) ==> |es| == 1
    ensures GroupsFor(t, gs, kind, f) && AllGood(gs) && Flat(gs) == (if or.Some? then [or.value] else []) + es
  {
    hide Stored;
    if IsDependency(kind) {
      gs := [Need(kind, or, es)];
      FlatOne(gs[0]);
    } else {
      gs := Singles(es);
      FlatSingles(es);
      assert [] + es == es;
    }
  }

  /** The names of a comma group: its text has an index only if there is an OR edge. */
  ghost predicate FieldIn(token: cstring, kind: Kind, garbage: Operator, all: set<cstring>) {
    var text := SkipSet(token, {32});
    var first := Strtok(text, BAR);
    && (first.Some? && IsDependency(kind) && first.value.0 != text ==> text in all)
    && AlternativesIn(text, garbage, all)
  }

  /** The body of the outer loop. */
  method AddField(names: array<Option<cstring>>, token: cstring, kind: Kind, garbage: Operator, ghost all: set<cstring>)
    returns (r: Result<seq<Edge>>, ghost gs: seq<Group>)
    requires Interned(names[..]) && Among(names[..], all) && FieldIn(token, kind, garbage, all)
    requires kind !in {OrPreDepends, OrDepends}
    modifies names
    ensures Grown(old(names[..]), names[..], all)
    ensures match ParseField(token, garbage)
            case Ok(f) => r.Ok? && r.value == Flat(gs) && AllGood(gs) && GroupsFor(names[..], gs, kind, f)
            case NullPointer => r == NullPointer
            case IllegalOperator => r == IllegalOperator
  {
    hide Interned, Among, Strtok, ParseAlternatives, AlternativesIn, Grown, EdgesFor, GroupsFor, AllGood, Flat, SkipSet, Stored;
    gs := [];
    ghost var t := names[..];
    NotGrown(t, all);
    var field := SkipSet(token, {32});
    var first := Strtok(field, BAR);
    if first == None {
      return NullPointer, [];
    }
    var or: Option<Edge> := None;
    if IsDependency(kind) && field != first.value.0 {
      var at := Intern(names, field, all);
      or := Some(Edge(OrOf(kind), Null, at, 0));
    }
    ghost var u := names[..];
    GrownTable(t, u, all);
    var alternatives := AddAlternatives(names, field, kind, garbage, all);
    GrownTwice(t, u, names[..], all);
    if !alternatives.Ok? {
      return if alternatives.NullPointer? then NullPointer else IllegalOperator, [];
    }
    ghost var f := Field(field, ParseAlternatives(field, garbage).value);
    AlternativeCount(field, garbage, f.alternatives);
    EdgeCount(names[..], alternatives.value, kind, f.alternatives);
    if or.Some? {
      GrownStores(u, names[..], all, or.value.name, field);
      or := Some(or.value.(version := |alternatives.value|));
    }
    gs := FieldGroups(names[..], kind, or, alternatives.value, f);
    r := Ok((if or.Some? then [or.value] else []) + alternatives.value);
  }

  lemma EdgeCount(t: Names, es: seq<Edge>, kind: Kind, ds: seq<Dep>)
    requires EdgesFor(t, es, kind, ds)
    ensures |es| == |ds|
  {
  }

  // ---- The whole field

  lemma {:induction false} FlatAppend(a: seq<Group>, b: seq<Group>)
    ensures Flat(a + b) == Flat(a) + Flat(b)
    decreases |a|
  {
    hide FlatGroup;
    if a == [] {
      assert a + b == b && Flat(a) + Flat(b) == Flat(b);
    } else {
      assert (a + b)[1..] == a[1..] + b;
      FlatAppend(a[1..], b);
      var x, y, z := FlatGroup(a[0]), Flat(a[1..]), Flat(b);
      assert x + (y + z) == x + y + z;
    }
  }

  /** The groups of all fields, field by field. */
  ghost function Concat(parts: seq<seq<Group>>): seq<Group> {
    if parts == [] then [] else Concat(parts[..|parts| - 1]) + parts[|parts| - 1]
  }

  ghost predicate LineFor(t: Names, parts: seq<seq<Group>>, kind: Kind, fs: seq<Field>) {
    |parts| == |fs| && forall i :: 0 <= i < |fs| ==> GroupsFor(t, parts[i], kind, fs[i])
  }

  lemma GrownGroups(t: Names, u: Names, all: set<cstring>, gs: seq<Group>, kind: Kind, f: Field)
    requires Grown(t, u, all) && GroupsFor(t, gs, kind, f)
    ensures GroupsFor(u, gs, kind, f)
  {
    hide Grown, Stored;
    if IsDependency(kind) {
      GrownEdges(t, u, all, gs[0].alternatives, kind, f.alternatives);
      if gs[0].or.Some? {
        GrownStores(t, u, all, gs[0].or.value.name, f.text);
      }
    } else {
      forall i | 0 <= i < |gs| ensures EdgeFor(u, gs[i].edge, kind, f.alternatives[i]) {
        GrownStores(t, u, all, gs[i].edge.name, f.alternatives[i].name);
        GrownStores(t, u, all, gs[i].edge.version, f.alternatives[i].version);
      }
    }
  }

  lemma LineStep(t: Names, u: Names, all: set<cstring>, parts: seq<seq<Group>>, kind: Kind, fs: seq<Field>, gs: seq<Group>, f: Field)
    requires Grown(t, u, all) && LineFor(t, parts, kind, fs) && GroupsFor(u, gs, kind, f)
    ensures LineFor(u, parts + [gs], kind, fs + [f])
  {
    hide Grown, GroupsFor;
    forall i | 0 <= i < |fs| ensures GroupsFor(u, parts[i], kind, fs[i]) {
      GrownGroups(t, u, all, parts[i], kind, fs[i]);
    }
  }

  lemma ConcatStep(parts: seq<seq<Group>>, gs: seq<Group>)
    requires AllGood(Concat(parts)) && AllGood(gs)
    ensures Concat(parts + [gs]) == Concat(parts) + gs && AllGood(Concat(parts + [gs]))
    ensures Flat(Concat(parts + [gs])) == Flat(Concat(parts)) + Flat(gs)
  {
    hide Flat, GoodGroup;
    assert (parts + [gs])[..|parts|] == parts;
    FlatAppend(Concat(parts), gs);
  }

  ghost predicate ReadingLine(line: cstring, garbage: Operator, done: seq<Field>, rest: cstring) {
    ParseFields(line, garbage) == match ParseFields(rest, garbage)
                                  case Ok(fs) => Ok(done + fs)
                                  case NullPointer => NullPointer
                                  case IllegalOperator => IllegalOperator
  }

  lemma ReadingLineStep(line: cstring, garbage: Operator, done: seq<Field>, rest: cstring)
    requires ReadingLine(line, garbage, done, rest) && Strtok(rest, COMMA).Some?
    ensures var t := Strtok(rest, COMMA).value;
            match ParseField(t.0, garbage)
            case Ok(f) => ReadingLine(line, garbage, done + [f], t.1)
            case NullPointer => ParseFields(line, garbage) == NullPointer
            case IllegalOperator => ParseFields(line, garbage) == IllegalOperator
  {
    hide Strtok, ParseField;
    var t := Strtok(rest, COMMA).value;
    var p := ParseField(t.0, garbage);
    if p.Ok? {
      var q := ParseFields(t.1, garbage);
      if q.Ok? {
        assert done + ([p.value] + q.value) == done + [p.value] + q.value;
      }
    }
  }

  lemma ReadingLineStart(line: cstring, garbage: Operator)
    ensures ReadingLine(line, garbage, [], line)
  {
    var p := ParseFields(line, garbage);
    if p.Ok? {
      assert [] + p.value == p.value;
    }
  }

  lemma ReadingLineEnd(line: cstring, garbage: Operator, done: seq<Field>, rest: cstring)
    requires ReadingLine(line, garbage, done, rest) && Strtok(rest, COMMA).None?
    ensures ParseFields(line, garbage) == Ok(done)
  {
    assert done + [] == done;
  }

  /** The names of a whole field. */
  ghost predicate LineIn(line: cstring, kind: Kind, garbage: Operator, all: set<cstring>)
    decreases |line|
  {
    var t := Strtok(line, COMMA);
    t.Some? ==>
      FieldIn(t.value.0, kind, garbage, all) && (ParseField(t.value.0, garbage).Ok? ==> LineIn(t.value.1, kind, garbage, all))
  }

  /** add_split_dependencies: the new edges are the comma groups, each with all its alternatives. */
  method AddSplitDependencies(names: array<Option<cstring>>, edges0: seq<Edge>, line: cstring, kind: Kind, garbage: Operator,
                              ghost all: set<cstring>)
    returns (r: Result<seq<Edge>>, ghost parts: seq<seq<Group>>)
    requires Interned(names[..]) && Among(names[..], all) && LineIn(line, kind, garbage, all)
    requires kind !in {OrPreDepends, OrDepends}
    modifies names
    ensures Grown(old(names[..]), names[..], all)
    ensures match ParseLine(line, garbage)
            case Ok(fs) => r.Ok? && r.value == edges0 + Flat(Concat(parts)) && AllGood(Concat(parts)) && LineFor(names[..], parts, kind, fs)
            case NullPointer => r == NullPointer
            case IllegalOperator => r == IllegalOperator
  {
    hide Interned, Among, Strtok, ParseField, Grown, GroupsFor, AllGood, Flat, ReadingLine, FieldIn, ParseFields, LineFor, Concat;
    ghost var t, done: seq<Field> := names[..], [];
    parts := [];
    var edges, rest := edges0, line;
    NotGrown(t, all);
    var next := Strtok(rest, COMMA);
    if next == None {
      return NullPointer, [];
    }
    ReadingLineStart(line, garbage);
    NoParts(t, kind, edges0);
    while next.Some?
      invariant next == Strtok(rest, COMMA) && ReadingLine(line, garbage, done, rest)
      invariant Grown(t, names[..], all) && LineIn(rest, kind, garbage, all)
      invariant edges == edges0 + Flat(Concat(parts)) && AllGood(Concat(parts)) && LineFor(names[..], parts, kind, done)
      decreases |rest|
    {
      ghost var u := names[..];
      GrownTable(t, u, all);
      ReadingLineStep(line, garbage, done, rest);
      var new_;
      ghost var gs;
      new_, gs := AddField(names, next.value.0, kind, garbage, all);
      GrownTwice(t, u, names[..], all);
      if !new_.Ok? {
        return if new_.NullPointer? then NullPointer else IllegalOperator, [];
      }
      LineStep(u, names[..], all, parts, kind, done, gs, ParseField(next.value.0, garbage).value);
      ConcatStep(parts, gs);
      assert edges0 + Flat(Concat(parts)) + Flat(gs) == edges0 + (Flat(Concat(parts)) + Flat(gs));
      done, parts := done + [ParseField(next.value.0, garbage).value], parts + [gs];
      edges := edges + new_.value;
      rest := next.value.1;
      next := Strtok(rest, COMMA);
    }
    ReadingLineEnd(line, garbage, done, rest);
    r := Ok(edges);
  }

  lemma NoParts(t: Names, kind: Kind, edges: seq<Edge>)
    ensures Concat([]) == [] && AllGood(Concat([])) && LineFor(t, [], kind, []) && edges + Flat(Concat([])) == edges
  {
  }
}
