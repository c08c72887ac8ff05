/** The dependency pass of check_deps: one pass over flat edges decides nested and/or groups. */
module DpkgCheck {
  import opened Basics
  import opened DpkgVersion
  import opened DpkgCompare
  import opened DpkgTables
  import opened DpkgDeps

  // ---- The words of a status line

  function SkipTo(s: cstring, stop: set<int>): cstring {
    if s == [] || s[0] as int in stop then s else SkipTo(s[1..], stop)
  }

  function SkipSpaces(s: cstring): cstring {
    if s != [] && s[0] == 32 then SkipSpaces(s[1..]) else s
  }

  function Until(s: cstring, stop: set<int>): cstring {
    if s == [] || s[0] as int in stop then [] else [s[0]] + Until(s[1..], stop)
  }

  /** get_status: word number `num` of a status line. */
  function Word(line: cstring, num: nat): cstring
    decreases num
  {
    if num <= 1 then Until(line, {32, 10}) else Word(SkipSpaces(SkipTo(line, {32})), num - 1)
  }

  method GetStatus(line: cstring, num: nat) returns (word: cstring)
    ensures word == Word(line, num)
  {
    var s, i := line, 1;
    while i < num
      invariant Word(s, if num >= i then num - i + 1 else 1) == Word(line, num) && i <= (if num >= 1 then num else 1)
    {
      s := SkipTo(s, {32});
      s := SkipSpaces(s);
      i := i + 1;
    }
    word := Until(s, {32, 10});
  }

  ghost predicate Without(s: cstring, set_: set<int>) { forall i :: 0 <= i < |s| ==> s[i] as int !in set_ }
  ghost predicate Stops(s: cstring, set_: set<int>) { s == [] || s[0] as int in set_ }

  lemma {:induction false} UntilAppend(x: cstring, y: cstring, set_: set<int>)
    requires Without(x, set_) && Stops(y, set_)
    ensures Until(x + y, set_) == x
    decreases |x|
  {
    if x == [] {
      assert x + y == y;
    } else {
      assert (x + y)[1..] == x[1..] + y;
      UntilAppend(x[1..], y, set_);
    }
  }

  lemma {:induction false} SkipToAppend(x: cstring, y: cstring, stop: set<int>)
    requires Without(x, stop) && Stops(y, stop)
    ensures SkipTo(x + y, stop) == y
    decreases |x|
  {
    if x == [] {
      assert x + y == y;
    } else {
      assert (x + y)[1..] == x[1..] + y;
      SkipToAppend(x[1..], y, stop);
    }
  }

  function Spaces(n: nat): (r: cstring)
    ensures |r| == n
  {
    seq(n, _ => 32)
  }

  lemma {:induction false} SpacesSkipped(n: nat, y: cstring)
    requires y == [] || y[0] != 32
    ensures SkipSpaces(Spaces(n) + y) == y
  {
    if n == 0 {
      assert Spaces(n) + y == y;
    } else {
      assert (Spaces(n) + y)[1..] == Spaces(n - 1) + y;
      SpacesSkipped(n - 1, y);
    }
  }

  ghost predicate PlainWord(s: cstring) { s != [] && Without(s, {32, 10}) }

  /** Words with any number of spaces between them, and what is behind the last one. */
  function LineOf(words: seq<cstring>, gaps: seq<nat>, tail: cstring): cstring
    requires 1 <= |words| == |gaps| + 1
  {
    if |words| == 1 then words[0] + tail else words[0] + (Spaces(gaps[0]) + LineOf(words[1..], gaps[1..], tail))
  }

  /** get_status finds every word of a line. */
  lemma {:induction false} WordReads(words: seq<cstring>, gaps: seq<nat>, tail: cstring, num: nat)
    requires 1 <= num <= |words| == |gaps| + 1 && Stops(tail, {32, 10})
    requires (forall i :: 0 <= i < |words| ==> PlainWord(words[i])) && forall i :: 0 <= i < |gaps| ==> gaps[i] > 0
    ensures Word(LineOf(words, gaps, tail), num) == words[num - 1]
    decreases num
  {
    hide SkipTo, SkipSpaces, Until;
    var first := words[0];
    assert PlainWord(first);
    if |words| == 1 {
      UntilAppend(first, tail, {32, 10});
    } else {
      var more := LineOf(words[1..], gaps[1..], tail);
      var y := Spaces(gaps[0]) + more;
      assert y[0] == 32;
      if num == 1 {
        UntilAppend(first, y, {32, 10});
      } else {
        SkipToAppend(first, y, {32});
        LineStarts(words[1..], gaps[1..], tail);
        SpacesSkipped(gaps[0], more);
        WordReads(words[1..], gaps[1..], tail, num - 1);
      }
    }
  }

  lemma LineStarts(words: seq<cstring>, gaps: seq<nat>, tail: cstring)
    requires 1 <= |words| == |gaps| + 1 && PlainWord(words[0])
    ensures LineOf(words, gaps, tail) != [] && LineOf(words, gaps, tail)[0] != 32
  {
    assert LineOf(words, gaps, tail)[0] == words[0][0];
  }

  /** A word never holds a space or a newline. */
  lemma {:induction false} WordPlain(line: cstring, num: nat)
    ensures Without(Word(line, num), {32, 10})
    decreases num
  {
    if num <= 1 {
      UntilPlain(line, {32, 10});
    } else {
      WordPlain(SkipSpaces(SkipTo(line, {32})), num - 1);
    }
  }

  lemma {:induction false} UntilPlain(s: cstring, stop: set<int>)
    ensures Without(Until(s, stop), stop)
    decreases |s|
  {
    if s == [] || s[0] as int in stop {
      assert Until(s, stop) == [];
    } else {
      UntilPlain(s[1..], stop);
    }
  }

  const INSTALL: cstring := [105, 110, 115, 116, 97, 108, 108]
  const INSTALLED: cstring := INSTALL + [101, 100]

  // ---- When a dependency is satisfied

  /** The package of this name is installed, for a pre-dependency, or wanted, for a dependency. */
  ghost predicate Meets(w: World, key: cstring, kind: Kind)
    requires |w.statuses| == STATUS_HASH_PRIME + 1
  {
    exists line :: HasStatus(w, key, line) &&
                   match kind
                   case PreDepends => Word(line, 3) == INSTALLED
                   case Depends => Word(line, 1) == INSTALL
                   case _ => false
  }

  lemma OneStatus(w: World, key: cstring, at: nat, line: cstring)
    requires Valid(w) && at < STATUS_HASH_PRIME && w.statuses[at].Some? && Owns(w, key)(w.statuses[at].value)
    ensures HasStatus(w, key, line) <==> w.statuses[at].value.status == line
  {
    hide Interned, Reached;
    if HasStatus(w, key, line) {
      var s :| 0 <= s < STATUS_HASH_PRIME && w.statuses[s].Some? && Owns(w, key)(w.statuses[s].value)
               && w.statuses[s].value.status == line;
      assert s == at;
    }
  }

  /** package_satisfies_dependency */
  method PackageSatisfies(w: World, package: nat, kind: Kind) returns (r: bool)
    requires Valid(w) && Open(w) && package < PACKAGE_HASH_PRIME && w.packages[package].Some?
    ensures Named(w, w.packages[package].value.name) && |w.statuses| == STATUS_HASH_PRIME + 1
    ensures r <==> Meets(w, Name(w, w.packages[package].value.name), kind)
  {
    hide Valid, Word, INSTALL, INSTALLED;
    Sizes(w);
    PackageFacts(w, package);
    var key := Name(w, w.packages[package].value.name);
    var at := SearchStatus(w, key);
    if w.statuses[at] == None {
      return false;
    }
    var line := w.statuses[at].value.status;
    forall l ensures HasStatus(w, key, l) <==> line == l {
      OneStatus(w, key, at, l);
    }
    hide HasStatus;
    if kind == PreDepends {
      var word := GetStatus(line, 3);
      r := word == INSTALLED;
    } else if kind == Depends {
      var word := GetStatus(line, 1);
      r := word == INSTALL;
    } else {
      r := false;
    }
  }

  ghost predicate IsProvider(p: Node, needle: nat) {
    exists j :: 0 <= j < |p.edges| && p.edges[j].kind == Provides && p.edges[j].name == needle
  }

  /** search_for_provides: the next provider behind `startAt`. */
  method SearchForProvides(w: World, needle: nat, startAt: int) returns (at: int)
    requires |w.packages| == PACKAGE_HASH_PRIME + 1 && -1 <= startAt < PACKAGE_HASH_PRIME
    ensures at == -1 || (startAt < at < PACKAGE_HASH_PRIME && w.packages[at].Some? && IsProvider(w.packages[at].value, needle))
    ensures forall s :: startAt < s < (if at == -1 then PACKAGE_HASH_PRIME else at) && w.packages[s].Some? ==>
              !IsProvider(w.packages[s].value, needle)
  {
    var i := startAt + 1;
    while i < PACKAGE_HASH_PRIME
      invariant startAt < i <= PACKAGE_HASH_PRIME
      invariant forall s :: startAt < s < i && w.packages[s].Some? ==> !IsProvider(w.packages[s].value, needle)
    {
      if w.packages[i].Some? {
        var p := w.packages[i].value;
        for j := 0 to |p.edges|
          invariant forall k :: 0 <= k < j ==> !(p.edges[k].kind == Provides && p.edges[k].name == needle)
        {
          if p.edges[j].kind == Provides && p.edges[j].name == needle {
            return i;
          }
        }
      }
      i := i + 1;
    }
    return -1;
  }

  /** A package of the right name and version that meets the dependency. */
  ghost predicate Direct(w: World, e: Edge)
    requires |w.packages| == PACKAGE_HASH_PRIME + 1 && |w.statuses| == STATUS_HASH_PRIME + 1
  {
    exists s :: 0 <= s < PACKAGE_HASH_PRIME && w.packages[s].Some? && Fits(w, w.packages[s].value, e.name, e.version, e.op)
                && Named(w, e.name) && Meets(w, Name(w, e.name), e.kind)
  }

  /** A package that provides the name and meets the dependency. */
  ghost predicate Provided(w: World, e: Edge, s: nat)
    requires |w.packages| == PACKAGE_HASH_PRIME + 1 && |w.statuses| == STATUS_HASH_PRIME + 1 && s < PACKAGE_HASH_PRIME
  {
    && w.packages[s].Some? && IsProvider(w.packages[s].value, e.name) && Named(w, w.packages[s].value.name)
    && Meets(w, Name(w, w.packages[s].value.name), e.kind)
  }

  ghost predicate Satisfied(w: World, e: Edge)
    requires |w.packages| == PACKAGE_HASH_PRIME + 1 && |w.statuses| == STATUS_HASH_PRIME + 1
  {
    Direct(w, e) || exists s: nat :: s < PACKAGE_HASH_PRIME && Provided(w, e, s)
  }

  // ---- Old versions

  /** The package that a status entry points to. */
  function Current(w: World, at: nat): Node
    requires at < |w.statuses| && w.statuses[at].Some? && StatusNamed(w, w.statuses[at].value)
  {
    w.packages[w.statuses[at].value.package].value
  }

  /** The status entry at `at` belongs to a name, points to a package and meets dependencies of this kind. */
  ghost predicate Counts(w: World, at: nat, name: nat, kind: Kind)
    requires |w.packages| == PACKAGE_HASH_PRIME + 1 && |w.statuses| == STATUS_HASH_PRIME + 1
  {
    && name < NAME_HASH_PRIME && Named(w, name) && at < STATUS_HASH_PRIME && w.statuses[at].Some?
    && StatusNamed(w, w.statuses[at].value) && w.statuses[at].value.package < PACKAGE_HASH_PRIME
    && Current(w, at).name == name && Named(w, Current(w, at).version) && Meets(w, Name(w, name), kind)
  }

  /** All stored versions of a name are those of the package that its status entry points to. */
  ghost predicate OneVersion(w: World, at: nat, name: nat)
    requires |w.packages| == PACKAGE_HASH_PRIME + 1
    requires at < |w.statuses| && w.statuses[at].Some? && StatusNamed(w, w.statuses[at].value) && Named(w, Current(w, at).version)
  {
    forall s :: 0 <= s < PACKAGE_HASH_PRIME && w.packages[s].Some? && w.packages[s].value.name == name ==>
      Fits(w, w.packages[s].value, name, Current(w, at).version, Equal)
  }

  /** A relation is decided by the package that the status entry points to. */
  ghost predicate ByCurrent(w: World, at: nat, e: Edge)
    requires |w.packages| == PACKAGE_HASH_PRIME + 1 && |w.statuses| == STATUS_HASH_PRIME + 1
    requires at < |w.statuses| && w.statuses[at].Some? && StatusNamed(w, w.statuses[at].value)
  {
    Direct(w, e) <==> Fits(w, Current(w, at), e.name, e.version, e.op)
  }

  /** A relation to a name is met by any stored version: the version that is installed or wanted decides all relations
      exactly if there is no other one. */
  lemma CurrentDecides(w: World, at: nat, name: nat, kind: Kind)
    requires Valid(w) && |w.packages| == PACKAGE_HASH_PRIME + 1 && |w.statuses| == STATUS_HASH_PRIME + 1 && Counts(w, at, name, kind)
    ensures (forall e: Edge :: e.name == name && e.kind == kind && Looked(w, name, e.version, e.op) ==> ByCurrent(w, at, e))
       <==> OneVersion(w, at, name)
  {
    hide Valid, Meets, Satisfies, ByCurrent;
    if OneVersion(w, at, name) {
      forall e: Edge | e.name == name && e.kind == kind && Looked(w, name, e.version, e.op) ensures ByCurrent(w, at, e) {
        SameRelations(w, at, name, kind, e);
      }
    }
    if forall e: Edge :: e.name == name && e.kind == kind && Looked(w, name, e.version, e.op) ==> ByCurrent(w, at, e) {
      forall s: nat | s < PACKAGE_HASH_PRIME && w.packages[s].Some? && w.packages[s].value.name == name
        ensures Fits(w, w.packages[s].value, name, Current(w, at).version, Equal)
      {
        PackageFacts(w, s);
        OtherVersion(w, at, name, kind, s);
      }
    }
  }

  lemma SameRelations(w: World, at: nat, name: nat, kind: Kind, e: Edge)
    requires |w.packages| == PACKAGE_HASH_PRIME + 1 && |w.statuses| == STATUS_HASH_PRIME + 1 && Counts(w, at, name, kind)
    requires OneVersion(w, at, name) && e.name == name && e.kind == kind && Looked(w, name, e.version, e.op)
    ensures ByCurrent(w, at, e)
  {
    hide Meets, Satisfies;
    var c := Current(w, at);
    if s :| 0 <= s < PACKAGE_HASH_PRIME && w.packages[s].Some? && Fits(w, w.packages[s].value, e.name, e.version, e.op) && e.op != Any {
      assert Fits(w, w.packages[s].value, name, c.version, Equal);
      EqualRelations(Name(w, w.packages[s].value.version), Name(w, c.version), e.op, Name(w, e.version));
    }
    if Fits(w, c, e.name, e.version, e.op) {
      var s := w.statuses[at].value.package;
      assert Fits(w, w.packages[s].value, e.name, e.version, e.op);
    }
  }

  /** A relation to a version that is stored itself. */
  lemma OtherVersion(w: World, at: nat, name: nat, kind: Kind, s: nat)
    requires |w.packages| == PACKAGE_HASH_PRIME + 1 && |w.statuses| == STATUS_HASH_PRIME + 1 && Counts(w, at, name, kind)
    requires s < PACKAGE_HASH_PRIME && w.packages[s].Some? && w.packages[s].value.name == name && Named(w, w.packages[s].value.version)
    requires ByCurrent(w, at, Edge(kind, Equal, name, w.packages[s].value.version))
    ensures Fits(w, w.packages[s].value, name, Current(w, at).version, Equal)
  {
    hide Meets, Satisfies;
    var p := w.packages[s].value;
    var e := Edge(kind, Equal, name, p.version);
    SelfEqual(Name(w, p.version));
    assert Fits(w, p, e.name, e.version, e.op);
    EqualRelations(Name(w, Current(w, at).version), Name(w, p.version), Equal, Name(w, p.version));
  }

  /** The failing case: a relation "not later than 1" is met although the status entry points to version 2. */
  lemma OldVersionCounts(w: World, at: nat, name: nat, kind: Kind, s: nat)
    requires |w.packages| == PACKAGE_HASH_PRIME + 1 && |w.statuses| == STATUS_HASH_PRIME + 1 && Counts(w, at, name, kind)
    requires s < PACKAGE_HASH_PRIME && w.packages[s].Some? && w.packages[s].value.name == name && Named(w, w.packages[s].value.version)
    requires Name(w, Current(w, at).version) == [50] && Name(w, w.packages[s].value.version) == [49]
    ensures !ByCurrent(w, at, Edge(kind, LessEqual, name, w.packages[s].value.version))
  {
    hide Meets, Satisfies;
    var p := w.packages[s].value;
    TwoAfterOne();
    assert Fits(w, p, name, p.version, LessEqual);
  }

  lemma TwoAfterOne()
    ensures Satisfies([49], LessEqual, [49]) && !Satisfies([50], LessEqual, [49])
  {
    assert Parts([49]) == [Part([], 1)];
  }

  /** The inner part of the pass: whether one edge is satisfied. */
  method CheckEdge(w: World, e: Edge) returns (met: bool)
    requires Valid(w) && Open(w) && Looked(w, e.name, e.version, e.op)
    ensures |w.packages| == PACKAGE_HASH_PRIME + 1 && |w.statuses| == STATUS_HASH_PRIME + 1
    ensures met <==> Satisfied(w, e)
  {
    hide Valid, Meets, Fits, IsProvider;
    Sizes(w);
    var package := SearchPackage(w, e.name, e.version, e.op);
    met := false;
    if w.packages[package] != None {
      FitsName(w, w.packages[package].value, e.name, e.version, e.op);
      met := PackageSatisfies(w, package, e.kind);
    }
    assert met <==> Direct(w, e);
    if met {
      return;
    }
    var provider := -1;
    while true
      invariant -1 <= provider < PACKAGE_HASH_PRIME && !met
      invariant forall s: nat :: s <= provider && s < PACKAGE_HASH_PRIME ==> !Provided(w, e, s)
      decreases PACKAGE_HASH_PRIME - provider
    {
      provider := SearchForProvides(w, e.name, provider);
      if !(provider > -1) {
        break;
      }
      PackageFacts(w, provider);
      met := PackageSatisfies(w, provider, e.kind);
      if met {
        assert Provided(w, e, provider);
        break;
      }
    }
  }

  lemma FitsName(w: World, p: Node, name: nat, version: nat, op: Operator)
    requires Fits(w, p, name, version, op)
    ensures p.name == name
  {
  }

  // ---- Groups of edges

  /** What add_split_dependencies makes of one comma group: `or` is the OR edge in front of alternatives. Edges of
      other kinds stand alone. */
  datatype Group = Other(edge: Edge) | Need(kind: Kind, or: Option<Edge>, alternatives: seq<Edge>)

  ghost predicate GoodGroup(g: Group) {
    match g
    case Other(e) => e.kind !in {PreDepends, OrPreDepends, Depends, OrDepends}
    case Need(kind, or, alts) =>
      && kind in {PreDepends, Depends} && |alts| >= 1 && (forall i :: 0 <= i < |alts| ==> alts[i].kind == kind)
      && (or.None? ==> |alts| == 1)
      && (or.Some? ==> or.value.kind == OrOf(kind) && or.value.version == |alts|)
  }

  /** `edge_type + 1` */
  function OrOf(kind: Kind): Kind { if kind == PreDepends then OrPreDepends else OrDepends }

  ghost function FlatGroup(g: Group): seq<Edge> {
    match g
    case Other(e) => [e]
    case Need(_, or, alts) => (if or.Some? then [or.value] else []) + alts
  }

  ghost function Flat(gs: seq<Group>): seq<Edge> {
    if gs == [] then [] else FlatGroup(gs[0]) + Flat(gs[1..])
  }

  /** At least one alternative is satisfied. */
  ghost predicate Met(w: World, g: Group)
    requires |w.packages| == PACKAGE_HASH_PRIME + 1 && |w.statuses| == STATUS_HASH_PRIME + 1
  {
    g.Need? ==> exists i :: 0 <= i < |g.alternatives| && Satisfied(w, g.alternatives[i])
  }

  ghost predicate AllMet(w: World, gs: seq<Group>)
    requires |w.packages| == PACKAGE_HASH_PRIME + 1 && |w.statuses| == STATUS_HASH_PRIME + 1
  {
    forall i :: 0 <= i < |gs| ==> Met(w, gs[i])
  }

  // ---- The pass

  /** The pass over the edges from `j` on, with `n` alternatives left behind the OR edge of kind `root`. */
  ghost predicate Passes(w: World, edges: seq<Edge>, j: nat, n: nat, root: Option<Kind>)
    requires |w.packages| == PACKAGE_HASH_PRIME + 1 && |w.statuses| == STATUS_HASH_PRIME + 1
    decreases |edges| - j
  {
    if j >= |edges| then true
    else
      var e := edges[j];
      if e.kind == OrPreDepends || e.kind == OrDepends then Passes(w, edges, j + 1, e.version, Some(e.kind))
      else
        var n1, r1 := if n == 0 then 1 else n, if n == 0 then None else root;
        if e.kind != PreDepends && e.kind != Depends then Passes(w, edges, j + 1, n1, r1)
        else if r1.Some? && r1.value != OrOf(e.kind) then false
        else if Satisfied(w, e) then Passes(w, edges, j + 1 + (n1 - 1), 0, r1)
        else n1 > 1 && Passes(w, edges, j + 1, n1 - 1, r1)
  }

  /** With nothing pending, the root does not matter. */
  lemma Settled(w: World, edges: seq<Edge>, j: nat, root: Option<Kind>)
    requires |w.packages| == PACKAGE_HASH_PRIME + 1 && |w.statuses| == STATUS_HASH_PRIME + 1
    ensures Passes(w, edges, j, 0, root) == Passes(w, edges, j, 0, None) == Passes(w, edges, j, 1, None)
  {
    hide Satisfied;
  }

  /** The alternatives `edges[j..j + n]`: one of them must be satisfied, then the pass goes on behind them. */
  lemma {:induction false} Alternatives(w: World, edges: seq<Edge>, j: nat, n: nat, kind: Kind, root: Option<Kind>)
    requires |w.packages| == PACKAGE_HASH_PRIME + 1 && |w.statuses| == STATUS_HASH_PRIME + 1
    requires n >= 1 && j + n <= |edges| && kind in {PreDepends, Depends} && (root.Some? ==> root.value == OrOf(kind))
    requires forall i :: j <= i < j + n ==> edges[i].kind == kind
    ensures Passes(w, edges, j, n, root)
       <==> (exists i :: j <= i < j + n && Satisfied(w, edges[i])) && Passes(w, edges, j + n, 0, root)
    decreases n
  {
    hide Satisfied;
    if !Satisfied(w, edges[j]) && n > 1 {
      Alternatives(w, edges, j + 1, n - 1, kind, root);
    }
  }

  /** The pass over flat edges decides the groups. */
  lemma {:induction false} PassDecides(w: World, edges: seq<Edge>, j: nat, gs: seq<Group>)
    requires |w.packages| == PACKAGE_HASH_PRIME + 1 && |w.statuses| == STATUS_HASH_PRIME + 1
    requires j <= |edges| && edges[j..] == Flat(gs) && forall i :: 0 <= i < |gs| ==> GoodGroup(gs[i])
    ensures Passes(w, edges, j, 0, None) <==> AllMet(w, gs)
    decreases |gs|
  {
    hide Satisfied, Passes, Met, AllMet, FlatGroup, GoodGroup;
    if gs == [] {
      NoneMet(w, gs);
      PassEnds(w, edges, j);
    } else {
      var f := FlatGroup(gs[0]);
      Slices(edges, j, f, Flat(gs[1..]));
      OneGroup(w, edges, j, gs[0]);
      PassDecides(w, edges, j + |f|, gs[1..]);
      FirstMet(w, gs);
    }
  }

  lemma NoneMet(w: World, gs: seq<Group>)
    requires |w.packages| == PACKAGE_HASH_PRIME + 1 && |w.statuses| == STATUS_HASH_PRIME + 1 && gs == []
    ensures AllMet(w, gs)
  {
  }

  lemma Slices(edges: seq<Edge>, j: nat, f: seq<Edge>, more: seq<Edge>)
    requires j <= |edges| && edges[j..] == f + more
    ensures j + |f| <= |edges| && edges[j..j + |f|] == f && edges[j + |f|..] == more
  {
    assert edges[j..][..|f|] == f && edges[j..][|f|..] == more;
    assert edges[j + |f|..] == edges[j..][|f|..] && edges[j..j + |f|] == edges[j..][..|f|];
  }

  lemma PassEnds(w: World, edges: seq<Edge>, j: nat)
    requires |w.packages| == PACKAGE_HASH_PRIME + 1 && |w.statuses| == STATUS_HASH_PRIME + 1 && j == |edges|
    ensures Passes(w, edges, j, 0, None)
  {
  }

  lemma FirstMet(w: World, gs: seq<Group>)
    requires |w.packages| == PACKAGE_HASH_PRIME + 1 && |w.statuses| == STATUS_HASH_PRIME + 1 && gs != []
    ensures AllMet(w, gs) <==> Met(w, gs[0]) && AllMet(w, gs[1..])
  {
    hide Met;
    assert forall i :: 0 <= i < |gs| - 1 ==> gs[1..][i] == gs[i + 1];
    if Met(w, gs[0]) && AllMet(w, gs[1..]) {
      forall i | 0 <= i < |gs| ensures Met(w, gs[i]) {
        if i > 0 {
          assert Met(w, gs[1..][i - 1]);
        }
      }
    }
    if AllMet(w, gs) {
      forall i | 0 <= i < |gs| - 1 ensures Met(w, gs[1..][i]) {
        assert Met(w, gs[i + 1]);
      }
    }
  }

  lemma OneGroup(w: World, edges: seq<Edge>, j: nat, g: Group)
    requires |w.packages| == PACKAGE_HASH_PRIME + 1 && |w.statuses| == STATUS_HASH_PRIME + 1 && GoodGroup(g)
    requires j + |FlatGroup(g)| <= |edges| && edges[j..j + |FlatGroup(g)|] == FlatGroup(g)
    ensures Passes(w, edges, j, 0, None) <==> Met(w, g) && Passes(w, edges, j + |FlatGroup(g)|, 0, None)
  {
    hide Satisfied, Passes, Met;
    var f := FlatGroup(g);
    At(edges, j, f);
    if g.Other? {
      PassStep(w, edges, j);
      Settled(w, edges, j + 1, None);
      OtherMet(w, g);
    } else if g.or.Some? {
      assert edges[j] == f[0];
      PassStep(w, edges, j);
      assert forall i :: 0 <= i < |g.alternatives| ==> f[i + 1] == g.alternatives[i];
      NeedGroup(w, edges, j + 1, g);
    } else {
      Settled(w, edges, j, None);
      NeedGroup(w, edges, j, g);
    }
  }

  lemma At(edges: seq<Edge>, j: nat, f: seq<Edge>)
    requires j + |f| <= |edges| && edges[j..j + |f|] == f
    ensures forall i :: 0 <= i < |f| ==> edges[j + i] == f[i]
  {
    forall i | 0 <= i < |f| ensures edges[j + i] == f[i] {
      assert edges[j + i] == edges[j..j + |f|][i];
    }
  }

  lemma OtherMet(w: World, g: Group)
    requires |w.packages| == PACKAGE_HASH_PRIME + 1 && |w.statuses| == STATUS_HASH_PRIME + 1 && g.Other?
    ensures Met(w, g)
  {
  }

  /** The alternatives of a group, from its first one. */
  lemma NeedGroup(w: World, edges: seq<Edge>, a: nat, g: Group)
    requires |w.packages| == PACKAGE_HASH_PRIME + 1 && |w.statuses| == STATUS_HASH_PRIME + 1 && g.Need? && GoodGroup(g)
    requires a + |g.alternatives| <= |edges| && forall i :: 0 <= i < |g.alternatives| ==> edges[a + i] == g.alternatives[i]
    ensures Passes(w, edges, a, |g.alternatives|, if g.or.Some? then Some(g.or.value.kind) else None)
       <==> Met(w, g) && Passes(w, edges, a + |g.alternatives|, 0, None)
  {
    hide Satisfied, Passes, Met;
    var n, root := |g.alternatives|, if g.or.Some? then Some(g.or.value.kind) else None;
    forall i | a <= i < a + n ensures edges[i].kind == g.kind {
      assert edges[a + (i - a)] == g.alternatives[i - a];
    }
    Alternatives(w, edges, a, n, g.kind, root);
    Settled(w, edges, a + n, root);
    MetAt(w, edges, a, g);
  }

  lemma MetAt(w: World, edges: seq<Edge>, a: nat, g: Group)
    requires |w.packages| == PACKAGE_HASH_PRIME + 1 && |w.statuses| == STATUS_HASH_PRIME + 1 && g.Need?
    requires a + |g.alternatives| <= |edges| && forall i :: 0 <= i < |g.alternatives| ==> edges[a + i] == g.alternatives[i]
    ensures Met(w, g) <==> exists i :: a <= i < a + |g.alternatives| && Satisfied(w, edges[i])
  {
    hide Satisfied;
    if i :| a <= i < a + |g.alternatives| && Satisfied(w, edges[i]) {
      assert Satisfied(w, g.alternatives[i - a]);
    }
    if Met(w, g) {
      var i :| 0 <= i < |g.alternatives| && Satisfied(w, g.alternatives[i]);
      assert Satisfied(w, edges[a + i]);
    }
  }

  lemma PassStep(w: World, edges: seq<Edge>, j: nat)
    requires |w.packages| == PACKAGE_HASH_PRIME + 1 && |w.statuses| == STATUS_HASH_PRIME + 1 && j < |edges|
    ensures edges[j].kind in {OrPreDepends, OrDepends} ==>
              Passes(w, edges, j, 0, None) == Passes(w, edges, j + 1, edges[j].version, Some(edges[j].kind))
    ensures edges[j].kind !in {OrPreDepends, OrDepends, PreDepends, Depends} ==>
              Passes(w, edges, j, 0, None) == Passes(w, edges, j + 1, 1, None)
  {
    hide Satisfied;
  }

  /** All edges but OR edges have a name and a version to search for. */
  ghost predicate Searchable(w: World, edges: seq<Edge>) {
    forall j :: 0 <= j < |edges| && edges[j].kind !in {OrPreDepends, OrDepends} ==>
      Looked(w, edges[j].name, edges[j].version, edges[j].op)
  }

  /** The loop over the edges of one package; the program stops where `ok` becomes false. */
  method CheckEdges(w: World, edges: seq<Edge>, ghost gs: seq<Group>) returns (ok: bool)
    requires Valid(w) && Open(w) && Searchable(w, edges) && edges == Flat(gs) && forall i :: 0 <= i < |gs| ==> GoodGroup(gs[i])
    ensures |w.packages| == PACKAGE_HASH_PRIME + 1 && |w.statuses| == STATUS_HASH_PRIME + 1
    ensures ok <==> AllMet(w, gs)
  {
    hide Valid, Satisfied, AllMet, GoodGroup, Flat;
    Sizes(w);
    assert edges[0..] == edges;
    PassDecides(w, edges, 0, gs);
    var j, alternatives := 0, 0;
    var root: Option<Kind> := None;
    while j < |edges|
      invariant 0 <= j && 0 <= alternatives && Passes(w, edges, j, alternatives, root) == Passes(w, edges, 0, 0, None)
      decreases |edges| - j
    {
      var e := edges[j];
      if e.kind == OrPreDepends || e.kind == OrDepends {
        alternatives, root, j := e.version, Some(e.kind), j + 1;
        continue;
      }
      if alternatives == 0 {
        alternatives, root := 1, None;
      }
      if e.kind == PreDepends || e.kind == Depends {
        if root.Some? && root.value != OrOf(e.kind) {
          return false;
        }
        var met := CheckEdge(w, e);
        alternatives := alternatives - 1;
        if !met && alternatives == 0 {
          return false;
        }
        if met && alternatives != 0 {
          j := j + alternatives;
          alternatives := 0;
        }
      }
      j := j + 1;
    }
    ok := true;
  }

  /** The dependencies of the package in a slot, if it is wanted, are met. */
  ghost predicate SlotMet(w: World, i: nat, gs: seq<Group>)
    requires |w.packages| == PACKAGE_HASH_PRIME + 1 && |w.statuses| == STATUS_HASH_PRIME + 1 && i < PACKAGE_HASH_PRIME
  {
    w.packages[i].Some? && Named(w, w.packages[i].value.name) && Meets(w, Name(w, w.packages[i].value.name), Depends) ==> AllMet(w, gs)
  }

  /** The last loop of check_deps: it passes iff every group of every wanted package is met. */
  method CheckDependencies(w: World, ghost groups: nat -> seq<Group>) returns (ok: bool)
    requires Valid(w) && Open(w)
    requires forall i: nat :: i < PACKAGE_HASH_PRIME && w.packages[i].Some? ==>
               w.packages[i].value.edges == Flat(groups(i)) && Searchable(w, w.packages[i].value.edges)
               && forall k :: 0 <= k < |groups(i)| ==> GoodGroup(groups(i)[k])
    ensures |w.packages| == PACKAGE_HASH_PRIME + 1 && |w.statuses| == STATUS_HASH_PRIME + 1
    ensures ok <==> forall i: nat :: i < PACKAGE_HASH_PRIME ==> SlotMet(w, i, groups(i))
  {
    hide Valid, Satisfied, AllMet, GoodGroup, Flat, Meets, Searchable;
    Sizes(w);
    for i := 0 to PACKAGE_HASH_PRIME
      invariant forall k: nat :: k < i ==> SlotMet(w, k, groups(k))
    {
      if w.packages[i] == None {
        continue;
      }
      var wanted := Wanted(w, i);
      if !wanted {
        continue;
      }
      var met := CheckEdges(w, w.packages[i].value.edges, groups(i));
      if !met {
        assert !SlotMet(w, i, groups(i));
        return false;
      }
    }
    ok := true;
  }

  /** The package has a status, and it is wanted. */
  method Wanted(w: World, i: nat) returns (r: bool)
    requires Valid(w) && Open(w) && i < PACKAGE_HASH_PRIME && w.packages[i].Some?
    ensures |w.statuses| == STATUS_HASH_PRIME + 1 && Named(w, w.packages[i].value.name)
    ensures r <==> Meets(w, Name(w, w.packages[i].value.name), Depends)
  {
    hide Valid, Word, INSTALL, INSTALLED;
    Sizes(w);
    PackageFacts(w, i);
    var key := Name(w, w.packages[i].value.name);
    var at := SearchStatus(w, key);
    if w.statuses[at] == None {
      return false;
    }
    var line := w.statuses[at].value.status;
    forall l ensures HasStatus(w, key, l) <==> line == l {
      OneStatus(w, key, at, l);
    }
    hide HasStatus;
    var word := GetStatus(line, 1);
    r := word == INSTALL;
  }
}
