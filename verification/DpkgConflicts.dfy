/** The first two loops of check_deps: virtual packages and conflicts, on tables that hold a database. */
module DpkgConflicts {
  import opened Basics
  import opened DpkgVersion
  import opened DpkgCompare
  import opened DpkgTables
  import opened DpkgDeps
  import opened DpkgCheck
  import opened DpkgParse
  import opened DpkgSplit
  import opened DpkgDatabase
  import opened DpkgVerdict
  import opened DpkgHolding

  // ---- The edges of one kind

  function OfKind(edges: seq<Edge>, kind: Kind): (r: seq<Edge>)
    ensures |r| <= |edges|
  {
    if edges == [] then []
    else OfKind(edges[..|edges| - 1], kind) + if edges[|edges| - 1].kind == kind then [edges[|edges| - 1]] else []
  }

  lemma {:induction false} OfKindAppend(a: seq<Edge>, b: seq<Edge>, kind: Kind)
    ensures OfKind(a + b, kind) == OfKind(a, kind) + OfKind(b, kind)
    decreases |b|
  {
    if b == [] {
      assert a + b == a;
    } else {
      var n := |b| - 1;
      assert (a + b)[..|a| + n] == a + b[..n];
      OfKindAppend(a, b[..n], kind);
    }
  }

  lemma {:induction false} OfKindAll(edges: seq<Edge>, kind: Kind)
    ensures (forall i :: 0 <= i < |edges| ==> edges[i].kind == kind) ==> OfKind(edges, kind) == edges
    ensures (forall i :: 0 <= i < |edges| ==> edges[i].kind != kind) ==> OfKind(edges, kind) == []
    decreases |edges|
  {
    if edges == [] {
    } else {
      var n := |edges| - 1;
      OfKindAll(edges[..n], kind);
      assert edges == edges[..n] + [edges[n]];
    }
  }

  ghost predicate Plainly(kind: Kind) { kind !in {PreDepends, OrPreDepends, Depends, OrDepends} }

  /** The edges of one comma group: all its alternatives, or none. */
  lemma FieldEdges(t: Names, gs: seq<Group>, lineKind: FieldKind, f: Field, kind: Kind)
    requires GroupsFor(t, gs, lineKind, f) && AllGood(gs) && Plainly(kind)
    ensures lineKind == kind ==> EdgesFor(t, OfKind(Flat(gs), kind), kind, f.alternatives)
    ensures lineKind != kind ==> OfKind(Flat(gs), kind) == []
  {
    hide EdgeFor, OfKind, Flat;
    OfKindAll(Flat(gs), kind);
    if IsDependency(lineKind) {
      assert gs == [gs[0]];
      FlatOne(gs[0]);
      NeedKinds(gs[0], lineKind, kind);
    } else {
      var es := seq(|gs|, i requires 0 <= i < |gs| => gs[i].edge);
      assert gs == Singles(es);
      FlatSingles(es);
      KindsOf(t, es, lineKind, f.alternatives);
    }
  }

  lemma KindsOf(t: Names, es: seq<Edge>, kind: Kind, ds: seq<Dep>)
    requires EdgesFor(t, es, kind, ds)
    ensures forall i :: 0 <= i < |es| ==> es[i].kind == kind
  {
  }

  lemma NeedKinds(g: Group, lineKind: Kind, kind: Kind)
    requires g.Need? && g.kind == lineKind && GoodGroup(g) && Plainly(kind)
    ensures forall i :: 0 <= i < |FlatGroup(g)| ==> FlatGroup(g)[i].kind != kind
  {
  }

  lemma {:induction false} LineEdges(t: Names, part: seq<seq<Group>>, lineKind: FieldKind, fs: seq<Field>, kind: Kind)
    requires LineFor(t, part, lineKind, fs) && AllGood(Concat(part)) && Plainly(kind)
    ensures lineKind == kind ==> EdgesFor(t, OfKind(Flat(Concat(part)), kind), kind, FieldDeps(fs))
    ensures lineKind != kind ==> OfKind(Flat(Concat(part)), kind) == []
    decreases |fs|
  {
    hide EdgeFor, GroupsFor, Flat, OfKind, GoodGroup;
    if fs == [] {
      NoEdges(t, kind);
    } else {
      var n := |fs| - 1;
      var a, b := Concat(part[..n]), part[n];
      GoodParts(a, b);
      LineEdges(t, part[..n], lineKind, fs[..n], kind);
      FieldEdges(t, b, lineKind, fs[n], kind);
      FlatAppend(a, b);
      OfKindAppend(Flat(a), Flat(b), kind);
    }
  }

  lemma NoEdges(t: Names, kind: Kind)
    ensures OfKind(Flat([]), kind) == [] && EdgesFor(t, [], kind, [])
  {
  }

  lemma GoodParts(a: seq<Group>, b: seq<Group>)
    requires AllGood(a + b)
    ensures AllGood(a) && AllGood(b)
  {
    hide GoodGroup;
    forall i | 0 <= i < |a| ensures GoodGroup(a[i]) {
      assert (a + b)[i] == a[i];
    }
    forall i | 0 <= i < |b| ensures GoodGroup(b[i]) {
      assert (a + b)[|a| + i] == b[i];
    }
  }

  /** The edges of one kind are the relations of that kind, in order. */
  lemma {:induction false} KindEdges(t: Names, edges: seq<Edge>, parts: seq<seq<seq<Group>>>, lines: seq<Line>, kind: Kind)
    requires LinesFor(t, edges, parts, lines) && Plainly(kind)
    ensures EdgesFor(t, OfKind(edges, kind), kind, Relations(lines, kind))
    decreases |lines|
  {
    hide EdgeFor, LineFor, Flat, OfKind, AllGood, Concat;
    if lines == [] {
      NoEdges(t, kind);
    } else {
      var n := |lines| - 1;
      var a, b := AllGroups(parts[..n]), Concat(parts[n]);
      GoodParts(a, b);
      KindEdges(t, Flat(a), parts[..n], lines[..n], kind);
      LineEdges(t, parts[n], lines[n].kind, lines[n].fields, kind);
      FlatAppend(a, b);
      OfKindAppend(Flat(a), Flat(b), kind);
    }
  }

  // ---- Searching for a package

  lemma SuitsMeans(w: World, known: seq<Option<Known>>, db: Database, e: Edge, kind: Kind, d: Dep)
    requires Hold(w, known, db) && EdgeFor(w.names, e, kind, d)
    ensures |w.packages| == PACKAGE_HASH_PRIME + 1
    ensures SomeSuits(db.packages, d) <==>
            exists s :: 0 <= s < PACKAGE_HASH_PRIME && w.packages[s].Some? && Fits(w, w.packages[s].value, e.name, e.version, e.op)
  {
    hide Valid, Interned, NodeFor, Fits, Statuses;
    Sizes(w);
    forall s | 0 <= s < PACKAGE_HASH_PRIME && known[s].Some?
      ensures Fits(w, w.packages[s].value, e.name, e.version, e.op) <==> Suits(known[s].value.package, d)
    {
      FitsMeans(w, w.packages[s].value, known[s].value, e.name, e.version, e.op, d);
    }
    hide Suits;
    if SomeSuits(db.packages, d) {
      var p :| p in db.packages && Suits(p, d);
      assert Listed(known, p);
      var s :| 0 <= s < PACKAGE_HASH_PRIME && known[s].Some? && known[s].value.package == p;
      assert Fits(w, w.packages[s].value, e.name, e.version, e.op);
    }
    if s :| 0 <= s < PACKAGE_HASH_PRIME && w.packages[s].Some? && Fits(w, w.packages[s].value, e.name, e.version, e.op) {
      assert Listed(known, known[s].value.package);
    }
  }

  lemma EdgeLooked(w: World, e: Edge, kind: Kind, d: Dep)
    requires EdgeFor(w.names, e, kind, d)
    ensures Looked(w, e.name, e.version, e.op) && Named(w, e.version) && Name(w, e.name) == d.name && Name(w, e.version) == d.version
  {
  }

  // ---- Virtual packages

  /** A new node without edges in a free slot. */
  lemma HoldVirtual(w: World, w': World, known: seq<Option<Known>>, db: Database, at: nat, e: Edge, kind: Kind, d: Dep)
    requires Hold(w, known, db) && EdgeFor(w.names, e, kind, d) && at < PACKAGE_HASH_PRIME && at < |w.packages| && w.packages[at].None?
    requires Valid(w') && w' == w.(packages := w.packages[at := Some(Node(e.name, e.version, []))]) && !SomeSuits(db.packages, d)
    ensures Hold(w', known[at := Some(Known(Virtual(d), []))], db.(packages := AddVirtual(db.packages, d)))
  {
    hide Valid, Statuses, SomeSuits, Lists, NodeFor, EdgeFor;
    Sizes(w);
    VirtualNode(w.names, e, kind, d);
    VirtualLists(known, db.packages, at, d);
    StatusesKept(w, w', at, Node(e.name, e.version, []), db.status);
  }

  lemma VirtualLists(known: seq<Option<Known>>, ps: set<Package>, at: nat, d: Dep)
    requires |known| == PACKAGE_HASH_PRIME + 1 && at < PACKAGE_HASH_PRIME && known[at].None? && Lists(known, ps) && !SomeSuits(ps, d)
    ensures Lists(known[at := Some(Known(Virtual(d), []))], AddVirtual(ps, d))
  {
    hide SomeSuits;
    var new_ := known[at := Some(Known(Virtual(d), []))];
    forall p ensures p in AddVirtual(ps, d) <==> Listed(new_, p) {
      if p in ps {
        assert Listed(known, p);
        var s :| 0 <= s < PACKAGE_HASH_PRIME && known[s].Some? && known[s].value.package == p;
        assert new_[s] == known[s];
      }
      if p == Virtual(d) {
        assert new_[at].value.package == p;
      }
      if Listed(new_, p) && p != Virtual(d) {
        var s :| 0 <= s < PACKAGE_HASH_PRIME && new_[s].Some? && new_[s].value.package == p;
        assert s != at && known[s].value.package == p;
        assert Listed(known, p);
      }
    }
  }

  lemma VirtualNode(t: Names, e: Edge, kind: Kind, d: Dep)
    requires EdgeFor(t, e, kind, d)
    ensures NodeFor(t, Node(e.name, e.version, []), Known(Virtual(d), []))
  {
  }

  // ---- Conflicts

  /** What a search for a status says about the database. */
  lemma StatusMeans(w: World, db: Database, key: cstring, at: nat)
    requires Valid(w) && at < STATUS_HASH_PRIME && |w.statuses| == STATUS_HASH_PRIME + 1 && Statuses(w, db.status)
    requires w.statuses[at].Some? ==> Owns(w, key)(w.statuses[at].value)
    requires w.statuses[at].None? ==> forall s :: 0 <= s < STATUS_HASH_PRIME && w.statuses[s].Some? ==> !Owns(w, key)(w.statuses[s].value)
    ensures key in db.status <==> w.statuses[at].Some?
    ensures key in db.status ==> db.status[key] == w.statuses[at].value.status
  {
    hide Valid;
    assert key in db.status ==> HasStatus(w, key, db.status[key]);
    if w.statuses[at].Some? {
      assert HasStatus(w, key, w.statuses[at].value.status);
    }
  }

  /** The word of the status of a name, or nothing without a status. */
  method StatusWord(w: World, key: cstring, num: nat, ghost db: Database) returns (word: Option<cstring>)
    requires Valid(w) && Open(w) && Statuses(w, db.status)
    ensures word.Some? <==> key in db.status
    ensures word.Some? ==> word.value == Word(db.status[key], num)
  {
    hide Valid, Word, Statuses;
    var at := SearchStatus(w, key);
    StatusMeans(w, db, key, at);
    if w.statuses[at] == None {
      return None;
    }
    var found := GetStatus(w.statuses[at].value.status, num);
    word := Some(found);
  }

  /** One Conflicts edge of a given package. */
  method CheckConflictEdge(w: World, e: Edge, version: nat, ghost known: seq<Option<Known>>, ghost db: Database, ghost p: Package, ghost d: Dep)
    returns (f: Finding)
    requires Hold(w, known, db) && Open(w) && EdgeFor(w.names, e, Conflicts, d) && Stored(w.names, version, p.version)
    ensures f == CheckConflict(db, p, d)
  {
    hide Valid, Open, Satisfies, SomeSuits, Fits, Word, INSTALL, Represents, Lists, Statuses;
    SuitsMeans(w, known, db, e, Conflicts, d);
    EdgeLooked(w, e, Conflicts, d);
    Opened(w);
    var at := SearchPackage(w, e.name, e.version, e.op);
    if w.packages[at] == None {
      return Fine;
    }
    FitsName(w, w.packages[at].value, e.name, e.version, e.op);
    var word := StatusWord(w, Name(w, w.packages[at].value.name), 1, db);
    if word == None {
      return Crash;
    }
    if word.value == INSTALL {
      var result := TestVersion(Name(w, version), Name(w, e.version), e.op);
      if result {
        return Clash;
      }
    }
    f := Fine;
  }

  lemma Opened(w: World)
    requires Open(w)
    ensures |w.packages| == PACKAGE_HASH_PRIME + 1 && HasFree(w.packages, PACKAGE_HASH_PRIME)
    ensures |w.statuses| == STATUS_HASH_PRIME + 1 && HasFree(w.statuses, STATUS_HASH_PRIME)
  {
  }

  /** The second loop of check_deps for one package. */
  method CheckGivenNode(w: World, n: Node, ghost known: seq<Option<Known>>, ghost db: Database, ghost k: Known) returns (f: Finding)
    requires Hold(w, known, db) && Open(w) && NodeFor(w.names, n, k)
    ensures f == CheckGiven(db, k.package)
  {
    hide Valid, Open, Word, INSTALLED, Represents, Lists, Statuses, OfKind, LinesFor, Relations, CheckConflict, EdgeFor;
    ghost var ds := Relations(k.package.lines, Conflicts);
    KindEdges(w.names, n.edges, k.parts, k.package.lines, Conflicts);
    ghost var es := OfKind(n.edges, Conflicts);
    var word := StatusWord(w, Name(w, n.name), 3, db);
    if word == None {
      return Crash;
    }
    if word.value == INSTALLED {
      return Fine;
    }
    ghost var i := 0;
    NoneOfKind(n.edges, Conflicts);
    assert ds[..0] == [];
    for j := 0 to |n.edges|
      invariant 0 <= i <= |ds| && i == |OfKind(n.edges[..j], Conflicts)|
      invariant CheckConflicts(db, k.package, ds[..i]) == Fine
    {
      NextOfKind(n.edges, j, Conflicts);
      if n.edges[j].kind == Conflicts {
        f := CheckConflictEdge(w, n.edges[j], n.version, known, db, k.package, ds[i]);
        assert ds[..i + 1][..i] == ds[..i];
        if f != Fine {
          StaysFound(db, k.package, ds, i + 1);
          return;
        }
        i := i + 1;
      }
    }
    assert n.edges[..|n.edges|] == n.edges && ds[..i] == ds;
    f := Fine;
  }

  lemma NoneOfKind(edges: seq<Edge>, kind: Kind)
    ensures OfKind(edges[..0], kind) == []
  {
  }

  /** The next edge is the next of its kind. */
  lemma NextOfKind(edges: seq<Edge>, j: nat, kind: Kind)
    requires j < |edges|
    ensures var i := |OfKind(edges[..j], kind)|;
            if edges[j].kind == kind then |OfKind(edges[..j + 1], kind)| == i + 1 <= |OfKind(edges, kind)| && OfKind(edges, kind)[i] == edges[j]
            else |OfKind(edges[..j + 1], kind)| == i
  {
    assert edges[..j + 1][..j] == edges[..j];
    assert edges == edges[..j + 1] + edges[j + 1..];
    OfKindAppend(edges[..j + 1], edges[j + 1..], kind);
  }

  /** Once something is found, it is the outcome. */
  lemma {:induction false} StaysFound(db: Database, p: Package, ds: seq<Dep>, i: nat)
    requires i <= |ds| && CheckConflicts(db, p, ds[..i]) != Fine
    ensures CheckConflicts(db, p, ds) == CheckConflicts(db, p, ds[..i])
    decreases |ds| - i
  {
    hide CheckConflict;
    if i == |ds| {
      assert ds[..i] == ds;
    } else {
      assert ds[..i + 1][..i] == ds[..i];
      StaysFound(db, p, ds, i + 1);
    }
  }
}
