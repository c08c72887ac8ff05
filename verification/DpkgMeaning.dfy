/** What the dependency pass decides on tables, said of the database that they hold. */
module DpkgMeaning {
  import opened Basics
  import opened DpkgVersion
  import opened DpkgCompare
  import opened DpkgTables
  import opened DpkgDeps
  import opened DpkgCheck
  import opened DpkgParse
  import opened DpkgSplit
  import opened DpkgDatabase
  import opened DpkgHolding

  // ---- Members of groups

  lemma {:induction false} FlatMembers(gs: seq<Group>, e: Edge)
    ensures e in Flat(gs) <==> exists g :: g in gs && e in FlatGroup(g)
    decreases |gs|
  {
    hide FlatGroup;
    if gs == [] {
    } else {
      FlatMembers(gs[1..], e);
      assert gs == [gs[0]] + gs[1..];
    }
  }

  lemma {:induction false} ConcatMembers(parts: seq<seq<Group>>, g: Group)
    ensures g in Concat(parts) <==> exists f :: 0 <= f < |parts| && g in parts[f]
    decreases |parts|
  {
    if parts == [] {
    } else {
      ConcatMembers(parts[..|parts| - 1], g);
    }
  }

  lemma {:induction false} AllMembers(parts: seq<seq<seq<Group>>>, g: Group)
    ensures g in AllGroups(parts) <==> exists l, f :: 0 <= l < |parts| && 0 <= f < |parts[l]| && g in parts[l][f]
    decreases |parts|
  {
    hide Concat;
    if parts == [] {
    } else {
      var n := |parts| - 1;
      AllMembers(parts[..n], g);
      ConcatMembers(parts[n], g);
    }
  }

  lemma GoodMember(gs: seq<Group>, g: Group)
    requires AllGood(gs) && g in gs
    ensures GoodGroup(g)
  {
    hide GoodGroup;
  }

  // ---- Status

  lemma MeetsMeans(w: World, db: Database, key: cstring, kind: Kind)
    requires |w.statuses| == STATUS_HASH_PRIME + 1 && Statuses(w, db.status)
    ensures Meets(w, key, kind) <==> Selected(db, key, kind)
  {
    hide HasStatus, Word, INSTALL, INSTALLED;
    if Selected(db, key, kind) {
      assert HasStatus(w, key, db.status[key]);
    }
  }

  // ---- Providers

  /** An edge that provides a name comes from an alternative of a Provides field. */
  lemma ProvidesComes(t: Names, k: Known, g: Group, l: nat, f: nat, e: Edge, name: cstring)
    requires l < |k.parts| == |k.package.lines| && f < |k.parts[l]| && g in k.parts[l][f] && GoodGroup(g) && e in FlatGroup(g)
    requires LineFor(t, k.parts[l], k.package.lines[l].kind, k.package.lines[l].fields)
    requires e.kind == Provides && Stored(t, e.name, name)
    ensures Offers(k.package, name)
  {
    var line := k.package.lines[l];
    var alternatives := line.fields[f].alternatives;
    assert GroupsFor(t, k.parts[l][f], line.kind, line.fields[f]);
    if IsDependency(line.kind) {
      NoProvides(g, e);
    } else {
      var i :| 0 <= i < |k.parts[l][f]| && k.parts[l][f][i] == g;
      assert g.edge == e && EdgeFor(t, e, line.kind, alternatives[i]);
      assert alternatives[i].name == name;
    }
  }

  lemma NoProvides(g: Group, e: Edge)
    requires g.Need? && GoodGroup(g) && e in FlatGroup(g)
    ensures e.kind != Provides
  {
  }

  lemma OffersMeans(t: Names, n: Node, k: Known, needle: nat, name: cstring)
    requires Interned(t) && NodeFor(t, n, k) && Stored(t, needle, name)
    ensures IsProvider(n, needle) <==> Offers(k.package, name)
  {
    hide Interned, Flat, FlatGroup, AllGroups, AllGood, Stored, LineFor, GoodGroup;
    var gs := AllGroups(k.parts);
    if j :| 0 <= j < |n.edges| && n.edges[j].kind == Provides && n.edges[j].name == needle {
      var e := n.edges[j];
      FlatMembers(gs, e);
      var g :| g in gs && e in FlatGroup(g);
      GoodMember(gs, g);
      AllMembers(k.parts, g);
      var l, f :| 0 <= l < |k.parts| && 0 <= f < |k.parts[l]| && g in k.parts[l][f];
      ProvidesComes(t, k, g, l, f, e, name);
    }
    if Offers(k.package, name) {
      OffersGoes(t, n, k, needle, name);
    }
  }

  lemma OffersGoes(t: Names, n: Node, k: Known, needle: nat, name: cstring)
    requires Interned(t) && NodeFor(t, n, k) && Stored(t, needle, name) && Offers(k.package, name)
    ensures IsProvider(n, needle)
  {
    hide Interned, Flat, AllGroups, AllGood, Stored, GoodGroup;
    var lines := k.package.lines;
    var l, f, i :| 0 <= l < |lines| && lines[l].kind == Provides && 0 <= f < |lines[l].fields|
                   && 0 <= i < |lines[l].fields[f].alternatives| && lines[l].fields[f].alternatives[i].name == name;
    assert LineFor(t, k.parts[l], Provides, lines[l].fields);
    assert GroupsFor(t, k.parts[l][f], Provides, lines[l].fields[f]);
    var g := k.parts[l][f][i];
    AllMembers(k.parts, g);
    assert g.edge in FlatGroup(g);
    FlatMembers(AllGroups(k.parts), g.edge);
    SameIndex(t, g.edge.name, needle, name, name);
    var j :| 0 <= j < |n.edges| && n.edges[j] == g.edge;
  }

  // ---- Edges

  lemma DirectMeans(w: World, known: seq<Option<Known>>, db: Database, e: Edge, kind: Kind, d: Dep)
    requires Hold(w, known, db) && EdgeFor(w.names, e, kind, d)
    ensures |w.packages| == PACKAGE_HASH_PRIME + 1 && |w.statuses| == STATUS_HASH_PRIME + 1
    ensures Direct(w, e) <==>
            Selected(db, d.name, kind) && exists p :: p in db.packages && p.name == d.name && Satisfies(p.version, d.op, d.version)
  {
    hide Valid, Interned, NodeFor, Fits, Meets, Selected, Satisfies, Statuses;
    Sizes(w);
    MeetsMeans(w, db, d.name, kind);
    forall s | 0 <= s < PACKAGE_HASH_PRIME && known[s].Some?
      ensures Fits(w, w.packages[s].value, e.name, e.version, e.op)
         <==> known[s].value.package.name == d.name && Satisfies(known[s].value.package.version, d.op, d.version)
    {
      FitsMeans(w, w.packages[s].value, known[s].value, e.name, e.version, e.op, d);
    }
    if p :| p in db.packages && p.name == d.name && Satisfies(p.version, d.op, d.version) {
      assert Listed(known, p);
      var s :| 0 <= s < PACKAGE_HASH_PRIME && known[s].Some? && known[s].value.package == p;
      assert Fits(w, w.packages[s].value, e.name, e.version, e.op);
    }
    if s :| 0 <= s < PACKAGE_HASH_PRIME && w.packages[s].Some? && Fits(w, w.packages[s].value, e.name, e.version, e.op) {
      assert Listed(known, known[s].value.package);
    }
  }

  lemma ProvidedMeans(w: World, known: seq<Option<Known>>, db: Database, e: Edge, kind: Kind, d: Dep, s: nat)
    requires Hold(w, known, db) && EdgeFor(w.names, e, kind, d) && s < PACKAGE_HASH_PRIME
    ensures |w.packages| == PACKAGE_HASH_PRIME + 1 && |w.statuses| == STATUS_HASH_PRIME + 1
    ensures Provided(w, e, s) <==>
            known[s].Some? && Offers(known[s].value.package, d.name) && Selected(db, known[s].value.package.name, kind)
  {
    hide Valid, Interned, LinesFor, IsProvider, Offers, Meets, Selected, Statuses;
    Sizes(w);
    if known[s].Some? {
      OffersMeans(w.names, w.packages[s].value, known[s].value, e.name, d.name);
      MeetsMeans(w, db, known[s].value.package.name, kind);
    }
  }

  /** An edge is satisfied iff its alternative holds in the database. */
  lemma SatisfiedMeans(w: World, known: seq<Option<Known>>, db: Database, e: Edge, kind: Kind, d: Dep)
    requires Hold(w, known, db) && EdgeFor(w.names, e, kind, d)
    ensures |w.packages| == PACKAGE_HASH_PRIME + 1 && |w.statuses| == STATUS_HASH_PRIME + 1
    ensures Satisfied(w, e) <==> Holds(db, kind, d)
  {
    hide Valid, NodeFor, EdgeFor, Direct, Provided, Offers, Selected, Statuses, Satisfies;
    DirectMeans(w, known, db, e, kind, d);
    forall s: nat | s < PACKAGE_HASH_PRIME
      ensures Provided(w, e, s) <==>
              known[s].Some? && Offers(known[s].value.package, d.name) && Selected(db, known[s].value.package.name, kind)
    {
      ProvidedMeans(w, known, db, e, kind, d, s);
    }
    if p :| p in db.packages && Offers(p, d.name) && Selected(db, p.name, kind) {
      assert Listed(known, p);
      var s: nat :| s < PACKAGE_HASH_PRIME && known[s].Some? && known[s].value.package == p;
      assert Provided(w, e, s);
    }
    if s: nat :| s < PACKAGE_HASH_PRIME && Provided(w, e, s) {
      assert Listed(known, known[s].value.package);
    }
  }

  // ---- Fields

  /** The groups of a field are met iff the field is no dependency or one of its alternatives holds. */
  lemma FieldMeans(w: World, known: seq<Option<Known>>, db: Database, gs: seq<Group>, kind: Kind, f: Field)
    requires Hold(w, known, db) && GroupsFor(w.names, gs, kind, f)
    ensures |w.packages| == PACKAGE_HASH_PRIME + 1 && |w.statuses| == STATUS_HASH_PRIME + 1
    ensures AllMet(w, gs) <==> (IsDependency(kind) ==> SomeHolds(db, kind, f.alternatives))
  {
    hide Hold, Satisfied, Holds, EdgeFor;
    HoldSizes(w, known, db);
    if IsDependency(kind) {
      var es := gs[0].alternatives;
      forall i | 0 <= i < |es| ensures Satisfied(w, es[i]) <==> Holds(db, kind, f.alternatives[i]) {
        SatisfiedMeans(w, known, db, es[i], kind, f.alternatives[i]);
      }
      assert AllMet(w, gs) <==> Met(w, gs[0]);
    }
  }

  lemma HoldSizes(w: World, known: seq<Option<Known>>, db: Database)
    requires Hold(w, known, db)
    ensures |w.packages| == PACKAGE_HASH_PRIME + 1 && |w.statuses| == STATUS_HASH_PRIME + 1
  {
    hide Valid;
    Sizes(w);
  }

  /** All groups of a package are met iff its needs are. */
  lemma NeedsMean(w: World, known: seq<Option<Known>>, db: Database, n: Node, k: Known)
    requires Hold(w, known, db) && NodeFor(w.names, n, k)
    ensures |w.packages| == PACKAGE_HASH_PRIME + 1 && |w.statuses| == STATUS_HASH_PRIME + 1
    ensures AllMet(w, AllGroups(k.parts)) <==> NeedsMet(db, k.package)
  {
    hide Hold, Met, SomeHolds, GroupsFor, Flat, AllGood, AllGroups, Stored;
    HoldSizes(w, known, db);
    var lines := k.package.lines;
    forall l, f | 0 <= l < |lines| && 0 <= f < |lines[l].fields|
      ensures l < |k.parts| && f < |k.parts[l]|
      ensures AllMet(w, k.parts[l][f]) <==> (IsDependency(lines[l].kind) ==> SomeHolds(db, lines[l].kind, lines[l].fields[f].alternatives))
    {
      assert LineFor(w.names, k.parts[l], lines[l].kind, lines[l].fields);
      FieldMeans(w, known, db, k.parts[l][f], lines[l].kind, lines[l].fields[f]);
    }
    hide AllMet;
    MetParts(w, k.parts);
    PartCounts(w.names, n, k);
  }

  lemma PartCounts(t: Names, n: Node, k: Known)
    requires NodeFor(t, n, k)
    ensures |k.parts| == |k.package.lines|
    ensures forall l :: 0 <= l < |k.parts| ==> |k.parts[l]| == |k.package.lines[l].fields|
  {
    hide GroupsFor, Flat, AllGood, AllGroups, Stored;
  }

  lemma MetParts(w: World, parts: seq<seq<seq<Group>>>)
    requires |w.packages| == PACKAGE_HASH_PRIME + 1 && |w.statuses| == STATUS_HASH_PRIME + 1
    ensures AllMet(w, AllGroups(parts)) <==> forall l, f :: 0 <= l < |parts| && 0 <= f < |parts[l]| ==> AllMet(w, parts[l][f])
  {
    hide Met, AllGroups;
    forall g: Group
      ensures g in AllGroups(parts) <==> exists l, f :: 0 <= l < |parts| && 0 <= f < |parts[l]| && g in parts[l][f]
    {
      AllMembers(parts, g);
    }
    if AllMet(w, AllGroups(parts)) {
      forall l, f | 0 <= l < |parts| && 0 <= f < |parts[l]| ensures AllMet(w, parts[l][f]) {
        forall i | 0 <= i < |parts[l][f]| ensures Met(w, parts[l][f][i]) {
          assert parts[l][f][i] in AllGroups(parts);
        }
      }
    }
    if forall l, f :: 0 <= l < |parts| && 0 <= f < |parts[l]| ==> AllMet(w, parts[l][f]) {
      forall i | 0 <= i < |AllGroups(parts)| ensures Met(w, AllGroups(parts)[i]) {
        var g := AllGroups(parts)[i];
        assert g in AllGroups(parts);
      }
    }
  }

  // ---- The pass

  /** The edges of a field can be looked up. */
  lemma GroupsSearchable(w: World, gs: seq<Group>, kind: Kind, f: Field, g: Group, e: Edge)
    requires GroupsFor(w.names, gs, kind, f) && g in gs && GoodGroup(g) && e in FlatGroup(g) && e.kind !in {OrPreDepends, OrDepends}
    ensures Looked(w, e.name, e.version, e.op)
  {
    if IsDependency(kind) {
      assert e in g.alternatives;
      var i :| 0 <= i < |g.alternatives| && g.alternatives[i] == e;
      assert EdgeFor(w.names, g.alternatives[i], kind, f.alternatives[i]);
    } else {
      var i :| 0 <= i < |gs| && gs[i] == g;
      assert EdgeFor(w.names, gs[i].edge, kind, f.alternatives[i]);
    }
  }

  lemma NodeSearchable(w: World, n: Node, k: Known)
    requires NodeFor(w.names, n, k)
    ensures Searchable(w, n.edges)
  {
    hide Flat, FlatGroup, AllGroups, AllGood, GroupsFor, Looked, Stored, GoodGroup;
    var gs := AllGroups(k.parts);
    forall j | 0 <= j < |n.edges| && n.edges[j].kind !in {OrPreDepends, OrDepends}
      ensures Looked(w, n.edges[j].name, n.edges[j].version, n.edges[j].op)
    {
      var e := n.edges[j];
      FlatMembers(gs, e);
      var g :| g in gs && e in FlatGroup(g);
      GoodMember(gs, g);
      AllMembers(k.parts, g);
      var l, f :| 0 <= l < |k.parts| && 0 <= f < |k.parts[l]| && g in k.parts[l][f];
      var line := k.package.lines[l];
      assert LineFor(w.names, k.parts[l], line.kind, line.fields);
      GroupsSearchable(w, k.parts[l][f], line.kind, line.fields[f], g, e);
    }
  }

  ghost function GroupsAt(known: seq<Option<Known>>): nat -> seq<Group> {
    (i: nat) => if i < |known| && known[i].Some? then AllGroups(known[i].value.parts) else []
  }

  lemma SlotMeans(w: World, known: seq<Option<Known>>, db: Database, i: nat)
    requires Hold(w, known, db) && i < PACKAGE_HASH_PRIME
    ensures |w.packages| == PACKAGE_HASH_PRIME + 1 && |w.statuses| == STATUS_HASH_PRIME + 1
    ensures SlotMet(w, i, GroupsAt(known)(i)) <==>
            (known[i].Some? && Selected(db, known[i].value.package.name, Depends) ==> NeedsMet(db, known[i].value.package))
  {
    hide Valid, LinesFor, Lists, Statuses, AllMet, NeedsMet, Meets, Selected, AllGroups;
    Sizes(w);
    if known[i].Some? {
      MeetsMeans(w, db, known[i].value.package.name, Depends);
      NeedsMean(w, known, db, w.packages[i].value, known[i].value);
    }
  }

  /** The last loop of check_deps accepts the tables iff the database is consistent. */
  method CheckTables(w: World, ghost known: seq<Option<Known>>, ghost db: Database) returns (ok: bool)
    requires Hold(w, known, db) && Open(w)
    ensures ok <==> Consistent(db)
  {
    hide Valid, Open, NodeFor, NeedsMet, Selected, SlotMet, Statuses, Searchable, Flat, GoodGroup;
    HoldSizes(w, known, db);
    forall i: nat | i < PACKAGE_HASH_PRIME && w.packages[i].Some?
      ensures w.packages[i].value.edges == Flat(GroupsAt(known)(i)) && Searchable(w, w.packages[i].value.edges)
      ensures forall k :: 0 <= k < |GroupsAt(known)(i)| ==> GoodGroup(GroupsAt(known)(i)[k])
    {
      NodeSearchable(w, w.packages[i].value, known[i].value);
      NodeGroups(w.names, w.packages[i].value, known[i].value);
    }
    ok := CheckDependencies(w, GroupsAt(known));
    forall i: nat | i < PACKAGE_HASH_PRIME
      ensures SlotMet(w, i, GroupsAt(known)(i)) <==>
              (known[i].Some? && Selected(db, known[i].value.package.name, Depends) ==> NeedsMet(db, known[i].value.package))
    {
      SlotMeans(w, known, db, i);
    }
    AllSlots(known, db);
  }

  lemma NodeGroups(t: Names, n: Node, k: Known)
    requires NodeFor(t, n, k)
    ensures n.edges == Flat(AllGroups(k.parts)) && forall i :: 0 <= i < |AllGroups(k.parts)| ==> GoodGroup(AllGroups(k.parts)[i])
  {
    hide Flat, AllGroups, GoodGroup, LineFor, Stored;
  }

  lemma AllSlots(known: seq<Option<Known>>, db: Database)
    requires |known| == PACKAGE_HASH_PRIME + 1 && Lists(known, db.packages)
    ensures Consistent(db) <==>
            forall i: nat :: i < PACKAGE_HASH_PRIME && known[i].Some? && Selected(db, known[i].value.package.name, Depends) ==>
              NeedsMet(db, known[i].value.package)
  {
    hide NeedsMet, Selected;
    forall i: nat | i < PACKAGE_HASH_PRIME && known[i].Some? ensures known[i].value.package in db.packages {
      assert Listed(known, known[i].value.package);
    }
    forall p | p in db.packages ensures exists i: nat :: i < PACKAGE_HASH_PRIME && known[i].Some? && known[i].value.package == p {
      assert Listed(known, p);
      var s :| 0 <= s < PACKAGE_HASH_PRIME && known[s].Some? && known[s].value.package == p;
      var i: nat := s;
    }
  }
}
