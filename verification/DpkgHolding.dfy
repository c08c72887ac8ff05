/** When the three tables hold a database, and that storing packages and status lines keeps it so. */
module DpkgHolding {
  import opened Basics
  import opened DpkgVersion
  import opened DpkgCompare
  import opened DpkgTables
  import opened DpkgDeps
  import opened DpkgCheck
  import opened DpkgParse
  import opened DpkgSplit
  import opened DpkgDatabase

  // ---- Tables while names are added

  ghost predicate Extends(t: Names, t': Names) {
    |t| == |t'| && forall s :: 0 <= s < |t| && t[s].Some? ==> t'[s] == t[s]
  }

  lemma GrownExtends(t: Names, t': Names, all: set<cstring>)
    requires Grown(t, t', all)
    ensures Extends(t, t') && Interned(t')
  {
    hide Interned;
  }

  /** The tables are as good when names are added. */
  lemma ValidExtends(w: World, t: Names)
    requires Valid(w) && Extends(w.names, t) && Interned(t)
    ensures Valid(w.(names := t))
  {
    hide Interned, Reached;
    var w' := w.(names := t);
    forall s | 0 <= s < PACKAGE_HASH_PRIME && w.packages[s].Some?
      ensures var p := w.packages[s].value;
              Named(w', p.name) && Named(w', p.version) && Name(w', p.name) == Name(w, p.name)
    {
    }
    forall s | 0 <= s < STATUS_HASH_PRIME && w.statuses[s].Some?
      ensures StatusNamed(w', w.statuses[s].value) && StatusName(w', w.statuses[s].value) == StatusName(w, w.statuses[s].value)
    {
      StatusExtends(w, t, w.statuses[s].value);
    }
  }

  lemma StatusExtends(w: World, t: Names, x: Status)
    requires StatusNamed(w, x) && Extends(w.names, t)
    ensures var w' := w.(names := t); StatusNamed(w', x) && StatusName(w', x) == StatusName(w, x)
  {
  }

  /** The zeroed tables. */
  lemma ValidEmpty(w: World)
    requires |w.names| == NAME_HASH_PRIME + 1 && |w.packages| == PACKAGE_HASH_PRIME + 1 && |w.statuses| == STATUS_HASH_PRIME + 1
    requires (forall s :: 0 <= s < |w.names| ==> w.names[s].None?) && (forall s :: 0 <= s < |w.packages| ==> w.packages[s].None?)
    requires forall s :: 0 <= s < |w.statuses| ==> w.statuses[s].None?
    ensures Interned(w.names) && Valid(w)
  {
    hide Reached;
  }

  // ---- What a node stands for

  /** A package, and for each of its control fields the groups of each comma group. */
  datatype Known = Known(package: Package, parts: seq<seq<seq<Group>>>)

  ghost function AllGroups(parts: seq<seq<seq<Group>>>): seq<Group> {
    if parts == [] then [] else AllGroups(parts[..|parts| - 1]) + Concat(parts[|parts| - 1])
  }

  ghost predicate LinesFor(t: Names, edges: seq<Edge>, parts: seq<seq<seq<Group>>>, lines: seq<Line>) {
    && |parts| == |lines| && edges == Flat(AllGroups(parts)) && AllGood(AllGroups(parts))
    && forall l :: 0 <= l < |lines| ==> LineFor(t, parts[l], lines[l].kind, lines[l].fields)
  }

  ghost predicate NodeFor(t: Names, n: Node, k: Known) {
    && Stored(t, n.name, k.package.name) && Stored(t, n.version, k.package.version)
    && LinesFor(t, n.edges, k.parts, k.package.lines)
  }

  lemma LinesExtend(t: Names, u: Names, all: set<cstring>, edges: seq<Edge>, parts: seq<seq<seq<Group>>>, lines: seq<Line>)
    requires LinesFor(t, edges, parts, lines) && Grown(t, u, all)
    ensures LinesFor(u, edges, parts, lines)
  {
    hide Grown, GroupsFor, AllGood, Flat, AllGroups;
    forall l | 0 <= l < |lines| ensures LineFor(u, parts[l], lines[l].kind, lines[l].fields) {
      assert LineFor(t, parts[l], lines[l].kind, lines[l].fields);
      forall f | 0 <= f < |lines[l].fields| ensures GroupsFor(u, parts[l][f], lines[l].kind, lines[l].fields[f]) {
        GrownGroups(t, u, all, parts[l][f], lines[l].kind, lines[l].fields[f]);
      }
    }
  }

  lemma NodeExtends(t: Names, u: Names, all: set<cstring>, n: Node, known: Known)
    requires NodeFor(t, n, known) && Grown(t, u, all)
    ensures NodeFor(u, n, known)
  {
    hide Grown, LinesFor, Stored;
    GrownStores(t, u, all, n.name, known.package.name);
    GrownStores(t, u, all, n.version, known.package.version);
    LinesExtend(t, u, all, n.edges, known.parts, known.package.lines);
  }

  /** One more control field. */
  lemma LinesStep(t: Names, edges: seq<Edge>, parts: seq<seq<seq<Group>>>, lines: seq<Line>, part: seq<seq<Group>>, line: Line)
    requires LinesFor(t, edges, parts, lines) && LineFor(t, part, line.kind, line.fields) && AllGood(Concat(part))
    ensures LinesFor(t, edges + Flat(Concat(part)), parts + [part], lines + [line])
  {
    hide LineFor, Flat, Concat, GoodGroup;
    var all := parts + [part];
    assert all[..|parts|] == parts;
    FlatAppend(AllGroups(parts), Concat(part));
  }

  // ---- Tables and database

  ghost predicate Represents(w: World, known: seq<Option<Known>>) {
    && |known| == |w.packages| == PACKAGE_HASH_PRIME + 1 && known[PACKAGE_HASH_PRIME].None?
    && forall s :: 0 <= s < PACKAGE_HASH_PRIME ==>
         && (known[s].Some? <==> w.packages[s].Some?)
         && (known[s].Some? ==> NodeFor(w.names, w.packages[s].value, known[s].value))
  }

  /** Two slots never hold the same package. */
  ghost predicate Separate(known: seq<Option<Known>>) {
    forall s, r :: 0 <= s < |known| && 0 <= r < |known| && s != r && known[s].Some? && known[r].Some? ==>
      !Same(known[s].value.package, known[r].value.package)
  }

  ghost predicate Listed(known: seq<Option<Known>>, p: Package) {
    exists s :: 0 <= s < PACKAGE_HASH_PRIME && s < |known| && known[s].Some? && known[s].value.package == p
  }

  ghost predicate Lists(known: seq<Option<Known>>, ps: set<Package>) {
    forall p :: p in ps <==> Listed(known, p)
  }

  ghost predicate Statuses(w: World, status: map<cstring, cstring>)
    requires |w.statuses| == STATUS_HASH_PRIME + 1
  {
    forall key, line :: HasStatus(w, key, line) <==> key in status && status[key] == line
  }

  /** The tables hold a database. */
  ghost predicate Hold(w: World, known: seq<Option<Known>>, db: Database) {
    Valid(w) && Represents(w, known) && Lists(known, db.packages) && Statuses(w, db.status)
  }

  lemma HoldExtends(w: World, known: seq<Option<Known>>, db: Database, t: Names, all: set<cstring>)
    requires Hold(w, known, db) && Grown(w.names, t, all)
    ensures Hold(w.(names := t), known, db)
  {
    hide Valid, NodeFor, Grown, Lists;
    var w' := w.(names := t);
    Sizes(w);
    GrownExtends(w.names, t, all);
    ValidExtends(w, t);
    forall s | 0 <= s < PACKAGE_HASH_PRIME && known[s].Some? ensures NodeFor(t, w.packages[s].value, known[s].value) {
      NodeExtends(w.names, t, all, w.packages[s].value, known[s].value);
    }
    StatusesExtend(w, t, db.status);
  }

  lemma StatusesExtend(w: World, t: Names, status: map<cstring, cstring>)
    requires Valid(w) && Extends(w.names, t) && |w.statuses| == STATUS_HASH_PRIME + 1 && Statuses(w, status)
    ensures Statuses(w.(names := t), status)
  {
    hide Valid, Extends, StatusNamed;
    var w' := w.(names := t);
    forall s | 0 <= s < STATUS_HASH_PRIME && w.statuses[s].Some?
      ensures StatusNamed(w, w.statuses[s].value) && StatusNamed(w', w.statuses[s].value)
      ensures StatusName(w', w.statuses[s].value) == StatusName(w, w.statuses[s].value)
    {
      StatusFacts(w, s);
      StatusExtends(w, t, w.statuses[s].value);
    }
    SameStatuses(w, w', status);
  }

  /** The names of the status entries are all that matters. */
  lemma SameStatuses(w: World, w': World, status: map<cstring, cstring>)
    requires w.statuses == w'.statuses && |w.statuses| == STATUS_HASH_PRIME + 1 && Statuses(w, status)
    requires forall s :: 0 <= s < STATUS_HASH_PRIME && w.statuses[s].Some? ==>
               var x := w.statuses[s].value; StatusNamed(w, x) && StatusNamed(w', x) && StatusName(w', x) == StatusName(w, x)
    ensures Statuses(w', status)
  {
    hide StatusNamed;
    forall key, line ensures HasStatus(w', key, line) <==> HasStatus(w, key, line) {
    }
  }

  // ---- Storing

  lemma SameIndex(t: Names, i: nat, j: nat, a: cstring, b: cstring)
    requires Interned(t) && Stored(t, i, a) && Stored(t, j, b)
    ensures i == j <==> a == b
  {
    hide Reached;
    InternedOnce(t);
  }

  /** Indices and strings say the same about a stored package. */
  lemma FitsMeans(w: World, n: Node, k: Known, name: nat, version: nat, op: Operator, d: Dep)
    requires Interned(w.names) && NodeFor(w.names, n, k) && Stored(w.names, name, d.name) && Stored(w.names, version, d.version)
    ensures Fits(w, n, name, version, op) <==> k.package.name == d.name && Satisfies(k.package.version, op, d.version)
  {
    hide Interned, LinesFor, CompareVersions, Parse;
    SameIndex(w.names, n.name, name, k.package.name, d.name);
  }

  lemma PutLists(known: seq<Option<Known>>, ps: set<Package>, at: nat, k: Known)
    requires |known| == PACKAGE_HASH_PRIME + 1 && Separate(known) && Lists(known, ps) && at < PACKAGE_HASH_PRIME
    requires known[PACKAGE_HASH_PRIME].None?
    requires known[at].Some? ==> Same(known[at].value.package, k.package)
    requires known[at].None? ==>
               forall s :: 0 <= s < PACKAGE_HASH_PRIME && known[s].Some? ==> !Same(known[s].value.package, k.package)
    ensures Separate(known[at := Some(k)]) && Lists(known[at := Some(k)], Put(ps, k.package))
    ensures forall s :: 0 <= s < |known| && known[s].Some? ==> (Same(known[s].value.package, k.package) <==> s == at)
  {
    hide Same;
    var new_ := known[at := Some(k)];
    forall s | 0 <= s < |known| && s != at && known[s].Some?
      ensures !Same(known[s].value.package, k.package) && !Same(k.package, known[s].value.package)
    {
      SameEquivalence(known[s].value.package, k.package, k.package);
      SameEquivalence(k.package, known[s].value.package, k.package);
      if known[at].Some? {
        SameEquivalence(known[at].value.package, k.package, k.package);
        SameEquivalence(known[s].value.package, k.package, known[at].value.package);
      }
    }
    forall p ensures p in Put(ps, k.package) <==> Listed(new_, p) {
      if p in Put(ps, k.package) && p != k.package {
        var s :| 0 <= s < PACKAGE_HASH_PRIME && known[s].Some? && known[s].value.package == p;
        assert s != at;
        assert new_[s] == known[s];
      }
      if p == k.package {
        assert new_[at].value.package == p;
      }
      if Listed(new_, p) && p != k.package {
        var s :| 0 <= s < PACKAGE_HASH_PRIME && new_[s].Some? && new_[s].value.package == p;
        assert s != at && known[s].value.package == p;
      }
    }
  }

  lemma HoldPackage(w: World, w': World, known: seq<Option<Known>>, db: Database, at: nat, n: Node, k: Known)
    requires Hold(w, known, db) && Separate(known) && Valid(w') && at < PACKAGE_HASH_PRIME && w' == w.(packages := w.packages[at := Some(n)])
    requires NodeFor(w.names, n, k)
    requires w.packages[at].Some? ==> Fits(w, w.packages[at].value, n.name, n.version, Equal)
    requires w.packages[at].None? ==>
               forall s :: 0 <= s < PACKAGE_HASH_PRIME && w.packages[s].Some? ==> !Fits(w, w.packages[s].value, n.name, n.version, Equal)
    ensures Hold(w', known[at := Some(k)], db.(packages := Put(db.packages, k.package))) && Separate(known[at := Some(k)])
    ensures forall s :: 0 <= s < |known| && known[s].Some? ==> (Same(known[s].value.package, k.package) <==> s == at)
  {
    hide Valid, NodeFor, Separate, Lists, Put, Statuses, Fits, Same;
    Sizes(w);
    forall s | 0 <= s < PACKAGE_HASH_PRIME && known[s].Some?
      ensures Fits(w, w.packages[s].value, n.name, n.version, Equal) <==> Same(known[s].value.package, k.package)
    {
      FitsSame(w, w.packages[s].value, known[s].value, n, k);
    }
    PutLists(known, db.packages, at, k);
    if w.packages[at].Some? {
      FitsName(w, w.packages[at].value, n.name, n.version, Equal);
    }
    StatusesKept(w, w', at, n, db.status);
  }

  lemma FitsSame(w: World, n: Node, k: Known, n': Node, k': Known)
    requires Interned(w.names) && NodeFor(w.names, n, k) && NodeFor(w.names, n', k')
    ensures Fits(w, n, n'.name, n'.version, Equal) <==> Same(k.package, k'.package)
  {
    hide Interned, LinesFor, Satisfies, Fits, Stored;
    FitsMeans(w, n, k, n'.name, n'.version, Equal, Dep(k'.package.name, Equal, k'.package.version));
  }

  lemma StatusesKept(w: World, w': World, at: nat, n: Node, status: map<cstring, cstring>)
    requires Valid(w) && Valid(w') && |w.statuses| == STATUS_HASH_PRIME + 1 && Statuses(w, status)
    requires at < |w.packages| && w' == w.(packages := w.packages[at := Some(n)])
    requires w.packages[at].Some? ==> w.packages[at].value.name == n.name
    ensures Statuses(w', status)
  {
    hide Valid, Statuses, HasStatus;
    forall s | 0 <= s < STATUS_HASH_PRIME && w.statuses[s].Some?
      ensures var x := w.statuses[s].value; StatusNamed(w, x) && StatusNamed(w', x) && StatusName(w', x) == StatusName(w, x)
    {
      StatusFacts(w, s);
      StatusFacts(w', s);
    }
    SameStatuses(w, w', status);
  }

  lemma HoldStatus(w: World, w': World, known: seq<Option<Known>>, db: Database, at: nat, x: Status)
    requires Hold(w, known, db) && Valid(w') && at < STATUS_HASH_PRIME && StatusNamed(w, x)
    requires w' == w.(statuses := w.statuses[at := Some(x)])
    requires w.statuses[at].Some? ==> Owns(w, StatusName(w, x))(w.statuses[at].value)
    ensures Hold(w', known, db.(status := db.status[StatusName(w, x) := x.status]))
  {
    hide Valid, NodeFor, Lists;
    Sizes(w);
    var name := StatusName(w, x);
    forall key, line
      ensures HasStatus(w', key, line) <==> (if key == name then line == x.status else HasStatus(w, key, line))
    {
      if key == name {
        OneStatus(w', key, at, line);
      } else {
        OtherStatuses(w, w', at, x, key, line);
      }
    }
  }

  lemma OtherStatuses(w: World, w': World, at: nat, x: Status, key: cstring, line: cstring)
    requires |w.statuses| == STATUS_HASH_PRIME + 1 && at < STATUS_HASH_PRIME && StatusNamed(w, x) && key != StatusName(w, x)
    requires w' == w.(statuses := w.statuses[at := Some(x)])
    requires w.statuses[at].Some? ==> Owns(w, StatusName(w, x))(w.statuses[at].value)
    ensures HasStatus(w', key, line) <==> HasStatus(w, key, line)
  {
    if HasStatus(w, key, line) {
      var s :| 0 <= s < STATUS_HASH_PRIME && w.statuses[s].Some? && Owns(w, key)(w.statuses[s].value)
               && w.statuses[s].value.status == line;
      assert s != at && w'.statuses[s] == w.statuses[s] && Owns(w', key)(w'.statuses[s].value);
    }
    if HasStatus(w', key, line) {
      var s :| 0 <= s < STATUS_HASH_PRIME && w'.statuses[s].Some? && Owns(w', key)(w'.statuses[s].value)
               && w'.statuses[s].value.status == line;
      assert s != at && w'.statuses[s] == w.statuses[s] && Owns(w, key)(w.statuses[s].value);
    }
  }

  // ---- Free slots

  /** Fewer packages and fewer names with a status than there are slots. */
  ghost predicate Small(db: Database) {
    |db.packages| < PACKAGE_HASH_PRIME && |db.status| < STATUS_HASH_PRIME
  }

  /** How many of the first `n` slots are taken. */
  ghost function Taken(known: seq<Option<Known>>, n: nat): nat
    requires n <= |known|
  {
    if n == 0 then 0 else Taken(known, n - 1) + if known[n - 1].Some? then 1 else 0
  }

  lemma {:induction false} AllTaken(known: seq<Option<Known>>, n: nat)
    requires n <= |known| && forall s :: 0 <= s < n ==> known[s].Some?
    ensures Taken(known, n) == n
    decreases n
  {
    if n == 0 {
    } else {
      AllTaken(known, n - 1);
    }
  }

  lemma {:induction false} TakenMore(known: seq<Option<Known>>, at: nat, k: Known, n: nat)
    requires at < |known| && n <= |known| && known[at].None?
    ensures Taken(known[at := Some(k)], n) == Taken(known, n) + if at < n then 1 else 0
    decreases n
  {
    if n == 0 {
    } else {
      TakenMore(known, at, k, n - 1);
    }
  }

  /** Packages that are all different take a slot each. */
  lemma TakenBound(known: seq<Option<Known>>, ps: set<Package>)
    requires |known| == PACKAGE_HASH_PRIME + 1 && Separate(known) && Lists(known, ps)
    ensures Taken(known, PACKAGE_HASH_PRIME) <= |ps|
  {
    hide Separate, Lists, Taken;
    var some := PackagesOf(known, ps, PACKAGE_HASH_PRIME);
    Fewer(some, ps);
  }

  lemma PackagesOpen(w: World, known: seq<Option<Known>>, db: Database)
    requires Hold(w, known, db) && Taken(known, PACKAGE_HASH_PRIME) < PACKAGE_HASH_PRIME
    ensures |w.packages| == PACKAGE_HASH_PRIME + 1 && HasFree(w.packages, PACKAGE_HASH_PRIME)
  {
    hide Valid, NodeFor, Statuses, Taken;
    Sizes(w);
    if forall s :: 0 <= s < PACKAGE_HASH_PRIME ==> known[s].Some? {
      AllTaken(known, PACKAGE_HASH_PRIME);
      assert false;
    }
    var s :| 0 <= s < PACKAGE_HASH_PRIME && known[s].None?;
    assert w.packages[s].None?;
  }

  lemma StatusesOpen(w: World, known: seq<Option<Known>>, db: Database)
    requires Hold(w, known, db) && |db.status| < STATUS_HASH_PRIME
    ensures |w.statuses| == STATUS_HASH_PRIME + 1 && HasFree(w.statuses, STATUS_HASH_PRIME)
  {
    hide Valid, NodeFor, Statuses;
    Sizes(w);
    if forall s :: 0 <= s < STATUS_HASH_PRIME ==> w.statuses[s].Some? {
      var names := NamesOf(w, db.status, STATUS_HASH_PRIME);
      Fewer(names, db.status.Keys);
      assert false;
    }
    var r :| 0 <= r < STATUS_HASH_PRIME && w.statuses[r].None?;
  }

  lemma Fewer<T>(a: set<T>, b: set<T>)
    requires a <= b
    ensures |a| <= |b|
  {
    assert b == a + (b - a);
  }

  /** The packages in the first `n` slots. */
  lemma {:induction false} PackagesOf(known: seq<Option<Known>>, all: set<Package>, n: nat) returns (ps: set<Package>)
    requires n <= PACKAGE_HASH_PRIME < |known| && Separate(known) && Lists(known, all)
    ensures |ps| == Taken(known, n) && ps <= all
    ensures forall p :: p in ps ==> exists s :: 0 <= s < n && known[s].Some? && known[s].value.package == p
    decreases n
  {
    hide Same;
    if n == 0 {
      ps := {};
    } else {
      ps := PackagesOf(known, all, n - 1);
      if known[n - 1].Some? {
        var p := known[n - 1].value.package;
        assert Listed(known, p);
        SameEquivalence(p, p, p);
        ps := ps + {p};
      }
    }
  }

  /** The first `n` status entries belong to `n` names. */
  lemma {:induction false} NamesOf(w: World, status: map<cstring, cstring>, n: nat) returns (names: set<cstring>)
    requires Valid(w) && n <= STATUS_HASH_PRIME && |w.statuses| == STATUS_HASH_PRIME + 1 && Statuses(w, status)
    requires forall s :: 0 <= s < n ==> w.statuses[s].Some?
    ensures |names| == n && names <= status.Keys
    ensures forall x :: x in names ==> exists s :: 0 <= s < n && Owns(w, x)(w.statuses[s].value)
    decreases n
  {
    hide Interned, Reached;
    if n == 0 {
      names := {};
    } else {
      var before := NamesOf(w, status, n - 1);
      var x := StatusName(w, w.statuses[n - 1].value);
      assert Owns(w, x)(w.statuses[n - 1].value);
      assert HasStatus(w, x, w.statuses[n - 1].value.status);
      names := before + {x};
    }
  }
}
