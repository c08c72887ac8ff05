/** A run of dpkg on its tables, from control records to the verdict on the dependencies. */
module DpkgRun {
  import opened Basics
  import opened DpkgVersion
  import opened DpkgTables
  import opened DpkgDeps
  import opened DpkgCheck
  import opened DpkgParse
  import opened DpkgSplit
  import opened DpkgDatabase
  import opened DpkgVerdict
  import opened DpkgHolding
  import opened DpkgMeaning
  import opened DpkgConflicts

  // ---- Reading a record

  /** The node that fill_package_struct builds. */
  datatype Built = Built(name: Option<nat>, version: nat, edges: seq<Edge>)

  ghost predicate BuiltFor(t: Names, b: Built, parts: seq<seq<seq<Group>>>, d: Draft) {
    && (b.name.Some? <==> d.name.Some?) && (b.name.Some? ==> Stored(t, b.name.value, d.name.value))
    && Stored(t, b.version, d.version) && LinesFor(t, b.edges, parts, d.lines)
  }

  lemma BuiltExtends(t: Names, u: Names, all: set<cstring>, b: Built, parts: seq<seq<seq<Group>>>, d: Draft)
    requires BuiltFor(t, b, parts, d) && Grown(t, u, all)
    ensures BuiltFor(u, b, parts, d)
  {
    hide Grown, LinesFor, Stored;
    if b.name.Some? {
      GrownStores(t, u, all, b.name.value, d.name.value);
    }
    GrownStores(t, u, all, b.version, d.version);
    LinesExtend(t, u, all, b.edges, parts, d.lines);
  }

  /** The names of a control field. */
  ghost predicate EntryIn(e: Entry, all: set<cstring>) {
    match e
    case NameEntry(name) => name in all
    case VersionEntry(version) => version in all
    case RelationEntry(kind, line, garbage) => LineIn(line, kind, garbage, all)
    case OtherEntry => true
  }

  ghost predicate EntriesIn(es: seq<Entry>, all: set<cstring>) {
    UNKNOWN in all && forall i :: 0 <= i < |es| ==> EntryIn(es[i], all)
  }

  /** The switch in the loop of fill_package_struct. */
  method AddEntry(names: array<Option<cstring>>, b: Built, e: Entry, ghost parts: seq<seq<seq<Group>>>, ghost d: Draft,
                  ghost all: set<cstring>)
    returns (r: Result<Built>, ghost parts': seq<seq<seq<Group>>>)
    requires Interned(names[..]) && Among(names[..], all) && EntryIn(e, all) && BuiltFor(names[..], b, parts, d)
    modifies names
    ensures Grown(old(names[..]), names[..], all)
    ensures match Describe(d, e)
            case Ok(d') => r.Ok? && BuiltFor(names[..], r.value, parts', d')
            case NullPointer => r == NullPointer
            case IllegalOperator => r == IllegalOperator
  {
    hide Interned, Among, Grown, LinesFor, LineFor, AllGood, Flat, Concat, Stored, ParseLine, LineIn;
    ghost var t := names[..];
    parts' := parts;
    match e {
      case NameEntry(name) =>
        var at := Intern(names, name, all);
        BuiltExtends(t, names[..], all, b, parts, d);
        r := Ok(b.(name := Some(at)));
      case VersionEntry(version) =>
        var at := Intern(names, version, all);
        BuiltExtends(t, names[..], all, b, parts, d);
        r := Ok(b.(version := at));
      case RelationEntry(kind, line, garbage) =>
        var edges;
        ghost var part;
        edges, part := AddSplitDependencies(names, b.edges, line, kind, garbage, all);
        if !edges.Ok? {
          return if edges.NullPointer? then NullPointer else IllegalOperator, parts;
        }
        BuiltExtends(t, names[..], all, b, parts, d);
        ghost var fs := ParseLine(line, garbage).value;
        LinesStep(names[..], b.edges, parts, d.lines, part, Line(kind, fs));
        parts' := parts + [part];
        r := Ok(b.(edges := edges.value));
      case OtherEntry =>
        NotGrown(t, all);
        r := Ok(b);
    }
  }

  /** fill_package_struct up to the end of its loop. */
  method ReadEntries(names: array<Option<cstring>>, es: seq<Entry>, ghost all: set<cstring>)
    returns (r: Result<Built>, ghost parts: seq<seq<seq<Group>>>)
    requires Interned(names[..]) && Among(names[..], all) && EntriesIn(es, all)
    modifies names
    ensures Grown(old(names[..]), names[..], all)
    ensures match DescribeAll(BLANK, es)
            case Ok(d) => r.Ok? && BuiltFor(names[..], r.value, parts, d)
            case NullPointer => r == NullPointer
            case IllegalOperator => r == IllegalOperator
  {
    hide Interned, Among, Grown, BuiltFor, Describe, EntryIn;
    ghost var t := names[..];
    var unknown := Intern(names, UNKNOWN, all);
    var b := Built(None, unknown, []);
    ghost var d := BLANK;
    parts := [];
    NothingBuilt(names[..], b);
    assert es[0..] == es;
    for i := 0 to |es|
      invariant Grown(t, names[..], all)
      invariant BuiltFor(names[..], b, parts, d) && DescribeAll(d, es[i..]) == DescribeAll(BLANK, es)
    {
      ghost var u := names[..];
      GrownTable(t, u, all);
      assert es[i..][0] == es[i] && es[i..][1..] == es[i + 1..];
      var next;
      ghost var more;
      next, more := AddEntry(names, b, es[i], parts, d, all);
      GrownTwice(t, u, names[..], all);
      if !next.Ok? {
        return if next.NullPointer? then NullPointer else IllegalOperator, [];
      }
      b, parts, d := next.value, more, Describe(d, es[i]).value;
    }
    r := Ok(b);
  }

  lemma NothingBuilt(t: Names, b: Built)
    requires b.name.None? && b.edges == [] && Stored(t, b.version, UNKNOWN)
    ensures BuiltFor(t, b, [], BLANK)
  {
  }

  // ---- The tables

  /** The names of records. */
  ghost predicate RecordsIn(rs: seq<Record>, all: set<cstring>) {
    forall i :: 0 <= i < |rs| ==> EntriesIn(rs[i].entries, all) && (rs[i].status.Some? ==> rs[i].status.value in all)
  }

  /** All databases on the way are smaller than the tables. */
  ghost predicate SmallAll(db: Database, rs: seq<Record>)
    decreases |rs|
  {
    Small(db) && (rs != [] && Load(db, rs[0]).Ok? ==> SmallAll(Load(db, rs[0]).value, rs[1..]))
  }

  /** The status lines that installing a package makes. */
  ghost predicate NewLinesIn(status: map<cstring, cstring>, name: cstring, all: set<cstring>) {
    InstallLine(status, name) in all && (name in status ==> SetWord(status[name], INSTALL, 1) in all)
  }

  /** The names of control files, and of the status lines made for them. */
  ghost predicate FilesIn(s: Setup, files: seq<seq<Entry>>, all: set<cstring>)
    decreases |files|
  {
    files != [] ==>
      && EntriesIn(files[0], all)
      && (Install(s, files[0]).Ok? ==>
            var d := DescribeAll(BLANK, files[0]).value;
            && (d.version != UNKNOWN ==> NewLinesIn(s.db.status, d.name.value, all))
            && FilesIn(Install(s, files[0]).value, files[1..], all))
  }

  ghost function ProvidesCount(debs: seq<Package>): nat {
    if debs == [] then 0 else ProvidesCount(debs[..|debs| - 1]) + |Relations(debs[|debs| - 1].lines, Provides)|
  }

  /** All databases on the way are smaller than the tables, the last one with all virtual packages. */
  ghost predicate FilesSmall(s: Setup, files: seq<seq<Entry>>)
    decreases |files|
  {
    && Small(s.db)
    && (files == [] ==> |s.db.packages| + ProvidesCount(s.debs) < PACKAGE_HASH_PRIME)
    && (files != [] && Install(s, files[0]).Ok? ==> FilesSmall(Install(s, files[0]).value, files[1..]))
  }

  // ---- The slots of the packages given

  /** A package took the place of the same one, or a free slot. */
  ghost predicate Replaced(known: seq<Option<Known>>, known': seq<Option<Known>>, at: nat, q: Package) {
    && at < PACKAGE_HASH_PRIME && PACKAGE_HASH_PRIME < |known| == |known'| && known'[at].Some? && known'[at].value.package == q
    && (forall s :: 0 <= s < |known| && s != at ==> known'[s] == known[s])
    && (forall s :: 0 <= s < |known| && known[s].Some? ==> (Same(known[s].value.package, q) <==> s == at))
  }

  ghost predicate GivenAt(known: seq<Option<Known>>, slots: seq<nat>, debs: seq<Package>) {
    |slots| == |debs| && forall i :: 0 <= i < |slots| ==>
      slots[i] < PACKAGE_HASH_PRIME && slots[i] < |known| && known[slots[i]].Some? && known[slots[i]].value.package == debs[i]
  }

  lemma GivenReplaced(known: seq<Option<Known>>, known': seq<Option<Known>>, at: nat, q: Package, slots: seq<nat>, debs: seq<Package>)
    requires Replaced(known, known', at, q) && GivenAt(known, slots, debs)
    ensures GivenAt(known', slots + [at], Given(debs, q))
  {
    hide Same;
  }

  class Tables {
    const names: array<Option<cstring>>
    var packages: seq<Option<Node>>
    var statuses: seq<Option<Status>>
    ghost var known: seq<Option<Known>>
    ghost var db: Database

    ghost function Value(): World
      reads this, names
    {
      World(names[..], packages, statuses)
    }

    /** The tables hold `db`. */
    ghost predicate Held()
      reads this, names
    {
      names.Length == NAME_HASH_PRIME + 1 && Hold(Value(), known, db)
    }

    /** No package is there twice. */
    ghost predicate Valid()
      reads this, names
    {
      Held() && Separate(known)
    }

    constructor (ghost all: set<cstring>)
      requires |all| < NAME_HASH_PRIME
      ensures Valid() && db == EMPTY && fresh(names) && Among(names[..], all)
    {
      names := new Option<cstring>[NAME_HASH_PRIME + 1](_ => None);
      packages := seq(PACKAGE_HASH_PRIME + 1, _ => None);
      statuses := seq(STATUS_HASH_PRIME + 1, _ => None);
      known := seq(PACKAGE_HASH_PRIME + 1, _ => None);
      db := EMPTY;
      new;
      hide Hold;
      EmptyHolds(Value(), known);
    }

    /** fill_package_struct: the slot of the new package, or none if it has no version. */
    method FillPackage(es: seq<Entry>, ghost all: set<cstring>) returns (r: Result<Option<nat>>)
      requires Valid() && |db.packages| < PACKAGE_HASH_PRIME && Among(names[..], all) && EntriesIn(es, all)
      modifies this`packages, this`known, this`db, names
      ensures match DescribeAll(BLANK, es)
              case NullPointer => r == NullPointer
              case IllegalOperator => r == IllegalOperator
              case Ok(d) =>
                if d.version == UNKNOWN then r == Ok(None) && Valid() && db == old(db) && known == old(known) && Among(names[..], all)
                else if d.name.None? then r == NullPointer
                else
                  && r.Ok? && r.value.Some? && Valid() && Among(names[..], all)
                  && db == old(db).(packages := Put(old(db).packages, Package(d.name.value, d.version, d.lines)))
                  && PackageAt(Value(), r.value.value, d.name.value)
                  && Replaced(old(known), known, r.value.value, Package(d.name.value, d.version, d.lines))
    {
      hide Hold, Separate, Interned, Among, DescribeAll, BuiltFor, Grown, Put, EntryIn, PackageAt, Replaced;
      ghost var w := Value();
      HoldParts(w, known, db);
      var built;
      ghost var parts;
      built, parts := ReadEntries(names, es, all);
      ghost var u := names[..];
      GrownTable(w.names, u, all);
      if !built.Ok? {
        return if built.NullPointer? then NullPointer else IllegalOperator;
      }
      var unknown := Intern(names, UNKNOWN, all);
      GrownTable(u, names[..], all);
      GrownTwice(w.names, u, names[..], all);
      HoldExtends(w, known, db, names[..], all);
      ghost var d := DescribeAll(BLANK, es).value;
      BuiltExtends(u, names[..], all, built.value, parts, d);
      BuiltVersion(names[..], built.value, parts, d, unknown);
      if built.value.version == unknown {
        return Ok(None);
      }
      if built.value.name == None {
        return NullPointer;
      }
      var at := StoreBuilt(built.value, d, parts);
      r := Ok(Some(at));
    }

    /** The end of fill_package_struct. */
    method StoreBuilt(b: Built, ghost d: Draft, ghost parts: seq<seq<seq<Group>>>) returns (at: nat)
      requires Valid() && |db.packages| < PACKAGE_HASH_PRIME
      requires b.name.Some? && BuiltFor(names[..], b, parts, d)
      modifies this`packages, this`known, this`db
      ensures Valid()
      ensures db == old(db).(packages := Put(old(db).packages, Package(d.name.value, d.version, d.lines)))
      ensures PackageAt(Value(), at, d.name.value) && Replaced(old(known), known, at, Package(d.name.value, d.version, d.lines))
    {
      hide Hold, Separate, Same, Taken, HasFree, Put, BuiltFor, NodeFor, DpkgDeps.Valid, Interned, Fits;
      var w := World(names[..], packages, statuses);
      HoldParts(w, known, db);
      TakenSmall(w, known, db);
      PackagesOpen(w, known, db);
      BuiltNode(w, b, parts, d);
      var n := Node(b.name.value, b.version, b.edges);
      ghost var k := Known(Package(d.name.value, d.version, d.lines), parts);
      var w';
      w', at := StorePackage(w, n);
      HoldPackage(w, w', known, db, at, n, k);
      packages := w'.packages;
      known := known[at := Some(k)];
      db := db.(packages := Put(db.packages, k.package));
      assert Value() == w';
    }

    /** The loop body of index_status_file. */
    method IndexRecord(rec: Record, ghost all: set<cstring>) returns (r: Result<()>)
      requires Valid() && Small(db) && Among(names[..], all)
      requires EntriesIn(rec.entries, all) && (rec.status.Some? ==> rec.status.value in all)
      modifies this, names
      ensures match Load(old(db), rec)
              case NullPointer => r == NullPointer
              case IllegalOperator => r == IllegalOperator
              case Ok(db') => r == Ok(()) && Valid() && db == db' && Among(names[..], all)
    {
      hide Hold, Separate, Interned, Among, DescribeAll, Grown, Put, EntriesIn, Replaced;
      var num := FillPackage(rec.entries, all);
      if !num.Ok? {
        return if num.NullPointer? then NullPointer else IllegalOperator;
      }
      if num.value == None {
        return Ok(());
      }
      ghost var w := Value();
      HoldParts(w, known, db);
      ghost var name := DescribeAll(BLANK, rec.entries).value.name.value;
      if rec.status.Some? {
        var at := Intern(names, rec.status.value, all);
        GrownTable(w.names, names[..], all);
        HoldExtends(w, known, db, names[..], all);
        PackageStays(w, Value(), all, num.value.value, name);
      }
      StoreLine(num.value.value, StatusLine(rec), name);
      r := Ok(());
    }

    /** The end of the loop body. */
    method StoreLine(num: nat, status: cstring, ghost name: cstring)
      requires Valid() && |db.status| < STATUS_HASH_PRIME
      requires PackageAt(Value(), num, name)
      modifies this`statuses, this`db
      ensures Valid() && known == old(known) && packages == old(packages)
      ensures db == old(db).(status := old(db).status[name := status])
    {
      hide Hold, Separate, HasFree;
      var w := World(names[..], packages, statuses);
      HoldParts(w, known, db);
      StatusesOpen(w, known, db);
      var x := Status(num, status);
      var w', at := StoreStatus(w, x);
      HoldStatus(w, w', known, db, at, x);
      statuses := w'.statuses;
      db := db.(status := db.status[name := status]);
      assert Value() == w';
    }

    /** index_status_file */
    method IndexStatusFile(rs: seq<Record>, ghost all: set<cstring>) returns (r: Result<()>)
      requires Valid() && SmallAll(db, rs) && Among(names[..], all) && RecordsIn(rs, all)
      modifies this, names
      ensures match LoadAll(old(db), rs)
              case NullPointer => r == NullPointer
              case IllegalOperator => r == IllegalOperator
              case Ok(db') => r == Ok(()) && Valid() && db == db' && Among(names[..], all)
    {
      hide Hold, Separate, Small, Among, Load, EntriesIn;
      assert rs[0..] == rs;
      for i := 0 to |rs|
        invariant Valid() && SmallAll(db, rs[i..]) && Among(names[..], all) && LoadAll(db, rs[i..]) == LoadAll(old(db), rs)
      {
        assert rs[i..][0] == rs[i] && rs[i..][1..] == rs[i + 1..];
        var done := IndexRecord(rs[i], all);
        if !done.Ok? {
          return done;
        }
      }
      r := Ok(());
    }

    /** The status of a package that is to be installed. */
    method MarkInstall(num: nat, ghost name: cstring, ghost all: set<cstring>)
      requires Valid() && Among(names[..], all) && |db.status| < STATUS_HASH_PRIME && PackageAt(Value(), num, name)
      requires NewLinesIn(db.status, name, all)
      modifies this`statuses, this`db, names
      ensures Valid() && Among(names[..], all) && known == old(known) && packages == old(packages)
      ensures db == old(db).(status := old(db).status[name := InstallLine(old(db).status, name)])
    {
      hide Hold, Separate, Among, Interned, Grown, HasFree, Word, INSTALL, REINSTREQ, NOT_INSTALLED;
      var w := World(names[..], packages, statuses);
      HoldParts(w, known, db);
      StatusesOpen(w, known, db);
      var at := SearchStatus(w, Name(w, packages[num].value.name));
      HoldStatusMeans(w, known, db, name, at);
      var package, line := num, Joined(INSTALL, REINSTREQ, NOT_INSTALLED);
      if w.statuses[at].Some? {
        package := w.statuses[at].value.package;
        var first := SetWord(w.statuses[at].value.status, INSTALL, 1);
        AddName(first, all);
        line := SetWord(first, REINSTREQ, 2);
      }
      ghost var u := Value();
      HoldParts(u, known, db);
      AddName(line, all);
      StoreLine(package, line, name);
    }

    /** A string of no further interest goes to the name table. */
    method AddName(s: cstring, ghost all: set<cstring>)
      requires Valid() && Among(names[..], all) && s in all
      modifies names
      ensures Valid() && Among(names[..], all)
      ensures forall i, name :: old(PackageAt(Value(), i, name)) ==> PackageAt(Value(), i, name)
    {
      hide Hold, Separate, Among, Interned, Grown;
      ghost var w := Value();
      HoldParts(w, known, db);
      var at := Intern(names, s, all);
      GrownTable(w.names, names[..], all);
      HoldExtends(w, known, db, names[..], all);
      forall i, name | PackageAt(w, i, name) ensures PackageAt(Value(), i, name) {
        PackageStays(w, Value(), all, i, name);
      }
    }

    /** One control file of dpkg_main. */
    method InstallFile(es: seq<Entry>, slots: seq<nat>, ghost debs: seq<Package>, ghost all: set<cstring>) returns (r: Result<seq<nat>>)
      requires Valid() && Small(db) && Among(names[..], all) && GivenAt(known, slots, debs) && EntriesIn(es, all)
      requires Install(Setup(db, debs), es).Ok? ==>
                 var d := DescribeAll(BLANK, es).value; d.version != UNKNOWN ==> NewLinesIn(db.status, d.name.value, all)
      modifies this, names
      ensures match Install(Setup(old(db), debs), es)
              case NullPointer => r == NullPointer
              case IllegalOperator => r == IllegalOperator
              case Ok(s) => r.Ok? && Valid() && Among(names[..], all) && db == s.db && GivenAt(known, r.value, s.debs)
    {
      hide Hold, Separate, Among, DescribeAll, Put, EntriesIn, Replaced, NewLinesIn, InstallLine, Given, GivenAt, PackageAt;
      ghost var before := known;
      var num := FillPackage(es, all);
      if !num.Ok? {
        return if num.NullPointer? then NullPointer else IllegalOperator;
      }
      if num.value == None {
        return Ok(slots);
      }
      ghost var d := DescribeAll(BLANK, es).value;
      GivenReplaced(before, known, num.value.value, Package(d.name.value, d.version, d.lines), slots, debs);
      MarkInstall(num.value.value, d.name.value, all);
      r := Ok(slots + [num.value.value]);
    }

    /** The loop of dpkg_main over its arguments. */
    method InstallFiles(files: seq<seq<Entry>>, ghost all: set<cstring>) returns (r: Result<seq<nat>>, ghost s: Setup)
      requires Valid() && Among(names[..], all) && FilesIn(Setup(db, []), files, all) && FilesSmall(Setup(db, []), files)
      modifies this, names
      ensures match InstallAll(Setup(old(db), []), files)
              case NullPointer => r == NullPointer
              case IllegalOperator => r == IllegalOperator
              case Ok(s') => r.Ok? && s == s' && Valid() && db == s.db && GivenAt(known, r.value, s.debs) && FilesSmall(s, [])
    {
      hide Hold, Separate, Small, Among, Install, EntriesIn, GivenAt, NewLinesIn, ProvidesCount, DescribeAll;
      var slots: seq<nat> := [];
      s := Setup(db, []);
      ghost var start := s;
      NoneGiven(known);
      assert files[0..] == files;
      for i := 0 to |files|
        invariant Valid() && Among(names[..], all) && db == s.db && GivenAt(known, slots, s.debs)
        invariant FilesIn(s, files[i..], all) && FilesSmall(s, files[i..]) && InstallAll(s, files[i..]) == InstallAll(start, files)
      {
        assert files[i..][0] == files[i] && files[i..][1..] == files[i + 1..];
        SmallNow(s, files[i..]);
        var next := InstallFile(files[i], slots, s.debs, all);
        if !next.Ok? {
          return if next.NullPointer? then NullPointer else IllegalOperator, s;
        }
        slots, s := next.value, Install(s, files[i]).value;
      }
      r := Ok(slots);
    }

    /** The first loop of check_deps for one package. */
    method AddVirtualNodes(slot: nat, ghost room: nat)
      requires Held() && slot < PACKAGE_HASH_PRIME && |known| == PACKAGE_HASH_PRIME + 1 && known[slot].Some?
      requires Taken(known, PACKAGE_HASH_PRIME) + |Relations(known[slot].value.package.lines, Provides)| + room < PACKAGE_HASH_PRIME
      modifies this`packages, this`known, this`db
      ensures Held() && |known| == PACKAGE_HASH_PRIME + 1 && Kept(old(known), known)
      ensures db == old(db).(packages := AddVirtuals(old(db).packages, Relations(old(known)[slot].value.package.lines, Provides)))
      ensures Taken(known, PACKAGE_HASH_PRIME) + room < PACKAGE_HASH_PRIME
    {
      hide Hold, Taken, AddVirtual, NodeFor, OfKind, Relations;
      ghost var k, ps, start := known[slot].value, db.packages, known;
      NodeThere(Value(), known, db, slot);
      var edges := packages[slot].value.edges;
      ghost var ds, es := Relations(k.package.lines, Provides), OfKind(edges, Provides);
      NodeEdges(Value(), packages[slot].value, k, Provides);
      ghost var i := 0;
      NoneOfKind(edges, Provides);
      assert ds[..0] == [];
      for j := 0 to |edges|
        invariant 0 <= i <= |ds| && i == |OfKind(edges[..j], Provides)|
        invariant Held() && names[..] == old(names[..]) && statuses == old(statuses)
        invariant |known| == PACKAGE_HASH_PRIME + 1 && Kept(start, known)
        invariant db == old(db).(packages := AddVirtuals(ps, ds[..i]))
        invariant Taken(known, PACKAGE_HASH_PRIME) + |ds| - i + room < PACKAGE_HASH_PRIME
      {
        NextOfKind(edges, j, Provides);
        if edges[j].kind == Provides {
          assert ds[..i + 1][..i] == ds[..i];
          AddVirtualNode(edges[j], ds[i]);
          i := i + 1;
        }
      }
      assert edges[..|edges|] == edges && ds[..i] == ds;
    }

    /** A node for a name that is provided, unless a package suits it. */
    method AddVirtualNode(e: Edge, ghost d: Dep)
      requires Held() && EdgeFor(names[..], e, Provides, d) && |known| == PACKAGE_HASH_PRIME + 1
      requires Taken(known, PACKAGE_HASH_PRIME) < PACKAGE_HASH_PRIME
      modifies this`packages, this`known, this`db
      ensures Held() && |known| == PACKAGE_HASH_PRIME + 1 && Kept(old(known), known)
      ensures db == old(db).(packages := AddVirtual(old(db).packages, d))
      ensures Taken(known, PACKAGE_HASH_PRIME) <= old(Taken(known, PACKAGE_HASH_PRIME)) + 1
    {
      hide Hold, Taken, SomeSuits, DpkgDeps.Valid, HasFree, Interned, Fits, Reached, EdgeFor;
      var w := World(names[..], packages, statuses);
      HoldParts(w, known, db);
      PackagesOpen(w, known, db);
      SuitsMeans(w, known, db, e, Provides, d);
      EdgeLooked(w, e, Provides, d);
      var at := SearchPackage(w, e.name, e.version, e.op);
      if packages[at] == None {
        var w' := w.(packages := w.packages[at := Some(Node(e.name, e.version, []))]);
        PackageStored(w, w', at, Node(e.name, e.version, []));
        HoldVirtual(w, w', known, db, at, e, Provides, d);
        FreeKnown(w, known, db, at);
        TakenMore(known, at, Known(Virtual(d), []), PACKAGE_HASH_PRIME);
        packages := w'.packages;
        known := known[at := Some(Known(Virtual(d), []))];
        db := db.(packages := AddVirtual(db.packages, d));
        assert Value() == w';
      }
    }

    /** check_deps */
    method CheckDeps(slots: seq<nat>, ghost s: Setup) returns (r: Result<Verdict>)
      requires Valid() && db == s.db && GivenAt(known, slots, s.debs) && FilesSmall(s, [])
      modifies this`packages, this`known, this`db
      ensures r == Decide(s)
    {
      hide Hold, Separate, Taken, AddVirtuals, Relations, Consistent, CheckAll;
      if slots == [] {
        return Ok(NothingGiven);
      }
      TakenSmall(Value(), known, db);
      HoldParts(Value(), known, db);
      assert s.debs[..0] == [];
      assert s.debs[..|s.debs|] == s.debs;
      for i := 0 to |slots|
        invariant Held() && |known| == PACKAGE_HASH_PRIME + 1 && GivenAt(known, slots, s.debs)
        invariant db == s.db.(packages := AllVirtuals(s.db.packages, s.debs[..i]))
        invariant Taken(known, PACKAGE_HASH_PRIME) + ProvidesCount(s.debs) - ProvidesCount(s.debs[..i]) < PACKAGE_HASH_PRIME
        invariant ProvidesCount(s.debs[..i]) <= ProvidesCount(s.debs)
      {
        assert s.debs[..i + 1][..i] == s.debs[..i];
        CountLess(s.debs, i + 1);
        ghost var before := known;
        AddVirtualNodes(slots[i], ProvidesCount(s.debs) - ProvidesCount(s.debs[..i + 1]));
        GivenKept(before, known, slots, s.debs);
      }
      r := CheckLoops(slots, s.debs);
    }

    /** The second and the third loop of check_deps. */
    method CheckLoops(slots: seq<nat>, ghost debs: seq<Package>) returns (r: Result<Verdict>)
      requires Held() && |known| == PACKAGE_HASH_PRIME + 1 && GivenAt(known, slots, debs)
      requires Taken(known, PACKAGE_HASH_PRIME) < PACKAGE_HASH_PRIME && |db.status| < STATUS_HASH_PRIME
      ensures r == match CheckAll(db, debs)
                   case Crash => NullPointer
                   case Clash => Ok(Conflict)
                   case Fine => Ok(if Consistent(db) then Accepted else Unmet)
    {
      hide Hold, Taken, Consistent, CheckGiven, Open, HasFree, NodeFor;
      var w := World(names[..], packages, statuses);
      assert w == Value();
      PackagesOpen(w, known, db);
      StatusesOpen(w, known, db);
      IsOpen(w);
      assert debs[..|debs|] == debs;
      for i := 0 to |slots|
        invariant CheckAll(db, debs[..i]) == Fine
      {
        assert debs[..i + 1][..i] == debs[..i];
        NodeThere(w, known, db, slots[i]);
        var f := CheckGivenNode(w, packages[slots[i]].value, known, db, known[slots[i]].value);
        if f != Fine {
          StaysFoundAll(db, debs, i + 1);
          return if f == Clash then Ok(Conflict) else NullPointer;
        }
      }
      var ok := CheckTables(w, known, db);
      r := Ok(if ok then Accepted else Unmet);
    }
  }

  /** Nodes stay where they are. */
  ghost predicate Kept(known: seq<Option<Known>>, known': seq<Option<Known>>) {
    |known| == |known'| && forall s :: 0 <= s < |known| && known[s].Some? ==> known'[s] == known[s]
  }

  lemma GivenKept(known: seq<Option<Known>>, known': seq<Option<Known>>, slots: seq<nat>, debs: seq<Package>)
    requires Kept(known, known') && GivenAt(known, slots, debs)
    ensures GivenAt(known', slots, debs)
  {
  }

  lemma NoneGiven(known: seq<Option<Known>>)
    ensures GivenAt(known, [], [])
  {
  }

  lemma SmallNow(s: Setup, files: seq<seq<Entry>>)
    requires FilesSmall(s, files)
    ensures Small(s.db)
  {
    hide Small;
  }

  lemma {:induction false} CountLess(debs: seq<Package>, i: nat)
    requires i <= |debs|
    ensures ProvidesCount(debs[..i]) <= ProvidesCount(debs)
    decreases |debs| - i
  {
    hide Relations;
    if i == |debs| {
      assert debs[..i] == debs;
    } else {
      assert debs[..i + 1][..i] == debs[..i];
      CountLess(debs, i + 1);
    }
  }

  lemma IsOpen(w: World)
    requires |w.packages| == PACKAGE_HASH_PRIME + 1 && |w.statuses| == STATUS_HASH_PRIME + 1
    requires HasFree(w.packages, PACKAGE_HASH_PRIME) && HasFree(w.statuses, STATUS_HASH_PRIME)
    ensures Open(w)
  {
  }

  lemma NodeThere(w: World, known: seq<Option<Known>>, db: Database, s: nat)
    requires Hold(w, known, db) && s < PACKAGE_HASH_PRIME && s < |known| && known[s].Some?
    ensures s < |w.packages| && w.packages[s].Some? && NodeFor(w.names, w.packages[s].value, known[s].value)
  {
    hide DpkgDeps.Valid, NodeFor, Lists, Statuses;
  }

  lemma FreeKnown(w: World, known: seq<Option<Known>>, db: Database, s: nat)
    requires Hold(w, known, db) && s < PACKAGE_HASH_PRIME && s < |w.packages| && w.packages[s].None?
    ensures s < |known| && known[s].None?
  {
    hide DpkgDeps.Valid, NodeFor, Lists, Statuses;
  }

  lemma NodeEdges(w: World, n: Node, k: Known, kind: Kind)
    requires NodeFor(w.names, n, k) && Plainly(kind)
    ensures EdgesFor(w.names, OfKind(n.edges, kind), kind, Relations(k.package.lines, kind))
  {
    hide LinesFor, OfKind, Relations, EdgesFor;
    KindEdges(w.names, n.edges, k.parts, k.package.lines, kind);
  }

  /** Once something is found, it is the outcome. */
  lemma {:induction false} StaysFoundAll(db: Database, debs: seq<Package>, i: nat)
    requires i <= |debs| && CheckAll(db, debs[..i]) != Fine
    ensures CheckAll(db, debs) == CheckAll(db, debs[..i])
    decreases |debs| - i
  {
    hide CheckGiven;
    if i == |debs| {
      assert debs[..i] == debs;
    } else {
      assert debs[..i + 1][..i] == debs[..i];
      StaysFoundAll(db, debs, i + 1);
    }
  }

  /** The package in a slot has this name. */
  ghost predicate PackageAt(w: World, at: nat, name: cstring) {
    at < |w.packages| && w.packages[at].Some? && Named(w, w.packages[at].value.name) && Name(w, w.packages[at].value.name) == name
  }

  lemma PackageStays(w: World, w': World, all: set<cstring>, at: nat, name: cstring)
    requires PackageAt(w, at, name) && Grown(w.names, w'.names, all) && w'.packages == w.packages
    ensures PackageAt(w', at, name)
  {
    hide Interned, Among;
  }

  lemma HoldParts(w: World, known: seq<Option<Known>>, db: Database)
    requires Hold(w, known, db)
    ensures DpkgDeps.Valid(w) && Interned(w.names)
    ensures |w.names| == NAME_HASH_PRIME + 1 && |w.packages| == |known| == PACKAGE_HASH_PRIME + 1
    ensures |w.statuses| == STATUS_HASH_PRIME + 1
  {
    hide DpkgDeps.Valid, Interned;
    Sizes(w);
    InternedSize(w.names);
  }

  lemma BuiltVersion(t: Names, b: Built, parts: seq<seq<seq<Group>>>, d: Draft, unknown: nat)
    requires Interned(t) && BuiltFor(t, b, parts, d) && Stored(t, unknown, UNKNOWN)
    ensures b.version == unknown <==> d.version == UNKNOWN
    ensures b.name.Some? <==> d.name.Some?
  {
    hide Interned, LinesFor;
    SameIndex(t, b.version, unknown, d.version, UNKNOWN);
  }

  lemma BuiltNode(w: World, b: Built, parts: seq<seq<seq<Group>>>, d: Draft)
    requires b.name.Some? && BuiltFor(w.names, b, parts, d)
    ensures d.name.Some?
    ensures NodeFor(w.names, Node(b.name.value, b.version, b.edges), Known(Package(d.name.value, d.version, d.lines), parts))
    ensures b.name.value < NAME_HASH_PRIME && Named(w, b.name.value) && Named(w, b.version) && Name(w, b.name.value) == d.name.value
  {
    hide LinesFor;
  }

  lemma TakenSmall(w: World, known: seq<Option<Known>>, db: Database)
    requires Hold(w, known, db) && Separate(known)
    ensures PACKAGE_HASH_PRIME < |known| && Taken(known, PACKAGE_HASH_PRIME) <= |db.packages|
  {
    hide DpkgDeps.Valid, Separate, Lists, Taken, Statuses, NodeFor;
    TakenBound(known, db.packages);
  }

  lemma HoldStatusMeans(w: World, known: seq<Option<Known>>, db: Database, name: cstring, at: nat)
    requires Hold(w, known, db) && at < STATUS_HASH_PRIME && |w.statuses| == STATUS_HASH_PRIME + 1
    requires w.statuses[at].Some? ==> Owns(w, name)(w.statuses[at].value)
    requires w.statuses[at].None? ==> forall s :: 0 <= s < STATUS_HASH_PRIME && w.statuses[s].Some? ==> !Owns(w, name)(w.statuses[s].value)
    ensures name in db.status <==> w.statuses[at].Some?
    ensures name in db.status ==> db.status[name] == w.statuses[at].value.status && PackageAt(w, w.statuses[at].value.package, name)
  {
    hide DpkgDeps.Valid;
    StatusMeans(w, db, name, at);
  }

  lemma EmptyHolds(w: World, known: seq<Option<Known>>)
    requires |w.names| == NAME_HASH_PRIME + 1 && |w.packages| == |known| == PACKAGE_HASH_PRIME + 1 && |w.statuses| == STATUS_HASH_PRIME + 1
    requires (forall s :: 0 <= s < |w.names| ==> w.names[s].None?) && (forall s :: 0 <= s < |w.packages| ==> w.packages[s].None?)
    requires (forall s :: 0 <= s < |w.statuses| ==> w.statuses[s].None?) && (forall s :: 0 <= s < |known| ==> known[s].None?)
    ensures Hold(w, known, EMPTY) && Separate(known)
  {
    hide Valid, Interned;
    ValidEmpty(w);
  }

  /** All of dpkg -i up to its decision, from zeroed tables: the outcome for the records of the status file and the control
      files of the packages given is that of the database that they describe. */
  method Run(rs: seq<Record>, files: seq<seq<Entry>>, ghost all: set<cstring>) returns (r: Result<Verdict>)
    requires |all| < NAME_HASH_PRIME && RecordsIn(rs, all) && SmallAll(EMPTY, rs)
    requires LoadAll(EMPTY, rs).Ok? ==>
               var s := Setup(LoadAll(EMPTY, rs).value, []); FilesIn(s, files, all) && FilesSmall(s, files)
    ensures r == Outcome(rs, files)
  {
    hide Hold, Separate, Among, LoadAll, SmallAll, RecordsIn, InstallAll, FilesIn, FilesSmall, Decide, GivenAt;
    var tables := new Tables(all);
    var read := tables.IndexStatusFile(rs, all);
    if !read.Ok? {
      return if read.NullPointer? then NullPointer else IllegalOperator;
    }
    var slots;
    ghost var s;
    slots, s := tables.InstallFiles(files, all);
    if !slots.Ok? {
      return if slots.NullPointer? then NullPointer else IllegalOperator;
    }
    r := tables.CheckDeps(slots.value, s);
  }
}
