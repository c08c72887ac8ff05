/** What dpkg decides about the packages that it is given: statuses, virtual packages and conflicts, said of a database. */
module DpkgVerdict {
  import opened Basics
  import opened DpkgVersion
  import opened DpkgCompare
  import opened DpkgDeps
  import opened DpkgCheck
  import opened DpkgParse
  import opened DpkgDatabase

  // ---- set_status

  function Joined(a: cstring, b: cstring, c: cstring): cstring { a + [32] + b + [32] + c }

  /** set_status: one of the three words is replaced. */
  function SetWord(line: cstring, value: cstring, position: nat): cstring {
    Joined(if position == 1 then value else Word(line, 1), if position == 2 then value else Word(line, 2),
           if position == 3 then value else Word(line, 3))
  }

  const REINSTREQ: cstring := [114, 101, 105, 110, 115, 116, 114, 101, 113]
  const NOT_INSTALLED: cstring := [110, 111, 116, 45] + INSTALLED

  /** The status line of a package that is to be installed. */
  function InstallLine(status: map<cstring, cstring>, name: cstring): cstring {
    if name in status then SetWord(SetWord(status[name], INSTALL, 1), REINSTREQ, 2) else Joined(INSTALL, REINSTREQ, NOT_INSTALLED)
  }

  // ---- The packages given

  /** The packages given so far, as they are stored: a later one can take the place of an earlier one. */
  ghost function Given(debs: seq<Package>, q: Package): seq<Package> {
    seq(|debs|, i requires 0 <= i < |debs| => if Same(debs[i], q) then q else debs[i]) + [q]
  }

  datatype Setup = Setup(db: Database, debs: seq<Package>)

  /** A control file: without a version it is passed over. */
  ghost function Install(s: Setup, es: seq<Entry>): Result<Setup> {
    match DescribeAll(BLANK, es)
    case NullPointer => NullPointer
    case IllegalOperator => IllegalOperator
    case Ok(d) =>
      if d.version == UNKNOWN then Ok(s)
      else if d.name.None? then NullPointer
      else
        var q := Package(d.name.value, d.version, d.lines);
        Ok(Setup(Store(s.db, q, InstallLine(s.db.status, q.name)), Given(s.debs, q)))
  }

  ghost function InstallAll(s: Setup, files: seq<seq<Entry>>): Result<Setup>
    decreases |files|
  {
    if files == [] then Ok(s)
    else
      match Install(s, files[0])
      case Ok(s') => InstallAll(s', files[1..])
      case NullPointer => NullPointer
      case IllegalOperator => IllegalOperator
  }

  // ---- Relations of one kind

  function FieldDeps(fs: seq<Field>): seq<Dep> {
    if fs == [] then [] else FieldDeps(fs[..|fs| - 1]) + fs[|fs| - 1].alternatives
  }

  function Relations(lines: seq<Line>, kind: Kind): seq<Dep> {
    if lines == [] then []
    else
      var line := lines[|lines| - 1];
      Relations(lines[..|lines| - 1], kind) + if line.kind == kind then FieldDeps(line.fields) else []
  }

  ghost predicate Suits(p: Package, d: Dep) { p.name == d.name && Satisfies(p.version, d.op, d.version) }

  ghost predicate SomeSuits(ps: set<Package>, d: Dep) { exists p :: p in ps && Suits(p, d) }

  // ---- Virtual packages

  function Virtual(d: Dep): Package { Package(d.name, d.version, []) }

  /** A name that a given package provides and that no package suits becomes a package itself. */
  ghost function AddVirtual(ps: set<Package>, d: Dep): set<Package> {
    if SomeSuits(ps, d) then ps else ps + {Virtual(d)}
  }

  ghost function AddVirtuals(ps: set<Package>, ds: seq<Dep>): set<Package> {
    if ds == [] then ps else AddVirtual(AddVirtuals(ps, ds[..|ds| - 1]), ds[|ds| - 1])
  }

  ghost function AllVirtuals(ps: set<Package>, debs: seq<Package>): set<Package> {
    if debs == [] then ps
    else AddVirtuals(AllVirtuals(ps, debs[..|debs| - 1]), Relations(debs[|debs| - 1].lines, Provides))
  }

  // ---- Conflicts

  datatype Finding = Fine | Clash | Crash

  /** One conflict of a given package: a package that suits it must have a status; if it is wanted, the version of the given
      package itself decides. */
  ghost function CheckConflict(db: Database, p: Package, d: Dep): Finding {
    if !SomeSuits(db.packages, d) then Fine
    else if d.name !in db.status then Crash
    else if Selected(db, d.name, Depends) && Satisfies(p.version, d.op, d.version) then Clash
    else Fine
  }

  ghost function CheckConflicts(db: Database, p: Package, ds: seq<Dep>): Finding {
    if ds == [] then Fine
    else
      var f := CheckConflicts(db, p, ds[..|ds| - 1]);
      if f != Fine then f else CheckConflict(db, p, ds[|ds| - 1])
  }

  /** A package that is installed already is not looked at. */
  ghost function CheckGiven(db: Database, p: Package): Finding {
    if p.name !in db.status then Crash
    else if Selected(db, p.name, PreDepends) then Fine
    else CheckConflicts(db, p, Relations(p.lines, Conflicts))
  }

  ghost function CheckAll(db: Database, debs: seq<Package>): Finding {
    if debs == [] then Fine
    else
      var f := CheckAll(db, debs[..|debs| - 1]);
      if f != Fine then f else CheckGiven(db, debs[|debs| - 1])
  }

  // ---- check_deps

  datatype Verdict = Accepted | Conflict | Unmet | NothingGiven

  ghost function WithVirtuals(s: Setup): Database { s.db.(packages := AllVirtuals(s.db.packages, s.debs)) }

  ghost function Decide(s: Setup): Result<Verdict> {
    if s.debs == [] then Ok(NothingGiven)
    else
      var db := WithVirtuals(s);
      match CheckAll(db, s.debs)
      case Crash => NullPointer
      case Clash => Ok(Conflict)
      case Fine => Ok(if Consistent(db) then Accepted else Unmet)
  }

  /** The verdict on packages that are given next to those of the status file. */
  ghost function Outcome(rs: seq<Record>, files: seq<seq<Entry>>): Result<Verdict> {
    match LoadAll(EMPTY, rs)
    case NullPointer => NullPointer
    case IllegalOperator => IllegalOperator
    case Ok(db) =>
      match InstallAll(Setup(db, []), files)
      case NullPointer => NullPointer
      case IllegalOperator => IllegalOperator
      case Ok(s) => Decide(s)
  }

  // ---- Statuses after installing

  lemma JoinedReads(a: cstring, b: cstring, c: cstring)
    requires PlainWord(a)
    ensures Word(Joined(a, b, c), 1) == a
    ensures PlainWord(b) ==> Word(Joined(a, b, c), 2) == b
    ensures PlainWord(b) && PlainWord(c) ==> Word(Joined(a, b, c), 3) == c
  {
    var s := [32];
    assert Joined(a, b, c) == a + ([32] + (b + ([32] + c)));
    hide Word;
    FirstWord(a, [32] + (b + ([32] + c)));
    if PlainWord(b) {
      NextWord(a, b + ([32] + c), 2);
      FirstWord(b, [32] + c);
      if PlainWord(c) {
        NextWord(a, b + ([32] + c), 3);
        NextWord(b, c, 2);
        FirstWord(c, []);
        assert c + [] == c;
      }
    }
  }

  lemma FirstWord(a: cstring, more: cstring)
    requires PlainWord(a) && Stops(more, {32, 10})
    ensures Word(a + more, 1) == a
  {
    hide Until;
    UntilAppend(a, more, {32, 10});
  }

  lemma NextWord(a: cstring, more: cstring, num: nat)
    requires PlainWord(a) && num > 1 && (more == [] || more[0] != 32)
    ensures Word(a + ([32] + more), num) == Word(more, num - 1)
  {
    hide SkipTo, SkipSpaces;
    SkipToAppend(a, [32] + more, {32});
    SpacesSkipped(1, more);
    assert Spaces(1) == [32];
  }

  /** Whatever the status was, a package that is given is wanted afterwards. */
  lemma GivenWanted(status: map<cstring, cstring>, name: cstring)
    ensures Word(InstallLine(status, name), 1) == INSTALL
  {
    hide Word;
    assert PlainWord(INSTALL);
    if name in status {
      var l := SetWord(status[name], INSTALL, 1);
      JoinedReads(INSTALL, Word(status[name], 2), Word(status[name], 3));
      JoinedReads(INSTALL, REINSTREQ, Word(l, 3));
    } else {
      JoinedReads(INSTALL, REINSTREQ, NOT_INSTALLED);
    }
  }

  /** The third word of three joined words, some of which may be missing. */
  lemma JoinedThird(a: cstring, b: cstring, c: cstring)
    requires PlainWord(a) && Without(b, {32, 10}) && Without(c, {32, 10})
    ensures Word(Joined(a, b, c), 3) == if b == [] then [] else c
  {
    hide Word;
    assert Joined(a, b, c) == a + ([32] + (b + ([32] + c)));
    if b != [] {
      NextWord(a, b + ([32] + c), 3);
      NextWord(b, c, 2);
      LastWord(c);
    } else {
      assert Joined(a, b, c) == a + ([32, 32] + c);
      SkipTwo(a, c);
      if c == [] {
        NoWord(2);
      } else {
        assert c + [] == c;
        OnlyWord(c);
      }
    }
  }

  lemma LastWord(c: cstring)
    requires Without(c, {32, 10})
    ensures Word(c, 1) == c
  {
    hide Until;
    assert c + [] == c;
    UntilAppend(c, [], {32, 10});
  }

  lemma NoWord(num: nat)
    requires num == 2
    ensures Word([], num) == []
  {
    assert SkipTo([], {32}) == [] && SkipSpaces([]) == [];
    assert Word([], 1) == [];
  }

  /** There is no second word. */
  lemma OnlyWord(c: cstring)
    requires PlainWord(c)
    ensures Word(c, 2) == []
  {
    hide SkipTo;
    assert c + [] == c;
    SkipToAppend(c, [], {32});
    assert SkipSpaces([]) == [] && Word([], 1) == [];
  }

  lemma SkipTwo(a: cstring, c: cstring)
    requires PlainWord(a) && Without(c, {32, 10})
    ensures Word(a + ([32, 32] + c), 3) == Word(c, 2)
  {
    hide SkipTo, SkipSpaces;
    SkipToAppend(a, [32, 32] + c, {32});
    SpacesSkipped(2, c);
    assert Spaces(2) == [32, 32];
    assert SkipSpaces(SkipTo(a + ([32, 32] + c), {32})) == c;
    assert Word(a + ([32, 32] + c), 3) == Word(c, 2);
  }

  /** The third word, whether the package is installed, is kept exactly if the line has a second word or no third one. */
  lemma StateKept(status: map<cstring, cstring>, name: cstring)
    requires name in status
    ensures Word(InstallLine(status, name), 3) == Word(status[name], 3) <==> Word(status[name], 2) != [] || Word(status[name], 3) == []
  {
    hide Word;
    var line := status[name];
    var l := SetWord(line, INSTALL, 1);
    assert PlainWord(INSTALL) && PlainWord(REINSTREQ);
    WordPlain(line, 2);
    WordPlain(line, 3);
    JoinedReads(INSTALL, Word(line, 2), Word(line, 3));
    JoinedThird(INSTALL, Word(line, 2), Word(line, 3));
    WordPlain(l, 3);
    JoinedThird(INSTALL, REINSTREQ, Word(l, 3));
  }

  // ---- When a conflict is reported

  /** A package that is in conflict is there and wanted. */
  ghost predicate Clashes(db: Database, d: Dep) { SomeSuits(db.packages, d) && Selected(db, d.name, Depends) }

  ghost predicate Accounted(db: Database, ds: seq<Dep>) {
    forall i :: 0 <= i < |ds| && SomeSuits(db.packages, ds[i]) ==> ds[i].name in db.status
  }

  /** Exactly the conflicts are reported whose relation the version of the given package itself satisfies. */
  lemma {:induction false} ConflictReported(db: Database, p: Package, ds: seq<Dep>)
    requires Accounted(db, ds)
    ensures CheckConflicts(db, p, ds) != Crash
    ensures CheckConflicts(db, p, ds) == Clash <==>
            exists i :: 0 <= i < |ds| && Clashes(db, ds[i]) && Satisfies(p.version, ds[i].op, ds[i].version)
    decreases |ds|
  {
    hide SomeSuits, Selected, Satisfies;
    if ds == [] {
    } else {
      var n := |ds| - 1;
      ConflictReported(db, p, ds[..n]);
      assert forall i :: 0 <= i < n ==> ds[..n][i] == ds[i];
    }
  }

  /** So all is well with conflicts that name no version. */
  lemma UnversionedReported(db: Database, p: Package, ds: seq<Dep>)
    requires Accounted(db, ds) && forall i :: 0 <= i < |ds| ==> ds[i].op == Any
    ensures CheckConflicts(db, p, ds) == Clash <==> exists i :: 0 <= i < |ds| && Clashes(db, ds[i])
  {
    hide Clashes, CheckConflicts, Accounted;
    ConflictReported(db, p, ds);
  }

  /** The failing input: version 1 of a package conflicts with another one from version 2 on, which is wanted. */
  lemma ConflictMissed(db: Database, p: Package, d: Dep)
    requires p.version == [49] && d.op == MoreEqual && d.version == [50] && Clashes(db, d)
    ensures CheckConflicts(db, p, [d]) == Fine
  {
    hide SomeSuits, Satisfies;
    OneBeforeTwo();
    assert [d][..0] == [];
    assert CheckConflicts(db, p, []) == Fine;
  }

  lemma OneBeforeTwo()
    ensures !Satisfies([49], MoreEqual, [50])
  {
    TwoAfterOne();
    VersionsAntisymmetric(DpkgCompare.Parse([49]), DpkgCompare.Parse([50]));
    hide CompareVersions, DpkgCompare.Parse;
  }

  // ---- Virtual packages and conflicts

  lemma {:induction false} VirtualsGrow(ps: set<Package>, ds: seq<Dep>, i: nat)
    requires i < |ds| && Satisfies(ds[i].version, ds[i].op, ds[i].version)
    ensures ps <= AddVirtuals(ps, ds) && SomeSuits(AddVirtuals(ps, ds), ds[i])
    decreases |ds|
  {
    hide Satisfies;
    var n := |ds| - 1;
    StillThere(ps, ds[..n]);
    if i == n {
      var before := AddVirtuals(ps, ds[..n]);
      if !SomeSuits(before, ds[i]) {
        assert Suits(Virtual(ds[i]), ds[i]);
      }
    } else {
      VirtualsGrow(ps, ds[..n], i);
      var p :| p in AddVirtuals(ps, ds[..n]) && Suits(p, ds[i]);
      assert p in AddVirtuals(ps, ds);
    }
  }

  lemma {:induction false} StillThere(ps: set<Package>, ds: seq<Dep>)
    ensures ps <= AddVirtuals(ps, ds)
    decreases |ds|
  {
    hide SomeSuits;
    if ds == [] {
    } else {
      StillThere(ps, ds[..|ds| - 1]);
    }
  }

  lemma {:induction false} AllVirtualsGrow(ps: set<Package>, debs: seq<Package>, k: nat, i: nat)
    requires k < |debs| && i < |Relations(debs[k].lines, Provides)|
    requires var d := Relations(debs[k].lines, Provides)[i]; Satisfies(d.version, d.op, d.version)
    ensures SomeSuits(AllVirtuals(ps, debs), Relations(debs[k].lines, Provides)[i])
    decreases |debs|
  {
    hide Satisfies, AddVirtuals, Relations;
    var n := |debs| - 1;
    var ds, d := Relations(debs[n].lines, Provides), Relations(debs[k].lines, Provides)[i];
    if k == n {
      VirtualsGrow(AllVirtuals(ps, debs[..n]), ds, i);
    } else {
      AllVirtualsGrow(ps, debs[..n], k, i);
      StillThere(AllVirtuals(ps, debs[..n]), ds);
      var p :| p in AllVirtuals(ps, debs[..n]) && Suits(p, d);
      assert p in AllVirtuals(ps, debs);
    }
  }

  /** A package that provides a name and conflicts with it, as packages of which one may be installed do, is never accepted
      while the name has no status of its own. */
  lemma ProvidesAndConflicts(s: Setup, k: nat, i: nat, j: nat)
    requires k < |s.debs| && i < |Relations(s.debs[k].lines, Provides)| && j < |Relations(s.debs[k].lines, Conflicts)|
    requires var d := Relations(s.debs[k].lines, Provides)[i];
             d == Relations(s.debs[k].lines, Conflicts)[j] && Satisfies(d.version, d.op, d.version) && d.name !in s.db.status
    requires !Selected(s.db, s.debs[k].name, PreDepends)
    ensures Decide(s) == NullPointer || Decide(s) == Ok(Conflict)
  {
    hide Satisfies, Selected, SomeSuits, Relations, AllVirtuals, Consistent;
    var db, p := WithVirtuals(s), s.debs[k];
    AllVirtualsGrow(s.db.packages, s.debs, k, i);
    SameStatus(s.db, db, p.name);
    NotFine(db, p, Relations(p.lines, Conflicts), j);
    NotFineAll(db, s.debs, k);
  }

  lemma SameStatus(db: Database, db': Database, name: cstring)
    requires db'.status == db.status
    ensures Selected(db', name, PreDepends) == Selected(db, name, PreDepends)
  {
  }

  lemma {:induction false} NotFine(db: Database, p: Package, ds: seq<Dep>, j: nat)
    requires j < |ds| && CheckConflict(db, p, ds[j]) != Fine
    ensures CheckConflicts(db, p, ds) != Fine
    decreases |ds|
  {
    hide CheckConflict;
    if j == |ds| - 1 {
    } else {
      NotFine(db, p, ds[..|ds| - 1], j);
    }
  }

  lemma {:induction false} NotFineAll(db: Database, debs: seq<Package>, k: nat)
    requires k < |debs| && CheckGiven(db, debs[k]) != Fine
    ensures CheckAll(db, debs) != Fine
    decreases |debs|
  {
    hide CheckGiven;
    if k == |debs| - 1 {
    } else {
      NotFineAll(db, debs[..|debs| - 1], k);
    }
  }

  // ---- A small world

  /** "install ok installed" */
  const PRESENT: cstring := Joined([105, 110, 115, 116, 97, 108, 108], [111, 107], [105, 110, 115, 116, 97, 108, 108, 101, 100])

  function OnFile(name: cstring, version: cstring, status: cstring): Record {
    Record([NameEntry(name), VersionEntry(version)], Some(status), status)
  }

  function Depending(name: cstring, version: cstring, line: cstring, garbage: Operator): seq<Entry> {
    [NameEntry(name), VersionEntry(version), RelationEntry(Depends, line, garbage)]
  }

  /** A status file with one package, and a package that depends on it: its status and its version decide. */
  lemma OneDependency(n: cstring, v: cstring, w: cstring, q: cstring, u: cstring, line: cstring, g: Operator, f: Field, d: Dep)
    requires q != n && v != UNKNOWN && u != UNKNOWN && d.name == n
    requires ParseLine(line, g) == Ok([f]) && f.alternatives == [d]
    ensures Outcome([OnFile(n, v, w)], [Depending(q, u, line, g)])
         == Ok(if Word(w, 1) == INSTALL && Satisfies(v, d.op, d.version) then Accepted else Unmet)
  {
    hide ParseLine, Word, Satisfies, INSTALL, UNKNOWN;
    var a, b := Package(n, v, []), Package(q, u, [Line(Depends, [f])]);
    OneStored(n, v, w);
    OneGiven(Database({a}, map[n := w]), q, u, line, g, f);
    var db := Database({a, b}, map[n := w, q := InstallLine(map[n := w], q)]);
    GivenWanted(map[n := w], q);
    assert db.packages == {a} + {b};
    hide InstallLine;
    OneDecided(db, a, b, f, d);
  }

  lemma OneStored(n: cstring, v: cstring, w: cstring)
    requires v != UNKNOWN
    ensures LoadAll(EMPTY, [OnFile(n, v, w)]) == Ok(Database({Package(n, v, [])}, map[n := w]))
  {
    hide UNKNOWN, Same;
    var es := [NameEntry(n), VersionEntry(v)];
    assert es[1..] == [VersionEntry(v)] && es[1..][1..] == [];
    assert DescribeAll(BLANK.(name := Some(n)), es[1..]) == Ok(Draft(Some(n), v, []));
    assert [OnFile(n, v, w)][1..] == [];
    assert Put({}, Package(n, v, [])) == {Package(n, v, [])};
    assert EMPTY.status[n := w] == map[n := w];
    assert Load(EMPTY, OnFile(n, v, w)) == Ok(Database({Package(n, v, [])}, map[n := w]));
  }

  lemma OneGiven(db: Database, q: cstring, u: cstring, line: cstring, g: Operator, f: Field)
    requires u != UNKNOWN && ParseLine(line, g) == Ok([f]) && forall p :: p in db.packages ==> p.name != q
    ensures var b := Package(q, u, [Line(Depends, [f])]);
            InstallAll(Setup(db, []), [Depending(q, u, line, g)])
            == Ok(Setup(Database(db.packages + {b}, db.status[q := InstallLine(db.status, q)]), [b]))
  {
    hide ParseLine, UNKNOWN, InstallLine;
    var es, b := Depending(q, u, line, g), Package(q, u, [Line(Depends, [f])]);
    OneDescribed(q, u, line, g, f);
    assert Put(db.packages, b) == db.packages + {b};
    assert Given([], b) == [b];
    assert [es][1..] == [];
    var s := Setup(Database(db.packages + {b}, db.status[q := InstallLine(db.status, q)]), [b]);
    assert Install(Setup(db, []), es) == Ok(s);
    assert InstallAll(s, []) == Ok(s);
  }

  lemma OneDescribed(q: cstring, u: cstring, line: cstring, g: Operator, f: Field)
    requires ParseLine(line, g) == Ok([f])
    ensures DescribeAll(BLANK, Depending(q, u, line, g)) == Ok(Draft(Some(q), u, [Line(Depends, [f])]))
  {
    hide ParseLine;
    var es := Depending(q, u, line, g);
    assert es[1..] == [VersionEntry(u), RelationEntry(Depends, line, g)] && es[1..][1..] == [RelationEntry(Depends, line, g)];
    var d := Draft(Some(q), u, []);
    assert d.lines + [Line(Depends, [f])] == [Line(Depends, [f])];
    LastDescribed(d, RelationEntry(Depends, line, g), Draft(Some(q), u, [Line(Depends, [f])]));
    assert DescribeAll(BLANK.(name := Some(q)), es[1..]) == DescribeAll(d, es[1..][1..]);
  }

  lemma LastDescribed(d: Draft, e: Entry, d': Draft)
    requires Describe(d, e) == Ok(d')
    ensures DescribeAll(d, [e]) == Ok(d')
  {
    hide Describe;
    assert [e][1..] == [];
  }

  lemma NoRelations(lines: seq<Line>, kind: Kind)
    requires lines == [] || (|lines| == 1 && lines[0].kind != kind)
    ensures Relations(lines, kind) == []
  {
    if lines != [] {
      assert lines[..0] == [];
    }
  }

  lemma NoVirtuals(ps: set<Package>, b: Package)
    requires Relations(b.lines, Provides) == []
    ensures AllVirtuals(ps, [b]) == ps
  {
    hide Relations;
    assert [b][..0] == [];
    assert AllVirtuals(ps, []) == ps;
    assert AddVirtuals(ps, []) == ps;
  }

  lemma OneDecided(db: Database, a: Package, b: Package, f: Field, d: Dep)
    requires db.packages == {a, b} && a.name in db.status && a.name != b.name && a.lines == [] && b.lines == [Line(Depends, [f])]
    requires f.alternatives == [d] && d.name == a.name && Selected(db, b.name, Depends)
    ensures Decide(Setup(db, [b])) == Ok(if Selected(db, a.name, Depends) && Satisfies(a.version, d.op, d.version) then Accepted else Unmet)
  {
    NoRelations(b.lines, Provides);
    NoRelations(b.lines, Conflicts);
    NoVirtuals(db.packages, b);
    assert b.name in db.status;
    assert [b][..0] == [];
    hide Selected, Satisfies, AllVirtuals, Relations, Consistent;
    assert WithVirtuals(Setup(db, [b])) == db;
    assert CheckConflicts(db, b, []) == Fine;
    assert CheckAll(db, []) == Fine;
    OneConsistent(db, a, b, f, d);
  }

  lemma OneConsistent(db: Database, a: Package, b: Package, f: Field, d: Dep)
    requires db.packages == {a, b} && a.name != b.name && a.lines == [] && b.lines == [Line(Depends, [f])]
    requires f.alternatives == [d] && d.name == a.name && Selected(db, b.name, Depends)
    ensures Consistent(db) <==> Selected(db, a.name, Depends) && Satisfies(a.version, d.op, d.version)
  {
    hide Selected, Satisfies;
    assert !Offers(a, d.name) && !Offers(b, d.name);
    assert Holds(db, Depends, d) <==> Selected(db, a.name, Depends) && Satisfies(a.version, d.op, d.version);
    hide Holds, Offers;
    assert NeedsMet(db, a);
    assert f.alternatives[0] == d;
    assert SomeHolds(db, Depends, f.alternatives) <==> Holds(db, Depends, d);
    hide SomeHolds;
    var line := b.lines[0];
    assert line.fields[0] == f;
    assert LineMet(db, line) <==> SomeHolds(db, Depends, f.alternatives);
    hide LineMet;
    assert NeedsMet(db, b) <==> LineMet(db, line);
  }

  /** So it is with a package that is there. */
  lemma PresentCounts()
    ensures Word(PRESENT, 1) == INSTALL && Word(PRESENT, 3) == INSTALLED
  {
    hide Word;
    assert PlainWord([105, 110, 115, 116, 97, 108, 108]) && PlainWord([111, 107]) && PlainWord([105, 110, 115, 116, 97, 108, 108, 101, 100]);
    JoinedReads([105, 110, 115, 116, 97, 108, 108], [111, 107], [105, 110, 115, 116, 97, 108, 108, 101, 100]);
  }
}
