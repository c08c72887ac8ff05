/** What dpkg knows about packages, without its tables: the packages themselves, and a status line for a name. */
module DpkgDatabase {
  import opened Basics
  import opened DpkgVersion
  import opened DpkgCompare
  import opened DpkgDeps
  import opened DpkgCheck
  import opened DpkgParse
  import opened DpkgSplit

  /** The kinds that a control field can have. */
  type FieldKind = k: Kind | k !in {OrPreDepends, OrDepends} witness Depends

  /** A relation of a package to others: a parsed control field. */
  datatype Line = Line(kind: FieldKind, fields: seq<Field>)

  datatype Package = Package(name: cstring, version: cstring, lines: seq<Line>)

  datatype Database = Database(packages: set<Package>, status: map<cstring, cstring>)

  const EMPTY := Database({}, map[])

  // ---- Reading control records

  /** A field of a control record; `garbage` is what the edges made for it happen to hold. */
  datatype Entry =
    | NameEntry(name: cstring)
    | VersionEntry(version: cstring)
    | RelationEntry(kind: FieldKind, line: cstring, garbage: Operator)
    | OtherEntry

  /** A record of the status file; without a Status field its entry stays uninitialized, and `garbage` is the line at the
      index that it happens to hold. */
  datatype Record = Record(entries: seq<Entry>, status: Option<cstring>, garbage: cstring)

  function StatusLine(r: Record): cstring { if r.status.Some? then r.status.value else r.garbage }

  datatype Draft = Draft(name: Option<cstring>, version: cstring, lines: seq<Line>)

  const UNKNOWN: cstring := [117, 110, 107, 110, 111, 119, 110]
  const BLANK := Draft(None, UNKNOWN, [])

  /** One more field of a record: the last name and the last version count, relations add up. */
  function Describe(d: Draft, e: Entry): Result<Draft> {
    match e
    case NameEntry(name) => Ok(d.(name := Some(name)))
    case VersionEntry(version) => Ok(d.(version := version))
    case RelationEntry(kind, line, garbage) => (
      match ParseLine(line, garbage)
      case Ok(fs) => Ok(d.(lines := d.lines + [Line(kind, fs)]))
      case NullPointer => NullPointer
      case IllegalOperator => IllegalOperator)
    case OtherEntry => Ok(d)
  }

  function DescribeAll(d: Draft, es: seq<Entry>): Result<Draft>
    decreases |es|
  {
    if es == [] then Ok(d)
    else
      match Describe(d, es[0])
      case Ok(d') => DescribeAll(d', es[1..])
      case NullPointer => NullPointer
      case IllegalOperator => IllegalOperator
  }

  // ---- Storing packages

  /** The same package: a name, and versions that the order of the Debian Policy Manual does not tell apart. */
  ghost predicate Same(p: Package, q: Package) {
    p.name == q.name && Satisfies(p.version, Equal, q.version)
  }

  /** A package takes the place of the same one. */
  ghost function Put(ps: set<Package>, q: Package): set<Package> {
    (set p | p in ps && !Same(p, q)) + {q}
  }

  ghost function Store(db: Database, q: Package, status: cstring): Database {
    Database(Put(db.packages, q), db.status[q.name := status])
  }

  /** A record without a version is passed over; one without a name only is an error. */
  ghost function Load(db: Database, r: Record): Result<Database> {
    match DescribeAll(BLANK, r.entries)
    case NullPointer => NullPointer
    case IllegalOperator => IllegalOperator
    case Ok(d) =>
      if d.version == UNKNOWN then Ok(db)
      else if d.name.None? then NullPointer
      else Ok(Store(db, Package(d.name.value, d.version, d.lines), StatusLine(r)))
  }

  ghost function LoadAll(db: Database, rs: seq<Record>): Result<Database>
    decreases |rs|
  {
    if rs == [] then Ok(db)
    else
      match Load(db, rs[0])
      case Ok(db') => LoadAll(db', rs[1..])
      case NullPointer => NullPointer
      case IllegalOperator => IllegalOperator
  }

  // ---- Dependencies

  /** The name is installed, for a pre-dependency, or wanted, for a dependency. */
  ghost predicate Selected(db: Database, name: cstring, kind: Kind) {
    && name in db.status
    && match kind
       case PreDepends => Word(db.status[name], 3) == INSTALLED
       case Depends => Word(db.status[name], 1) == INSTALL
       case _ => false
  }

  ghost predicate Offers(p: Package, name: cstring) {
    exists l, f, i :: 0 <= l < |p.lines| && p.lines[l].kind == Provides && 0 <= f < |p.lines[l].fields|
                      && 0 <= i < |p.lines[l].fields[f].alternatives| && p.lines[l].fields[f].alternatives[i].name == name
  }

  /** A package of that name has a fitting version and the name is wanted, or a package that is wanted offers the name. */
  ghost predicate Holds(db: Database, kind: Kind, d: Dep) {
    || (Selected(db, d.name, kind) && exists p :: p in db.packages && p.name == d.name && Satisfies(p.version, d.op, d.version))
    || exists p :: p in db.packages && Offers(p, d.name) && Selected(db, p.name, kind)
  }

  ghost predicate SomeHolds(db: Database, kind: Kind, ds: seq<Dep>) {
    exists i :: 0 <= i < |ds| && Holds(db, kind, ds[i])
  }

  /** Every comma group of every dependency field of a package. */
  ghost predicate NeedsMet(db: Database, p: Package) {
    forall l :: 0 <= l < |p.lines| && IsDependency(p.lines[l].kind) ==> LineMet(db, p.lines[l])
  }

  ghost predicate LineMet(db: Database, line: Line) {
    forall f :: 0 <= f < |line.fields| ==> SomeHolds(db, line.kind, line.fields[f].alternatives)
  }

  /** Every package whose name is wanted has what it needs. */
  ghost predicate Consistent(db: Database) {
    forall p :: p in db.packages && Selected(db, p.name, Depends) ==> NeedsMet(db, p)
  }

  // ---- Same packages

  lemma SameEquivalence(p: Package, q: Package, r: Package)
    ensures Same(p, p) && (Same(p, q) ==> Same(q, p)) && (Same(p, q) && Same(q, r) ==> Same(p, r))
  {
    hide CompareVersions, Parse;
    var u, v, w := Parse(p.version), Parse(q.version), Parse(r.version);
    VersionsAntisymmetric(u, u);
    VersionsAntisymmetric(u, v);
    VersionsAntisymmetric(v, w);
    VersionsAntisymmetric(u, w);
    if Same(p, q) && Same(q, r) {
      VersionsTransitive(u, v, w);
      VersionsTransitive(w, v, u);
    }
  }

  /** No package is stored twice, in any number of records. */
  ghost predicate Distinct(ps: set<Package>) {
    forall p, q :: p in ps && q in ps && Same(p, q) ==> p == q
  }

  lemma PutDistinct(ps: set<Package>, q: Package)
    requires Distinct(ps)
    ensures Distinct(Put(ps, q))
  {
    hide Same;
    forall p, r | p in Put(ps, q) && r in Put(ps, q) && Same(p, r) ensures p == r {
      SameEquivalence(p, r, q);
    }
  }

  lemma {:induction false} LoadDistinct(db: Database, rs: seq<Record>)
    requires Distinct(db.packages) && LoadAll(db, rs).Ok?
    ensures Distinct(LoadAll(db, rs).value.packages)
    decreases |rs|
  {
    hide Distinct, Put, DescribeAll;
    if rs == [] {
    } else {
      var d := DescribeAll(BLANK, rs[0].entries).value;
      if d.version != UNKNOWN {
        PutDistinct(db.packages, Package(d.name.value, d.version, d.lines));
      }
      LoadDistinct(Load(db, rs[0]).value, rs[1..]);
    }
  }
}
