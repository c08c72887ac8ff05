/** The package and status tables, and the dependency pass of check_deps. */
module DpkgDeps {
  import opened Basics
  import opened DpkgVersion
  import opened DpkgCompare
  import opened Probing
  import opened DpkgTables

  datatype Kind = PreDepends | OrPreDepends | Depends | OrDepends | Replaces | Provides | Conflicts | Suggests | Recommends | Enhances

  /** An edge; in an OR edge, `version` is the number of alternatives that follow. */
  datatype Edge = Edge(kind: Kind, op: Operator, name: nat, version: nat)

  datatype Node = Node(name: nat, version: nat, edges: seq<Edge>)

  /** A status entry: a slot of the package table and the status line. */
  datatype Status = Status(package: nat, status: cstring)

  datatype World = World(names: seq<Option<cstring>>, packages: seq<Option<Node>>, statuses: seq<Option<Status>>)

  ghost predicate Named(w: World, n: nat) { n < |w.names| && w.names[n].Some? }

  function Name(w: World, n: nat): cstring
    requires Named(w, n)
  {
    w.names[n].value
  }

  /** The name of the package that a status entry belongs to. */
  ghost predicate StatusNamed(w: World, s: Status) {
    s.package < |w.packages| && w.packages[s.package].Some? && Named(w, w.packages[s.package].value.name)
  }

  function StatusName(w: World, s: Status): cstring
    requires StatusNamed(w, s)
  {
    Name(w, w.packages[s.package].value.name)
  }

  /** Every package and every status entry is where a search finds it; a name has one index and one status. */
  ghost predicate Valid(w: World) {
    && Interned(w.names) && |w.packages| == PACKAGE_HASH_PRIME + 1 && |w.statuses| == STATUS_HASH_PRIME + 1
    && (forall s :: 0 <= s < PACKAGE_HASH_PRIME && w.packages[s].Some? ==>
          var p := w.packages[s].value;
          p.name < NAME_HASH_PRIME && Named(w, p.name) && Named(w, p.version)
          && Reached(w.packages, Name(w, p.name), PACKAGE_HASH_PRIME, s))
    && (forall s :: 0 <= s < STATUS_HASH_PRIME && w.statuses[s].Some? ==>
          var x := w.statuses[s].value;
          StatusNamed(w, x) && Reached(w.statuses, StatusName(w, x), STATUS_HASH_PRIME, s))
    && (forall s, r :: 0 <= s < r < STATUS_HASH_PRIME && w.statuses[s].Some? && w.statuses[r].Some? ==>
          StatusName(w, w.statuses[s].value) != StatusName(w, w.statuses[r].value))
  }

  // ---- search_package_hashtable

  /** A package of this name whose version stands in this relation. */
  ghost predicate Fits(w: World, p: Node, name: nat, version: nat, op: Operator) {
    p.name == name && (op == Any || (Named(w, p.version) && Named(w, version) && Satisfies(Name(w, p.version), op, Name(w, version))))
  }

  ghost function Fit(w: World, name: nat, version: nat, op: Operator): Node -> bool {
    p => Fits(w, p, name, version, op)
  }

  /** An edge whose name and version are in the name table. */
  ghost predicate Looked(w: World, name: nat, version: nat, op: Operator) {
    name < NAME_HASH_PRIME && Named(w, name) && (op != Any ==> Named(w, version))
  }

  /** There is a free slot in both tables. */
  ghost predicate Open(w: World) {
    && |w.packages| == PACKAGE_HASH_PRIME + 1 && |w.statuses| == STATUS_HASH_PRIME + 1
    && HasFree(w.packages, PACKAGE_HASH_PRIME) && HasFree(w.statuses, STATUS_HASH_PRIME)
  }

  lemma PackageFacts(w: World, s: nat)
    requires Valid(w) && s < PACKAGE_HASH_PRIME && w.packages[s].Some?
    ensures var p := w.packages[s].value;
            p.name < NAME_HASH_PRIME && Named(w, p.name) && Named(w, p.version)
            && Reached(w.packages, Name(w, p.name), PACKAGE_HASH_PRIME, s)
  {
  }

  lemma Sizes(w: World)
    requires Valid(w)
    ensures Interned(w.names) && |w.packages| == PACKAGE_HASH_PRIME + 1 && |w.statuses| == STATUS_HASH_PRIME + 1
  {
  }

  /** search_package_hashtable: a free slot iff no package fits. */
  method SearchPackage(w: World, name: nat, version: nat, op: Operator) returns (at: nat)
    requires Valid(w) && Looked(w, name, version, op) && HasFree(w.packages, PACKAGE_HASH_PRIME)
    ensures at < PACKAGE_HASH_PRIME && |w.packages| == PACKAGE_HASH_PRIME + 1
    ensures w.packages[at].Some? ==> Fits(w, w.packages[at].value, name, version, op)
    ensures w.packages[at].None? <==>
              !exists s :: 0 <= s < PACKAGE_HASH_PRIME && w.packages[s].Some? && Fits(w, w.packages[s].value, name, version, op)
    ensures forall p: Node :: Reached(w.packages[at := Some(p)], Name(w, name), PACKAGE_HASH_PRIME, at)
  {
    hide Valid, Place, Reached, Passed, Prime, HasFree, Fits, Satisfies;
    Sizes(w);
    TableSizesArePrime();
    var key := Name(w, name);
    ghost var hit := Fit(w, name, version, op);
    ghost var k := FreeAhead(w.packages, key, PACKAGE_HASH_PRIME);
    var dec;
    at, dec := MakeHash(key, PACKAGE_HASH_PRIME);
    ghost var n := 0;
    PlaceStart(w.packages, key, PACKAGE_HASH_PRIME, hit);
    while w.packages[at] != None
      invariant at == Place(key, PACKAGE_HASH_PRIME, n) && Passed(w.packages, key, PACKAGE_HASH_PRIME, n, hit) && n <= k
      decreases k - n
    {
      PackageFacts(w, at);
      var found := TestPackage(w, w.packages[at].value, name, version, op);
      if found {
        forall p: Node ensures Reached(w.packages[at := Some(p)], key, PACKAGE_HASH_PRIME, at) {
          NewReached(w.packages, key, PACKAGE_HASH_PRIME, n, hit, p);
        }
        return;
      }
      PlaceStep(w.packages, key, PACKAGE_HASH_PRIME, n, hit, k);
      at := Next(at, dec, PACKAGE_HASH_PRIME);
      n := n + 1;
    }
    forall p: Node ensures Reached(w.packages[at := Some(p)], key, PACKAGE_HASH_PRIME, at) {
      NewReached(w.packages, key, PACKAGE_HASH_PRIME, n, hit, p);
    }
    forall s | 0 <= s < PACKAGE_HASH_PRIME && w.packages[s].Some? ensures !Fits(w, w.packages[s].value, name, version, op) {
      PackageFacts(w, s);
      if w.packages[s].value.name == name {
        SeenAll(w.packages, key, PACKAGE_HASH_PRIME, n, hit, s);
      } else {
        OtherName(w, w.packages[s].value, name, version, op);
      }
    }
  }

  lemma OtherName(w: World, p: Node, name: nat, version: nat, op: Operator)
    requires p.name != name
    ensures !Fits(w, p, name, version, op)
  {
  }

  method TestPackage(w: World, p: Node, name: nat, version: nat, op: Operator) returns (r: bool)
    requires Looked(w, name, version, op) && Named(w, p.version)
    ensures r <==> Fits(w, p, name, version, op)
  {
    hide Satisfies;
    if p.name != name {
      return false;
    }
    if op == Any {
      return true;
    }
    r := TestVersion(Name(w, p.version), Name(w, version), op);
  }

  // ---- search_status_hashtable

  ghost function Owns(w: World, key: cstring): Status -> bool {
    x => StatusNamed(w, x) && StatusName(w, x) == key
  }

  /** The status line of a name, if it has one. */
  ghost predicate HasStatus(w: World, key: cstring, line: cstring)
    requires |w.statuses| == STATUS_HASH_PRIME + 1
  {
    exists s :: 0 <= s < STATUS_HASH_PRIME && w.statuses[s].Some? && Owns(w, key)(w.statuses[s].value) && w.statuses[s].value.status == line
  }

  lemma StatusFacts(w: World, s: nat)
    requires Valid(w) && s < STATUS_HASH_PRIME && w.statuses[s].Some?
    ensures StatusNamed(w, w.statuses[s].value)
    ensures Reached(w.statuses, StatusName(w, w.statuses[s].value), STATUS_HASH_PRIME, s)
  {
  }

  /** search_status_hashtable: the entry of a name, or a free slot iff it has none. */
  method SearchStatus(w: World, key: cstring) returns (at: nat)
    requires Valid(w) && HasFree(w.statuses, STATUS_HASH_PRIME)
    ensures at < STATUS_HASH_PRIME && |w.statuses| == STATUS_HASH_PRIME + 1
    ensures w.statuses[at].Some? ==> Owns(w, key)(w.statuses[at].value)
    ensures w.statuses[at].None? ==> forall s :: 0 <= s < STATUS_HASH_PRIME && w.statuses[s].Some? ==> !Owns(w, key)(w.statuses[s].value)
    ensures forall x: Status :: Reached(w.statuses[at := Some(x)], key, STATUS_HASH_PRIME, at)
  {
    hide Valid, Place, Reached, Passed, Prime, HasFree;
    Sizes(w);
    TableSizesArePrime();
    ghost var hit := Owns(w, key);
    ghost var k := FreeAhead(w.statuses, key, STATUS_HASH_PRIME);
    var dec;
    at, dec := MakeHash(key, STATUS_HASH_PRIME);
    ghost var n := 0;
    PlaceStart(w.statuses, key, STATUS_HASH_PRIME, hit);
    while w.statuses[at] != None
      invariant at == Place(key, STATUS_HASH_PRIME, n) && Passed(w.statuses, key, STATUS_HASH_PRIME, n, hit) && n <= k
      decreases k - n
    {
      StatusFacts(w, at);
      if key == StatusName(w, w.statuses[at].value) {
        forall x: Status ensures Reached(w.statuses[at := Some(x)], key, STATUS_HASH_PRIME, at) {
          NewReached(w.statuses, key, STATUS_HASH_PRIME, n, hit, x);
        }
        return;
      }
      PlaceStep(w.statuses, key, STATUS_HASH_PRIME, n, hit, k);
      at := Next(at, dec, STATUS_HASH_PRIME);
      n := n + 1;
    }
    forall x: Status ensures Reached(w.statuses[at := Some(x)], key, STATUS_HASH_PRIME, at) {
      NewReached(w.statuses, key, STATUS_HASH_PRIME, n, hit, x);
    }
    forall s | 0 <= s < STATUS_HASH_PRIME && w.statuses[s].Some? ensures !Owns(w, key)(w.statuses[s].value) {
      StatusFacts(w, s);
      if StatusName(w, w.statuses[s].value) == key {
        SeenAll(w.statuses, key, STATUS_HASH_PRIME, n, hit, s);
      }
    }
  }

  // ---- Insertions

  /** A package stored where a search for its name ended leaves everything where searches find it. */
  lemma PackageStored(w: World, w': World, at: nat, p: Node)
    requires Valid(w) && at < PACKAGE_HASH_PRIME && w' == w.(packages := w.packages[at := Some(p)])
    requires p.name < NAME_HASH_PRIME && Named(w, p.name) && Named(w, p.version)
    requires w.packages[at].Some? ==> w.packages[at].value.name == p.name
    requires Reached(w'.packages, Name(w, p.name), PACKAGE_HASH_PRIME, at)
    ensures Valid(w')
  {
    hide Reached, Interned;
    forall s | 0 <= s < PACKAGE_HASH_PRIME && w'.packages[s].Some? && s != at
      ensures Reached(w'.packages, Name(w', w'.packages[s].value.name), PACKAGE_HASH_PRIME, s)
    {
      StillReached(w.packages, Name(w, w.packages[s].value.name), PACKAGE_HASH_PRIME, s, at, p);
    }
    forall s | 0 <= s < STATUS_HASH_PRIME && w'.statuses[s].Some?
      ensures StatusNamed(w', w'.statuses[s].value) && StatusName(w', w'.statuses[s].value) == StatusName(w, w.statuses[s].value)
    {
      assert StatusNamed(w, w.statuses[s].value);
    }
  }

  /** The end of fill_package_struct: a package replaces the one with an equal version, or is added. */
  method StorePackage(w: World, p: Node) returns (w': World, at: nat)
    requires Valid(w) && p.name < NAME_HASH_PRIME && Named(w, p.name) && Named(w, p.version)
    requires HasFree(w.packages, PACKAGE_HASH_PRIME)
    ensures Valid(w') && at < PACKAGE_HASH_PRIME && w'.packages[at] == Some(p)
    ensures w' == w.(packages := w.packages[at := Some(p)])
    ensures w.packages[at].Some? ==> Fits(w, w.packages[at].value, p.name, p.version, Equal)
    ensures w.packages[at].None? ==>
              forall s :: 0 <= s < PACKAGE_HASH_PRIME && w.packages[s].Some? ==> !Fits(w, w.packages[s].value, p.name, p.version, Equal)
  {
    hide Valid, Reached, HasFree, Satisfies;
    at := SearchPackage(w, p.name, p.version, Equal);
    w' := w.(packages := w.packages[at := Some(p)]);
    PackageStored(w, w', at, p);
  }

  lemma StatusStored(w: World, w': World, at: nat, x: Status)
    requires Valid(w) && at < STATUS_HASH_PRIME && w' == w.(statuses := w.statuses[at := Some(x)]) && StatusNamed(w, x)
    requires w.statuses[at].Some? ==> Owns(w, StatusName(w, x))(w.statuses[at].value)
    requires w.statuses[at].None? ==>
               forall s :: 0 <= s < STATUS_HASH_PRIME && w.statuses[s].Some? ==> !Owns(w, StatusName(w, x))(w.statuses[s].value)
    requires Reached(w'.statuses, StatusName(w, x), STATUS_HASH_PRIME, at)
    ensures Valid(w')
  {
    hide Reached, Interned;
    forall s | 0 <= s < STATUS_HASH_PRIME && w'.statuses[s].Some? && s != at
      ensures StatusNamed(w', w'.statuses[s].value) && StatusName(w', w'.statuses[s].value) != StatusName(w, x)
      ensures Reached(w'.statuses, StatusName(w', w'.statuses[s].value), STATUS_HASH_PRIME, s)
    {
      StillReached(w.statuses, StatusName(w, w.statuses[s].value), STATUS_HASH_PRIME, s, at, x);
      OtherStatus(w, at, x, s);
    }
  }

  lemma OtherStatus(w: World, at: nat, x: Status, s: nat)
    requires Valid(w) && at < STATUS_HASH_PRIME && s < STATUS_HASH_PRIME && s != at && StatusNamed(w, x) && w.statuses[s].Some?
    requires w.statuses[at].Some? ==> Owns(w, StatusName(w, x))(w.statuses[at].value)
    requires w.statuses[at].None? ==> !Owns(w, StatusName(w, x))(w.statuses[s].value)
    ensures StatusNamed(w, w.statuses[s].value) && StatusName(w, w.statuses[s].value) != StatusName(w, x)
  {
    hide Reached, Interned;
  }

  /** The end of index_status_file: the status of a package replaces the one of its name, or is added. */
  method StoreStatus(w: World, x: Status) returns (w': World, at: nat)
    requires Valid(w) && StatusNamed(w, x) && HasFree(w.statuses, STATUS_HASH_PRIME)
    ensures Valid(w') && at < STATUS_HASH_PRIME && w' == w.(statuses := w.statuses[at := Some(x)])
    ensures w.statuses[at].Some? ==> Owns(w, StatusName(w, x))(w.statuses[at].value)
  {
    hide Valid, Reached, HasFree;
    at := SearchStatus(w, StatusName(w, x));
    w' := w.(statuses := w.statuses[at := Some(x)]);
    StatusStored(w, w', at, x);
  }
}
