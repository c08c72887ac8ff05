/** The three hash tables of dpkg: names, packages and status entries. */
module DpkgTables {
  import opened Basics
  import opened DpkgVersion
  import opened Probing

  const NAME_HASH_PRIME := 16381
  const PACKAGE_HASH_PRIME := 10007
  const STATUS_HASH_PRIME := 8191
  const ULONG := 0x1_0000_0000

  // ---- make_hash

  function Shift(v: nat, n: nat): nat {
    if n == 0 then v else 2 * Shift(v, n - 1)
  }

  /** The hash number after the first `n` characters. */
  function HashNum(key: cstring, n: nat): (r: nat)
    requires 1 <= n <= |key|
    ensures r < ULONG
  {
    if n == 1 then key[0]
    else
      var c: int, before: int := key[n - 1], key[n - 2];
      (HashNum(key, n - 1) + Shift(c + before, c * (n - 1) % 24)) % ULONG
  }

  function Hash(key: cstring): (r: nat)
    ensures r < ULONG
  {
    if key == [] then 0 else HashNum(key, |key|)
  }

  /** Where the walk for a key starts and how far it steps. */
  function Start(key: cstring, p: nat): (r: nat)
    requires p >= 2
    ensures r < p
  {
    Hash(key) % p
  }

  function Decrement(key: cstring, p: nat): (r: nat)
    requires p >= 2
    ensures 1 <= r < p
  {
    1 + Hash(key) % (p - 1)
  }

  /** make_hash */
  method MakeHash(key: cstring, p: nat) returns (start: nat, decrement: nat)
    requires p >= 2
    ensures start == Start(key, p) < p && decrement == Decrement(key, p) && 1 <= decrement < p
  {
    hide Shift;
    var hashNum: nat := if key == [] then 0 else key[0];
    var i := 1;
    while i < |key|
      invariant 1 <= i && (key != [] ==> i <= |key| && hashNum == HashNum(key, i)) && (key == [] ==> hashNum == 0)
    {
      var c: int, before: int := key[i], key[i - 1];
      hashNum := (hashNum + Shift(c + before, c * i % 24)) % ULONG;
      i := i + 1;
    }
    start, decrement := hashNum % p, 1 + hashNum % (p - 1);
  }

  /** The slot that the search for a key looks at after `n` steps. */
  function Place(key: cstring, p: nat, n: nat): (r: nat)
    requires p >= 2
    ensures r < p
  {
    Walk(Start(key, p), Decrement(key, p), p, n)
  }

  /** The search for a key takes `n` steps without meeting a free slot or an entry that `hit` holds of. */
  ghost predicate Passed<T>(t: seq<Option<T>>, key: cstring, p: nat, n: nat, hit: T -> bool)
    requires 2 <= p <= |t|
  {
    forall m :: 0 <= m < n ==> t[Place(key, p, m)].Some? && !hit(t[Place(key, p, m)].value)
  }

  /** An entry at `slot` that a search for `key` gets to. */
  ghost predicate Reached<T>(t: seq<Option<T>>, key: cstring, p: nat, slot: nat)
    requires 2 <= p <= |t|
  {
    exists n: nat :: Place(key, p, n) == slot && Passed(t, key, p, n, (x: T) => false)
  }

  ghost predicate HasFree<T>(t: seq<Option<T>>, p: nat)
    requires p <= |t|
  {
    exists f: nat :: f < p && t[f].None?
  }

  /** A free slot bounds every search. */
  lemma FreeAhead<T>(t: seq<Option<T>>, key: cstring, p: nat) returns (k: nat)
    requires 2 <= p <= |t| && Prime(p) && HasFree(t, p)
    ensures t[Place(key, p, k)].None?
  {
    var f: nat :| f < p && t[f].None?;
    k := EverySlot(Start(key, p), Decrement(key, p), p, f);
  }

  /** A search that gets to a free slot has seen every entry that is reached. */
  lemma SeenAll<T>(t: seq<Option<T>>, key: cstring, p: nat, n: nat, hit: T -> bool, slot: nat)
    requires 2 <= p <= |t| && Passed(t, key, p, n, hit) && t[Place(key, p, n)].None?
    requires slot < p && t[slot].Some? && Reached(t, key, p, slot)
    ensures !hit(t[slot].value)
  {
    var m: nat :| Place(key, p, m) == slot && Passed(t, key, p, m, (x: T) => false);
    if m >= n {
      assert false;
    }
  }

  /** A new entry at the end of a search leaves all others reachable. */
  lemma StillReached<T>(t: seq<Option<T>>, key: cstring, p: nat, slot: nat, at: nat, x: T)
    requires 2 <= p <= |t| && Reached(t, key, p, slot) && at < p
    ensures Reached(t[at := Some(x)], key, p, slot)
  {
    var m: nat :| Place(key, p, m) == slot && Passed(t, key, p, m, (x: T) => false);
    assert Passed(t[at := Some(x)], key, p, m, (x: T) => false);
  }

  lemma NewReached<T>(t: seq<Option<T>>, key: cstring, p: nat, n: nat, hit: T -> bool, x: T)
    requires 2 <= p <= |t| && Passed(t, key, p, n, hit)
    ensures Reached(t[Place(key, p, n) := Some(x)], key, p, Place(key, p, n))
  {
    assert Passed(t[Place(key, p, n) := Some(x)], key, p, n, (x: T) => false);
  }

  // ---- Names

  ghost function Is(key: cstring): cstring -> bool { x => x == key }

  /** Every name is where a search finds it, and is there only once. */
  ghost predicate Interned(t: seq<Option<cstring>>) {
    && |t| == NAME_HASH_PRIME + 1
    && (forall s :: 0 <= s < NAME_HASH_PRIME && t[s].Some? ==> Reached(t, t[s].value, NAME_HASH_PRIME, s))
    && (forall s, r :: 0 <= s < r < NAME_HASH_PRIME && t[s].Some? && t[r].Some? ==> t[s] != t[r])
  }

  lemma InternKeeps(t: seq<Option<cstring>>, key: cstring, n: nat)
    requires Interned(t) && Passed(t, key, NAME_HASH_PRIME, n, Is(key)) && t[Place(key, NAME_HASH_PRIME, n)].None?
    ensures Interned(t[Place(key, NAME_HASH_PRIME, n) := Some(key)])
    ensures forall s :: 0 <= s < NAME_HASH_PRIME ==> t[s] != Some(key)
  {
    hide Place, Reached, Passed;
    var p, at := NAME_HASH_PRIME, Place(key, NAME_HASH_PRIME, n);
    var t' := t[at := Some(key)];
    NewReached(t, key, p, n, Is(key), key);
    forall s | 0 <= s < p && t[s].Some? ensures Reached(t', t[s].value, p, s) && t[s].value != key {
      StillReached(t, t[s].value, p, s, at, key);
      if t[s].value == key {
        SeenAll(t, key, p, n, Is(key), s);
      }
    }
  }

  /** search_name_hashtable: the index of a name, which is added if it is new. */
  method SearchName(names: array<Option<cstring>>, key: cstring) returns (at: nat)
    requires Interned(names[..]) && HasFree(names[..], NAME_HASH_PRIME)
    modifies names
    ensures Interned(names[..]) && at < NAME_HASH_PRIME && names[at] == Some(key)
    ensures forall s :: 0 <= s <= NAME_HASH_PRIME && s != at ==> names[s] == old(names[s])
    ensures old(names[at]) == None || old(names[at]) == Some(key)
  {
    hide Place, Reached, Passed, Interned, Prime, HasFree;
    ghost var t := names[..];
    TableSizesArePrime();
    InternedSize(t);
    ghost var k := FreeAhead(t, key, NAME_HASH_PRIME);
    var dec;
    at, dec := MakeHash(key, NAME_HASH_PRIME);
    ghost var n := 0;
    PlaceStart(t, key, NAME_HASH_PRIME, Is(key));
    while names[at] != None
      invariant names[..] == t && at == Place(key, NAME_HASH_PRIME, n) && Passed(t, key, NAME_HASH_PRIME, n, Is(key)) && n <= k
      decreases k - n
    {
      if names[at].value == key {
        return;
      }
      PlaceStep(t, key, NAME_HASH_PRIME, n, Is(key), k);
      at := Next(at, dec, NAME_HASH_PRIME);
      n := n + 1;
    }
    InternKeeps(t, key, n);
    names[at] := Some(key);
    assert names[..] == t[at := Some(key)];
  }

  lemma InternedSize(t: seq<Option<cstring>>)
    requires Interned(t)
    ensures |t| == NAME_HASH_PRIME + 1
  {
  }

  lemma PlaceStart<T>(t: seq<Option<T>>, key: cstring, p: nat, hit: T -> bool)
    requires 2 <= p <= |t|
    ensures Place(key, p, 0) == Start(key, p) && Passed(t, key, p, 0, hit)
  {
  }

  lemma PlaceStep<T>(t: seq<Option<T>>, key: cstring, p: nat, n: nat, hit: T -> bool, k: nat)
    requires 2 <= p <= |t| && Passed(t, key, p, n, hit) && n <= k
    requires t[Place(key, p, n)].Some? && !hit(t[Place(key, p, n)].value) && t[Place(key, p, k)].None?
    ensures Place(key, p, n + 1) == Next(Place(key, p, n), Decrement(key, p), p) && Passed(t, key, p, n + 1, hit) && n < k
  {
  }

  /** The names are among fewer than there are slots. */
  ghost predicate Among(t: seq<Option<cstring>>, all: set<cstring>) {
    |t| == NAME_HASH_PRIME + 1 && |all| < NAME_HASH_PRIME && forall s :: 0 <= s < NAME_HASH_PRIME && t[s].Some? ==> t[s].value in all
  }

  /** Then a slot is free. */
  lemma AmongFree(t: seq<Option<cstring>>, all: set<cstring>)
    requires Interned(t) && Among(t, all)
    ensures HasFree(t, NAME_HASH_PRIME)
  {
    hide Reached;
    if forall s :: 0 <= s < NAME_HASH_PRIME ==> t[s].Some? {
      var values := Values(t, all, NAME_HASH_PRIME);
      Smaller(values, all);
      assert false;
    }
    var f :| 0 <= f < NAME_HASH_PRIME && t[f].None?;
  }

  lemma Smaller(a: set<cstring>, b: set<cstring>)
    requires a <= b
    ensures |a| <= |b|
  {
    assert b == a + (b - a);
  }

  /** The first `n` names are `n` strings. */
  lemma {:induction false} Values(t: seq<Option<cstring>>, all: set<cstring>, n: nat) returns (values: set<cstring>)
    requires Interned(t) && Among(t, all) && n <= NAME_HASH_PRIME && forall s :: 0 <= s < n ==> t[s].Some?
    ensures |values| == n && values <= all && forall x :: x in values ==> exists s :: 0 <= s < n && t[s] == Some(x)
    decreases n
  {
    hide Reached;
    if n == 0 {
      values := {};
    } else {
      var before := Values(t, all, n - 1);
      var x := t[n - 1].value;
      values := before + {x};
    }
  }

  /** Any run of searches: two names get the same index iff they are equal. */
  method SearchNames(names: array<Option<cstring>>, keys: seq<cstring>, ghost all: set<cstring>) returns (at: seq<nat>)
    requires Interned(names[..]) && Among(names[..], all) && forall i :: 0 <= i < |keys| ==> keys[i] in all
    modifies names
    ensures Interned(names[..]) && |at| == |keys|
    ensures forall i :: 0 <= i < |keys| ==> at[i] < NAME_HASH_PRIME && names[at[i]] == Some(keys[i])
    ensures forall i, j :: 0 <= i < |keys| && 0 <= j < |keys| ==> (at[i] == at[j] <==> keys[i] == keys[j])
  {
    hide Interned, HasFree;
    at := [];
    InternedSize(names[..]);
    for k := 0 to |keys|
      invariant Interned(names[..]) && |at| == k && Among(names[..], all)
      invariant forall i :: 0 <= i < k ==> at[i] < NAME_HASH_PRIME && names[at[i]] == Some(keys[i])
    {
      AmongFree(names[..], all);
      var a := SearchName(names, keys[k]);
      at := at + [a];
    }
    InternedOnce(names[..]);
  }

  lemma InternedOnce(t: seq<Option<cstring>>)
    requires Interned(t)
    ensures forall s, r :: 0 <= s < NAME_HASH_PRIME && 0 <= r < NAME_HASH_PRIME && t[s].Some? && t[r].Some? && s != r ==> t[s] != t[r]
  {
  }
}
