/** Merging the two least weights again and again costs no more than any prefix code. */
module Huffman {
  import opened Arith
  import opened BitString

  /** A symbol of a code: its weight and the length of its codeword. */
  datatype Item = Item(weight: nat, len: nat)

  // ---- Sums over multisets

  ghost function Some_<T>(ms: multiset<T>): (x: T)
    requires |ms| > 0
    ensures x in ms
  {
    var x :| x in ms; x
  }

  ghost function Sum(ms: multiset<Item>, f: Item -> nat): nat
    decreases |ms|
  {
    if |ms| == 0 then 0 else var x := Some_(ms); f(x) + Sum(ms - multiset{x}, f)
  }

  lemma {:induction false} SumTake(ms: multiset<Item>, f: Item -> nat, y: Item)
    requires y in ms
    ensures Sum(ms, f) == f(y) + Sum(ms - multiset{y}, f)
    decreases |ms|
  {
    var x := Some_(ms);
    if x == y {
    } else {
      SumTake(ms - multiset{x}, f, y);
      assert ms - multiset{x} - multiset{y} == ms - multiset{y} - multiset{x};
      SumTake(ms - multiset{y}, f, x);
    }
  }

  lemma SumPut(ms: multiset<Item>, f: Item -> nat, y: Item)
    ensures Sum(ms + multiset{y}, f) == Sum(ms, f) + f(y)
  {
    SumTake(ms + multiset{y}, f, y);
    assert ms + multiset{y} - multiset{y} == ms;
  }

  /** The weights alone. */
  ghost function Weights(ms: multiset<Item>): (r: multiset<nat>)
    ensures |r| == |ms|
    decreases |ms|
  {
    if |ms| == 0 then multiset{} else var x := Some_(ms); Weights(ms - multiset{x}) + multiset{x.weight}
  }

  lemma {:induction false} WeightsTake(ms: multiset<Item>, y: Item)
    requires y in ms
    ensures Weights(ms) == Weights(ms - multiset{y}) + multiset{y.weight}
    decreases |ms|
  {
    hide Some_, Weights;
    var x := WeightsSplit(ms);
    if x == y {
    } else {
      var rest := ms - multiset{x} - multiset{y};
      WeightsTake(ms - multiset{x}, y);
      assert rest == ms - multiset{y} - multiset{x};
      WeightsTake(ms - multiset{y}, x);
      Commute(Weights(rest), x.weight, y.weight);
    }
  }

  lemma WeightsSplit(ms: multiset<Item>) returns (x: Item)
    requires |ms| > 0
    ensures x in ms && Weights(ms) == Weights(ms - multiset{x}) + multiset{x.weight}
  {
    x := Some_(ms);
  }

  lemma Commute(ws: multiset<nat>, a: nat, b: nat)
    ensures ws + multiset{a} + multiset{b} == ws + multiset{b} + multiset{a}
  {
  }

  lemma WeightsPut(ms: multiset<Item>, y: Item)
    ensures Weights(ms + multiset{y}) == Weights(ms) + multiset{y.weight}
  {
    WeightsTake(ms + multiset{y}, y);
    assert ms + multiset{y} - multiset{y} == ms;
  }

  /** Every weight is that of an item. */
  lemma {:induction false} WeightsFrom(ms: multiset<Item>, w: nat) returns (x: Item)
    requires w in Weights(ms)
    ensures x in ms && x.weight == w
    decreases |ms|
  {
    x := Some_(ms);
    if x.weight == w {
    } else {
      x := WeightsFrom(ms - multiset{x}, w);
    }
  }

  // ---- Merging

  ghost predicate Least(a: nat, ws: multiset<nat>) {
    a in ws && forall b :: b in ws ==> a <= b
  }

  lemma {:induction false} LeastExists(ws: multiset<nat>) returns (a: nat)
    requires |ws| > 0
    ensures Least(a, ws)
    decreases |ws|
  {
    a := Some_(ws);
    var first, rest := a, ws - multiset{a};
    if |rest| == 0 {
    } else {
      var b := LeastExists(rest);
      if b < a {
        a := b;
      }
    }
    forall c | c in ws ensures a <= c {
      assert c == first || c in rest;
    }
  }

  lemma HasLeast(ws: multiset<nat>)
    requires |ws| > 0
    ensures exists a :: Least(a, ws)
  {
    var a := LeastExists(ws);
  }

  ghost function Minimum(ws: multiset<nat>): (a: nat)
    requires |ws| > 0
    ensures Least(a, ws)
  {
    HasLeast(ws);
    var a :| Least(a, ws); a
  }

  /** What merging the two least weights until one is left costs in all. */
  ghost function Merged(ws: multiset<nat>): nat
    decreases |ws|
  {
    if |ws| <= 1 then 0
    else
      var a := Minimum(ws);
      var b := Minimum(ws - multiset{a});
      a + b + Merged(ws - multiset{a} - multiset{b} + multiset{a + b})
  }

  lemma MergedStep(ws: multiset<nat>, a: nat, b: nat)
    requires Least(a, ws) && Least(b, ws - multiset{a})
    ensures |ws| >= 2 && Merged(ws) == a + b + Merged(ws - multiset{a} - multiset{b} + multiset{a + b})
  {
    hide Least, Merged, Minimum;
    var rest := ws - multiset{a};
    InNonEmpty(a, ws);
    InNonEmpty(b, rest);
    OneLeast(a, Minimum(ws), ws);
    OneLeast(b, Minimum(rest), rest);
    MergedUnfold(ws);
  }

  lemma MergedUnfold(ws: multiset<nat>)
    requires |ws| >= 2
    ensures var a := Minimum(ws);
            |ws - multiset{a}| > 0 && (var b := Minimum(ws - multiset{a});
                                       Merged(ws) == a + b + Merged(ws - multiset{a} - multiset{b} + multiset{a + b}))
  {
    hide Minimum, Least;
  }

  lemma InNonEmpty(a: nat, ws: multiset<nat>)
    requires Least(a, ws)
    ensures a in ws && |ws| > 0 && |ws - multiset{a}| == |ws| - 1
  {
  }

  lemma OneLeast(a: nat, b: nat, ws: multiset<nat>)
    requires Least(a, ws) && Least(b, ws)
    ensures a == b
  {
  }

  // ---- Any prefix code costs at least that

  ghost function Price(x: Item): nat { x.weight * x.len }

  ghost function Space(x: Item, l: nat): nat { if x.len <= l then Pow2(l - x.len) else 0 }

  ghost function Cost(ms: multiset<Item>): nat { Sum(ms, Price) }

  /** The Kraft sum in units of 2^-l. */
  ghost function Kraft(ms: multiset<Item>, l: nat): nat { Sum(ms, (x: Item) => Space(x, l)) }

  /** The lengths of a prefix code, none above `l`. */
  ghost predicate Code(ms: multiset<Item>, l: nat) {
    (forall x :: x in ms ==> x.len <= l) && Kraft(ms, l) <= Pow2(l)
  }

  /** One item replaced by another one. */
  ghost function Replace(ms: multiset<Item>, x: Item, y: Item): multiset<Item> {
    ms - multiset{x} + multiset{y}
  }

  lemma ReplaceSums(ms: multiset<Item>, x: Item, y: Item, l: nat)
    requires x in ms
    ensures |Replace(ms, x, y)| == |ms|
    ensures Cost(Replace(ms, x, y)) + Price(x) == Cost(ms) + Price(y)
    ensures Kraft(Replace(ms, x, y), l) + Space(x, l) == Kraft(ms, l) + Space(y, l)
    ensures Weights(Replace(ms, x, y)) + multiset{x.weight} == Weights(ms) + multiset{y.weight}
  {
    hide Sum, Weights, Price, Space;
    var rest := ms - multiset{x};
    SumTake(ms, Price, x);
    SumPut(rest, Price, y);
    SumTake(ms, (z: Item) => Space(z, l), x);
    SumPut(rest, (z: Item) => Space(z, l), y);
    WeightsTake(ms, x);
    WeightsPut(rest, y);
  }

  ghost predicate AtMost(ms: multiset<Item>, l: nat) { forall x :: x in ms ==> x.len <= l }

  lemma {:induction false} KraftHalves(ms: multiset<Item>, l: nat)
    requires l >= 1 && AtMost(ms, l - 1)
    ensures Kraft(ms, l) == 2 * Kraft(ms, l - 1)
    decreases |ms|
  {
    if |ms| == 0 {
    } else {
      var x := Some_(ms);
      KraftHalves(ms - multiset{x}, l);
      SumTake(ms, (z: Item) => Space(z, l), x);
      SumTake(ms, (z: Item) => Space(z, l - 1), x);
      assert Space(x, l) == 2 * Space(x, l - 1);
    }
  }

  /** Codewords of no bits leave no room for a second one. */
  lemma RoomNeeded(ms: multiset<Item>, l: nat)
    requires Code(ms, l) && |ms| >= 2
    ensures l >= 1
  {
    if l == 0 {
      var x := Some_(ms);
      var y := Some_(ms - multiset{x});
      SumTake(ms, (z: Item) => Space(z, 0), x);
      SumTake(ms - multiset{x}, (z: Item) => Space(z, 0), y);
      assert false;
    }
  }

  lemma NoneLongest(ms: multiset<Item>, l: nat)
    requires Code(ms, l) && l >= 1 && AtMost(ms, l - 1)
    ensures Code(ms, l - 1)
  {
    KraftHalves(ms, l);
  }

  /** A single longest codeword can be shortened. */
  lemma OneLongest(ms: multiset<Item>, l: nat, x: Item)
    requires Code(ms, l) && x in ms && x.len == l >= 1 && AtMost(ms - multiset{x}, l - 1)
    ensures var ms' := Replace(ms, x, Item(x.weight, l - 1));
            Code(ms', l - 1) && |ms'| == |ms| && Cost(ms') <= Cost(ms) && Weights(ms') == Weights(ms)
  {
    hide Kraft, Cost, Weights;
    var y, rest := Item(x.weight, l - 1), ms - multiset{x};
    var ms' := Replace(ms, x, y);
    ReplaceSums(ms, x, y, l);
    ReplaceSums(ms, x, y, l - 1);
    KraftHalves(rest, l);
    Removed(ms, x, l);
    Removed(ms', y, l - 1);
    assert ms' - multiset{y} == rest;
    SameWeights(Weights(ms'), Weights(ms), x.weight);
    Shorter(x.weight, l);
    forall z | z in ms' ensures z.len <= l - 1 {
      assert z == y || z in rest;
    }
  }

  lemma Shorter(w: nat, l: nat)
    requires l >= 1
    ensures Price(Item(w, l - 1)) <= Price(Item(w, l)) && Space(Item(w, l), l) == 1 && Space(Item(w, l - 1), l - 1) == 1
    ensures Pow2(l) == 2 * Pow2(l - 1)
  {
    MulLe(l - 1, l, w);
  }

  lemma Removed(ms: multiset<Item>, x: Item, l: nat)
    requires x in ms
    ensures Kraft(ms, l) == Space(x, l) + Kraft(ms - multiset{x}, l)
  {
    SumTake(ms, (z: Item) => Space(z, l), x);
  }

  lemma SameWeights(a: multiset<nat>, b: multiset<nat>, w: nat)
    requires a + multiset{w} == b + multiset{w}
    ensures a == b
  {
    assert a == a + multiset{w} - multiset{w} == b + multiset{w} - multiset{w} == b;
  }

  // ---- Exchanging

  /** A light item and a long one exchange their lengths. */
  ghost function Exchanged(ms: multiset<Item>, x: Item, z: Item): multiset<Item> {
    Replace(Replace(ms, x, Item(x.weight, z.len)), z, Item(z.weight, x.len))
  }

  lemma ExchangePays(x: Item, z: Item)
    requires x.weight <= z.weight && x.len <= z.len
    ensures Price(Item(x.weight, z.len)) + Price(Item(z.weight, x.len)) <= Price(x) + Price(z)
  {
    var w, l := z.weight - x.weight, z.len - x.len;
    assert z.weight * z.len - z.weight * x.len == z.weight * l;
    assert x.weight * z.len - x.weight * x.len == x.weight * l;
    assert z.weight * l - x.weight * l == w * l;
  }

  lemma ExchangeSums(ms: multiset<Item>, x: Item, z: Item, l: nat)
    requires x in ms && z in ms && x != z && x.len <= z.len && x.weight <= z.weight
    ensures var ms' := Exchanged(ms, x, z);
            |ms'| == |ms| && Cost(ms') <= Cost(ms) && Kraft(ms', l) == Kraft(ms, l) && Weights(ms') == Weights(ms)
  {
    hide Kraft, Cost, Weights, Price, Space;
    var y, u := Item(x.weight, z.len), Item(z.weight, x.len);
    var mid := Replace(ms, x, y);
    assert z in mid;
    ReplaceSums(ms, x, y, l);
    ReplaceSums(mid, z, u, l);
    ExchangePays(x, z);
    SpaceOfLength(x, u, l);
    SpaceOfLength(y, z, l);
    SameWeights(Weights(mid), Weights(ms), x.weight);
    SameWeights(Weights(Replace(mid, z, u)), Weights(mid), z.weight);
  }

  lemma ExchangeAtMost(ms: multiset<Item>, x: Item, z: Item, l: nat)
    requires AtMost(ms, l) && x in ms && z in ms
    ensures AtMost(Exchanged(ms, x, z), l)
  {
    var y, u := Item(x.weight, z.len), Item(z.weight, x.len);
    forall w | w in Exchanged(ms, x, z) ensures w.len <= l {
      assert w == y || w == u || w in ms;
    }
  }

  lemma SpaceOfLength(x: Item, y: Item, l: nat)
    requires x.len == y.len
    ensures Space(x, l) == Space(y, l)
  {
  }

  lemma ExchangedIs(ms: multiset<Item>, x: Item, z: Item)
    requires x in ms && z in ms && x != z
    ensures var y := Item(x.weight, z.len);
            y in Exchanged(ms, x, z)
            && Exchanged(ms, x, z) - multiset{y} == ms - multiset{x} - multiset{z} + multiset{Item(z.weight, x.len)}
  {
    var y, u := Item(x.weight, z.len), Item(z.weight, x.len);
    assert Exchanged(ms, x, z) == ms - multiset{x} - multiset{z} + multiset{u} + multiset{y};
  }

  // ---- Merging two longest codewords

  /** Two items replaced by one. */
  lemma SumMerge(ms: multiset<Item>, f: Item -> nat, x: Item, y: Item, z: Item)
    requires multiset{x} + multiset{y} <= ms
    ensures var ms' := ms - multiset{x} - multiset{y} + multiset{z};
            |ms'| == |ms| - 1 && Sum(ms', f) + f(x) + f(y) == Sum(ms, f) + f(z)
  {
    hide Sum;
    var m1 := ms - multiset{x};
    assert y in m1;
    SumTake(ms, f, x);
    SumTake(m1, f, y);
    SumPut(m1 - multiset{y}, f, z);
  }

  lemma WeightsMerge(ms: multiset<Item>, x: Item, y: Item, z: Item)
    requires multiset{x} + multiset{y} <= ms
    ensures var ms' := ms - multiset{x} - multiset{y} + multiset{z};
            Weights(ms') + multiset{x.weight} + multiset{y.weight} == Weights(ms) + multiset{z.weight}
  {
    hide Weights;
    var m1 := ms - multiset{x};
    assert y in m1;
    WeightsTake(ms, x);
    WeightsTake(m1, y);
    WeightsPut(m1 - multiset{y}, z);
    var w := Weights(m1 - multiset{y});
    assert w + multiset{z.weight} + multiset{x.weight} + multiset{y.weight}
        == w + multiset{y.weight} + multiset{x.weight} + multiset{z.weight};
  }

  lemma MergeItems(ms: multiset<Item>, a: nat, b: nat, l: nat)
    requires Code(ms, l) && l >= 1 && multiset{Item(a, l)} + multiset{Item(b, l)} <= ms
    ensures var ms' := ms - multiset{Item(a, l)} - multiset{Item(b, l)} + multiset{Item(a + b, l - 1)};
            && Code(ms', l) && |ms'| == |ms| - 1 && Cost(ms') + a + b == Cost(ms)
            && Weights(ms') + multiset{a} + multiset{b} == Weights(ms) + multiset{a + b}
  {
    hide Sum, Weights, Price, Space;
    var x, y, z := Item(a, l), Item(b, l), Item(a + b, l - 1);
    SumMerge(ms, Price, x, y, z);
    WeightsMerge(ms, x, y, z);
    MergedPrice(a, b, l);
    MergeCode(ms, a, b, l);
  }

  lemma MergeCode(ms: multiset<Item>, a: nat, b: nat, l: nat)
    requires Code(ms, l) && l >= 1 && multiset{Item(a, l)} + multiset{Item(b, l)} <= ms
    ensures Code(ms - multiset{Item(a, l)} - multiset{Item(b, l)} + multiset{Item(a + b, l - 1)}, l)
  {
    hide Sum, Price, Space;
    SumMerge(ms, (w: Item) => Space(w, l), Item(a, l), Item(b, l), Item(a + b, l - 1));
    MergedPrice(a, b, l);
  }

  lemma MergedPrice(a: nat, b: nat, l: nat)
    requires l >= 1
    ensures Price(Item(a + b, l - 1)) + a + b == Price(Item(a, l)) + Price(Item(b, l))
    ensures Space(Item(a + b, l - 1), l) == Space(Item(a, l), l) + Space(Item(b, l), l)
  {
    assert (a + b) * (l - 1) == a * l + b * l - a - b;
    assert Pow2(1) == 2 * Pow2(0);
  }

  /** `ms'` is no worse a code for the same weights. */
  ghost predicate NoWorse(ms': multiset<Item>, ms: multiset<Item>, l: nat) {
    && |ms'| == |ms| && AtMost(ms', l) && Cost(ms') <= Cost(ms) && Kraft(ms', l) == Kraft(ms, l) && Weights(ms') == Weights(ms)
  }

  ghost predicate HasLength(ms: multiset<Item>, l: nat) { exists x :: x in ms && x.len == l }

  lemma SwapKeeps(ms: multiset<Item>, x: Item, z: Item, l: nat)
    requires AtMost(ms, l) && x in ms && z in ms && z.len == l && x.len < l && x.weight <= z.weight
    ensures NoWorse(Exchanged(ms, x, z), ms, l)
  {
    hide Kraft, Cost, Weights, Exchanged;
    ExchangeSums(ms, x, z, l);
    ExchangeAtMost(ms, x, z, l);
  }

  /** A least weight gets one of the longest codewords; if there was another one it is still there. */
  lemma BringLeast(ms: multiset<Item>, l: nat, z: Item) returns (ms': multiset<Item>, a: nat)
    requires AtMost(ms, l) && z in ms && z.len == l
    ensures Least(a, Weights(ms)) && Item(a, l) in ms' && NoWorse(ms', ms, l)
    ensures HasLength(ms - multiset{z}, l) ==> HasLength(ms' - multiset{Item(a, l)}, l)
  {
    hide Kraft, Cost, Weights, Exchanged, NoWorse;
    WeightsTake(ms, z);
    a := LeastExists(Weights(ms));
    assert z.weight in Weights(ms);
    var p := WeightsFrom(ms, a);
    if p.len == l {
      ms' := ms;
      Same(ms, l);
      if HasLength(ms - multiset{z}, l) {
        StillLong(ms, z, p, l);
      }
    } else {
      ms' := Exchanged(ms, p, z);
      SwapKeeps(ms, p, z, l);
      ExchangedIs(ms, p, z);
      if HasLength(ms - multiset{z}, l) {
        var y :| y in ms - multiset{z} && y.len == l;
        assert y in ms - multiset{p} - multiset{z};
        assert y in ms' - multiset{Item(a, l)};
      }
    }
  }

  lemma Same(ms: multiset<Item>, l: nat)
    requires AtMost(ms, l)
    ensures NoWorse(ms, ms, l)
  {
  }

  lemma StillLong(ms: multiset<Item>, z: Item, p: Item, l: nat)
    requires z in ms && p in ms && z.len == l && HasLength(ms - multiset{z}, l)
    ensures HasLength(ms - multiset{p}, l)
  {
    var y :| y in ms - multiset{z} && y.len == l;
    if p != z {
      assert z in ms - multiset{p};
    }
  }

  /** The same with one item held back. */
  lemma HeldBack(rest: multiset<Item>, rest': multiset<Item>, x: Item, l: nat)
    requires NoWorse(rest', rest, l) && x.len <= l
    ensures NoWorse(rest' + multiset{x}, rest + multiset{x}, l)
  {
    hide Sum, Weights, Price, Space;
    SumPut(rest, Price, x);
    SumPut(rest', Price, x);
    SumPut(rest, (w: Item) => Space(w, l), x);
    SumPut(rest', (w: Item) => Space(w, l), x);
    WeightsPut(rest, x);
    WeightsPut(rest', x);
  }

  lemma NoWorseTwice(a: multiset<Item>, b: multiset<Item>, c: multiset<Item>, l: nat)
    requires NoWorse(b, a, l) && NoWorse(c, b, l)
    ensures NoWorse(c, a, l)
  {
    hide Cost, Kraft, Weights;
  }

  /** Two longest codewords: the two least weights can have them, and can then be merged. */
  lemma TwoLongest(ms: multiset<Item>, l: nat, z: Item) returns (ms': multiset<Item>, a: nat, b: nat)
    requires Code(ms, l) && l >= 1 && z in ms && z.len == l && HasLength(ms - multiset{z}, l)
    ensures Least(a, Weights(ms)) && Least(b, Weights(ms) - multiset{a})
    ensures Code(ms', l) && |ms'| == |ms| - 1 && Cost(ms') + a + b <= Cost(ms)
    ensures Weights(ms') == Weights(ms) - multiset{a} - multiset{b} + multiset{a + b}
  {
    hide Cost, Kraft, Weights, NoWorse, HasLength, Least;
    var m1, m2, rest;
    m1, a := BringLeast(ms, l, z);
    var x := Item(a, l);
    LengthIn(m1 - multiset{x}, l);
    NoWorseSays(m1, ms, l);
    var y :| y in m1 - multiset{x} && y.len == l;
    rest, b := BringLeast(m1 - multiset{x}, l, y);
    HeldBack(m1 - multiset{x}, rest, x, l);
    m2 := rest + multiset{x};
    assert m1 - multiset{x} + multiset{x} == m1;
    NoWorseTwice(ms, m1, m2, l);
    NoWorseSays(m2, ms, l);
    WeightsTake(m1, x);
    assert Weights(m1 - multiset{x}) == Weights(ms) - multiset{a};
    var u := Item(b, l);
    assert multiset{x} + multiset{u} <= m2;
    MergeItems(m2, a, b, l);
    ms' := m2 - multiset{x} - multiset{u} + multiset{Item(a + b, l - 1)};
    LeastIn(a, Weights(ms));
    LeastIn(b, Weights(ms) - multiset{a});
    WeightsLeft(Weights(ms'), Weights(ms), a, b);
  }

  lemma LengthIn(ms: multiset<Item>, l: nat)
    requires HasLength(ms, l)
    ensures exists y :: y in ms && y.len == l
  {
  }

  lemma LeastIn(a: nat, ws: multiset<nat>)
    requires Least(a, ws)
    ensures a in ws
  {
  }

  lemma WeightsLeft(v: multiset<nat>, w: multiset<nat>, a: nat, b: nat)
    requires v + multiset{a} + multiset{b} == w + multiset{a + b} && a in w && b in w - multiset{a}
    ensures v == w - multiset{a} - multiset{b} + multiset{a + b}
  {
    assert v == v + multiset{a} + multiset{b} - multiset{a} - multiset{b};
    assert w + multiset{a + b} - multiset{a} - multiset{b} == w - multiset{a} - multiset{b} + multiset{a + b};
  }

  lemma NoWorseSays(ms': multiset<Item>, ms: multiset<Item>, l: nat)
    requires NoWorse(ms', ms, l)
    ensures |ms'| == |ms| && AtMost(ms', l) && Cost(ms') <= Cost(ms) && Weights(ms') == Weights(ms)
    ensures Code(ms, l) ==> Code(ms', l)
  {
    hide Cost, Kraft, Weights;
  }

  /** No prefix code for these weights costs less than merging them. */
  lemma {:induction false} LowerBound(ms: multiset<Item>, l: nat)
    requires Code(ms, l)
    ensures Merged(Weights(ms)) <= Cost(ms)
    decreases |ms|, l
  {
    hide Cost, Kraft, Weights, Merged, Code;
    if |ms| <= 1 {
      MergedNone(Weights(ms));
      return;
    }
    RoomNeeded(ms, l);
    CodeAtMost(ms, l);
    if !HasLength(ms, l) {
      NoneLongest(ms, l);
      LowerBound(ms, l - 1);
    } else {
      var x :| x in ms && x.len == l;
      if !HasLength(ms - multiset{x}, l) {
        OneLongest(ms, l, x);
        LowerBound(Replace(ms, x, Item(x.weight, l - 1)), l - 1);
      } else {
        var ms', a, b := TwoLongest(ms, l, x);
        LowerBound(ms', l);
        MergedStep(Weights(ms), a, b);
      }
    }
  }

  lemma CodeAtMost(ms: multiset<Item>, l: nat)
    requires Code(ms, l)
    ensures AtMost(ms, l)
  {
  }

  lemma MergedNone(ws: multiset<nat>)
    requires |ws| <= 1
    ensures Merged(ws) == 0
  {
  }
}
