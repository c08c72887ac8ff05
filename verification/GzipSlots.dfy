/** The first pass of gen_bitlen, which clamps code lengths that are too large, seen as filling
    the places below inner nodes: it exceeds the Kraft equality by half the number of clamped
    nodes. */
module GzipSlots {
  import opened BitString
  import opened Canonical
  import opened KraftSums
  import opened GzipForest

  /** How many sons of the `i`-th inner node from the top come at position `p` or later. */
  function Left(i: nat, p: nat): nat {
    if p <= 2 * i + 1 then 2 else if p == 2 * i + 2 then 1 else 0
  }

  /** The weight of the free places below a node of length `len`, if it is below the limit. */
  function Free(len: nat, left: nat, max: nat): nat {
    if len >= max then 0
    else if left == 2 then 2 * Pow2(max - len) else if left == 1 then Pow2(max - len) else 0
  }

  /** The number of free places below a node at the limit. */
  function Over(len: nat, left: nat, max: nat): nat {
    if len < max then 0 else left
  }

  /** `free` and `over` hold the places left when the nodes before position `p` have lengths. */
  ghost predicate Places(list: seq<nat>, lens: seq<nat>, elems: nat, p: nat, max: nat, free: seq<nat>, over: seq<nat>) {
    && |list| == 2 * |free| + 1 && |over| == |free| && list[0] == elems + |free| - 1
    && forall q :: 0 <= q < |list| && list[q] >= elems ==> PlaceAt(list, lens, elems, p, max, free, over, q)
  }

  ghost predicate PlaceAt(list: seq<nat>, lens: seq<nat>, elems: nat, p: nat, max: nat, free: seq<nat>, over: seq<nat>,
                          q: nat)
    requires |list| == 2 * |free| + 1 && |over| == |free| && q < |list| && list[q] >= elems
  {
    var i := elems + |free| - 1 - list[q];
    && 0 <= i < |free| && q <= 2 * i && list[q] < |lens|
    && if q < p then lens[list[q]] <= max && free[i] == Free(lens[list[q]], Left(i, p), max)
                     && over[i] == Over(lens[list[q]], Left(i, p), max)
       else free[i] == 0 && over[i] == 0
  }

  /** The two balances. `at` counts the nodes that reach the limit without being clamped. */
  ghost predicate Balanced(lens: seq<nat>, max: nat, free: seq<nat>, over: seq<nat>, at: nat, overflow: nat) {
    && max >= 1
    && 4 * Kraft(lens, max - 1) + SeqSum(free) + 2 * at == Pow2(max + 1)
    && 2 * Count(lens, max) + SeqSum(over) == overflow + 2 * at
  }

  // ---- A node takes one place of its father

  /** The places after a node below the `i`-th inner node, of length `len`, got its length. */
  function Taken(s: seq<nat>, i: nat, w: nat): (r: seq<nat>)
    requires i < |s| && w <= s[i]
    ensures |r| == |s|
  {
    s[i := s[i] - w]
  }

  lemma TakenSum(s: seq<nat>, i: nat, w: nat)
    requires i < |s| && w <= s[i]
    ensures SeqSum(Taken(s, i, w)) + w == SeqSum(s)
  {
    hide SeqSum;
    SeqSumUpdate(s, i, s[i] - w);
  }

  function NextLength(len: nat, max: nat): nat { if len < max then len + 1 else max }

  function NextFree(free: seq<nat>, i: nat, len: nat, max: nat): (r: seq<nat>)
    requires i < |free| && (len < max ==> Pow2(max - len) <= free[i])
    ensures |r| == |free|
  {
    if len < max then Taken(free, i, Pow2(max - len)) else free
  }

  function NextOver(over: seq<nat>, i: nat, len: nat, max: nat): (r: seq<nat>)
    requires i < |over| && (len >= max ==> 1 <= over[i])
    ensures |r| == |over|
  {
    if len < max then over else Taken(over, i, 1)
  }

  function NextAt(at: nat, len: nat, max: nat): nat { if len + 1 == max then at + 1 else at }

  function NextOverflow(overflow: nat, len: nat, max: nat): nat { if len < max then overflow else overflow + 1 }

  ghost predicate HasPlace(free: seq<nat>, over: seq<nat>, i: nat, len: nat, max: nat) {
    && i < |free| == |over| && len <= max
    && (len < max ==> Pow2(max - len) <= free[i]) && (len == max ==> 1 <= over[i])
  }

  /** The balances after a symbol got its length. */
  lemma LeafBalance(lens: seq<nat>, x: nat, max: nat, free: seq<nat>, over: seq<nat>, at: nat, overflow: nat, i: nat, len: nat)
    requires Balanced(lens, max, free, over, at, overflow) && x < |lens| && lens[x] == 0
    requires HasPlace(free, over, i, len, max)
    ensures Balanced(lens[x := NextLength(len, max)], max, NextFree(free, i, len, max), NextOver(over, i, len, max),
                     NextAt(at, len, max), NextOverflow(overflow, len, max))
  {
    hide Kraft, Count, SeqSum;
    var v := NextLength(len, max);
    KraftUpdate(lens, x, v, max - 1);
    CountUpdate(lens, x, v, max);
    if len < max {
      TakenSum(free, i, Pow2(max - len));
    } else {
      TakenSum(over, i, 1);
    }
    if len + 1 < max {
      assert Pow2(max - len) == 2 * Pow2(max - 1 - len) == 4 * Pow2(max - 1 - (len + 1));
    } else if len + 1 == max {
      assert Pow2(1) == 2;
    }
  }

  /** The balances after an inner node, the `j`-th, got its length. */
  lemma InnerBalance(lens: seq<nat>, max: nat, free: seq<nat>, over: seq<nat>, at: nat, overflow: nat, i: nat, j: nat, len: nat)
    requires Balanced(lens, max, free, over, at, overflow)
    requires HasPlace(free, over, i, len, max) && j < |free| && i != j && free[j] == 0 && over[j] == 0
    ensures var v := NextLength(len, max);
            Balanced(lens, max, NextFree(free, i, len, max)[j := Free(v, 2, max)],
                     NextOver(over, i, len, max)[j := Over(v, 2, max)], NextAt(at, len, max),
                     NextOverflow(overflow, len, max))
  {
    hide Kraft, Count, SeqSum;
    var v := NextLength(len, max);
    SeqSumUpdate(NextFree(free, i, len, max), j, Free(v, 2, max));
    SeqSumUpdate(NextOver(over, i, len, max), j, Over(v, 2, max));
    if len < max {
      TakenSum(free, i, Pow2(max - len));
      if len + 1 == max {
        assert Pow2(1) == 2;
      }
    } else {
      TakenSum(over, i, 1);
    }
  }

  // ---- The places along the list

  /** The facts about the finished list that the pass relies on. */
  ghost predicate Proper(list: seq<nat>, elems: nat, leaves: nat) {
    && leaves >= 2 && |list| == 2 * leaves - 1 && list[0] == elems + leaves - 2
    && (forall p, q :: 0 <= p < q < |list| ==> list[p] != list[q])
    && (forall p :: 1 <= p < |list| ==> list[p] < elems + leaves - 2 - (p - 1) / 2)
    && (forall x :: elems <= x < elems + leaves - 1 ==> x in list)
  }

  lemma FinishedProper(list: seq<nat>, fc: seq<nat>, dl: seq<nat>, freq: seq<nat>, elems: nat, leaves: nat)
    requires Finished(list, fc, dl, freq, elems, leaves)
    ensures Proper(list, elems, leaves)
    ensures forall x :: 0 <= x < elems ==> (x in list <==> freq[x] != 0)
    ensures forall p :: 1 <= p < |list| ==> dl[list[p]] == elems + leaves - 2 - (p - 1) / 2
  {
    forall x | 0 <= x < elems + leaves - 1 ensures x in list <==> Mult(freq, elems, elems + leaves - 1, x) == 1 {
      assert multiset(list)[x] == Mult(freq, elems, elems + leaves - 1, x);
      assert x in list <==> x in multiset(list);
    }
    forall p, q | 0 <= p < q < |list| ensures list[p] != list[q] {
      assert multiset(list)[list[p]] == Mult(freq, elems, elems + leaves - 1, list[p]) <= 1;
      if list[p] == list[q] {
        TwiceInMultiset(list, p, q);
        assert false;
      }
    }
    forall p | 1 <= p < |list|
      ensures list[p] < elems + leaves - 2 - (p - 1) / 2 && dl[list[p]] == elems + leaves - 2 - (p - 1) / 2
    {
      assert list[1..][p - 1] == list[p];
    }
  }

  lemma TwiceInMultiset(s: seq<nat>, p: nat, q: nat)
    requires p < q < |s| && s[p] == s[q]
    ensures multiset(s)[s[p]] >= 2
  {
    assert s == s[..p] + [s[p]] + s[p + 1..q] + [s[q]] + s[q + 1..];
  }

  /** An inner node stands before its sons. */
  lemma FatherEarlier(list: seq<nat>, elems: nat, leaves: nat, i: nat) returns (q: nat)
    requires Proper(list, elems, leaves) && i < leaves - 1
    ensures q < |list| && list[q] == elems + leaves - 2 - i && q <= 2 * i
  {
    assert elems + leaves - 2 - i in list;
    q :| 0 <= q < |list| && list[q] == elems + leaves - 2 - i;
    if q > 0 {
      assert list[q] < elems + leaves - 2 - (q - 1) / 2;
    }
  }

  /** At the start only the root has a length, zero. */
  lemma PlacesStart(list: seq<nat>, lens: seq<nat>, elems: nat, leaves: nat, max: nat, zeros: seq<nat>)
    requires Proper(list, elems, leaves) && max >= 1 && elems + leaves - 1 <= |lens| && lens[list[0]] == 0
    requires |zeros| == leaves - 1 && forall i :: 0 <= i < |zeros| ==> zeros[i] == 0
    ensures Places(list, lens, elems, 1, max, zeros[0 := 2 * Pow2(max)], zeros)
  {
    var free := zeros[0 := 2 * Pow2(max)];
    forall q | 0 <= q < |list| && list[q] >= elems ensures PlaceAt(list, lens, elems, 1, max, free, zeros, q) {
      if q > 0 {
        assert list[q] < elems + leaves - 2 - (q - 1) / 2;
      }
    }
  }

  /** What the node at position `p` finds below its father. */
  lemma PlaceFound(list: seq<nat>, lens: seq<nat>, elems: nat, leaves: nat, p: nat, max: nat, free: seq<nat>, over: seq<nat>)
    requires Proper(list, elems, leaves) && 1 <= p < |list| && Places(list, lens, elems, p, max, free, over)
    ensures var i := (p - 1) / 2;
            var f := elems + leaves - 2 - i;
            i < |free| && 0 <= f < |lens| && f != list[p] && HasPlace(free, over, i, lens[f], max)
    ensures list[p] >= elems ==>
              var j := elems + leaves - 2 - list[p];
              0 <= j < |free| && j != (p - 1) / 2 && free[j] == 0 && over[j] == 0
  {
    var i := (p - 1) / 2;
    var q := FatherEarlier(list, elems, leaves, i);
    assert PlaceAt(list, lens, elems, p, max, free, over, q);
    if list[p] >= elems {
      assert PlaceAt(list, lens, elems, p, max, free, over, p);
    }
  }

  lemma LeftStep(i: nat, p: nat)
    requires p >= 1
    ensures if i == (p - 1) / 2 then Left(i, p) == Left(i, p + 1) + 1 else Left(i, p) == Left(i, p + 1)
    ensures p <= 2 * i ==> Left(i, p + 1) == 2
  {
  }

  /** The places after the node at position `p` got its length. */
  lemma PlacesStep(list: seq<nat>, lens: seq<nat>, elems: nat, leaves: nat, p: nat, max: nat, free: seq<nat>, over: seq<nat>)
    requires Proper(list, elems, leaves) && 1 <= p < |list| && Places(list, lens, elems, p, max, free, over)
    requires list[p] < |lens|
    ensures var i := (p - 1) / 2;
            var f := elems + leaves - 2 - i;
            && i < |free| && 0 <= f < |lens| && HasPlace(free, over, i, lens[f], max)
            && (var v := NextLength(lens[f], max);
                var free', over' := NextFree(free, i, lens[f], max), NextOver(over, i, lens[f], max);
                if list[p] < elems then Places(list, lens[list[p] := v], elems, p + 1, max, free', over')
                else
                  var j := elems + leaves - 2 - list[p];
                  && 0 <= j < |free|
                  && Places(list, lens[list[p] := v], elems, p + 1, max, free'[j := Free(v, 2, max)], over'[j := Over(v, 2, max)]))
  {
    PlaceFound(list, lens, elems, leaves, p, max, free, over);
    var i, x := (p - 1) / 2, list[p];
    var f := elems + leaves - 2 - i;
    var v := NextLength(lens[f], max);
    var free', over' := NextFree(free, i, lens[f], max), NextOver(over, i, lens[f], max);
    if x >= elems {
      var j := elems + leaves - 2 - x;
      free', over' := free'[j := Free(v, 2, max)], over'[j := Over(v, 2, max)];
    }
    var lens' := lens[x := v];
    forall q | 0 <= q < |list| && list[q] >= elems ensures PlaceAt(list, lens', elems, p + 1, max, free', over', q) {
      assert PlaceAt(list, lens, elems, p, max, free, over, q);
      LeftStep(elems + leaves - 2 - list[q], p);
      if q != p {
        assert list[q] != x;
      }
    }
  }
}
