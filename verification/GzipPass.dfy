/** gen_bitlen, first pass: lengths from the node list, counted and clamped. */
module GzipPass {
  import opened BitString
  import opened Canonical
  import opened KraftSums
  import opened GzipForest
  import opened GzipSlots

  /** Symbol lengths `lens` and node lengths `dl` when the first `p` nodes of the list are done;
      the other nodes of the list still hold their father, as in `dads`. */
  ghost predicate Passing(list: seq<nat>, dads: seq<nat>, dl: seq<nat>, lens: seq<nat>, elems: nat, leaves: nat, p: nat,
                          max: nat, at: nat) {
    && Proper(list, elems, leaves) && 1 <= p <= |list| && |lens| == elems && |dl| == |dads| && elems + leaves - 1 <= |dl|
    && InRange(list, |dl|)
    && (forall q :: p <= q < |list| ==> dl[list[q]] == dads[list[q]] && (list[q] < elems ==> lens[list[q]] == 0))
    && (forall q :: 1 <= q < p ==> 1 <= dl[list[q]] <= max && (dl[list[q]] == max ==> at >= 1)
                                   && (list[q] < elems ==> lens[list[q]] == dl[list[q]]))
    && dl[list[0]] == 0
    && (forall x :: 0 <= x < elems && x !in list ==> lens[x] == 0 && dl[x] == dads[x])
  }

  lemma PassingStep(list: seq<nat>, dads: seq<nat>, dl: seq<nat>, lens: seq<nat>, elems: nat, leaves: nat, p: nat, max: nat,
                    at: nat, v: nat, at': nat)
    requires Passing(list, dads, dl, lens, elems, leaves, p, max, at) && p < |list| && 1 <= v <= max && at <= at'
    requires v == max ==> at' >= 1
    ensures var x := list[p];
            Passing(list, dads, dl[x := v], if x < elems then lens[x := v] else lens, elems, leaves, p + 1, max, at')
  {
    var x := list[p];
    var dl' := dl[x := v];
    var lens' := if x < elems then lens[x := v] else lens;
    forall q | 0 <= q < |list| && q != p ensures list[q] != x {
    }
    assert x in list;
  }

  /** The father of the node at `p` already has its length. */
  lemma FatherDone(list: seq<nat>, dads: seq<nat>, dl: seq<nat>, lens: seq<nat>, elems: nat, leaves: nat, p: nat, max: nat,
                   at: nat)
    requires Passing(list, dads, dl, lens, elems, leaves, p, max, at) && p < |list| && max >= 1
    ensures var f := elems + leaves - 2 - (p - 1) / 2; dl[f] <= max && (dl[f] == max ==> at >= 1)
  {
    var q := FatherEarlier(list, elems, leaves, (p - 1) / 2);
  }

  /** All of the pass's state. */
  ghost predicate Pass(list: seq<nat>, dads: seq<nat>, dl: seq<nat>, lens: seq<nat>, elems: nat, leaves: nat, p: nat, max: nat,
                       free: seq<nat>, over: seq<nat>, at: nat, overflow: nat) {
    && Passing(list, dads, dl, lens, elems, leaves, p, max, at)
    && Places(list, dl, elems, p, max, free, over) && Balanced(lens, max, free, over, at, overflow)
    && (overflow > 0 ==> at >= 1)
  }

  lemma PassStep(list: seq<nat>, dads: seq<nat>, dl: seq<nat>, lens: seq<nat>, elems: nat, leaves: nat, p: nat, max: nat,
                 free: seq<nat>, over: seq<nat>, at: nat, overflow: nat)
    returns (free': seq<nat>, over': seq<nat>)
    requires Pass(list, dads, dl, lens, elems, leaves, p, max, free, over, at, overflow) && p < |list|
    ensures var x, f := list[p], elems + leaves - 2 - (p - 1) / 2;
            && x < |dl| && 0 <= f < |dl| && dl[x] == dads[x] && |lens| == elems && (x < elems ==> lens[x] == 0)
            && (var v := NextLength(dl[f], max);
                Pass(list, dads, dl[x := v], if x < elems then lens[x := v] else lens, elems, leaves, p + 1, max, free', over',
                     NextAt(at, dl[f], max), NextOverflow(overflow, dl[f], max)))
  {
    hide Proper, Places, Balanced, HasPlace;
    var x, i := list[p], (p - 1) / 2;
    var f := elems + leaves - 2 - i;
    PlaceFound(list, dl, elems, leaves, p, max, free, over);
    PlacesStep(list, dl, elems, leaves, p, max, free, over);
    MaxPositive(lens, max, free, over, at, overflow);
    FatherDone(list, dads, dl, lens, elems, leaves, p, max, at);
    var v := NextLength(dl[f], max);
    free', over' := NextFree(free, i, dl[f], max), NextOver(over, i, dl[f], max);
    PassingStep(list, dads, dl, lens, elems, leaves, p, max, at, v, NextAt(at, dl[f], max));
    if x < elems {
      LeafBalance(lens, x, max, free, over, at, overflow, i, dl[f]);
    } else {
      var j := elems + leaves - 2 - x;
      InnerBalance(lens, max, free, over, at, overflow, i, j, dl[f]);
      free', over' := free'[j := Free(v, 2, max)], over'[j := Over(v, 2, max)];
    }
  }

  lemma MaxPositive(lens: seq<nat>, max: nat, free: seq<nat>, over: seq<nat>, at: nat, overflow: nat)
    requires Balanced(lens, max, free, over, at, overflow)
    ensures max >= 1
  {
  }

  lemma PassStart(list: seq<nat>, fc: seq<nat>, dads: seq<nat>, freq: seq<nat>, elems: nat, leaves: nat, max: nat)
    returns (lens: seq<nat>, free: seq<nat>, over: seq<nat>)
    requires Finished(list, fc, dads, freq, elems, leaves) && max >= 1
    ensures list[0] < |dads| && lens == seq(elems, _ => 0)
    ensures Pass(list, dads, dads[list[0] := 0], lens, elems, leaves, 1, max, free, over, 0, 0)
  {
    hide Finished;
    FinishedProper(list, fc, dads, freq, elems, leaves);
    FinishedSizes(list, fc, dads, freq, elems, leaves);
    var dl := dads[list[0] := 0];
    lens := seq(elems, _ => 0);
    over := seq(leaves - 1, _ => 0);
    free := over[0 := 2 * Pow2(max)];
    PlacesStart(list, dl, elems, leaves, max, over);
    SeqSumZeros(over);
    SeqSumUpdate(over, 0, 2 * Pow2(max));
    KraftOfZeros(elems, max - 1);
    CountOfZeros(elems, max);
    assert list[0] in list;
  }

  lemma FinishedSizes(list: seq<nat>, fc: seq<nat>, dl: seq<nat>, freq: seq<nat>, elems: nat, leaves: nat)
    requires Finished(list, fc, dl, freq, elems, leaves)
    ensures |dl| == |fc| && elems + leaves - 1 <= |dl| && InRange(list, |dl|) && |list| == 2 * leaves - 1 && list[0] == elems + leaves - 2
  {
  }

  /** What the first pass ends with: the Kraft sum is too large by half the overflow, and there
      are more than half the overflow codes of maximal length. */
  lemma PassEnd(list: seq<nat>, dads: seq<nat>, dl: seq<nat>, lens: seq<nat>, elems: nat, leaves: nat, max: nat,
                free: seq<nat>, over: seq<nat>, at: nat, overflow: nat)
    requires Pass(list, dads, dl, lens, elems, leaves, |list|, max, free, over, at, overflow)
    ensures |lens| == elems && |dl| == |dads| && elems <= |dl| && 2 * Kraft(lens, max) == 2 * Pow2(max) + overflow
    ensures overflow > 0 ==> 2 * Count(lens, max) > overflow
    ensures forall x :: 0 <= x < elems && x in list ==> 1 <= lens[x] == dl[x] <= max
    ensures forall x :: 0 <= x < elems && x !in list ==> lens[x] == 0 && dl[x] == dads[x]
  {
    hide Kraft, Count;
    forall i | 0 <= i < |free| ensures free[i] == 0 && over[i] == 0 {
      var q := FatherEarlier(list, elems, leaves, i);
      assert PlaceAt(list, dl, elems, |list|, max, free, over, q);
    }
    SeqSumZeros(free);
    SeqSumZeros(over);
    assert Kraft(lens, max) == 2 * Kraft(lens, max - 1) + Count(lens, max) by { KraftTop(lens, max); }
    assert Pow2(max + 1) == 2 * Pow2(max);
    forall x | 0 <= x < elems && x in list ensures 1 <= lens[x] == dl[x] <= max {
      var q :| 0 <= q < |list| && list[q] == x;
    }
  }

  lemma KraftTop(lens: seq<nat>, m: nat)
    requires m >= 1
    ensures Kraft(lens, m) == 2 * Kraft(lens, m - 1) + Count(lens, m)
  {
  }
}
