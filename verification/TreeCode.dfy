/** The run-length coding of code lengths: the symbols that scan_tree counts and send_tree
    sends, and that a decoder expands them to exactly the lengths. */
module TreeCode {
  import opened Basics
  import opened BitString
  import opened Canonical
  import opened Rfc1951

  const NO_LENGTH := 0xffff   // the guard behind the last length

  function MaxCount(cur: nat, prev: int): nat {
    if cur == 0 then 138 else if cur == prev then 6 else 7
  }

  function MinCount(cur: nat, prev: int): nat {
    if cur == 0 || cur == prev then 3 else 4
  }

  /** The symbols for `count` lengths `cur` behind a length `prev`. */
  function Emit(cur: nat, prev: int, count: nat): seq<ClSymbol> {
    if count < MinCount(cur, prev) then seq(count, _ => ClSymbol(cur, 0))
    else if cur != 0 then
      if cur != prev then [ClSymbol(cur, 0), ClSymbol(16, count - 4)] else [ClSymbol(16, count - 3)]
    else if count <= 10 then [ClSymbol(17, count - 3)]
    else [ClSymbol(18, count - 11)]
  }

  function Next(lens: seq<nat>, n: nat): nat {
    if n + 1 < |lens| then lens[n + 1] else NO_LENGTH
  }

  /** The symbols for `lens[n..]` when `count` lengths before `n` wait to be sent. */
  function Runs(lens: seq<nat>, n: nat, prev: int, count: nat): seq<ClSymbol>
    requires n <= |lens|
    decreases |lens| - n
  {
    if n == |lens| then []
    else
      var cur := lens[n];
      if count + 1 < MaxCount(cur, prev) && cur == Next(lens, n) then Runs(lens, n + 1, prev, count + 1)
      else Emit(cur, prev, count + 1) + Runs(lens, n + 1, cur, 0)
  }

  function Symbols(lens: seq<nat>): seq<ClSymbol> { Runs(lens, 0, -1, 0) }

  function ExpandCl(acc: seq<nat>, ss: seq<ClSymbol>): (r: Option<seq<nat>>)
    ensures r.Some? ==> acc <= r.value && (ss != [] ==> acc < r.value)
    decreases |ss|
  {
    if ss == [] then Some(acc)
    else
      var a := ApplyCl(acc, ss[0]);
      if a.None? then None else ExpandCl(a.value, ss[1..])
  }

  lemma {:induction false} ExpandAppend(acc: seq<nat>, ss: seq<ClSymbol>, tt: seq<ClSymbol>)
    requires ExpandCl(acc, ss).Some?
    ensures ExpandCl(acc, ss + tt) == ExpandCl(ExpandCl(acc, ss).value, tt)
    decreases |ss|
  {
    if ss == [] {
      assert ss + tt == tt;
    } else {
      assert (ss + tt)[1..] == ss[1..] + tt;
      ExpandAppend(ApplyCl(acc, ss[0]).value, ss[1..], tt);
    }
  }

  lemma {:induction false} PlainExpands(acc: seq<nat>, cur: nat, count: nat)
    requires cur < 16
    ensures ExpandCl(acc, seq(count, _ => ClSymbol(cur, 0))) == Some(acc + Repeat(cur, count))
    decreases count
  {
    var ss: seq<ClSymbol> := seq(count, _ => ClSymbol(cur, 0));
    if count == 0 {
      assert acc + Repeat(cur, 0) == acc;
    } else {
      assert ss[1..] == seq(count - 1, _ => ClSymbol(cur, 0));
      PlainExpands(acc + [cur], cur, count - 1);
      assert acc + [cur] + Repeat(cur, count - 1) == acc + Repeat(cur, count);
    }
  }

  /** One emission stands for the lengths it was made for. */
  lemma EmitExpands(acc: seq<nat>, cur: nat, prev: int, count: nat)
    requires cur < 16 && 1 <= count <= MaxCount(cur, prev)
    requires prev >= 0 ==> acc != [] && acc[|acc| - 1] == prev
    ensures ExpandCl(acc, Emit(cur, prev, count)) == Some(acc + Repeat(cur, count))
  {
    hide ExpandCl, Repeat;
    if count < MinCount(cur, prev) {
      PlainExpands(acc, cur, count);
    } else if cur != 0 && cur != prev {
      TwoExpand(acc, cur, count - 4);
    } else {
      OneExpands(acc, Emit(cur, prev, count)[0]);
    }
  }

  lemma NothingExpands(acc: seq<nat>)
    ensures ExpandCl(acc, []) == Some(acc)
  {
  }

  lemma OneExpands(acc: seq<nat>, s: ClSymbol)
    ensures ExpandCl(acc, [s]) == ApplyCl(acc, s)
  {
    assert [s][1..] == [];
  }

  lemma TwoExpand(acc: seq<nat>, cur: nat, extra: nat)
    requires cur < 16
    ensures ExpandCl(acc, [ClSymbol(cur, 0), ClSymbol(16, extra)]) == Some(acc + Repeat(cur, extra + 4))
  {
    var ss := [ClSymbol(cur, 0), ClSymbol(16, extra)];
    assert ss[1..] == [ClSymbol(16, extra)];
    OneExpands(acc + [cur], ClSymbol(16, extra));
    assert acc + [cur] + Repeat(cur, extra + 3) == acc + Repeat(cur, extra + 4);
  }

  lemma RepeatShift(acc: seq<nat>, count: nat, lens: seq<nat>, n: nat)
    requires n < |lens|
    ensures acc + Repeat(lens[n], count + 1) + lens[n + 1..] == acc + Repeat(lens[n], count) + lens[n..]
  {
  }

  /** The symbols expand to exactly the lengths. */
  lemma {:induction false} RunsExpand(lens: seq<nat>, n: nat, prev: int, count: nat, acc: seq<nat>)
    requires n <= |lens| && forall i :: 0 <= i < |lens| ==> lens[i] < 16
    requires count > 0 ==> n < |lens| && count < MaxCount(lens[n], prev)
    requires prev >= 0 ==> acc != [] && acc[|acc| - 1] == prev
    ensures ExpandCl(acc, Runs(lens, n, prev, count))
         == Some(acc + (if n < |lens| then Repeat(lens[n], count) else []) + lens[n..])
    decreases |lens| - n
  {
    hide Emit, MaxCount, MinCount, ExpandCl, Repeat;
    if n == |lens| {
      assert acc + [] + lens[n..] == acc;
      assert ExpandCl(acc, []) == Some(acc) by { NothingExpands(acc); }
    } else {
      var cur := lens[n];
      if count + 1 < MaxCount(cur, prev) && cur == Next(lens, n) {
        RunsExpand(lens, n + 1, prev, count + 1, acc);
        RepeatShift(acc, count, lens, n);
      } else {
        var e, more := acc + Repeat(cur, count + 1), Runs(lens, n + 1, cur, 0);
        MaxPositive(cur, prev);
        EmitExpands(acc, cur, prev, count + 1);
        ExpandAppend(acc, Emit(cur, prev, count + 1), more);
        RunsExpand(lens, n + 1, cur, 0, e);
        assert e + (if n + 1 < |lens| then Repeat(lens[n + 1], 0) else []) + lens[n + 1..] == e + lens[n + 1..];
        RepeatShift(acc, count, lens, n);
      }
    }
  }

  lemma MaxPositive(cur: nat, prev: int)
    ensures MaxCount(cur, prev) >= 6
  {
  }

  lemma SymbolsExpand(lens: seq<nat>, acc: seq<nat>)
    requires forall i :: 0 <= i < |lens| ==> lens[i] < 16
    ensures ExpandCl(acc, Symbols(lens)) == Some(acc + lens)
  {
    RunsExpand(lens, 0, -1, 0, acc);
    assert acc + (if 0 < |lens| then Repeat(lens[0], 0) else []) + lens[0..] == acc + lens;
  }

  // ---- Every repeat count fits its field

  ghost predicate GoodSymbol(s: ClSymbol) {
    s.sym < BL_CODES && s.extra < Pow2(ClExtra(s.sym))
  }

  lemma EmitGood(cur: nat, prev: int, count: nat)
    requires cur < 16 && 1 <= count <= MaxCount(cur, prev)
    ensures forall s :: s in Emit(cur, prev, count) ==> GoodSymbol(s)
  {
    assert Pow2(0) == 1 && Pow2(2) == 4 && Pow2(3) == 8 && Pow2(7) == 128;
  }

  lemma {:induction false} RunsGood(lens: seq<nat>, n: nat, prev: int, count: nat)
    requires n <= |lens| && forall i :: 0 <= i < |lens| ==> lens[i] < 16
    requires n < |lens| ==> count < MaxCount(lens[n], prev)
    ensures forall s :: s in Runs(lens, n, prev, count) ==> GoodSymbol(s)
    decreases |lens| - n
  {
    hide Emit, GoodSymbol;
    if n >= |lens| {
    } else {
      var cur := lens[n];
      if count + 1 < MaxCount(cur, prev) && cur == Next(lens, n) {
        RunsGood(lens, n + 1, prev, count + 1);
      } else {
        EmitGood(cur, prev, count + 1);
        RunsGood(lens, n + 1, cur, 0);
      }
    }
  }

  // ---- The symbols as bits

  ghost predicate ClCodable(cl: seq<nat>, ss: seq<ClSymbol>) {
    forall i :: 0 <= i < |ss| ==> GoodSymbol(ss[i]) && ss[i].sym < |cl| && cl[ss[i].sym] > 0
  }

  function SymbolBits(cl: seq<nat>, s: ClSymbol): seq<bool>
    requires s.sym < |cl|
  {
    Codeword(cl, s.sym) + Bits(s.extra, ClExtra(s.sym))
  }

  function SymbolsBits(cl: seq<nat>, ss: seq<ClSymbol>): seq<bool>
    requires forall i :: 0 <= i < |ss| ==> ss[i].sym < |cl|
  {
    if ss == [] then [] else SymbolsBits(cl, ss[..|ss| - 1]) + SymbolBits(cl, ss[|ss| - 1])
  }

  lemma {:induction false} SymbolsBitsFront(cl: seq<nat>, ss: seq<ClSymbol>)
    requires ss != [] && forall i :: 0 <= i < |ss| ==> ss[i].sym < |cl|
    ensures SymbolsBits(cl, ss) == SymbolBits(cl, ss[0]) + SymbolsBits(cl, ss[1..])
    decreases |ss|
  {
    hide SymbolBits;
    var k := |ss| - 1;
    if k == 0 {
      assert ss[..k] == [] && ss[1..] == [];
      assert SymbolsBits(cl, ss) == [] + SymbolBits(cl, ss[0]);
      assert SymbolBits(cl, ss[0]) + [] == SymbolBits(cl, ss[0]);
    } else {
      SymbolsBitsFront(cl, ss[..k]);
      assert ss[..k][1..] == ss[1..][..k - 1];
      assert SymbolsBits(cl, ss[1..]) == SymbolsBits(cl, ss[1..][..k - 1]) + SymbolBits(cl, ss[k]);
      var a, b, c := SymbolBits(cl, ss[0]), SymbolsBits(cl, ss[1..][..k - 1]), SymbolBits(cl, ss[k]);
      assert (a + b) + c == a + (b + c);
    }
  }

  /** A decoder reads back the lengths that the symbols expand to. */
  lemma {:induction false} LengthsRead(cl: seq<nat>, ss: seq<ClSymbol>, acc: seq<nat>, lens: seq<nat>, rest: seq<bool>)
    requires Feasible(cl) && ClCodable(cl, ss) && ExpandCl(acc, ss) == Some(lens)
    ensures ReadLengths(cl, SymbolsBits(cl, ss) + rest, |lens|, acc) == Some((lens, rest))
    decreases |ss|
  {
    hide Feasible, SymbolBits, Codeword, Bits, DecodeSymbol, ApplyCl;
    if ss == [] {
      assert [] + rest == rest;
    } else {
      var s, more := ss[0], SymbolsBits(cl, ss[1..]) + rest;
      SymbolsBitsFront(cl, ss);
      assert SymbolsBits(cl, ss) + rest == SymbolBits(cl, s) + more;
      SymbolReads(cl, s, more);
      assert ClCodable(cl, ss[1..]);
      LengthsRead(cl, ss[1..], ApplyCl(acc, s).value, lens, rest);
    }
  }

  lemma SymbolReads(cl: seq<nat>, s: ClSymbol, rest: seq<bool>)
    requires Feasible(cl) && GoodSymbol(s) && s.sym < |cl| && cl[s.sym] > 0
    ensures var d := DecodeSymbol(cl, SymbolBits(cl, s) + rest);
            d.Some? && d.value.0 == s.sym && ReadNumber(d.value.1, ClExtra(s.sym)) == Some((s.extra, rest))
  {
    hide Feasible, Codeword, Bits, DecodeSymbol, Value;
    var w, e := Codeword(cl, s.sym), Bits(s.extra, ClExtra(s.sym));
    assert w + e + rest == w + (e + rest);
    DecodeSent(cl, s.sym, e + rest);
    assert (e + rest)[..|e|] == e && (e + rest)[|e|..] == rest;
    ValueOfBits(s.extra, ClExtra(s.sym));
  }
}
