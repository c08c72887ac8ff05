/** What the LZO1X optimizer does to a list of instructions: short matches between others become literals. */
module Lzo1xPeephole {
  import opened Basics
  import opened LzCopy
  import opened Lzo1xFormat

  /** Opening literals, a long literal run, the matches M1 (behind literals, or behind a run), M2, M3 and M4, the end. */
  datatype Kind = Opening | LongRun | M1 | FarM1 | M2 | M3M4 | End

  /** An instruction: its own bytes, the literals that belong to it, and the bytes that a match copies. */
  datatype Instr = Instr(kind: Kind, head: seq<octet>, lits: seq<octet>, copied: seq<octet>)

  function Bytes(i: Instr): seq<octet> { i.head + i.lits }

  ghost function Form(list: seq<Instr>): seq<octet> {
    if list == [] then [] else Bytes(list[0]) + Form(list[1..])
  }

  function MatchKind(t: int, mode: Mode): Kind {
    if t >= 64 then M2 else if t >= 16 then M3M4 else if mode == AfterRun then FarM1 else M1
  }

  /** The instruction at the front of `b`. */
  ghost function InstrAt(b: seq<octet>, s: State): Instr
    requires Step(b, s).Some?
  {
    var k := Step(b, s).value.0;
    if s.mode == Start && b[0] > 17 then Instr(Opening, b[..1], b[1..k], [])
    else if IsRun(b, s.mode) then
      var l := Length(b, b[0], 15).value;
      Instr(LongRun, b[..l.1], b[l.1..k], [])
    else
      var h := ParseMatch(b, s.mode).value;
      if h.Marker? then Instr(End, b[..k], [], [])
      else Instr(MatchKind(b[0], s.mode), b[..h.size], b[h.size..k], Copy(s.out, h.dist, h.len)[|s.out|..])
  }

  /** All instructions of a stream. */
  ghost function Instructions(b: seq<octet>, s: State): seq<Instr>
    decreases |b|
  {
    if Step(b, s).None? then []
    else [InstrAt(b, s)] + Instructions(b[Step(b, s).value.0..], Step(b, s).value.1)
  }

  /** The instructions of a valid stream make up the stream. */
  lemma {:induction false} InstructionsForm(b: seq<octet>, s: State)
    requires Run(b, s).Some?
    ensures Form(Instructions(b, s)) == b
    decreases |b|
  {
    hide Step, InstrAt;
    if b != [] {
      var k := Step(b, s).value.0;
      InstrBytes(b, s);
      InstructionsForm(b[k..], Step(b, s).value.1);
      assert b == b[..k] + b[k..];
    }
  }

  // ---- The rules

  datatype Action = Keep | Widen | NewRun | Join

  /** A match without literals that copies two or three bytes, behind `lit` literals and in front of opcode `t`: between two
      matches it becomes literals of the one before it; in front of a short run it becomes, with the literals before it, part
      of the run; between two runs it joins them. No count may get too large for its place. */
  function Decision(kind: Kind, lit: nat, n: nat, t: int): Action {
    match kind
    case M1 => if lit == 1 && t >= 16 then Widen else if 0 < t < 16 && lit + 2 + t < 16 then NewRun else Keep
    case M2 => if n == 3 && lit > 3 && 0 < t < 16 && lit + 3 + t < 16 then Join else Keep
    case M3M4 =>
      if n == 3 && lit == 0 && t >= 16 then Widen
      else if n == 3 && lit <= 3 && 0 < t < 16 && lit + 3 + t < 16 then NewRun
      else Keep
    case _ => Keep
  }

  /** What becomes of an instruction behind `last` and in front of `rest`. */
  function Rule(last: Option<Instr>, i: Instr, rest: seq<Instr>): Action {
    if last.None? || last.value.kind == Opening || i.lits != [] || rest == [] || rest[0].head == [] then Keep
    else Decision(i.kind, |last.value.lits|, |i.copied|, rest[0].head[0])
  }

  /** The literal count of a match is in the low two bits of its last but one byte. */
  function Relit(head: seq<octet>, n: nat): seq<octet>
    requires n < 4
  {
    if |head| < 2 then head else head[|head| - 2 := head[|head| - 2] / 4 * 4 + n]
  }

  function RunOf(lits: seq<octet>): Instr { Instr(LongRun, [if 3 <= |lits| < 259 then |lits| - 3 else 0], lits, []) }

  ghost function Prefixed(last: Option<Instr>, list: seq<Instr>): seq<Instr> {
    if last.None? then list else [last.value] + list
  }

  /** The instructions behind `last`, with `last` in front, rewritten from left to right. */
  ghost function Rewritten(last: Option<Instr>, todo: seq<Instr>): seq<Instr>
    decreases |todo|
  {
    if todo == [] then Prefixed(last, [])
    else
      var i, rest := todo[0], todo[1..];
      match Rule(last, i, rest)
      case Keep => Prefixed(last, Rewritten(Some(i), rest))
      case Widen =>
        var l := last.value;
        Rewritten(Some(Instr(l.kind, Relit(l.head, 3), l.lits + i.copied, l.copied)), rest)
      case NewRun =>
        var l := last.value;
        [Instr(l.kind, Relit(l.head, 0), [], l.copied)] + Rewritten(Some(RunOf(l.lits + i.copied + rest[0].lits)), rest[1..])
      case Join => Rewritten(Some(RunOf(last.value.lits + i.copied + rest[0].lits)), rest[1..])
  }

  /** The stream that the optimizer leaves behind. */
  ghost function Optimized(b: seq<octet>): seq<octet> { Form(Rewritten(None, Instructions(b, INIT))) }

  // ---- Following the optimizer

  function LastBytes(last: Option<Instr>): seq<octet> { if last.None? then [] else Bytes(last.value) }

  /** What `litp` and `lit` say about the last instruction. */
  ghost predicate Placed(litp: int, lit: nat, done: seq<octet>, last: Option<Instr>) {
    if last.None? || last.value.kind == Opening then litp < 0
    else
      var l := last.value;
      && lit == |l.lits|
      && if l.kind == LongRun then litp == |done| && lit > 3 && |l.head| >= 1 && (lit < 18 ==> |l.head| == 1)
         else litp == |done| + |l.head| - 2 && lit <= 3 && |l.head| >= 2
  }

  /** The stream up to `p` is done but for its last instruction, and what is to come leads to the optimized stream. */
  ghost predicate Follows(b: seq<octet>, orig: seq<octet>, p: nat, s: State, litp: int, lit: nat, done: seq<octet>, last: Option<Instr>) {
    && |b| == |orig| && p <= |b| && b[..p] == done + LastBytes(last) && Placed(litp, lit, done, last)
    && done + Form(Rewritten(last, Instructions(orig[p..], s))) == Optimized(orig)
  }

  lemma FollowsStart(orig: seq<octet>)
    ensures Follows(orig, orig, 0, INIT, -1, 0, [], None)
  {
    assert orig[0..] == orig && orig[..0] == [];
    var f := Form(Rewritten(None, Instructions(orig, INIT)));
    assert [] + f == f;
  }

  lemma InstrBytes(b: seq<octet>, s: State)
    requires Step(b, s).Some?
    ensures Bytes(InstrAt(b, s)) == b[..Step(b, s).value.0]
    ensures Instructions(b, s) != [] && Instructions(b, s)[0] == InstrAt(b, s) && Instructions(b, s)[1..] == Instructions(b[Step(b, s).value.0..], Step(b, s).value.1)
  {
    hide Copy, ParseMatch, Length;
  }

  lemma FormPrefixed(last: Option<Instr>, list: seq<Instr>)
    ensures Form(Prefixed(last, list)) == LastBytes(last) + Form(list)
  {
    if last.None? {
      assert [] + Form(list) == Form(list);
    } else {
      assert ([last.value] + list)[1..] == list;
    }
  }

  /** An instruction that is kept. */
  lemma KeepFollows(b: seq<octet>, orig: seq<octet>, p: nat, s: State, litp: int, lit: nat, done: seq<octet>, last: Option<Instr>,
                    k: nat, s': State, litp': int, lit': nat)
    requires Follows(b, orig, p, s, litp, lit, done, last) && b[p..] == orig[p..] && Step(orig[p..], s) == Some((k, s'))
    requires Rule(last, InstrAt(orig[p..], s), Instructions(orig[p..][k..], s')) == Keep
    requires Placed(litp', lit', done + LastBytes(last), Some(InstrAt(orig[p..], s)))
    ensures p + k <= |orig| && Follows(b, orig, p + k, s', litp', lit', done + LastBytes(last), Some(InstrAt(orig[p..], s)))
  {
    hide Rule, Placed, Instructions, InstrAt, Step, Optimized, Form, Bytes;
    var i, rest := InstrAt(orig[p..], s), Instructions(orig[p..][k..], s');
    InstrBytes(orig[p..], s);
    assert orig[p..][k..] == orig[p + k..];
    assert b[..p + k] == b[..p] + b[p..][..k];
    assert Rewritten(last, Instructions(orig[p..], s)) == Prefixed(last, Rewritten(Some(i), rest));
    FormPrefixed(last, Rewritten(Some(i), rest));
    var f := Form(Rewritten(Some(i), rest));
    assert done + (LastBytes(last) + f) == done + LastBytes(last) + f;
  }

  lemma FormFirst(i: Instr, list: seq<Instr>)
    ensures Form([i] + list) == Bytes(i) + Form(list)
  {
    assert ([i] + list)[1..] == list;
  }

  lemma RewrittenWiden(last: Option<Instr>, todo: seq<Instr>)
    requires last.Some? && |todo| >= 1 && Rule(last, todo[0], todo[1..]) == Widen
    ensures var l := last.value;
            Rewritten(last, todo) == Rewritten(Some(Instr(l.kind, Relit(l.head, 3), l.lits + todo[0].copied, l.copied)), todo[1..])
  {
    hide Rule;
  }

  /** A match that becomes literals of the match before it. */
  lemma WidenFollows(b: seq<octet>, c: seq<octet>, orig: seq<octet>, p: nat, s: State, litp: int, lit: nat, done: seq<octet>,
                     last: Option<Instr>, k: nat, s': State)
    requires Follows(b, orig, p, s, litp, lit, done, last) && Step(orig[p..], s) == Some((k, s')) && |c| == |b| && p + k <= |b|
    requires last.Some? && last.value.kind != LongRun && last.value.kind != Opening
    requires Rule(last, InstrAt(orig[p..], s), Instructions(orig[p..][k..], s')) == Widen
    requires lit + |InstrAt(orig[p..], s).copied| == 3
    requires c[..p + k] == done + (Relit(last.value.head, 3) + (last.value.lits + InstrAt(orig[p..], s).copied))
    ensures var l := last.value;
            Follows(c, orig, p + k, s', litp, 3, done, Some(Instr(l.kind, Relit(l.head, 3), l.lits + InstrAt(orig[p..], s).copied, l.copied)))
  {
    hide Instructions, InstrAt, Step, Optimized, Form, Rule, Rewritten;
    InstrBytes(orig[p..], s);
    assert orig[p..][k..] == orig[p + k..];
    RewrittenWiden(last, Instructions(orig[p..], s));
  }

  lemma RelitAt(b: seq<octet>, done: seq<octet>, l: Instr, p: nat, litp: int, n: nat)
    requires p <= |b| && b[..p] == done + Bytes(l) && |l.head| >= 2 && litp == |done| + |l.head| - 2 && n < 4
    ensures 0 <= litp < p && b[litp] / 4 * 4 + n < 256
    ensures b[..p][litp := b[litp] / 4 * 4 + n] == done + (Relit(l.head, n) + l.lits)
  {
    assert b[litp] == b[..p][litp] == l.head[|l.head| - 2];
  }

  /** A match and the run behind it. */
  ghost predicate MatchAndRun(orig: seq<octet>, p: nat, s: State, k: nat, s': State, r: int, s'': State) {
    && p + k + 1 + r + 3 <= |orig| && 0 < r < 16
    && Step(orig[p..], s) == Some((k, s')) && Step(orig[p + k..], s') == Some((1 + r + 3, s''))
    && InstrAt(orig[p + k..], s') == Instr(LongRun, [r], orig[p + k + 1..p + k + 1 + r + 3], [])
  }

  lemma TwoInstructions(orig: seq<octet>, p: nat, s: State, k: nat, s': State, r: int, s'': State)
    requires MatchAndRun(orig, p, s, k, s', r, s'')
    ensures var all, f, q := Instructions(orig[p..], s), InstrAt(orig[p + k..], s'), p + k + 1 + r + 3;
            && |all| >= 2 && all[0] == InstrAt(orig[p..], s) && all[1..][0] == f && all[1..][1..] == Instructions(orig[q..], s'')
            && all[1..] == Instructions(orig[p..][k..], s')
  {
    hide InstrAt, Step, Instructions;
    InstrBytes(orig[p..], s);
    assert orig[p..][k..] == orig[p + k..];
    InstrBytes(orig[p + k..], s');
    assert orig[p + k..][1 + r + 3..] == orig[p + k + 1 + r + 3..];
  }

  lemma RewrittenNewRun(last: Option<Instr>, todo: seq<Instr>)
    requires last.Some? && |todo| >= 2 && Rule(last, todo[0], todo[1..]) == NewRun
    ensures var l := last.value;
            Rewritten(last, todo) == [Instr(l.kind, Relit(l.head, 0), [], l.copied)]
                                     + Rewritten(Some(RunOf(l.lits + todo[0].copied + todo[1..][0].lits)), todo[1..][1..])
  {
    hide Rule;
  }

  lemma RewrittenJoin(last: Option<Instr>, todo: seq<Instr>)
    requires last.Some? && |todo| >= 2 && Rule(last, todo[0], todo[1..]) == Join
    ensures Rewritten(last, todo) == Rewritten(Some(RunOf(last.value.lits + todo[0].copied + todo[1..][0].lits)), todo[1..][1..])
  {
    hide Rule;
  }

  lemma RunPlaced(litp: int, done: seq<octet>, lits: seq<octet>)
    requires litp == |done| && 3 < |lits| < 19
    ensures Placed(litp, |lits|, done, Some(RunOf(lits))) && Bytes(RunOf(lits)) == [|lits| - 3] + lits && RunOf(lits).kind == LongRun
  {
  }

  /** A match whose literals are gone, in front of more. */
  lemma ClearedFirst(done: seq<octet>, l: Instr, list: seq<Instr>)
    ensures done + Form([Instr(l.kind, Relit(l.head, 0), [], l.copied)] + list) == done + Relit(l.head, 0) + Form(list)
    ensures |Relit(l.head, 0)| == |l.head|
  {
    hide Form, Relit;
    RelitSize(l.head);
    var i := Instr(l.kind, Relit(l.head, 0), [], l.copied);
    FormFirst(i, list);
    assert Bytes(i) == Relit(l.head, 0);
    assert done + (Bytes(i) + Form(list)) == done + Bytes(i) + Form(list);
  }

  lemma RelitSize(head: seq<octet>)
    ensures |Relit(head, 0)| == |head|
  {
  }

  /** Both become a run with the literals before them. */
  lemma NewRunFollows(b: seq<octet>, c: seq<octet>, orig: seq<octet>, p: nat, s: State, litp: int, lit: nat, done: seq<octet>,
                      last: Option<Instr>, k: nat, s': State, r: int, s'': State)
    requires Follows(b, orig, p, s, litp, lit, done, last) && MatchAndRun(orig, p, s, k, s', r, s'')
    requires last.Some? && last.value.kind != LongRun && last.value.kind != Opening
    requires Rule(last, InstrAt(orig[p..], s), Instructions(orig[p..][k..], s')) == NewRun
    requires |InstrAt(orig[p..], s).copied| == k && lit + k + r < 16 && |c| == |b|
    requires var l, q := last.value, p + k + 1 + r + 3;
             c[..q] == done + Relit(l.head, 0) + ([lit + k + r] + (l.lits + InstrAt(orig[p..], s).copied + orig[p + k + 1..q]))
    ensures var l, q := last.value, p + k + 1 + r + 3;
            Follows(c, orig, q, s'', litp + 2, lit + k + r + 3, done + Relit(l.head, 0),
                    Some(RunOf(l.lits + InstrAt(orig[p..], s).copied + orig[p + k + 1..q])))
  {
    hide Instructions, InstrAt, Step, Optimized, Form, Rule, Rewritten, Relit, RunOf, Bytes;
    var w, l, q := InstrAt(orig[p..], s).copied, last.value, p + k + 1 + r + 3;
    TwoInstructions(orig, p, s, k, s', r, s'');
    var lits, rest := l.lits + w + orig[p + k + 1..q], Instructions(orig[q..], s'');
    RewrittenNewRun(last, Instructions(orig[p..], s));
    ClearedFirst(done, l, Rewritten(Some(RunOf(lits)), rest));
    RunPlaced(litp + 2, done + Relit(l.head, 0), lits);
  }

  /** Both become part of the run before them. */
  lemma JoinFollows(b: seq<octet>, c: seq<octet>, orig: seq<octet>, p: nat, s: State, litp: int, lit: nat, done: seq<octet>,
                    last: Option<Instr>, k: nat, s': State, r: int, s'': State)
    requires Follows(b, orig, p, s, litp, lit, done, last) && MatchAndRun(orig, p, s, k, s', r, s'')
    requires last.Some? && last.value.kind == LongRun && Rule(last, InstrAt(orig[p..], s), Instructions(orig[p..][k..], s')) == Join
    requires |InstrAt(orig[p..], s).copied| == 3 && lit + 3 + r < 16 && |c| == |b|
    requires var l, q := last.value, p + k + 1 + r + 3;
             c[..q] == done + ([lit + 3 + r] + (l.lits + InstrAt(orig[p..], s).copied + orig[p + k + 1..q]))
    ensures var l, q := last.value, p + k + 1 + r + 3;
            Follows(c, orig, q, s'', litp, lit + 3 + r + 3, done, Some(RunOf(l.lits + InstrAt(orig[p..], s).copied + orig[p + k + 1..q])))
  {
    hide Instructions, InstrAt, Step, Optimized, Form, Rule, Rewritten, RunOf, Bytes;
    TwoInstructions(orig, p, s, k, s', r, s'');
    RewrittenJoin(last, Instructions(orig[p..], s));
    RunPlaced(litp, done, last.value.lits + InstrAt(orig[p..], s).copied + orig[p + k + 1..p + k + 1 + r + 3]);
  }

  /** Behind the end marker everything is done. */
  lemma EndFollows(b: seq<octet>, orig: seq<octet>, p: nat, s: State, litp: int, lit: nat, done: seq<octet>, last: Option<Instr>)
    requires Follows(b, orig, p, s, litp, lit, done, last) && b[p..] == orig[p..]
    requires Step(orig[p..], s).Some? && Step(orig[p..], s).value.0 == |orig| - p && InstrAt(orig[p..], s).kind == End
    ensures b == Optimized(orig)
  {
    hide InstrAt, Step, Optimized, Form, Bytes, Instructions;
    var i := InstrAt(orig[p..], s);
    InstrBytes(orig[p..], s);
    NothingLeft(Step(orig[p..], s).value.1);
    assert orig[p..][|orig| - p..] == [];
    assert Instructions(orig[p..], s)[1..] == [];
    assert Rewritten(Some(i), []) == [i];
    assert Rewritten(last, Instructions(orig[p..], s)) == Prefixed(last, [i]);
    FormPrefixed(last, [i]);
    FormFirst(i, []);
    assert [i] + [] == [i];
    FormNone();
    assert orig[p..][..|orig| - p] == orig[p..];
    assert b == b[..p] + b[p..];
    assert done + (LastBytes(last) + Bytes(i)) == done + LastBytes(last) + Bytes(i);
  }

  lemma NothingLeft(s: State)
    ensures Instructions([], s) == []
  {
  }

  lemma FormNone()
    ensures Form([]) == []
  {
  }
}
